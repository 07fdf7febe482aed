/** Percent-decoding and path normalisation of the request target
    (decode_percent_encoding and normalize_uri, srcs/ReqRes/RequestParser.cpp:424-509). */
module Uri {
  import opened Text

  /** The source reports a refusal through log_error, always with status 400, and returns "". */
  datatype Result = Refused | Path(text: string)

  // ---------------------------------------------------------------- percent-decoding

  function DecodePercent(s: string): (r: Result)
    ensures r.Path? ==> |r.text| <= |s|
  {
    if s == "" then Path("")
    else if s[0] == '%' && |s| > 2 then
      if !IsHexDigit(s[1]) || !IsHexDigit(s[2]) then Refused
      else
        var value := HexValue(s[1]) * 16 + HexValue(s[2]);
        if value == 0 then Refused else Prepend(value as char, DecodePercent(s[3..]))
    else Prepend(s[0], DecodePercent(s[1..]))
  }

  function Prepend(c: char, r: Result): Result {
    match r
    case Refused => Refused
    case Path(t) => Path([c] + t)
  }

  /** What decoding the rest adds behind what is already decoded. */
  function Behind(done: string, r: Result): Result {
    match r
    case Refused => Refused
    case Path(t) => Path(done + t)
  }

  lemma BehindPrepend(done: string, c: char, r: Result)
    ensures Behind(done, Prepend(c, r)) == Behind(done + [c], r)
  {
    match r
    case Refused =>
    case Path(t) => assert done + ([c] + t) == done + [c] + t;
  }

  method DecodePercentEncoding(s: string) returns (r: Result)
    ensures r == DecodePercent(s)
  {
    var decoded := "";
    var i := 0;
    assert s[0..] == s;
    while i < |s|
      invariant i <= |s|
      invariant DecodePercent(s) == Behind(decoded, DecodePercent(s[i..]))
    {
      ghost var tail := s[i..];
      if s[i] == '%' && i + 2 < |s| {
        if IsHexDigit(s[i + 1]) && IsHexDigit(s[i + 2]) {
          var value := HexValue(s[i + 1]) * 16 + HexValue(s[i + 2]);
          if value == 0 {
            return Refused;
          }
          assert tail[3..] == s[i + 3..];
          BehindPrepend(decoded, value as char, DecodePercent(s[i + 3..]));
          decoded := decoded + [value as char];
          i := i + 2;
        } else {
          return Refused;
        }
      } else {
        assert tail[1..] == s[i + 1..];
        BehindPrepend(decoded, s[i], DecodePercent(s[i + 1..]));
        decoded := decoded + [s[i]];
      }
      i := i + 1;
    }
    assert s[i..] == "";
    return Path(decoded);
  }

  function HexUpper(d: nat): (c: char)
    requires d < 16
    ensures IsHexDigit(c) && HexValue(c) == d
  {
    if d < 10 then ('0' as int + d) as char else ('A' as int + d - 10) as char
  }

  predicate Bytes(s: string) {
    forall i :: 0 <= i < |s| ==> s[i] as int < 256
  }

  /** RFC 3986 section 2.1: every byte written as '%' and two hexadecimal digits. */
  function EncodePercent(s: string): string
    requires Bytes(s)
  {
    if s == "" then ""
    else
      ['%', HexUpper(s[0] as int / 16), HexUpper(s[0] as int % 16)] + EncodePercent(s[1..])
  }

  /** Decoding inverts encoding, except that a NUL byte anywhere is refused. */
  lemma {:induction false} DecodeEncode(s: string)
    requires Bytes(s)
    ensures DecodePercent(EncodePercent(s)) == if '\0' in s then Refused else Path(s)
  {
    if s != "" {
      assert s[0] in s;
      DecodeEncode(s[1..]);
      var e := EncodePercent(s);
      assert e[3..] == EncodePercent(s[1..]);
      assert s == [s[0]] + s[1..];
    }
  }

  /** Text without '%' is left alone. */
  lemma {:induction false} DecodePlain(s: string)
    requires '%' !in s
    ensures DecodePercent(s) == Path(s)
  {
    if s != "" {
      assert s[0] in s;
      DecodePlain(s[1..]);
      assert s == [s[0]] + s[1..];
    }
  }

  // ---------------------------------------------------------------- the segment stack

  predicate Ordinary(segment: string) {
    segment != "" && segment != "." && segment != ".." && '/' !in segment
  }

  /** One turn of the loop over the segments; None stands for the refusal. */
  function Push(absolute: bool, stack: seq<string>, segment: string): Option<seq<string>> {
    if segment == "" || segment == "." then Some(stack)
    else if segment == ".." then
      if !absolute || stack == [] then None else Some(stack[..|stack| - 1])
    else Some(stack + [segment])
  }

  function Walk(absolute: bool, stack: seq<string>, segments: seq<string>): Option<seq<string>>
    decreases |segments|
  {
    if segments == [] then Some(stack)
    else match Push(absolute, stack, segments[0])
         case None => None
         case Some(next) => Walk(absolute, next, segments[1..])
  }

  /** The text of a stack of segments. */
  function Render(absolute: bool, parts: seq<string>, trailing: bool): string {
    var body := Terminated(parts, '/');
    (if absolute then "/" else "") + (if trailing || body == "" then body else body[..|body| - 1])
  }

  /** normalize_uri after decoding. */
  function NormalizePath(decoded: string): Result {
    if decoded == "" then Path("")
    else
      var absolute := decoded[0] == '/';
      var trailing := decoded[|decoded| - 1] == '/';
      match Walk(absolute, [], Split(decoded, '/'))
      case None => Refused
      case Some(parts) =>
        var text := Render(absolute, parts, trailing);
        Path(if text == "" then "/" else text)
  }

  function Normalize(uri: string): Result {
    match DecodePercent(uri)
    case Refused => Refused
    case Path(decoded) => NormalizePath(decoded)
  }

  lemma {:induction false} WalkSnoc(absolute: bool, stack: seq<string>, segments: seq<string>, last: string)
    ensures Walk(absolute, stack, segments + [last]) ==
            match Walk(absolute, stack, segments) case None => None case Some(s) => Push(absolute, s, last)
    decreases |segments|
  {
    if segments == [] {
      assert (segments + [last])[1..] == [];
    } else {
      assert (segments + [last])[1..] == segments[1..] + [last];
      match Push(absolute, stack, segments[0])
      case None =>
      case Some(next) => WalkSnoc(absolute, next, segments[1..], last);
    }
  }

  lemma {:induction false} WalkAppend(absolute: bool, stack: seq<string>, front: seq<string>, back: seq<string>)
    ensures Walk(absolute, stack, front + back) ==
            match Walk(absolute, stack, front) case None => None case Some(s) => Walk(absolute, s, back)
    decreases |front|
  {
    if front == [] {
      assert front + back == back;
    } else {
      assert (front + back)[1..] == front[1..] + back;
      match Push(absolute, stack, front[0])
      case None =>
      case Some(next) => WalkAppend(absolute, next, front[1..], back);
    }
  }

  lemma {:induction false} TerminatedSnoc(parts: seq<string>, p: string, d: char)
    ensures Terminated(parts + [p], d) == Terminated(parts, d) + p + [d]
  {
    if parts == [] {
      assert [] + [p] == [p];
    } else {
      assert (parts + [p])[1..] == parts[1..] + [p];
      TerminatedSnoc(parts[1..], p, d);
    }
  }

  /** The loop of normalize_uri over the segments, with a vector used as a stack. */
  method WalkSegments(absolute: bool, segments: seq<string>) returns (r: Option<seq<string>>)
    ensures r == Walk(absolute, [], segments)
  {
    var parts: seq<string> := [];
    for k := 0 to |segments|
      invariant Walk(absolute, [], segments[..k]) == Some(parts)
    {
      var segment := segments[k];
      assert segments[..k + 1] == segments[..k] + [segment];
      WalkSnoc(absolute, [], segments[..k], segment);
      if segment == "" || segment == "." {
        continue;
      }
      if segment == ".." {
        if !absolute || parts == [] {
          assert segments == segments[..k + 1] + segments[k + 1..];
          WalkAppend(absolute, [], segments[..k + 1], segments[k + 1..]);
          return None;
        }
        parts := parts[..|parts| - 1];
      } else {
        parts := parts + [segment];
      }
    }
    assert segments[..|segments|] == segments;
    return Some(parts);
  }

  /** The text of the first `i` segments when a '/' follows each of them. */
  function Joined(root: string, parts: seq<string>, i: nat): string
    requires i <= |parts|
  {
    root + Terminated(parts[..i], '/')
  }

  lemma JoinedStep(root: string, parts: seq<string>, i: nat)
    requires i < |parts|
    ensures Joined(root, parts, i + 1) == Joined(root, parts, i) + parts[i] + "/"
  {
    var t := Terminated(parts[..i], '/');
    assert parts[..i + 1] == parts[..i] + [parts[i]];
    TerminatedSnoc(parts[..i], parts[i], '/');
    Assoc(root, t + parts[i], "/");
    Assoc(root, t, parts[i]);
  }

  lemma JoinedIsRender(absolute: bool, parts: seq<string>, trailing: bool, text: string)
    requires var root := if absolute then "/" else "";
             if trailing || parts == [] then text == Joined(root, parts, |parts|)
                 else text + "/" == Joined(root, parts, |parts|)
    ensures text == Render(absolute, parts, trailing)
  {
    assert parts[..|parts|] == parts;
    var root := if absolute then "/" else "";
    var body := Terminated(parts, '/');
    if !trailing && parts != [] {
      assert body != "";
      assert text == (text + "/")[..|text|];
      assert (root + body)[..|root| + |body| - 1] == root + body[..|body| - 1];
    }
  }

  /** The printing loop of normalize_uri. */
  method PrintParts(absolute: bool, parts: seq<string>, trailing: bool) returns (text: string)
    ensures text == Render(absolute, parts, trailing)
  {
    hide Render;
    hide Joined;
    var root := if absolute then "/" else "";
    text := root;
    NothingJoined(root, parts);
    for i := 0 to |parts|
      invariant i < |parts| || trailing || parts == [] ==> text == Joined(root, parts, i)
      invariant i == |parts| > 0 && !trailing ==> text + "/" == Joined(root, parts, i)
    {
      JoinedStep(root, parts, i);
      text := text + parts[i];
      if i < |parts| - 1 || trailing {
        text := text + "/";
      }
    }
    JoinedIsRender(absolute, parts, trailing, text);
  }

  lemma NothingJoined(root: string, parts: seq<string>)
    ensures Joined(root, parts, 0) == root
  {
  }

  method NormalizeUri(uri: string) returns (r: Result)
    ensures r == Normalize(uri)
  {
    var d := DecodePercentEncoding(uri);
    if d.Refused? || d.text == "" {
      return d;
    }
    var decoded := d.text;
    var absolute := decoded[0] == '/';
    var segments := SplitLoop(decoded, '/');
    var parts := WalkSegments(absolute, segments);
    if parts.None? {
      return Refused;
    }
    var text := PrintParts(absolute, parts.value, decoded[|decoded| - 1] == '/');
    return Path(if text == "" then "/" else text);
  }

  // ---------------------------------------------------------------- what normalisation achieves

  /** No empty, "." or ".." segment, starting at the root. */
  ghost predicate Canonical(path: string) {
    path != "" && path[0] == '/' && forall p :: p in Split(path[1..], '/') ==> Ordinary(p)
  }

  lemma {:induction false} WalkOrdinary(absolute: bool, stack: seq<string>, segments: seq<string>)
    requires forall p :: p in stack ==> Ordinary(p)
    requires forall p :: p in segments ==> '/' !in p
    ensures var r := Walk(absolute, stack, segments);
            r.Some? ==> forall p :: p in r.value ==> Ordinary(p)
    decreases |segments|
  {
    if segments != [] {
      assert segments[0] in segments;
      match Push(absolute, stack, segments[0])
      case None =>
      case Some(next) => WalkOrdinary(absolute, next, segments[1..]);
    }
  }

  /** Segments that need no treatment are stacked as they are. */
  lemma {:induction false} WalkStacks(stack: seq<string>, segments: seq<string>)
    requires forall p :: p in segments ==> Ordinary(p)
    ensures Walk(true, stack, segments) == Some(stack + segments)
    decreases |segments|
  {
    if segments == [] {
      assert stack + segments == stack;
    } else {
      assert segments[0] in segments;
      WalkStacks(stack + [segments[0]], segments[1..]);
      assert stack + [segments[0]] + segments[1..] == stack + segments;
    }
  }

  lemma {:induction false} SplitUnclosed(pieces: seq<string>, last: string, d: char)
    requires forall p :: p in pieces ==> d !in p
    requires last != "" && d !in last
    ensures Split(Terminated(pieces, d) + last, d) == pieces + [last]
  {
    hide Split;
    if pieces == [] {
      SplitWhole(last, d);
      assert "" + last == last;
      assert pieces + [last] == [last];
    } else {
      var rest := pieces[1..];
      SplitUnclosed(rest, last, d);
      SplitFirst(pieces[0], d, Terminated(rest, d) + last);
      Assoc(pieces[0] + [d], Terminated(rest, d), last);
      HeadTail(pieces);
      Assoc([pieces[0]], rest, [last]);
    }
  }

  /** Splitting the printed path gives the stack back. */
  lemma SplitRender(parts: seq<string>, trailing: bool)
    requires forall p :: p in parts ==> Ordinary(p)
    ensures var text := Render(true, parts, trailing);
            text[0] == '/' && Split(text[1..], '/') == parts && Split(text, '/') == [""] + parts
  {
    var text := Render(true, parts, trailing);
    if parts == [] {
      assert text == "/";
      SplitFirst("", '/', "");
      assert "" + ['/'] + "" == "/";
      assert text[1..] == "";
    } else {
      var last := parts[|parts| - 1];
      var front := parts[..|parts| - 1];
      assert parts == front + [last];
      assert last in parts && forall p :: p in front ==> p in parts;
      TerminatedSnoc(front, last, '/');
      var body := Terminated(parts, '/');
      if trailing {
        assert text[1..] == body;
        SplitTerminated(parts, '/');
      } else {
        assert text[1..] == Terminated(front, '/') + last;
        SplitUnclosed(front, last, '/');
      }
      SplitFirst("", '/', text[1..]);
      assert text == "" + ['/'] + text[1..];
    }
  }

  function Weight(parts: seq<string>): nat { |Terminated(parts, '/')| }

  lemma {:induction false} WalkWeight(stack: seq<string>, segments: seq<string>)
    ensures var r := Walk(true, stack, segments);
            r.Some? ==> Weight(r.value) <= Weight(stack) + Weight(segments)
    decreases |segments|
  {
    if segments != [] {
      match Push(true, stack, segments[0])
      case None =>
      case Some(next) =>
        WalkWeight(next, segments[1..]);
        TerminatedSnoc(stack, segments[0], '/');
        if segments[0] == ".." {
          assert stack == next + [stack[|stack| - 1]];
          TerminatedSnoc(next, stack[|stack| - 1], '/');
        }
    }
  }

  /** The stack that an absolute path leaves behind. */
  lemma AbsoluteStack(decoded: string) returns (parts: seq<string>)
    requires decoded != "" && decoded[0] == '/' && NormalizePath(decoded).Path?
    ensures Walk(true, [], Split(decoded, '/')) == Some(parts)
    ensures forall p :: p in parts ==> Ordinary(p)
    ensures NormalizePath(decoded) == Path(Render(true, parts, decoded[|decoded| - 1] == '/'))
    ensures Weight(parts) + 1 <= |Closed(decoded, '/')|
  {
    var segments := Split(decoded, '/');
    parts := Walk(true, [], segments).value;
    WalkOrdinary(true, [], segments);
    TerminatedSplit(decoded, '/');
    SplitFirst("", '/', decoded[1..]);
    assert decoded == "" + ['/'] + decoded[1..];
    WalkWeight([], segments[1..]);
    assert Terminated(segments, '/') == "" + ['/'] + Terminated(segments[1..], '/');
  }

  /** Main result on paths: an absolute path that is not refused comes out canonical, no longer than it went in,
      with its trailing slash exactly when it had one (unless only the root is left), and the result is a fixed
      point. */
  lemma NormalizeCanonical(decoded: string)
    requires decoded != "" && decoded[0] == '/' && NormalizePath(decoded).Path?
    ensures var path := NormalizePath(decoded).text;
            && Canonical(path)
            && |path| <= |decoded|
            && (path != "/" ==> (path[|path| - 1] == '/' <==> decoded[|decoded| - 1] == '/'))
            && NormalizePath(path) == Path(path)
  {
    var parts := AbsoluteStack(decoded);
    var trailing := decoded[|decoded| - 1] == '/';
    var path := NormalizePath(decoded).text;
    SplitRender(parts, trailing);
    RenderEnd(parts, trailing);
    WalkStacks([], parts);
    assert Push(true, [], "") == Some([]);
    assert ([""] + parts)[1..] == parts;
    assert [] + parts == parts;
    assert Walk(true, [], [""] + parts) == Some(parts);
    if parts == [] {
      assert Render(true, parts, trailing) == Render(true, parts, true) == "/";
    }
  }

  lemma RenderEnd(parts: seq<string>, trailing: bool)
    requires forall p :: p in parts ==> Ordinary(p)
    ensures var text := Render(true, parts, trailing);
            && |text| == 1 + (if trailing || parts == [] then Weight(parts) else Weight(parts) - 1)
            && (text == "/" <==> parts == [])
            && (parts != [] ==> (text[|text| - 1] == '/' <==> trailing))
  {
    if parts != [] {
      var last, front := parts[|parts| - 1], parts[..|parts| - 1];
      assert parts == front + [last];
      TerminatedSnoc(front, last, '/');
      var text := Render(true, parts, trailing);
      assert last in parts && last[|last| - 1] in last;
      if !trailing {
        assert text == "/" + (Terminated(front, '/') + last);
      }
    }
  }

  // ---------------------------------------------------------------- climbing above the root

  /** How many levels below (or, if negative, above) the root the segments lead. */
  function Level(segments: seq<string>): int {
    if segments == [] then 0
    else
      (if segments[0] == "" || segments[0] == "." then 0 else if segments[0] == ".." then -1 else 1)
      + Level(segments[1..])
  }

  lemma LevelPrefix(segments: seq<string>, i: nat)
    requires 0 < i <= |segments|
    ensures Level(segments[..i]) == Level(segments[..1]) + Level(segments[1..][..i - 1])
  {
    assert segments[..i] == [segments[0]] + segments[1..][..i - 1];
    assert segments[..i][1..] == segments[1..][..i - 1];
    assert segments[..1][1..] == [];
  }

  lemma {:induction false} WalkRefused(stack: seq<string>, segments: seq<string>)
    ensures Walk(true, stack, segments).None? <==>
            exists i :: 0 <= i <= |segments| && |stack| + Level(segments[..i]) < 0
    decreases |segments|
  {
    if segments != [] {
      assert segments[..1][1..] == [];
      assert Level(segments[..0]) == 0;
      match Push(true, stack, segments[0])
      case None =>
        assert |stack| + Level(segments[..1]) < 0;
      case Some(next) =>
        WalkRefused(next, segments[1..]);
        assert |next| == |stack| + Level(segments[..1]);
        if exists j :: 0 <= j <= |segments[1..]| && |next| + Level(segments[1..][..j]) < 0 {
          var j :| 0 <= j <= |segments[1..]| && |next| + Level(segments[1..][..j]) < 0;
          LevelPrefix(segments, j + 1);
        }
        if exists i :: 0 <= i <= |segments| && |stack| + Level(segments[..i]) < 0 {
          var i :| 0 <= i <= |segments| && |stack| + Level(segments[..i]) < 0;
          LevelPrefix(segments, i);
          assert |next| + Level(segments[1..][..i - 1]) < 0;
        }
    }
  }

  /** An absolute path is refused exactly when some prefix of its segments climbs above the root. */
  lemma RefusedExactlyAboveRoot(decoded: string)
    requires decoded != "" && decoded[0] == '/'
    ensures NormalizePath(decoded).Refused? <==>
            exists i :: 0 <= i <= |Split(decoded, '/')| && Level(Split(decoded, '/')[..i]) < 0
  {
    var segments := Split(decoded, '/');
    var empty: seq<string> := [];
    WalkRefused(empty, segments);
    if exists i :: 0 <= i <= |segments| && Level(segments[..i]) < 0 {
      var i :| 0 <= i <= |segments| && Level(segments[..i]) < 0;
      assert |empty| + Level(segments[..i]) < 0;
    }
  }

  // ---------------------------------------------------------------- what each segment does

  lemma SplitEmpty()
    ensures Split("", '/') == []
  {
  }

  /** A text with a slash, cut at the first one. */
  lemma CutAtSlash(s: string) returns (k: nat)
    requires '/' in s
    ensures k < |s| && '/' !in s[..k] && s == s[..k] + "/" + s[k + 1..]
  {
    if Find(s, "/", 0).None? { NoCharAt(s, '/', |s|); }
    k := Find(s, "/", 0).value;
    NoCharAt(s, '/', k);
    assert s[k..k + 1] == "/";
  }

  lemma JoinParts(head: string, tail: string, t: string)
    ensures head + "/" + tail + "/" + t == head + "/" + (tail + "/" + t)
    ensures head + "/" + tail + "/" == head + "/" + (tail + "/")
  {
  }

  /** Splitting a text at one of its slashes splits its two sides. */
  lemma {:induction false} SplitJoin(s: string, t: string)
    ensures Split(s + "/" + t, '/') == Split(s + "/", '/') + Split(t, '/')
    decreases |s|
  {
    hide Split;
    if '/' !in s {
      SplitFirst(s, '/', t);
      SplitFirst(s, '/', "");
      SplitEmpty();
      assert s + "/" + "" == s + "/";
      assert [s] + [] == [s];
    } else {
      var k := CutAtSlash(s);
      var head, tail := s[..k], s[k + 1..];
      JoinParts(head, tail, t);
      SplitFirst(head, '/', tail + "/" + t);
      SplitFirst(head, '/', tail + "/");
      SplitJoin(tail, t);
      Assoc([head], Split(tail + "/", '/'), Split(t, '/'));
    }
  }

  lemma SplitOne(s: string)
    requires '/' !in s
    ensures Split(s + "/", '/') == [s]
  {
    SplitFirst(s, '/', "");
    SplitEmpty();
    assert s + "/" + "" == s + "/";
  }

  /** A slash at the end opens no further segment. */
  lemma SplitClosed(s: string)
    requires s != "" && s[|s| - 1] != '/'
    ensures Split(s + "/", '/') == Split(s, '/')
    decreases |s|
  {
    hide Split;
    if '/' !in s {
      SplitOne(s);
      SplitWhole(s, '/');
    } else {
      var k := CutAtSlash(s);
      var head, tail := s[..k], s[k + 1..];
      assert tail != "" && tail[|tail| - 1] == s[|s| - 1];
      JoinParts(head, tail, "");
      SplitClosed(tail);
      SplitFirst(head, '/', tail);
      SplitFirst(head, '/', tail + "/");
    }
  }

  /** What can be struck out of the middle of a path: nothing, a dot, or a name with the dots that take it back. */
  predicate Idle(middle: string, name: string) {
    middle == "" || middle == "." || (Ordinary(name) && middle == name + "/..")
  }

  lemma IdleWalk(stack: seq<string>, middle: string, name: string)
    requires Idle(middle, name)
    ensures Walk(true, stack, Split(middle + "/", '/')) == Some(stack)
  {
    hide Split;
    if middle == "" || middle == "." {
      SplitOne(middle);
      assert [middle][1..] == [];
    } else {
      SplitJoin(name, ".." + "/");
      JoinParts(name, "..", "");
      SplitOne(name);
      SplitOne("..");
      assert ([name] + [".."])[1..] == [".."] && [".."][1..] == [];
      assert (stack + [name])[..|stack + [name]| - 1] == stack;
    }
  }

  lemma NormalizedBy(p: string, q: string)
    requires p != "" && q != "" && p[0] == q[0] == '/' && p[|p| - 1] == q[|q| - 1]
    requires Walk(true, [], Split(p, '/')) == Walk(true, [], Split(q, '/'))
    ensures NormalizePath(p) == NormalizePath(q)
  {
  }

  /** Main result on segments: in any absolute path an empty segment, a dot, or an ordinary name with two dots right
      behind it can be struck out, and the path still normalises to the same, or is still refused. */
  lemma StruckOut(front: string, middle: string, name: string, back: string)
    requires Idle(middle, name) && (front != "" ==> front[0] == '/')
    ensures NormalizePath(front + "/" + (middle + "/" + back)) == NormalizePath(front + "/" + back)
  {
    hide Split;
    hide NormalizePath;
    var p, q := front + "/" + (middle + "/" + back), front + "/" + back;
    var a, b, m := Split(front + "/", '/'), Split(back, '/'), Split(middle + "/", '/');
    SplitJoin(front, middle + "/" + back);
    SplitJoin(middle, back);
    SplitJoin(front, back);
    WalkAppend(true, [], a, m + b);
    WalkAppend(true, [], a, b);
    if Walk(true, [], a).Some? {
      WalkAppend(true, Walk(true, [], a).value, m, b);
      IdleWalk(Walk(true, [], a).value, middle, name);
    }
    SameEnds(front, middle, back);
    NormalizedBy(p, q);
  }

  lemma SameEnds(front: string, middle: string, back: string)
    ensures var p, q := front + "/" + (middle + "/" + back), front + "/" + back;
            p[0] == q[0] && p[|p| - 1] == q[|q| - 1] && (front == "" || front[0] == '/' ==> p[0] == '/')
  {
    if back != "" {
      var p, q := front + "/" + (middle + "/" + back), front + "/" + back;
      assert p[|p| - 1] == back[|back| - 1] == q[|q| - 1];
    }
  }

  /** At the end of a path the dots take the name, and leave no trailing slash. */
  lemma EndStruckOut(front: string, name: string)
    requires front != "" && front[0] == '/' && front[|front| - 1] != '/' && Ordinary(name)
    ensures NormalizePath(front + "/" + (name + "/" + "..")) == NormalizePath(front)
  {
    hide Split;
    hide NormalizePath;
    var a := Split(front + "/", '/');
    SplitJoin(front, name + "/" + "..");
    SplitJoin(name, "..");
    SplitOne(name);
    SplitWhole("..", '/');
    SplitClosed(front);
    WalkAppend(true, [], a, [name] + [".."]);
    if Walk(true, [], a).Some? {
      var stack := Walk(true, [], a).value;
      assert ([name] + [".."])[1..] == [".."] && [".."][1..] == [];
      assert (stack + [name])[..|stack + [name]| - 1] == stack;
    }
    PathByStack(front + "/" + (name + "/" + ".."), false);
    PathByStack(front, false);
  }

  lemma PathByStack(p: string, trailing: bool)
    requires p != "" && p[0] == '/' && (trailing <==> p[|p| - 1] == '/')
    ensures var w := Walk(true, [], Split(p, '/'));
            NormalizePath(p) == if w.None? then Refused else Path(Render(true, w.value, trailing))
  {
  }

  /** A path that is canonical already is returned as it is. */
  lemma CanonicalKept(path: string)
    requires Canonical(path)
    ensures NormalizePath(path) == Path(path)
  {
    hide Split;
    hide NormalizePath;
    var tail := path[1..];
    var parts := Split(tail, '/');
    var trailing := path[|path| - 1] == '/';
    assert path == "" + "/" + tail;
    SplitFirst("", '/', tail);
    WalkStacks([], parts);
    assert ([""] + parts)[1..] == parts && [] + parts == parts;
    assert Walk(true, [], [""] + parts) == Some(parts);
    PathByStack(path, trailing);
    TerminatedSplit(tail, '/');
    if tail == "" { SplitEmpty(); }
    assert Render(true, parts, trailing) == path by { ClosedBack(tail); }
  }

  lemma ClosedBack(tail: string)
    ensures var c := Closed(tail, '/');
            (if tail == "" || tail[|tail| - 1] == '/' then c else c[..|c| - 1]) == tail
  {
  }

  // ---------------------------------------------------------------- paths that do not start at the root

  /** The segments that stand for something. */
  function Names(segments: seq<string>): seq<string> {
    if segments == [] then []
    else (if segments[0] == "" || segments[0] == "." then [] else [segments[0]]) + Names(segments[1..])
  }

  lemma {:induction false} RelativeWalk(stack: seq<string>, segments: seq<string>)
    ensures Walk(false, stack, segments) == if ".." in segments then None else Some(stack + Names(segments))
    decreases |segments|
  {
    if segments == [] {
      assert stack + [] == stack;
    } else {
      var rest := segments[1..];
      assert segments == [segments[0]] + rest;
      match Push(false, stack, segments[0])
      case None =>
      case Some(next) =>
        RelativeWalk(next, rest);
        if segments[0] == "" || segments[0] == "." {
          assert [] + Names(rest) == Names(rest);
        } else {
          Assoc(stack, [segments[0]], Names(rest));
        }
    }
  }

  lemma {:induction false} NamesOrdinary(segments: seq<string>)
    requires ".." !in segments && forall p :: p in segments ==> '/' !in p
    ensures forall p :: p in Names(segments) ==> Ordinary(p)
  {
    if segments != [] {
      assert segments[0] in segments;
      NamesOrdinary(segments[1..]);
    }
  }

  /** A path that does not start with a slash is refused exactly when two dots are in it. Otherwise its names come out
      in order; it becomes the root exactly when it has none, and stays without a leading slash when it has some. */
  lemma RelativeExactly(decoded: string)
    requires decoded != "" && decoded[0] != '/'
    ensures NormalizePath(decoded).Refused? <==> ".." in Split(decoded, '/')
    ensures NormalizePath(decoded).Path? ==>
              var names, text := Names(Split(decoded, '/')), NormalizePath(decoded).text;
              if names == [] then text == "/" else text != "" && text[0] != '/' && Split(text, '/') == names
  {
    var segments := Split(decoded, '/');
    var trailing := decoded[|decoded| - 1] == '/';
    RelativeWalk([], segments);
    if ".." !in segments {
      var names := Names(segments);
      assert [] + names == names;
      NamesOrdinary(segments);
      if names != [] {
        SplitRender(names, trailing);
        RelativeText(names, trailing);
      }
    }
  }

  lemma RelativeText(parts: seq<string>, trailing: bool)
    requires parts != [] && forall p :: p in parts ==> Ordinary(p)
    ensures var text := Render(false, parts, trailing);
            text != "" && text[0] != '/' && text == Render(true, parts, trailing)[1..]
  {
    assert parts[0] in parts && parts[0][0] in parts[0];
    assert Terminated(parts, '/')[0] == parts[0][0];
  }

  // ---------------------------------------------------------------- any escaped text

  /** A byte as it may be written: itself, or escaped with digits in either case. */
  datatype Written = Plain(c: char) | Escaped(c: char, upperFirst: bool, upperSecond: bool)

  function Digit(d: nat, upper: bool): (c: char)
    requires d < 16
    ensures IsHexDigit(c) && HexValue(c) == d
  {
    if d < 10 then ('0' as int + d) as char else ((if upper then 'A' else 'a') as int + d - 10) as char
  }

  predicate Writable(w: Written) {
    match w case Plain(c) => c != '%' case Escaped(c, _, _) => c as int < 256
  }

  function One(w: Written): string
    requires Writable(w)
  {
    match w
    case Plain(c) => [c]
    case Escaped(c, u, v) => ['%', Digit(w.c as int / 16, u), Digit(w.c as int % 16, v)]
  }

  function Spelling(ws: seq<Written>): string
    requires forall i :: 0 <= i < |ws| ==> Writable(ws[i])
  {
    if ws == [] then "" else One(ws[0]) + Spelling(ws[1..])
  }

  function Meaning(ws: seq<Written>): string {
    if ws == [] then "" else [ws[0].c] + Meaning(ws[1..])
  }

  predicate EscapesNul(ws: seq<Written>) {
    exists i :: 0 <= i < |ws| && ws[i].Escaped? && ws[i].c == '\0'
  }

  lemma DecodeOne(w: Written, rest: string)
    requires Writable(w)
    ensures DecodePercent(One(w) + rest) ==
            if w.Escaped? && w.c == '\0' then Refused else Prepend(w.c, DecodePercent(rest))
  {
    var s := One(w) + rest;
    if w.Plain? {
      assert s[0] == w.c && s[1..] == rest;
    } else {
      assert s[0] == '%' && s[3..] == rest;
    }
  }

  /** Decoding reads any mixture of plain and escaped bytes, in either case of digits, as the bytes meant, and goes on
      behind it; it refuses the mixture exactly when a NUL is escaped in it. */
  lemma {:induction false} DecodeWritten(ws: seq<Written>, tail: string)
    requires forall i :: 0 <= i < |ws| ==> Writable(ws[i])
    ensures DecodePercent(Spelling(ws) + tail) ==
            if EscapesNul(ws) then Refused else Behind(Meaning(ws), DecodePercent(tail))
    decreases |ws|
  {
    hide DecodePercent;
    hide Spelling;
    if ws == [] {
      NothingWritten(tail);
    } else {
      var w, rest := ws[0], ws[1..];
      SpellingStep(ws);
      Assoc(One(w), Spelling(rest), tail);
      DecodeOne(w, Spelling(rest) + tail);
      DecodeWritten(rest, tail);
      NulStep(ws);
      BehindStep(w.c, Meaning(rest), DecodePercent(tail));
    }
  }

  lemma SpellingStep(ws: seq<Written>)
    requires ws != [] && forall i :: 0 <= i < |ws| ==> Writable(ws[i])
    ensures Spelling(ws) == One(ws[0]) + Spelling(ws[1..])
  {
  }

  lemma NulStep(ws: seq<Written>)
    requires ws != []
    ensures EscapesNul(ws) <==> (ws[0].Escaped? && ws[0].c == '\0') || EscapesNul(ws[1..])
  {
    if EscapesNul(ws) {
      var i :| 0 <= i < |ws| && ws[i].Escaped? && ws[i].c == '\0';
      if i > 0 { assert ws[1..][i - 1] == ws[i]; }
    }
    if EscapesNul(ws[1..]) {
      var i :| 0 <= i < |ws[1..]| && ws[1..][i].Escaped? && ws[1..][i].c == '\0';
      assert ws[i + 1] == ws[1..][i];
    }
  }

  lemma BehindStep(c: char, done: string, r: Result)
    ensures Prepend(c, Behind(done, r)) == Behind([c] + done, r)
  {
    match r
    case Refused =>
    case Path(t) => Assoc([c], done, t);
  }

  lemma NothingWritten(tail: string)
    ensures DecodePercent(Spelling([]) + tail) == Behind(Meaning([]), DecodePercent(tail))
  {
    assert "" + tail == tail;
    match DecodePercent(tail)
    case Refused =>
    case Path(t) => assert "" + t == t;
  }

  /** A percent sign with fewer than two characters behind it stands for itself; with two that are not both digits
      it is refused. */
  lemma DecodeStray(tail: string)
    requires tail != "" && tail[0] == '%'
    ensures |tail| <= 2 ==> DecodePercent(tail) == Path(tail)
    ensures |tail| > 2 && !(IsHexDigit(tail[1]) && IsHexDigit(tail[2])) ==> DecodePercent(tail) == Refused
  {
    if |tail| == 2 {
      assert DecodePercent(tail[1..]) == Path(tail[1..]) by { assert tail[1..][1..] == ""; }
      assert ['%'] + tail[1..] == tail;
    }
  }
}
