/** Taking uploaded files out of a multipart body (handleMultipartFormData, srcs/ReqRes/ResponseBuilder.cpp:382-465). */
module Multipart {
  import opened Text

  datatype Part = Part(headers: string, content: string)

  /** One turn of the search: the part found from `pos` on, and where the search goes on. */
  datatype Found = End | At_(part: Part, next: nat)

  /** body.substr(pos, 2). */
  function Two(body: string, pos: nat): string
    requires pos <= |body|
  {
    if pos + 2 <= |body| then body[pos..pos + 2] else body[pos..]
  }

  /** The part behind the delimiter at `k`. */
  function PartFrom(body: string, delimiter: string, k: nat): (f: Found)
    requires delimiter != "" && k + |delimiter| <= |body|
    ensures f.At_? ==> k < f.next <= |body|
  {
    var p := k + |delimiter|;
    if p < |body| && Two(body, p) == "--" then End
    else
      var q := if Two(body, p) == CRLF then p + 2 else p;
      match Find(body, DOUBLE_CRLF, q)
      case None => End
      case Some(h) =>
        match Find(body, delimiter, h + 4)
        case None => End
        case Some(e) => At_(Part(body[q..h], body[h + 4..e]), h + 4)
  }

  function NextPart(body: string, delimiter: string, pos: nat): (f: Found)
    requires delimiter != ""
    ensures f.At_? ==> pos < f.next <= |body|
  {
    match Find(body, delimiter, pos)
    case None => End
    case Some(k) => PartFrom(body, delimiter, k)
  }

  /** The parts in order. The search position strictly advances. */
  function Parts(body: string, delimiter: string, pos: nat): seq<Part>
    requires delimiter != "" && pos <= |body|
    decreases |body| - pos
  {
    match NextPart(body, delimiter, pos)
    case End => []
    case At_(part, next) => [part] + Parts(body, delimiter, next)
  }

  // ---------------------------------------------------------------- saving

  const FILENAME: string := "filename=\""

  /** The file name in a part's headers, if it is there and safe to use. */
  function FileName(headers: string): Option<string> {
    match Find(headers, FILENAME, 0)
    case None => None
    case Some(k) =>
      match Find(headers, "\"", k + 10)
      case None => None
      case Some(e) =>
        Checked(headers[k + 10..e])
  }

  function Checked(name: string): Option<string> {
    if name == "" || Find(name, "..", 0).Some? || Find(name, "/", 0).Some? then None else Some(name)
  }

  predicate SafeName(name: string) {
    name != "" && Find(name, "..", 0).None? && '/' !in name
  }

  /** A name written between quotes after the first `filename=` is taken exactly when it is safe to use in a path;
      `head` is the text up to and with the opening quote. */
  lemma FileNameExactly(head: string, name: string, after: string)
    requires '\"' !in name && |head| >= |FILENAME| && Find(head, FILENAME, 0) == Some(|head| - |FILENAME|)
    ensures FileName(head + name + "\"" + after) == if SafeName(name) then Some(name) else None
  {
    hide Find;
    hide At;
    hide FileName;
    hide Checked;
    hide SafeName;
    assert |FILENAME| == 10;
    var headers := head + name + "\"" + after;
    QuotedTail(head, name, after);
    FindInSuffix(headers, "\"", |head|);
    FindExtends(head, name + "\"" + after, FILENAME, 0);
    FileNameIs(headers, |head| - 10, |head| + |name|);
    CheckedExactly(name);
  }

  lemma FileNameIs(headers: string, k: nat, e: nat)
    requires Find(headers, FILENAME, 0) == Some(k) && Find(headers, "\"", k + 10) == Some(e)
    ensures FileName(headers) == Checked(headers[k + 10..e])
  {
    hide Checked;
    hide At;
  }

  lemma CheckedExactly(name: string)
    ensures Checked(name) == if SafeName(name) then Some(name) else None
  {
    if '/' in name {
      SlashFound(name);
    } else {
      FindCharAbsent(name, '/');
    }
  }

  lemma QuotedTail(head: string, name: string, after: string)
    requires '\"' !in name
    ensures var headers := head + name + "\"" + after;
            && headers == head + (name + "\"" + after) && headers[|head|..|head| + |name|] == name
            && Find(headers[|head|..], "\"", 0) == Some(|name|)
  {
    hide Find;
    hide At;
    var tail := name + "\"" + after;
    Assoc(head, name, "\"");
    Assoc(head, name + "\"", after);
    AppendParts(head, tail);
    Assoc(name, "\"", after);
    AppendParts(name, "\"" + after);
    DropTake(head + tail, |head|, |name|);
    FindChar(name, '\"', after);
  }

  lemma SlashFound(name: string)
    requires '/' in name
    ensures Find(name, "/", 0).Some?
  {
    if Find(name, "/", 0).None? { NoCharAt(name, '/', |name|); }
  }

  datatype Upload = Upload(path: string, content: string)

  /** The file system and the clock: which path the n-th file gets, and whether it can be written. */
  datatype Disk = Disk(store: string, stamp: nat -> string, writable: string -> bool)

  function PathFor(disk: Disk, n: nat, name: string): string {
    disk.store + "/" + "upload_" + disk.stamp(n) + "_" + name
  }

  /** The file a part is saved to as the n-th, or None when it is passed over. */
  function SaveOf(disk: Disk, n: nat, part: Part): Option<Upload> {
    match FileName(part.headers)
    case None => None
    case Some(name) =>
      var path := PathFor(disk, n, name);
      if disk.writable(path) then Some(Upload(path, part.content)) else None
  }

  function Saves(disk: Disk, n: nat, parts: seq<Part>): seq<Upload>
    decreases |parts|
  {
    if parts == [] then []
    else
      match SaveOf(disk, n, parts[0])
      case None => Saves(disk, n, parts[1..])
      case Some(u) => [u] + Saves(disk, n + 1, parts[1..])
  }

  function Delimiter(contentType: string): Option<string> {
    match Find(contentType, "boundary=", 0)
    case None => None
    case Some(k) => Some("--" + contentType[k + 9..])
  }

  lemma SavesStep(disk: Disk, n: nat, body: string, delimiter: string, pos: nat)
    requires delimiter != "" && pos <= |body| && NextPart(body, delimiter, pos).At_?
    ensures var f := NextPart(body, delimiter, pos);
            Saves(disk, n, Parts(body, delimiter, pos)) ==
            match SaveOf(disk, n, f.part)
            case None => Saves(disk, n, Parts(body, delimiter, f.next))
            case Some(u) => [u] + Saves(disk, n + 1, Parts(body, delimiter, f.next))
  {
    hide NextPart;
    hide SaveOf;
    var f := NextPart(body, delimiter, pos);
    assert Parts(body, delimiter, pos)[1..] == Parts(body, delimiter, f.next);
  }

  lemma SavesEnd(disk: Disk, n: nat, body: string, delimiter: string, pos: nat)
    requires delimiter != "" && pos <= |body| && NextPart(body, delimiter, pos).End?
    ensures Saves(disk, n, Parts(body, delimiter, pos)) == []
  {
  }

  class ResponseBuilder {
    var statusCode: int
    var location: string
    /** The files written, oldest first. */
    var saved: seq<Upload>

    /** The searches of one turn of the loop. */
    method FindPart(body: string, boundary: string, from: nat) returns (f: Found)
      requires boundary != ""
      ensures f == NextPart(body, boundary, from)
    {
      hide Find;
      hide At;
      hide Two;
      var nextPos := Find(body, boundary, from);
      if nextPos.None? {
        return End;
      }
      var pos := nextPos.value + |boundary|;
      if pos < |body| && Two(body, pos) == "--" {
        return End;
      }
      if Two(body, pos) == CRLF {
        pos := pos + 2;
      }
      var headerEnd := Find(body, DOUBLE_CRLF, pos);
      if headerEnd.None? {
        return End;
      }
      var headers := body[pos..headerEnd.value];
      pos := headerEnd.value + 4;
      var partEnd := Find(body, boundary, pos);
      if partEnd.None? {
        return End;
      }
      return At_(Part(headers, body[pos..partEnd.value]), pos);
    }

    /** The file of one part. */
    method SavePart(part: Part, disk: Disk)
      modifies this
      ensures match SaveOf(disk, |old(saved)|, part)
              case None => saved == old(saved) && statusCode == old(statusCode) && location == old(location)
              case Some(u) => saved == old(saved) + [u] && statusCode == 201 && location == u.path
    {
      var fileName := FileName(part.headers);
      if fileName.None? {
        return;
      }
      var path := PathFor(disk, |saved|, fileName.value);
      if !disk.writable(path) {
        return;
      }
      saved := saved + [Upload(path, part.content)];
      location := path;
      statusCode := 201;
    }

    /** The loop. `files` are those saved by this call. */
    method SaveParts(body: string, boundary: string, disk: Disk) returns (ghost files: seq<Upload>)
      requires boundary != ""
      modifies this
      ensures files == Saves(disk, |old(saved)|, Parts(body, boundary, 0)) && saved == old(saved) + files
      ensures statusCode == (if files == [] then old(statusCode) else 201)
      ensures location == (if files == [] then old(location) else files[|files| - 1].path)
    {
      hide NextPart;
      hide SaveOf;
      hide Saves;
      hide Parts;
      files := [];
      var pos := 0;
      ghost var all := Saves(disk, |saved|, Parts(body, boundary, 0));
      var f := FindPart(body, boundary, pos);
      while f.At_?
        invariant pos <= |body| && f == NextPart(body, boundary, pos)
        invariant saved == old(saved) + files
        invariant all == files + Saves(disk, |saved|, Parts(body, boundary, pos))
        invariant statusCode == (if files == [] then old(statusCode) else 201)
        invariant location == (if files == [] then old(location) else files[|files| - 1].path)
        decreases |body| - pos
      {
        SavesStep(disk, |saved|, body, boundary, pos);
        ghost var file := SaveOf(disk, |saved|, f.part);
        ghost var tail := Saves(disk, |saved| + 1, Parts(body, boundary, f.next));
        assert file.Some? ==> files + ([file.value] + tail) == files + [file.value] + tail;
        SavePart(f.part, disk);
        if file.Some? {
          files := files + [file.value];
        }
        pos := f.next;
        f := FindPart(body, boundary, pos);
      }
      SavesEnd(disk, |saved|, body, boundary, pos);
    }

    method HandleMultipartFormData(contentType: string, body: string, disk: Disk) returns (ok: bool)
      modifies this
      ensures ok == Delimiter(contentType).Some?
      ensures !ok ==> saved == old(saved) && statusCode == old(statusCode) && location == old(location)
      ensures ok ==>
        var files := Saves(disk, |old(saved)|, Parts(body, Delimiter(contentType).value, 0));
        && saved == old(saved) + files
        && statusCode == (if files == [] then old(statusCode) else 201)
        && location == (if files == [] then old(location) else files[|files| - 1].path)
    {
      var boundaryPos := Find(contentType, "boundary=", 0);
      if boundaryPos.None? {
        return false;
      }
      ghost var files := SaveParts(body, "--" + contentType[boundaryPos.value + 9..], disk);
      return true;
    }
  }

  // ---------------------------------------------------------------- the round trip

  /** RFC 2046 section 5.1.1: each part between delimiter lines, and the closing delimiter. */
  function Compose(parts: seq<Part>, delimiter: string, tail: string): string {
    delimiter + AfterDelimiter(parts, delimiter, tail)
  }

  function AfterDelimiter(parts: seq<Part>, delimiter: string, tail: string): string {
    if parts == [] then "--" + tail
    else PartText(parts[0], delimiter + AfterDelimiter(parts[1..], delimiter, tail))
  }

  /** What stands between a delimiter and the `next` one. */
  function PartText(part: Part, next: string): string {
    CRLF + (part.headers + (DOUBLE_CRLF + (part.content + (CRLF + next))))
  }

  predicate NoLineEnds(delimiter: string) {
    '\r' !in delimiter && '\n' !in delimiter
  }

  predicate EndsWithCrlf(s: string) {
    |s| >= 2 && s[|s| - 2..] == CRLF
  }

  /** A header block without an empty line in it or at its end, and contents without the delimiter. */
  predicate GoodPart(part: Part, delimiter: string) {
    && Find(part.headers, DOUBLE_CRLF, 0).None? && !EndsWithCrlf(part.headers)
    && Find(part.content, delimiter, 0).None?
  }

  lemma PieceOf(w: string, n: nat, a: string, b: string)
    requires n <= |w| && w[n..] == a + b
    ensures n + |a| <= |w| && w[n..n + |a|] == a && w[n + |a|..] == b
  {
    assert w[n..][..|a|] == a && w[n..][|a|..] == b;
  }

  lemma NotInside(s: string, pat: string, rest: string, j: nat)
    requires Find(s, pat, 0).None? && j + |pat| <= |s|
    ensures !At(s + rest, pat, j)
  {
    AtPrefix(s, rest, pat, j);
  }

  /** The delimiter cannot straddle the line end in front of it. */
  lemma NoDelimiterBefore(content: string, delimiter: string, after: string, j: nat)
    requires delimiter != "" && NoLineEnds(delimiter) && Find(content, delimiter, 0).None?
    requires |after| >= 2 && after[0] == '\r' && after[1] == '\n' && j < |content| + 2
    ensures !At(content + after, delimiter, j)
  {
    var n := |content|;
    if j + |delimiter| <= n {
      NotInside(content, delimiter, after, j);
    } else {
      var i := if j <= n then n else n + 1;
      assert (content + after)[i] == after[i - n];
      assert delimiter[i - j] in delimiter;
      NotAt(content + after, delimiter, j, i);
    }
  }

  lemma IsAt(s: string, pat: string, i: nat)
    requires i + |pat| <= |s| && s[i..i + |pat|] == pat
    ensures At(s, pat, i)
  {
  }

  lemma FindDelimiter(content: string, delimiter: string, rest: string)
    requires delimiter != "" && NoLineEnds(delimiter) && Find(content, delimiter, 0).None?
    ensures Find(content + (CRLF + (delimiter + rest)), delimiter, 0) == Some(|content| + 2)
  {
    hide NoLineEnds;
    hide At;
    var after := CRLF + (delimiter + rest);
    var s, n := content + after, |content|;
    AppendParts(content, after);
    PieceOf(s, n, CRLF, delimiter + rest);
    PieceOf(s, n + 2, delimiter, rest);
    IsAt(s, delimiter, n + 2);
    forall j | 0 <= j < n + 2 ensures !At(s, delimiter, j) {
      NoDelimiterBefore(content, delimiter, after, j);
    }
    FindIs(s, delimiter, 0, n + 2);
  }

  /** An empty line cannot straddle the end of a header block that does not end with a line end itself. */
  lemma NoBlankBefore(headers: string, after: string, j: nat)
    requires Find(headers, DOUBLE_CRLF, 0).None? && !EndsWithCrlf(headers)
    requires after != "" && after[0] == '\r' && j < |headers|
    ensures !At(headers + after, DOUBLE_CRLF, j)
  {
    hide At;
    hide EndsWithCrlf;
    var s, n := headers + after, |headers|;
    if j + 4 <= n {
      NotInside(headers, DOUBLE_CRLF, after, j);
    } else if j == n - 2 {
      LineEndMissing(headers);
      if headers[j] != '\r' { NotAt(s, DOUBLE_CRLF, j, j); } else { NotAt(s, DOUBLE_CRLF, j, j + 1); }
    } else {
      MisalignedEnd(s, j, n);
    }
  }

  lemma MisalignedEnd(s: string, j: nat, n: nat)
    requires n < |s| && s[n] == '\r' && (n == j + 1 || n == j + 3)
    ensures !At(s, DOUBLE_CRLF, j)
  {
    assert DOUBLE_CRLF[1] == '\n' && DOUBLE_CRLF[3] == '\n';
    NotAt(s, DOUBLE_CRLF, j, n);
  }

  lemma LineEndMissing(s: string)
    requires |s| >= 2 && !EndsWithCrlf(s)
    ensures s[|s| - 2] != '\r' || s[|s| - 1] != '\n'
  {
    assert s[|s| - 2..] == [s[|s| - 2], s[|s| - 1]];
  }

  lemma FindHeaderEnd(headers: string, rest: string)
    requires Find(headers, DOUBLE_CRLF, 0).None? && !EndsWithCrlf(headers)
    ensures Find(headers + (DOUBLE_CRLF + rest), DOUBLE_CRLF, 0) == Some(|headers|)
  {
    hide EndsWithCrlf;
    hide At;
    var after := DOUBLE_CRLF + rest;
    var s, n := headers + after, |headers|;
    AppendParts(headers, after);
    PieceOf(s, n, DOUBLE_CRLF, rest);
    IsAt(s, DOUBLE_CRLF, n);
    forall j | 0 <= j < n ensures !At(s, DOUBLE_CRLF, j) {
      NoBlankBefore(headers, after, j);
    }
    FindIs(s, DOUBLE_CRLF, 0, n);
  }

  /** A search that starts inside the text finds what a search of the suffix finds. */
  lemma FindShifted(w: string, n: nat, s: string, pat: string, k: nat)
    requires n <= |w| && w[n..] == s && Find(s, pat, 0) == Some(k)
    ensures Find(w, pat, n) == Some(n + k)
  {
    hide At;
    FindInSuffix(w, pat, n);
  }

  lemma FindAtStart(w: string, n: nat, pat: string)
    requires n + |pat| <= |w| && w[n..n + |pat|] == pat
    ensures Find(w, pat, n) == Some(n)
  {
    FindIs(w, pat, n, n);
  }

  /** Where the pieces of a part stand in the body. */
  lemma PartAt(body: string, n: nat, part: Part, next: string)
    requires n <= |body| && body[n..] == PartText(part, next)
    ensures var h := n + 2 + |part.headers|;
            && h + 4 <= |body| && body[n..n + 2] == CRLF
            && body[n + 2..] == part.headers + (DOUBLE_CRLF + body[h + 4..])
            && body[n + 2..h] == part.headers
            && body[h + 4..] == part.content + (CRLF + next)
  {
    var h := n + 2 + |part.headers|;
    var content := part.content + (CRLF + next);
    PieceOf(body, n, CRLF, part.headers + (DOUBLE_CRLF + content));
    PieceOf(body, n + 2, part.headers, DOUBLE_CRLF + content);
    PieceOf(body, h, DOUBLE_CRLF, content);
  }

  lemma ContentAt(body: string, n: nat, content: string, next: string)
    requires n <= |body| && body[n..] == content + (CRLF + next)
    ensures n + |content| + 2 <= |body| && body[n..n + |content| + 2] == content + CRLF &&
            body[n + |content| + 2..] == next
  {
    assert content + (CRLF + next) == (content + CRLF) + next;
    PieceOf(body, n, content + CRLF, next);
  }

  /** The outcome of a turn from what its three searches find. */
  lemma NextPartIs(body: string, delimiter: string, n: nat, h: nat, e: nat)
    requires delimiter != "" && n <= |body| && Find(body, delimiter, n) == Some(n)
    requires var q := n + |delimiter|;
             q + 2 <= |body| && body[q..q + 2] == CRLF && Find(body, DOUBLE_CRLF, q + 2) == Some(h)
    requires Find(body, delimiter, h + 4) == Some(e)
    ensures NextPart(body, delimiter, n) == At_(Part(body[n + |delimiter| + 2..h], body[h + 4..e]), h + 4)
  {
    hide Find;
    hide At;
  }

  /** One part at the search position is taken, with the line end in front of the next delimiter still on it. */
  lemma TakePart(body: string, n: nat, part: Part, delimiter: string, rest: string)
    requires delimiter != "" && NoLineEnds(delimiter) && GoodPart(part, delimiter)
    requires n <= |body| && body[n..] == delimiter + PartText(part, delimiter + rest)
    ensures NextPart(body, delimiter, n) ==
            At_(Part(part.headers, part.content + CRLF), n + |delimiter| + 2 + |part.headers| + 4)
  {
    hide At;
    hide Find;
    hide NextPart;
    hide PartText;
    hide NoLineEnds;
    hide GoodPart;
    var q := n + |delimiter|;
    var h := q + 2 + |part.headers|;
    PieceOf(body, n, delimiter, PartText(part, delimiter + rest));
    FindAtStart(body, n, delimiter);
    PartAt(body, q, part, delimiter + rest);
    ContentAt(body, h + 4, part.content, delimiter + rest);
    FindsOfPart(part, delimiter, rest, body[h + 4..]);
    FindShifted(body, q + 2, body[q + 2..], DOUBLE_CRLF, |part.headers|);
    FindShifted(body, h + 4, body[h + 4..], delimiter, |part.content| + 2);
    NextPartIs(body, delimiter, n, h, h + 4 + |part.content| + 2);
  }

  lemma FindsOfPart(part: Part, delimiter: string, rest: string, after: string)
    requires delimiter != "" && NoLineEnds(delimiter) && GoodPart(part, delimiter)
    ensures Find(part.headers + (DOUBLE_CRLF + after), DOUBLE_CRLF, 0) == Some(|part.headers|)
    ensures Find(part.content + (CRLF + (delimiter + rest)), delimiter, 0) == Some(|part.content| + 2)
  {
    FindHeaderEnd(part.headers, after);
    FindDelimiter(part.content, delimiter, rest);
  }

  function Ended(parts: seq<Part>): (r: seq<Part>)
    ensures |r| == |parts|
  {
    if parts == [] then [] else [Part(parts[0].headers, parts[0].content + CRLF)] + Ended(parts[1..])
  }

  lemma SameTurn(body: string, delimiter: string, n: nat, m: nat)
    requires delimiter != "" && Find(body, delimiter, n) == Find(body, delimiter, m)
    ensures NextPart(body, delimiter, n) == NextPart(body, delimiter, m)
  {
    hide Find;
    hide At;
    hide PartFrom;
  }

  lemma SameSearch(body: string, delimiter: string, n: nat, m: nat)
    requires delimiter != "" && n <= |body| && m <= |body| && Find(body, delimiter, n) == Find(body, delimiter, m)
    ensures Parts(body, delimiter, n) == Parts(body, delimiter, m)
  {
    hide NextPart;
    SameTurn(body, delimiter, n, m);
  }

  /** The search skips from the end of a part's header block to the delimiter in front of the next part. */
  lemma SearchFromContent(body: string, n: nat, content: string, delimiter: string, rest: string)
    requires delimiter != "" && NoLineEnds(delimiter) && Find(content, delimiter, 0).None?
    requires n <= |body| && body[n..] == content + (CRLF + (delimiter + rest))
    ensures n + |content| + 2 <= |body| && Parts(body, delimiter, n) == Parts(body, delimiter, n + |content| + 2)
  {
    hide At;
    hide Parts;
    hide NoLineEnds;
    var next := n + |content| + 2;
    FindDelimiter(content, delimiter, rest);
    FindShifted(body, n, body[n..], delimiter, |content| + 2);
    ContentAt(body, n, content, delimiter + rest);
    PieceOf(body, next, delimiter, rest);
    FindAtStart(body, next, delimiter);
    SameSearch(body, delimiter, n, next);
  }

  /** What the shipped loop makes of a well-formed body: every part once, in order, each content with the CRLF that
      belongs to the delimiter still at its end. */
  lemma {:induction false} PartsOfCompose(body: string, n: nat, parts: seq<Part>, delimiter: string, tail: string)
    requires delimiter != "" && NoLineEnds(delimiter)
    requires forall i :: 0 <= i < |parts| ==> GoodPart(parts[i], delimiter)
    requires n <= |body| && body[n..] == Compose(parts, delimiter, tail)
    ensures Parts(body, delimiter, n) == Ended(parts)
    decreases |parts|
  {
    hide NextPart;
    hide PartText;
    hide GoodPart;
    hide NoLineEnds;
    if parts == [] {
      ClosingEnds(body, n, delimiter, tail);
    } else {
      var part, rest := parts[0], AfterDelimiter(parts[1..], delimiter, tail);
      var c := n + |delimiter| + 2 + |part.headers| + 4;
      assert GoodPart(part, delimiter);
      OnePart(body, n, part, delimiter, rest);
      PartsOfCompose(body, c + |part.content| + 2, parts[1..], delimiter, tail);
    }
  }

  lemma ClosingEnds(body: string, n: nat, delimiter: string, tail: string)
    requires delimiter != "" && n <= |body| && body[n..] == delimiter + ("--" + tail)
    ensures NextPart(body, delimiter, n) == End
  {
    PieceOf(body, n, delimiter, "--" + tail);
    FindAtStart(body, n, delimiter);
    PieceOf(body, n + |delimiter|, "--", tail);
  }

  lemma OnePart(body: string, n: nat, part: Part, delimiter: string, rest: string)
    requires delimiter != "" && NoLineEnds(delimiter) && GoodPart(part, delimiter)
    requires n <= |body| && body[n..] == delimiter + PartText(part, delimiter + rest)
    ensures var m := n + |delimiter| + 2 + |part.headers| + 4 + |part.content| + 2;
            && m <= |body| && body[m..] == delimiter + rest
            && Parts(body, delimiter, n) == [Part(part.headers, part.content + CRLF)] + Parts(body, delimiter, m)
  {
    hide NextPart;
    hide PartText;
    hide GoodPart;
    hide NoLineEnds;
    var c := n + |delimiter| + 2 + |part.headers| + 4;
    TakePart(body, n, part, delimiter, rest);
    PieceOf(body, n, delimiter, PartText(part, delimiter + rest));
    PartAt(body, n + |delimiter|, part, delimiter + rest);
    ContentAt(body, c, part.content, delimiter + rest);
    NoDelimiterIn(part, delimiter);
    SearchFromContent(body, c, part.content, delimiter, rest);
  }

  lemma NoDelimiterIn(part: Part, delimiter: string)
    requires GoodPart(part, delimiter)
    ensures Find(part.content, delimiter, 0).None?
  {
  }

  /** What the unused variable content_length is there for: the line end in front of the delimiter is not content. */
  function DropLineEnd(part: Part): Part {
    if EndsWithCrlf(part.content) then part.(content := part.content[..|part.content| - 2]) else part
  }

  function DropLineEnds(parts: seq<Part>): (r: seq<Part>)
    ensures |r| == |parts|
  {
    if parts == [] then [] else [DropLineEnd(parts[0])] + DropLineEnds(parts[1..])
  }

  lemma {:induction false} DropEnded(parts: seq<Part>)
    ensures DropLineEnds(Ended(parts)) == parts
  {
    if parts != [] {
      var c := parts[0].content + CRLF;
      assert c[|c| - 2..] == CRLF && c[..|c| - 2] == parts[0].content;
      DropEnded(parts[1..]);
      assert parts == [parts[0]] + parts[1..];
      assert Ended(parts)[1..] == Ended(parts[1..]);
    }
  }

  /** Main result: with the line end dropped, as content_length was meant to, the loop gives back exactly the parts
      that were written; as shipped it does so only when there are none. */
  lemma MultipartRoundTrip(parts: seq<Part>, delimiter: string, tail: string)
    requires delimiter != "" && NoLineEnds(delimiter)
    requires forall i :: 0 <= i < |parts| ==> GoodPart(parts[i], delimiter)
    ensures var taken := Parts(Compose(parts, delimiter, tail), delimiter, 0);
            && DropLineEnds(taken) == parts
            && taken == Ended(parts)
            && (taken == parts <==> parts == [])
  {
    var body := Compose(parts, delimiter, tail);
    assert body[0..] == body;
    PartsOfCompose(body, 0, parts, delimiter, tail);
    DropEnded(parts);
    if parts != [] {
      assert |Ended(parts)[0].content| == |parts[0].content| + 2;
    }
  }

  /** Every part names a usable file, and the disk takes it as the next one. */
  predicate AllSaved(disk: Disk, n: nat, parts: seq<Part>)
    decreases |parts|
  {
    parts != [] ==> SaveOf(disk, n, parts[0]).Some? && AllSaved(disk, n + 1, parts[1..])
  }

  /** The `i`-th file holds that part's content, under that part's name. */
  predicate SavedAs(disk: Disk, i: nat, part: Part, file: Upload) {
    FileName(part.headers).Some? && file == Upload(PathFor(disk, i, FileName(part.headers).value), part.content)
  }

  /** Then each part is saved once, in order, under its own name. */
  lemma {:induction false} EachPartSavedOnce(disk: Disk, n: nat, parts: seq<Part>)
    requires AllSaved(disk, n, parts)
    ensures var files := Saves(disk, n, parts);
            |files| == |parts| && forall i :: 0 <= i < |parts| ==> SavedAs(disk, n + i, parts[i], files[i])
    decreases |parts|
  {
    hide SaveOf;
    hide SavedAs;
    if parts != [] {
      SaveIs(disk, n, parts[0]);
      EachPartSavedOnce(disk, n + 1, parts[1..]);
      var files, rest := Saves(disk, n, parts), Saves(disk, n + 1, parts[1..]);
      forall i | 0 <= i < |parts| ensures SavedAs(disk, n + i, parts[i], files[i]) {
        if i > 0 { assert SavedAs(disk, (n + 1) + (i - 1), parts[1..][i - 1], rest[i - 1]); }
      }
    }
  }

  lemma SaveIs(disk: Disk, n: nat, part: Part)
    ensures SaveOf(disk, n, part).Some? ==> SavedAs(disk, n, part, SaveOf(disk, n, part).value)
  {
    hide FileName;
  }

  lemma SaveKeepsContent(disk: Disk, n: nat, part: Part)
    ensures SaveOf(disk, n, part).Some? <==> SaveOf(disk, n, Part(part.headers, "")).Some?
  {
  }

  lemma {:induction false} EndedSaved(disk: Disk, n: nat, parts: seq<Part>)
    requires AllSaved(disk, n, parts)
    ensures AllSaved(disk, n, Ended(parts))
    ensures forall i :: 0 <= i < |parts| ==> Ended(parts)[i] == Part(parts[i].headers, parts[i].content + CRLF)
    decreases |parts|
  {
    hide SaveOf;
    if parts != [] {
      SaveKeepsContent(disk, n, parts[0]);
      SaveKeepsContent(disk, n, Ended(parts)[0]);
      EndedSaved(disk, n + 1, parts[1..]);
      assert Ended(parts)[1..] == Ended(parts[1..]);
    }
  }

  /** The whole upload: the contents that reach the disk are the contents written, in order, each once, each under its
      part's own name, and each followed by the CRLF that should have been dropped. */
  lemma UploadSaves(disk: Disk, parts: seq<Part>, delimiter: string, tail: string)
    requires delimiter != "" && NoLineEnds(delimiter)
    requires forall i :: 0 <= i < |parts| ==> GoodPart(parts[i], delimiter)
    requires AllSaved(disk, 0, parts)
    ensures var files := Saves(disk, 0, Parts(Compose(parts, delimiter, tail), delimiter, 0));
            |files| == |parts| &&
            forall i :: 0 <= i < |parts| ==> SavedAs(disk, i, Part(parts[i].headers, parts[i].content + CRLF), files[i])
  {
    hide SavedAs;
    hide Parts;
    hide Compose;
    hide SaveOf;
    hide GoodPart;
    MultipartRoundTrip(parts, delimiter, tail);
    EndedSaved(disk, 0, parts);
    EachPartSavedOnce(disk, 0, Ended(parts));
  }

  lemma DelimiterIs(head: string, boundary: string)
    requires Find(head + "boundary=", "boundary=", 0) == Some(|head|)
    ensures Delimiter(head + ("boundary=" + boundary)) == Some("--" + boundary)
  {
    hide Find;
    hide At;
    FindPut(head, "boundary=", boundary);
    Assoc(head, "boundary=", boundary);
    AppendParts(head + "boundary=", boundary);
  }

  /** Main result on uploads: for a Content-Type that ends in its first `boundary=`, and a body written with two hyphens
      and that boundary, the files are the parts. */
  lemma UploadRead(disk: Disk, head: string, boundary: string, parts: seq<Part>, tail: string)
    requires Find(head + "boundary=", "boundary=", 0) == Some(|head|) && NoLineEnds(boundary)
    requires forall i :: 0 <= i < |parts| ==> GoodPart(parts[i], "--" + boundary)
    requires AllSaved(disk, 0, parts)
    ensures var d := Delimiter(head + ("boundary=" + boundary));
            && d.Some? && d.value != ""
            && var files := Saves(disk, 0, Parts(Compose(parts, "--" + boundary, tail), d.value, 0));
               |files| == |parts| &&
               forall i :: 0 <= i < |parts| ==>
                 SavedAs(disk, i, Part(parts[i].headers, parts[i].content + CRLF), files[i])
  {
    hide Delimiter;
    hide Parts;
    hide Compose;
    hide Saves;
    hide SavedAs;
    hide AllSaved;
    hide GoodPart;
    DelimiterIs(head, boundary);
    UploadSaves(disk, parts, "--" + boundary, tail);
  }

  // ---------------------------------------------------------------- what one turn takes, in any body

  /** The text behind a delimiter that opens a part: a line end that is dropped, or neither that nor two hyphens. */
  predicate Opens(eol: string, x: string) {
    eol == CRLF || (eol == "" && |x| >= 2 && x[..2] != "--" && x[..2] != CRLF)
  }

  function ContentText(part: Part, delimiter: string, rest: string): string { part.content + (delimiter + rest) }

  function WholeText(part: Part, delimiter: string, rest: string): string {
    part.headers + (DOUBLE_CRLF + ContentText(part, delimiter, rest))
  }

  /** The text is a gap, the delimiter, the part with an empty line between its two halves, and the delimiter again;
      each of them is the first there is. */
  predicate StandsIn(u: string, delimiter: string, part: Part, gap: string, eol: string, rest: string) {
    && u == gap + (delimiter + (eol + WholeText(part, delimiter, rest)))
    && Opens(eol, WholeText(part, delimiter, rest))
    && Find(gap + delimiter, delimiter, 0) == Some(|gap|)
    && Find(part.headers + DOUBLE_CRLF, DOUBLE_CRLF, 0) == Some(|part.headers|)
    && Find(part.content + delimiter, delimiter, 0) == Some(|part.content|)
  }

  /** From `pos` on the body starts with such a part, and `next` is where its content starts. */
  ghost predicate PartIn(body: string, delimiter: string, pos: nat, part: Part, next: nat)
    requires pos <= |body|
  {
    exists gap: string, eol: string, rest: string ::
      && StandsIn(body[pos..], delimiter, part, gap, eol, rest)
      && next == pos + |gap| + |delimiter| + |eol| + |part.headers| + 4
  }

  lemma FoundFrom(body: string, n: nat, k: nat, a: string, pat: string, t: string)
    requires n <= |body| && body[n..] == a + (pat + t) && Find(a + pat, pat, 0) == Some(|a|) && k == n + |a|
    ensures Find(body, pat, n) == Some(k)
    ensures k + |pat| <= |body| && body[n..k] == a && body[k + |pat|..] == t
  {
    hide Find;
    hide At;
    FindPut(a, pat, t);
    FindInSuffix(body, pat, n);
    PieceOf(body, n, a, pat + t);
    PieceOf(body, k, pat, t);
  }

  lemma TwoIs(body: string, p: nat, eol: string, x: string)
    requires p <= |body| && body[p..] == eol + x && Opens(eol, x)
    ensures Two(body, p) != "--" && (Two(body, p) == CRLF <==> eol == CRLF)
  {
    if eol == CRLF {
      assert body[p..][..2] == CRLF;
      DropTake(body, p, 2);
    } else {
      assert body[p..] == x;
      DropTake(body, p, 2);
    }
  }

  /** The searches of one turn put together. */
  lemma TurnIs(body: string, delimiter: string, pos: nat, k: nat, h: nat, e: nat, next: nat)
    requires delimiter != "" && k + |delimiter| <= |body|
    requires Find(body, delimiter, pos) == Some(k) && Two(body, k + |delimiter|) != "--" && k + |delimiter| < |body|
    requires var p := k + |delimiter|; Find(body, DOUBLE_CRLF, if Two(body, p) == CRLF then p + 2 else p) == Some(h)
    requires next == h + 4 && Find(body, delimiter, next) == Some(e)
    ensures var p := k + |delimiter|; var q := if Two(body, p) == CRLF then p + 2 else p;
            q <= h && NextPart(body, delimiter, pos) == At_(Part(body[q..h], body[next..e]), next)
  {
    hide Find;
    hide At;
    hide Two;
  }

  lemma PartTaken(body: string, delimiter: string, pos: nat, part: Part, gap: string, eol: string, rest: string)
    requires delimiter != "" && pos <= |body| && StandsIn(body[pos..], delimiter, part, gap, eol, rest)
    ensures NextPart(body, delimiter, pos) == At_(part, pos + |gap| + |delimiter| + |eol| + |part.headers| + 4)
  {
    hide Find;
    hide At;
    hide Two;
    hide Opens;
    hide NextPart;
    hide ContentText;
    hide WholeText;
    hide StandsIn;
    var k := pos + |gap|;
    var q := k + |delimiter| + |eol|;
    var h := q + |part.headers|;
    OpeningFound(body, delimiter, pos, k, q, part, gap, eol, rest);
    HeadersFound(body, q, h, part, delimiter, rest);
    ContentFound(body, h + 4, h + 4 + |part.content|, part, delimiter, rest);
    TurnIs(body, delimiter, pos, k, h, h + 4 + |part.content|, h + 4);
  }

  lemma OpeningFound(body: string, delimiter: string, pos: nat, k: nat, q: nat, part: Part, gap: string, eol: string,
                     rest: string)
    requires delimiter != "" && pos <= |body| && StandsIn(body[pos..], delimiter, part, gap, eol, rest)
    requires k == pos + |gap| && q == k + |delimiter| + |eol|
    ensures Find(body, delimiter, pos) == Some(k) && k + |delimiter| < |body| && Two(body, k + |delimiter|) != "--"
    ensures q == if Two(body, k + |delimiter|) == CRLF then k + |delimiter| + 2 else k + |delimiter|
    ensures q <= |body| && body[q..] == WholeText(part, delimiter, rest)
    ensures Find(part.headers + DOUBLE_CRLF, DOUBLE_CRLF, 0) == Some(|part.headers|)
    ensures Find(part.content + delimiter, delimiter, 0) == Some(|part.content|)
  {
    hide Find;
    hide At;
    hide Two;
    hide Opens;
    hide ContentText;
    var x := WholeText(part, delimiter, rest);
    FoundFrom(body, pos, k, gap, delimiter, eol + x);
    TwoIs(body, k + |delimiter|, eol, x);
    OpensKinds(eol, x);
    PieceOf(body, k + |delimiter|, eol, x);
  }

  lemma HeadersFound(body: string, q: nat, h: nat, part: Part, delimiter: string, rest: string)
    requires q <= |body| && body[q..] == WholeText(part, delimiter, rest) && h == q + |part.headers|
    requires Find(part.headers + DOUBLE_CRLF, DOUBLE_CRLF, 0) == Some(|part.headers|)
    ensures Find(body, DOUBLE_CRLF, q) == Some(h) && h + 4 <= |body| && body[q..h] == part.headers
    ensures body[h + 4..] == ContentText(part, delimiter, rest)
  {
    hide Find;
    hide At;
    hide ContentText;
    FoundFrom(body, q, h, part.headers, DOUBLE_CRLF, ContentText(part, delimiter, rest));
  }

  lemma ContentFound(body: string, n: nat, e: nat, part: Part, delimiter: string, rest: string)
    requires n <= |body| && body[n..] == ContentText(part, delimiter, rest) && e == n + |part.content|
    requires Find(part.content + delimiter, delimiter, 0) == Some(|part.content|)
    ensures Find(body, delimiter, n) == Some(e) && e <= |body| && body[n..e] == part.content
  {
    hide Find;
    hide At;
    FoundFrom(body, n, e, part.content, delimiter, rest);
  }

  lemma OpensKinds(eol: string, x: string)
    requires Opens(eol, x)
    ensures eol == CRLF || eol == ""
  {
  }

  lemma Slices(body: string, n: nat, k: nat, m: nat)
    requires n <= k <= m <= |body|
    ensures body[n..][..k - n] == body[n..k] && body[n..][m - n..] == body[m..]
  {
  }

  lemma FoundCut(body: string, pat: string, n: nat, k: nat)
    requires n <= |body| && Find(body, pat, n) == Some(k)
    ensures n <= k && k + |pat| <= |body| && body[n..] == body[n..k] + (pat + body[k + |pat|..])
    ensures Find(body[n..k] + pat, pat, 0) == Some(k - n)
  {
    hide Find;
    hide At;
    FindInSuffix(body, pat, n);
    Slices(body, n, k, k + |pat|);
    FindCut(body[n..], pat, k - n);
  }

  lemma TwoOpens(body: string, p: nat, h: nat)
    requires p < |body| && Two(body, p) != "--" && h + 4 <= |body|
    requires p <= h
    ensures var eol := if Two(body, p) == CRLF then CRLF else "";
            p + |eol| <= |body| && body[p..] == eol + body[p + |eol|..] && Opens(eol, body[p + |eol|..])
  {
    DropTake(body, p, 2);
    if Two(body, p) == CRLF {
      assert body[p..] == body[p..][..2] + body[p..][2..];
    } else {
      assert "" + body[p..] == body[p..];
    }
  }

  /** What a turn that takes a part has found. */
  lemma TurnFound(body: string, delimiter: string, pos: nat)
    requires delimiter != "" && NextPart(body, delimiter, pos).At_?
    ensures Find(body, delimiter, pos).Some?
    ensures var p := Find(body, delimiter, pos).value + |delimiter|;
            && p < |body| && Two(body, p) != "--"
            && var q := if Two(body, p) == CRLF then p + 2 else p;
               && q <= |body| && Find(body, DOUBLE_CRLF, q).Some?
               && Find(body, delimiter, Find(body, DOUBLE_CRLF, q).value + 4).Some?
  {
    hide Find;
    hide At;
  }

  lemma PartPieces(body: string, delimiter: string, pos: nat, k: nat, eol: string, h: nat, e: nat)
    requires delimiter != "" && pos <= |body| && Find(body, delimiter, pos) == Some(k)
    requires var p := k + |delimiter|; p + |eol| <= |body| && body[p..] == eol + body[p + |eol|..]
    requires Opens(eol, body[k + |delimiter| + |eol|..])
    requires Find(body, DOUBLE_CRLF, k + |delimiter| + |eol|) == Some(h) && Find(body, delimiter, h + 4) == Some(e)
    ensures pos <= k <= k + |delimiter| + |eol| <= h && h + 4 <= e && e + |delimiter| <= |body|
    ensures StandsIn(body[pos..], delimiter, Part(body[k + |delimiter| + |eol|..h], body[h + 4..e]),
                     body[pos..k], eol, body[e + |delimiter|..])
  {
    hide Find;
    hide At;
    hide Opens;
    FoundCut(body, delimiter, pos, k);
    FoundCut(body, DOUBLE_CRLF, k + |delimiter| + |eol|, h);
    FoundCut(body, delimiter, h + 4, e);
  }

  lemma TakenIsPart(body: string, delimiter: string, pos: nat)
    requires delimiter != "" && pos <= |body| && NextPart(body, delimiter, pos).At_?
    ensures var f := NextPart(body, delimiter, pos); PartIn(body, delimiter, pos, f.part, f.next)
  {
    hide Find;
    hide At;
    hide Two;
    hide Opens;
    hide NextPart;
    hide StandsIn;
    TurnFound(body, delimiter, pos);
    var k := Find(body, delimiter, pos).value;
    var p := k + |delimiter|;
    var eol := if Two(body, p) == CRLF then CRLF else "";
    var h := Find(body, DOUBLE_CRLF, p + |eol|).value;
    var e := Find(body, delimiter, h + 4).value;
    TurnIs(body, delimiter, pos, k, h, e, h + 4);
    TwoOpens(body, p, h);
    PartPieces(body, delimiter, pos, k, eol, h, e);
  }

  lemma PartInTaken(body: string, delimiter: string, pos: nat, part: Part, next: nat)
    requires delimiter != "" && pos <= |body| && PartIn(body, delimiter, pos, part, next)
    ensures NextPart(body, delimiter, pos) == At_(part, next)
  {
    hide NextPart;
    hide StandsIn;
    var gap: string, eol: string, rest: string :|
      && StandsIn(body[pos..], delimiter, part, gap, eol, rest)
      && next == pos + |gap| + |delimiter| + |eol| + |part.headers| + 4;
    PartTaken(body, delimiter, pos, part, gap, eol, rest);
  }

  /** Main result on one turn, for any body at all: a part is taken exactly when it stands there whole, and it is that
      part; a header block without its end or a content without its delimiter is not taken. */
  lemma PartTakenExactly(body: string, delimiter: string, pos: nat, part: Part, next: nat)
    requires delimiter != "" && pos <= |body|
    ensures NextPart(body, delimiter, pos) == At_(part, next) <==> PartIn(body, delimiter, pos, part, next)
  {
    hide NextPart;
    hide PartIn;
    if NextPart(body, delimiter, pos).At_? { TakenIsPart(body, delimiter, pos); }
    if PartIn(body, delimiter, pos, part, next) { PartInTaken(body, delimiter, pos, part, next); }
  }
}
