/** Byte strings and the string helpers the parsers share (std::string::find and srcs/Utils/Utils.cpp).
    A byte of the program is a `char` below 256; nothing here depends on that bound. */
module Text {

  datatype Option<+T> = None | Some(value: T)

  const CRLF: string := "\r\n"
  const DOUBLE_CRLF: string := "\r\n\r\n"

  // Sequence identities, proved once each.

  lemma Assoc<T>(a: seq<T>, b: seq<T>, c: seq<T>)
    ensures a + b + c == a + (b + c)
  {
  }

  lemma DropDrop<T>(s: seq<T>, i: nat, j: nat)
    requires i + j <= |s|
    ensures s[i..][j..] == s[i + j..]
  {
  }

  lemma DropTake<T>(s: seq<T>, i: nat, j: nat)
    requires i + j <= |s|
    ensures s[i..][..j] == s[i..i + j]
  {
  }

  lemma AppendParts<T>(a: seq<T>, b: seq<T>)
    ensures (a + b)[..|a|] == a && (a + b)[|a|..] == b
  {
  }

  /** Cutting an appended sequence inside its first part. */
  lemma AppendCut<T>(a: seq<T>, b: seq<T>, k: nat)
    requires k <= |a|
    ensures (a + b)[..k] == a[..k] && (a + b)[k..] == a[k..] + b
  {
  }

  lemma HeadTail<T>(s: seq<T>)
    requires s != []
    ensures [s[0]] + s[1..] == s
  {
  }

  /** `pat` occurs in `s` at index `i`. */
  predicate At(s: string, pat: string, i: nat) {
    i + |pat| <= |s| && s[i..i + |pat|] == pat
  }

  /** std::string::find: the first occurrence at or after `from`. */
  function Find(s: string, pat: string, from: nat): (r: Option<nat>)
    ensures r.Some? ==>
              && from <= r.value && r.value + |pat| <= |s| && At(s, pat, r.value)
              && forall j :: from <= j < r.value ==> !At(s, pat, j)
    ensures r.None? ==> forall j :: from <= j ==> !At(s, pat, j)
    decreases |s| - from
  {
    if from + |pat| > |s| then None
    else if At(s, pat, from) then Some(from)
    else Find(s, pat, from + 1)
  }

  lemma AtFirst(s: string, pat: string, i: nat)
    requires pat != "" && At(s, pat, i)
    ensures s[i] == pat[0]
  {
    assert s[i..i + |pat|][0] == s[i];
  }

  /** One character that differs rules an occurrence out. */
  lemma NotAt(s: string, pat: string, j: nat, i: nat)
    requires j <= i < j + |pat| && i < |s| && s[i] != pat[i - j]
    ensures !At(s, pat, j)
  {
    if j + |pat| <= |s| { assert s[j..j + |pat|][i - j] == s[i]; }
  }

  lemma FindIs(s: string, pat: string, from: nat, k: nat)
    requires from <= k && At(s, pat, k)
    requires forall j :: from <= j < k ==> !At(s, pat, j)
    ensures Find(s, pat, from) == Some(k)
  {
  }

  lemma AtPrefix(s: string, t: string, pat: string, i: nat)
    requires i + |pat| <= |s|
    ensures At(s + t, pat, i) == At(s, pat, i)
  {
    assert (s + t)[i..i + |pat|] == s[i..i + |pat|];
  }

  lemma AtSuffix(s: string, t: string, pat: string, i: nat)
    ensures At(s + t, pat, |s| + i) == At(t, pat, i)
  {
    if i + |pat| <= |t| {
      assert (s + t)[|s| + i..|s| + i + |pat|] == t[i..i + |pat|];
    }
  }

  /** More text at the end does not move a match that was already there. */
  lemma FindExtends(s: string, t: string, pat: string, from: nat)
    requires Find(s, pat, from).Some?
    ensures Find(s + t, pat, from) == Find(s, pat, from)
  {
    var k := Find(s, pat, from).value;
    AtPrefix(s, t, pat, k);
    forall j | from <= j < k ensures !At(s + t, pat, j) {
      AtPrefix(s, t, pat, j);
    }
  }

  /** Searching from `from` is searching the suffix that starts there. */
  lemma FindInSuffix(s: string, pat: string, from: nat)
    requires from <= |s|
    ensures Find(s, pat, from).None? <==> Find(s[from..], pat, 0).None?
    ensures Find(s, pat, from).Some? ==> Find(s, pat, from).value == from + Find(s[from..], pat, 0).value
  {
    assert s == s[..from] + s[from..];
    var a, b := Find(s, pat, from), Find(s[from..], pat, 0);
    if a.Some? {
      AtSuffix(s[..from], s[from..], pat, a.value - from);
    }
    if b.Some? {
      AtSuffix(s[..from], s[from..], pat, b.value);
      forall j | from <= j < from + b.value ensures !At(s, pat, j) {
        AtSuffix(s[..from], s[from..], pat, j - from);
      }
      FindIs(s, pat, from, from + b.value);
    }
  }

  lemma CutThree<T>(s: seq<T>, k: nat, n: nat)
    requires k + n <= |s|
    ensures s == s[..k] + (s[k..k + n] + s[k + n..]) && s[..k + n] == s[..k] + s[k..k + n]
  {
  }

  lemma FindBefore(s: string, pat: string, k: nat)
    requires Find(s, pat, 0) == Some(k)
    ensures Find(s[..k + |pat|], pat, 0) == Some(k)
  {
    var front, tail := s[..k + |pat|], s[k + |pat|..];
    assert s == front + tail;
    AtPrefix(front, tail, pat, k);
    forall j | 0 <= j < k ensures !At(front, pat, j) {
      AtPrefix(front, tail, pat, j);
    }
    FindIs(front, pat, 0, k);
  }

  /** A first occurrence, cut out of its text. */
  lemma FindCut(s: string, pat: string, k: nat)
    requires Find(s, pat, 0) == Some(k)
    ensures s == s[..k] + (pat + s[k + |pat|..]) && Find(s[..k] + pat, pat, 0) == Some(k)
  {
    hide Find;
    FindBefore(s, pat, k);
    CutThree(s, k, |pat|);
  }

  /** And put in front of any text. */
  lemma FindPut(a: string, pat: string, t: string)
    requires Find(a + pat, pat, 0) == Some(|a|)
    ensures Find(a + (pat + t), pat, 0) == Some(|a|)
  {
    Assoc(a, pat, t);
    FindExtends(a + pat, t, pat, 0);
  }

  predicate IsSuffix(rest: string, s: string) {
    |rest| <= |s| && rest == s[|s| - |rest|..]
  }

  lemma SuffixOfSuffix(rest: string, s: string, i: nat)
    requires i <= |s| && IsSuffix(rest, s[i..])
    ensures IsSuffix(rest, s)
  {
  }

  // ---------------------------------------------------------------- Utils::split

  /** The pieces between delimiters; a delimiter at the very end opens no further piece. */
  function Split(s: string, d: char): (pieces: seq<string>)
    ensures forall p :: p in pieces ==> d !in p
    ensures |pieces| <= |s|
    decreases |s|
  {
    if s == "" then []
    else
      match Find(s, [d], 0)
      case None => NoCharAt(s, d, |s|); [s]
      case Some(k) => NoCharAt(s, d, k); [s[..k]] + Split(s[k + 1..], d)
  }

  lemma NoCharAt(s: string, d: char, k: nat)
    requires k <= |s| && forall j :: 0 <= j < k ==> !At(s, [d], j)
    ensures d !in s[..k]
    ensures k == |s| ==> d !in s
  {
    forall j | 0 <= j < k ensures s[j] != d {
      assert !At(s, [d], j);
      assert s[j..j + 1] == [s[j]];
    }
    assert s[..|s|] == s;
  }

  lemma FindChar(p: string, d: char, rest: string)
    requires d !in p
    ensures Find(p + [d] + rest, [d], 0) == Some(|p|)
  {
    var s := p + [d] + rest;
    assert At(s, [d], |p|);
    forall j | 0 <= j < |p| ensures !At(s, [d], j) {
      assert s[j] == p[j] && s[j..j + 1] == [p[j]];
    }
    FindIs(s, [d], 0, |p|);
  }

  lemma FindCharAbsent(s: string, d: char)
    requires d !in s
    ensures Find(s, [d], 0) == None
  {
    forall j | 0 <= j ensures !At(s, [d], j) {
      if j < |s| { assert s[j..j + 1] == [s[j]]; }
    }
  }

  lemma SplitFirst(p: string, d: char, rest: string)
    requires d !in p
    ensures Split(p + [d] + rest, d) == [p] + Split(rest, d)
  {
    FindChar(p, d, rest);
    var s := p + [d] + rest;
    assert s[..|p|] == p && s[|p| + 1..] == rest;
  }

  lemma SplitWhole(p: string, d: char)
    requires d !in p && p != ""
    ensures Split(p, d) == [p]
  {
    FindCharAbsent(p, d);
  }

  /** Pieces written with the delimiter after each one. */
  function Terminated(pieces: seq<string>, d: char): string {
    if pieces == [] then "" else pieces[0] + [d] + Terminated(pieces[1..], d)
  }

  /** Split inverts writing each piece with a closing delimiter. */
  lemma {:induction false} SplitTerminated(pieces: seq<string>, d: char)
    requires forall p :: p in pieces ==> d !in p
    ensures Split(Terminated(pieces, d), d) == pieces
  {
    if pieces != [] {
      SplitTerminated(pieces[1..], d);
      SplitFirst(pieces[0], d, Terminated(pieces[1..], d));
      assert pieces == [pieces[0]] + pieces[1..];
    }
  }

  lemma TerminatedCons(p: string, pieces: seq<string>, d: char)
    ensures Terminated([p] + pieces, d) == p + [d] + Terminated(pieces, d)
  {
    assert ([p] + pieces)[1..] == pieces;
  }

  /** The text with a closing delimiter added where it lacks one. */
  function Closed(s: string, d: char): string {
    if s == "" || s[|s| - 1] == d then s else s + [d]
  }

  lemma ClosedSuffix(p: string, d: char, r: string)
    ensures Closed(p + [d] + r, d) == p + [d] + Closed(r, d)
  {
    var s := p + [d] + r;
    if r != "" {
      assert s[|s| - 1] == r[|r| - 1];
      assert s + [d] == p + [d] + (r + [d]);
    }
  }

  /** And Split loses nothing but the last delimiter: the pieces rebuild the text. */
  lemma {:induction false} TerminatedSplit(s: string, d: char)
    ensures Terminated(Split(s, d), d) == Closed(s, d)
    decreases |s|
  {
    if s == "" {
    } else if Find(s, [d], 0).None? {
      NoCharAt(s, d, |s|);
      assert s[|s| - 1] in s;
      TerminatedCons(s, [], d);
    } else {
      var k := Find(s, [d], 0).value;
      assert s == s[..k] + [d] + s[k + 1..];
      TerminatedSplit(s[k + 1..], d);
      TerminatedCons(s[..k], Split(s[k + 1..], d), d);
      ClosedSuffix(s[..k], d, s[k + 1..]);
    }
  }

  lemma SplitStep(s: string, d: char)
    requires s != ""
    ensures Split(s, d) == match Find(s, [d], 0) case None => [s] case Some(k) => [s[..k]] + Split(s[k + 1..], d)
  {
  }

  lemma SplitAtMatch(s: string, d: char, current: nat, next: Option<nat>)
    requires current < |s| && next == Find(s, [d], current)
    ensures next.None? ==> Split(s[current..], d) == [s[current..]]
    ensures next.Some? ==> Split(s[current..], d) == [s[current..next.value]] + Split(s[next.value + 1..], d)
  {
    hide At;
    hide Split;
    FindInSuffix(s, [d], current);
    SplitStep(s[current..], d);
    if next.Some? {
      var k := next.value - current;
      assert next.value == current + k && next.value + 1 == current + (k + 1);
      DropTake(s, current, k);
      DropDrop(s, current, k + 1);
    }
  }

  /** Utils::split as the loop of the source: `current` walks from delimiter to delimiter. */
  method SplitLoop(s: string, d: char) returns (result: seq<string>)
    ensures result == Split(s, d)
  {
    hide At;
    hide Split;
    result := [];
    var current := 0;
    assert s[0..] == s;
    while current < |s|
      invariant current <= |s|
      invariant Split(s, d) == result + Split(s[current..], d)
      decreases |s| - current
    {
      var next := Find(s, [d], current);
      SplitAtMatch(s, d, current, next);
      if next.None? {
        result := result + [s[current..]];
        return;
      }
      result := result + [s[current..next.value]];
      current := next.value + 1;
    }
  }

  // ---------------------------------------------------------------- Utils::trim, Utils::is_numeric

  function TrimLeft(s: string, delim: string): string {
    if s != "" && s[0] in delim then TrimLeft(s[1..], delim) else s
  }

  function TrimRight(s: string, delim: string): string {
    if s != "" && s[|s| - 1] in delim then TrimRight(s[..|s| - 1], delim) else s
  }

  function Trim(s: string, delim: string): string {
    TrimRight(TrimLeft(s, delim), delim)
  }

  lemma {:induction false} TrimLeftAll(pad: string, s: string, delim: string)
    requires forall c :: c in pad ==> c in delim
    requires s == "" || s[0] !in delim
    ensures TrimLeft(pad + s, delim) == s
  {
    if pad == "" {
      assert pad + s == s;
    } else {
      assert pad[0] in pad;
      assert (pad + s)[1..] == pad[1..] + s;
      TrimLeftAll(pad[1..], s, delim);
    }
  }

  lemma {:induction false} TrimRightAll(s: string, pad: string, delim: string)
    requires forall c :: c in pad ==> c in delim
    requires s == "" || s[|s| - 1] !in delim
    ensures TrimRight(s + pad, delim) == s
    decreases |pad|
  {
    if pad == "" {
      assert s + pad == s;
    } else {
      assert pad[|pad| - 1] in pad;
      assert (s + pad)[..|s + pad| - 1] == s + pad[..|pad| - 1];
      TrimRightAll(s, pad[..|pad| - 1], delim);
    }
  }

  lemma {:induction false} TrimmedLeft(s: string, delim: string)
    ensures var r := TrimLeft(s, delim);
            && |r| <= |s| && r == s[|s| - |r|..] && (forall i :: 0 <= i < |s| - |r| ==> s[i] in delim)
            && (r != "" ==> r[0] !in delim)
  {
    if s != "" && s[0] in delim { TrimmedLeft(s[1..], delim); }
  }

  lemma {:induction false} TrimmedRight(s: string, delim: string)
    ensures var r := TrimRight(s, delim);
            && |r| <= |s| && r == s[..|r|] && (forall i :: |r| <= i < |s| ==> s[i] in delim)
            && (r != "" ==> r[|r| - 1] !in delim)
    decreases |s|
  {
    if s != "" && s[|s| - 1] in delim { TrimmedRight(s[..|s| - 1], delim); }
  }

  /** Trimming removes exactly the padding around a core whose two end characters are not padding. */
  lemma TrimCore(left: string, core: string, right: string, delim: string)
    requires forall c :: c in left + right ==> c in delim
    requires core != "" ==> core[0] !in delim && core[|core| - 1] !in delim
    ensures Trim(left + core + right, delim) == core
  {
    assert forall c :: c in left ==> c in left + right;
    assert forall c :: c in right ==> c in left + right;
    if core == "" {
      assert left + core + right == left + right + "";
      TrimLeftAll(left + right, "", delim);
    } else {
      assert left + core + right == left + (core + right);
      TrimLeftAll(left, core + right, delim);
      TrimRightAll(core, right, delim);
    }
  }

  predicate IsDigit(c: char) { '0' <= c <= '9' }

  predicate IsNumeric(s: string) {
    forall i :: 0 <= i < |s| ==> IsDigit(s[i])
  }

  method IsNumericLoop(s: string) returns (ok: bool)
    ensures ok == IsNumeric(s)
  {
    for i := 0 to |s|
      invariant forall j :: 0 <= j < i ==> IsDigit(s[j])
    {
      if !IsDigit(s[i]) {
        return false;
      }
    }
    return true;
  }

  // ---------------------------------------------------------------- <cctype> in the "C" locale

  function ToLower(c: char): (r: char) {
    if 'A' <= c <= 'Z' then (c as int + 32) as char else c
  }

  function Lower(s: string): (r: string)
    ensures |r| == |s| && forall i :: 0 <= i < |s| ==> r[i] == ToLower(s[i])
  {
    seq(|s|, i requires 0 <= i < |s| => ToLower(s[i]))
  }

  predicate IsAlnum(c: char) { IsDigit(c) || 'a' <= c <= 'z' || 'A' <= c <= 'Z' }

  predicate IsSpace(c: char) { c == ' ' || '\t' <= c <= '\r' }

  predicate IsHexDigit(c: char) { IsDigit(c) || 'a' <= c <= 'f' || 'A' <= c <= 'F' }

  function HexValue(c: char): (v: nat)
    requires IsHexDigit(c)
    ensures v < 16
  {
    if IsDigit(c) then c as int - '0' as int
    else if 'a' <= c <= 'f' then c as int - 'a' as int + 10
    else c as int - 'A' as int + 10
  }

  /** `char` is signed where the program is built: a byte from 128 up compares as a negative number. */
  function Signed(c: char): int {
    if c as int >= 128 then c as int - 256 else c as int
  }
}
