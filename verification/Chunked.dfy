/** The chunked decoder that keeps its place between reads (parse_chunked_body,
    srcs/ReqRes/RequestParser.cpp:330-409). How a size line is read is a parameter here; the request
    parser instantiates it with strtoul. */
module Chunked {
  import opened Text

  /** `Shipped` is the code as it stands. `Repaired` differs from it in the points where the code misses
      what its own comments and error constants say it is for; each use of the rule says which. */
  datatype Rule = Shipped | Repaired

  type Sizer = string -> Option<nat>

  /** find_line_end: past the first CRLF, and without one the last byte, whatever its comment says. */
  function LineEnd(u: string): (e: nat)
    ensures e <= |u|
    ensures match Find(u, CRLF, 0) case Some(k) => e == k + 2 case None => e == if u == "" then 0 else |u| - 1
  {
    match Find(u, CRLF, 0)
    case Some(k) => k + 2
    case None => if u == "" then 0 else |u| - 1
  }

  /** The body so far, and the fields that remember where in a chunk the decoder stands. */
  datatype Place = Place(body: string, reading: bool, size: nat, got: nat)

  /** The counters make sense together; `size - got` does not underflow. */
  predicate Counters(d: Place) {
    if d.reading then d.got <= d.size && 0 < d.size else d.size == 0 && d.got == 0
  }

  datatype Status = More | Finished | Malformed

  /** The outcome of a call, with the text it leaves unread. */
  datatype Decoded = Decoded(status: Status, place: Place, rest: string)

  function Min(a: nat, b: nat): nat { if a < b then a else b }

  /** Take `n` bytes of chunk data into the body. */
  function TakeData(d: Place, u: string, n: nat): Place
    requires n <= |u|
  {
    d.(body := d.body + u[..n], got := d.got + n)
  }

  function Outside(body: string): Place { Place(body, false, 0, 0) }

  /** Where the size line at the front of `u` ends, or None when the decoder has to wait.
      Shipped: find_line_end answers one before the end when there is no CRLF, and the caller takes that for a line.
      Repaired: a line needs its CRLF. Both wait when the CRLF is the last thing received. */
  function SizeLineEnd(rule: Rule, u: string): (e: Option<nat>)
    ensures e.Some? ==> e.value < |u|
  {
    var e := LineEnd(u);
    if e == |u| || (rule.Repaired? && Find(u, CRLF, 0).None?) then None else Some(e)
  }

  /** A line without any text counts as size 0, as strtoul has it. */
  function SizeOf(size: Sizer, line: string): Option<nat> {
    if line == "" then Some(0) else size(line)
  }

  /** One turn of the loop of parse_chunked_body ends the call or asks for another turn. */
  datatype Turn = Stop(p: Decoded) | Again(place: Place, rest: string)

  function DataTurn(d: Place, u: string): Turn
    requires Counters(d) && d.reading
  {
    var n := Min(d.size - d.got, |u|);
    var t, v := TakeData(d, u, n), u[n..];
    if t.got < t.size || |v| < 2 then Stop(Decoded(More, t, v))
    else if v[..2] != CRLF then Stop(Decoded(Malformed, t, v))
    else Again(Outside(t.body), v[2..])
  }

  /** On the last chunk the shipped decoder has already dropped the size line when it finds that the closing CRLF
      is not all there; the repaired one keeps the line for the next call. */
  function LastChunk(rule: Rule, d: Place, u: string, e: nat): Decoded
    requires e <= |u|
  {
    var v := u[e..];
    if |v| < 2 then Decoded(More, d, if rule.Shipped? then v else u)
    else if v[..2] != CRLF then Decoded(Malformed, d, v)
    else Decoded(Finished, d, v[2..])
  }

  function SizeTurn(rule: Rule, size: Sizer, d: Place, u: string): Turn {
    match SizeLineEnd(rule, u)
    case None => Stop(Decoded(More, d, u))
    case Some(e) =>
      match SizeOf(size, u[..e])
      case None => Stop(Decoded(Malformed, d, u))
      case Some(n) => if n == 0 then Stop(LastChunk(rule, d, u, e)) else Again(Place(d.body, true, n, 0), u[e..])
  }

  function OneTurn(rule: Rule, size: Sizer, d: Place, u: string): (t: Turn)
    requires Counters(d)
    ensures match t
            case Stop(p) => Counters(p.place) && |p.rest| <= |u| && p.rest == u[|u| - |p.rest|..]
            case Again(next, rest) => Counters(next) && |rest| < |u| && rest == u[|u| - |rest|..]
  {
    if d.reading then DataTurn(d, u) else SizeTurn(rule, size, d, u)
  }

  /** parse_chunked_body. It leaves a suffix of its input. */
  function Chunks(rule: Rule, size: Sizer, d: Place, u: string): (p: Decoded)
    requires Counters(d)
    ensures Counters(p.place) && |p.rest| <= |u| && p.rest == u[|u| - |p.rest|..]
    decreases |u|
  {
    if u == "" then Decoded(More, d, u)
    else
      match OneTurn(rule, size, d, u)
      case Stop(p) => p
      case Again(next, rest) => Chunks(rule, size, next, rest)
  }
}
