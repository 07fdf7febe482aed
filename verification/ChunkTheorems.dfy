/** How chunked decoding behaves under arbitrary cuts of the byte stream. */
module ChunkTheorems {
  import opened Text
  import opened Chunked

  /** The caller's next step: append what was received to what was left, and parse again while the body is open. */
  function Then(rule: Rule, size: Sizer, p: Decoded, more: string): (q: Decoded)
    requires Counters(p.place)
    ensures Counters(q.place)
  {
    if p.status.More? then Chunks(rule, size, p.place, p.rest + more) else p.(rest := p.rest + more)
  }

  // ---------------------------------------------------------------- one turn and more text

  lemma TakeDataTwice(d: Place, u: string, v: string, n: nat, m: nat)
    requires n <= |u| && m <= |v|
    ensures TakeData(TakeData(d, u, n), v, m) == TakeData(d, u[..n] + v, n + m)
    ensures (u[..n] + v)[n + m..] == v[m..]
  {
    assert (u[..n] + v)[..n + m] == u[..n] + v[..m];
    Assoc(d.body, u[..n], v[..m]);
  }

  /** A turn on chunk data, by what is left of the text behind the data. */
  function AfterData(t: Place, v: string): Turn {
    if t.got < t.size || |v| < 2 then Stop(Decoded(More, t, v))
    else if v[..2] != CRLF then Stop(Decoded(Malformed, t, v))
    else Again(Outside(t.body), v[2..])
  }

  lemma DataTurnIs(d: Place, u: string, n: nat)
    requires Counters(d) && d.reading && n == Min(d.size - d.got, |u|)
    ensures DataTurn(d, u) == AfterData(TakeData(d, u, n), u[n..])
  {
  }

  /** A turn that reads data and stops to wait is continued, not repeated, when more text comes. */
  lemma DataResumes(d: Place, u: string, more: string)
    requires Counters(d) && d.reading
    requires DataTurn(d, u).Stop? && DataTurn(d, u).p.status.More?
    ensures var p := DataTurn(d, u).p;
            Counters(p.place) && p.place.reading && DataTurn(p.place, p.rest + more) == DataTurn(d, u + more)
  {
    hide TakeData;
    hide DataTurn;
    var n := Min(d.size - d.got, |u|);
    var t, v := TakeData(d, u, n), u[n..] + more;
    DataTurnIs(d, u, n);
    TakenData(d, u, n);
    var m := Min(t.size - t.got, |v|);
    HeadAndRest(u, n);
    Assoc(u[..n], u[n..], more);
    TakeDataTwice(d, u, v, n, m);
    DataTurnIs(t, v, m);
    DataTurnIs(d, u + more, n + m);
  }

  lemma HeadAndRest(u: string, n: nat)
    requires n <= |u|
    ensures u[..n] + u[n..] == u
  {
  }

  lemma TakenData(d: Place, u: string, n: nat)
    requires n <= |u|
    ensures var t := TakeData(d, u, n); t.reading == d.reading && t.size == d.size && t.got == d.got + n
  {
  }

  lemma DataExtends(d: Place, u: string, more: string)
    requires Counters(d) && d.reading
    ensures match DataTurn(d, u)
            case Again(next, rest) => DataTurn(d, u + more) == Again(next, rest + more)
            case Stop(p) => !p.status.More? ==> DataTurn(d, u + more) == Stop(p.(rest := p.rest + more))
  {
    var n := Min(d.size - d.got, |u|);
    AppendCut(u, more, n);
    if |u| - n >= 2 { AppendCut(u[n..], more, 2); }
  }

  lemma SizeLineExtends(rule: Rule, u: string, more: string)
    requires SizeLineEnd(rule, u).Some? && Find(u, CRLF, 0).Some?
    ensures SizeLineEnd(rule, u + more) == SizeLineEnd(rule, u)
    ensures (u + more)[..SizeLineEnd(rule, u).value] == u[..SizeLineEnd(rule, u).value]
    ensures (u + more)[SizeLineEnd(rule, u).value..] == u[SizeLineEnd(rule, u).value..] + more
  {
    FindExtends(u, more, CRLF, 0);
    AppendCut(u, more, SizeLineEnd(rule, u).value);
  }

  lemma LastExtends(rule: Rule, d: Place, u: string, more: string, e: nat)
    requires e <= |u|
    ensures var p := LastChunk(rule, d, u, e);
            !p.status.More? ==> LastChunk(rule, d, u + more, e) == p.(rest := p.rest + more)
  {
    AppendCut(u, more, e);
    if |u| - e >= 2 { AppendCut(u[e..], more, 2); }
  }

  lemma SizeExtends(rule: Rule, size: Sizer, d: Place, u: string, more: string)
    requires rule.Repaired? || Find(u, CRLF, 0).Some?
    ensures match SizeTurn(rule, size, d, u)
            case Again(next, rest) => SizeTurn(rule, size, d, u + more) == Again(next, rest + more)
            case Stop(p) => !p.status.More? ==> SizeTurn(rule, size, d, u + more) == Stop(p.(rest := p.rest + more))
  {
    hide SizeOf;
    hide LastChunk;
    if SizeLineEnd(rule, u).Some? {
      var e := SizeLineEnd(rule, u).value;
      SizeLineExtends(rule, u, more);
      LastExtends(rule, d, u, more, e);
      if SizeOf(size, u[..e]) == Some(0) { LastWaits(rule, d, u, e); }
    }
  }

  lemma LastWaits(rule: Rule, d: Place, u: string, e: nat)
    requires e <= |u|
    ensures LastChunk(rule, d, u, e).status.More? <==> |u| - e < 2
  {
  }

  lemma TurnExtends(rule: Rule, size: Sizer, d: Place, u: string, more: string)
    requires Counters(d) && (d.reading || rule.Repaired? || Find(u, CRLF, 0).Some?)
    ensures match OneTurn(rule, size, d, u)
            case Again(next, rest) => OneTurn(rule, size, d, u + more) == Again(next, rest + more)
            case Stop(p) => !p.status.More? ==> OneTurn(rule, size, d, u + more) == Stop(p.(rest := p.rest + more))
  {
    if d.reading { DataExtends(d, u, more); } else { SizeExtends(rule, size, d, u, more); }
  }

  // ---------------------------------------------------------------- split independence

  /** The repaired decoder: stopping anywhere and going on with more text is one decode of the whole text. */
  lemma {:induction false} ChunksResume(size: Sizer, d: Place, u: string, more: string)
    requires Counters(d)
    ensures Then(Repaired, size, Chunks(Repaired, size, d, u), more) == Chunks(Repaired, size, d, u + more)
    decreases |u|
  {
    if u == "" {
      assert u + more == more;
    } else {
      TurnExtends(Repaired, size, d, u, more);
      match OneTurn(Repaired, size, d, u)
      case Again(next, rest) =>
        ChunksResume(size, next, rest, more);
      case Stop(p) =>
        if p.status.More? && d.reading {
          DataResumes(d, u, more);
          if p.rest + more == "" { assert u + more == u; }
        }
    }
  }

  function Concat(pieces: seq<string>): string {
    if pieces == [] then "" else pieces[0] + Concat(pieces[1..])
  }

  /** Append, parse, erase, for every piece of the stream in turn. */
  function Deliver(rule: Rule, size: Sizer, p: Decoded, pieces: seq<string>): (q: Decoded)
    requires Counters(p.place)
    decreases |pieces|
  {
    if pieces == [] then p else Deliver(rule, size, Then(rule, size, p, pieces[0]), pieces[1..])
  }

  lemma ConcatStep(u: string, pieces: seq<string>)
    ensures pieces == [] ==> u + Concat(pieces) == u
    ensures pieces != [] ==> u + pieces[0] + Concat(pieces[1..]) == u + Concat(pieces)
  {
    if pieces != [] { Assoc(u, pieces[0], Concat(pieces[1..])); }
  }

  lemma {:induction false} DeliverFrom(size: Sizer, d: Place, u: string, pieces: seq<string>)
    requires Counters(d)
    ensures Deliver(Repaired, size, Chunks(Repaired, size, d, u), pieces) ==
            Chunks(Repaired, size, d, u + Concat(pieces))
    decreases |pieces|
  {
    ConcatStep(u, pieces);
    if pieces != [] {
      ChunksResume(size, d, u, pieces[0]);
      DeliverFrom(size, d, u + pieces[0], pieces[1..]);
    }
  }

  /** Main result: under the repaired rule the state, the body and the unconsumed bytes depend on the byte stream
      alone, not on how the network cut it up. */
  lemma SplitIndependence(size: Sizer, d: Place, pieces: seq<string>)
    requires Counters(d)
    ensures Deliver(Repaired, size, Decoded(More, d, ""), pieces) == Chunks(Repaired, size, d, Concat(pieces))
  {
    DeliverFrom(size, d, "", pieces);
    assert "" + Concat(pieces) == Concat(pieces);
  }

  // ---------------------------------------------------------------- where the shipped decoder goes wrong

  /** The received text ends where the shipped decoder misreads it: two or more bytes into a size line whose CRLF
      has not arrived, or one byte into the CRLF that closes the last chunk. Only received text is looked at. */
  predicate CutsFraming(size: Sizer, d: Place, u: string)
    requires Counters(d)
    decreases |u|
  {
    if u == "" then false
    else if !d.reading && Find(u, CRLF, 0).None? then |u| >= 2
    else
      match OneTurn(Repaired, size, d, u)
      case Again(next, rest) => CutsFraming(size, next, rest)
      case Stop(p) =>
        !d.reading && SizeLineEnd(Repaired, u).Some? && ClosingCut(size, u, SizeLineEnd(Repaired, u).value)
  }

  predicate ClosingCut(size: Sizer, u: string, e: nat)
    requires e <= |u|
  {
    SizeOf(size, u[..e]) == Some(0) && |u| - e == 1
  }

  /** What the shipped decoder makes of a size line cut short: all but its last byte is read as the line. */
  function Misread(size: Sizer, d: Place, u: string): Decoded
    requires u != ""
  {
    var e := |u| - 1;
    match SizeOf(size, u[..e])
    case None => Decoded(Malformed, d, u)
    case Some(n) =>
      if n == 0 then Decoded(More, d, u[e..]) else Decoded(More, Place(d.body + u[e..], true, n, 1), "")
  }

  lemma OneByteOfData(size: Sizer, body: string, n: nat, c: string)
    requires n > 0 && |c| == 1
    ensures Chunks(Shipped, size, Place(body, true, n, 0), c) == Decoded(More, Place(body + c, true, n, 1), "")
  {
    assert c[..1] == c && c[1..] == "";
  }

  lemma ShippedShortLine(size: Sizer, d: Place, u: string)
    requires Counters(d) && !d.reading && u != "" && Find(u, CRLF, 0).None?
    ensures Chunks(Shipped, size, d, u) == Misread(size, d, u)
  {
    var e := |u| - 1;
    assert SizeLineEnd(Shipped, u) == Some(e);
    match SizeOf(size, u[..e])
    case None =>
    case Some(n) => if n != 0 { OneByteOfData(size, d.body, n, u[e..]); }
  }

  lemma MisreadExactly(size: Sizer, d: Place, u: string)
    requires Counters(d) && !d.reading && u != ""
    ensures Misread(size, d, u) == Decoded(More, d, u) <==> |u| == 1
    ensures !Misread(size, d, u).status.Finished?
  {
    assert |u| == 1 ==> u[..0] == "" && u[0..] == u;
  }

  lemma RepairedShortLine(size: Sizer, d: Place, u: string)
    requires Counters(d) && !d.reading && u != "" && Find(u, CRLF, 0).None?
    ensures Chunks(Repaired, size, d, u) == Decoded(More, d, u)
  {
    assert SizeLineEnd(Repaired, u) == None;
  }

  lemma ShortLine(size: Sizer, d: Place, u: string)
    requires Counters(d) && !d.reading && u != "" && Find(u, CRLF, 0).None?
    ensures Chunks(Repaired, size, d, u) == Decoded(More, d, u)
    ensures Chunks(Shipped, size, d, u) == Decoded(More, d, u) <==> |u| == 1
    ensures !Chunks(Shipped, size, d, u).status.Finished?
  {
    RepairedShortLine(size, d, u);
    ShippedShortLine(size, d, u);
    MisreadExactly(size, d, u);
  }

  /** For every decoder state and every buffer: the shipped decoder does what the repaired one does
      exactly when the buffer does not end at such a cut. */
  lemma {:induction false} ShippedAgreesExactly(size: Sizer, d: Place, u: string)
    requires Counters(d)
    ensures Chunks(Shipped, size, d, u) == Chunks(Repaired, size, d, u) <==> !CutsFraming(size, d, u)
    decreases |u|
  {
    if u == "" {
    } else if !d.reading && Find(u, CRLF, 0).None? {
      hide Chunks;
      ShortLine(size, d, u);
    } else {
      TurnAgrees(size, d, u);
      hide OneTurn;
      hide ClosingCut;
      match OneTurn(Repaired, size, d, u)
      case Again(next, rest) => ShippedAgreesExactly(size, next, rest);
      case Stop(p) =>
    }
  }

  /** With a whole line in front of them the two rules take the same turn, but for the closing cut. */
  lemma TurnAgrees(size: Sizer, d: Place, u: string)
    requires Counters(d) && u != "" && (d.reading || Find(u, CRLF, 0).Some?)
    ensures var s, r := OneTurn(Shipped, size, d, u), OneTurn(Repaired, size, d, u);
            var cut := !d.reading && SizeLineEnd(Repaired, u).Some? &&
                ClosingCut(size, u, SizeLineEnd(Repaired, u).value);
            && (r.Again? ==> s == r && !cut)
            && (r.Stop? ==> s.Stop? && (s.p == r.p <==> !cut))
  {
    if !d.reading {
      assert SizeLineEnd(Shipped, u) == SizeLineEnd(Repaired, u);
      if SizeLineEnd(Repaired, u).Some? { ClosingAgrees(d, u, SizeLineEnd(Repaired, u).value); }
    }
  }

  lemma ClosingAgrees(d: Place, u: string, e: nat)
    requires 0 < e < |u|
    ensures LastChunk(Shipped, d, u, e) == LastChunk(Repaired, d, u, e) <==> |u| - e != 1
  {
  }

  lemma CutResumeData(size: Sizer, d: Place, u: string, more: string)
    requires Counters(d) && d.reading && u != ""
    requires DataTurn(d, u).Stop? && DataTurn(d, u).p.status.More?
    ensures var p := DataTurn(d, u).p;
            Counters(p.place) && (CutsFraming(size, d, u + more) <==> CutsFraming(size, p.place, p.rest + more))
  {
    DataResumes(d, u, more);
    if DataTurn(d, u).p.rest + more == "" { assert u + more == u; }
  }

  lemma CutResumeTurn(size: Sizer, d: Place, u: string, more: string)
    requires Counters(d) && u != "" && (d.reading || Find(u, CRLF, 0).Some?)
    ensures var t := OneTurn(Repaired, size, d, u);
            && (t.Again? ==> CutsFraming(size, d, u + more) == CutsFraming(size, t.place, t.rest + more))
            && (t.Stop? && !t.p.status.More? ==> !CutsFraming(size, d, u + more))
  {
    TurnExtends(Repaired, size, d, u, more);
    if !d.reading {
      FindExtends(u, more, CRLF, 0);
      if SizeLineEnd(Repaired, u).Some? { SizeLineExtends(Repaired, u, more); }
    }
  }

  lemma WaitingSize(size: Sizer, d: Place, u: string)
    requires Counters(d) && u != "" && !d.reading
    requires OneTurn(Repaired, size, d, u).Stop? && OneTurn(Repaired, size, d, u).p.status.More?
    ensures Chunks(Repaired, size, d, u) == Decoded(More, d, u)
  {
  }

  /** Whether the text ends at a bad cut can be read off the decoder's own place in it. */
  lemma {:induction false} CutResume(size: Sizer, d: Place, u: string, more: string)
    requires Counters(d)
    ensures var p := Chunks(Repaired, size, d, u);
            CutsFraming(size, d, u + more) <==> p.status.More? && CutsFraming(size, p.place, p.rest + more)
    decreases |u|
  {
    if u == "" {
      assert u + more == more;
    } else if !d.reading && Find(u, CRLF, 0).None? {
      RepairedShortLine(size, d, u);
    } else {
      CutResumeTurn(size, d, u, more);
      match OneTurn(Repaired, size, d, u)
      case Again(next, rest) => CutResume(size, next, rest, more);
      case Stop(p) =>
        if p.status.More? {
          if d.reading { CutResumeData(size, d, u, more); } else { WaitingSize(size, d, u); }
        }
    }
  }

  // ---------------------------------------------------------------- where a call stops with text left over

  /** The text stops the shipped decoder with some of it unread: one byte behind the data of a chunk or behind the last
      size line, a size line that ends the text, or one cut short that reads as 0 without its last byte. */
  predicate LeavesOver(size: Sizer, d: Place, u: string)
    requires Counters(d)
    decreases |u|
  {
    if u == "" then false
    else if d.reading then
      var n := Min(d.size - d.got, |u|);
      var v := u[n..];
      && n == d.size - d.got
      && (|v| == 1 || (|v| > 1 && v[..2] == CRLF && LeavesOver(size, Outside(d.body + u[..n]), v[2..])))
    else
      match Find(u, CRLF, 0)
      case None => SizeOf(size, u[..|u| - 1]) == Some(0)
      case Some(k) =>
        if k + 2 == |u| then true
        else
          match SizeOf(size, u[..k + 2])
          case None => false
          case Some(n) => if n == 0 then |u| == k + 3 else LeavesOver(size, Place(d.body, true, n, 0), u[k + 2..])
  }

  lemma LeavesOverSize(size: Sizer, d: Place, u: string)
    requires Counters(d) && !d.reading && u != "" && SizeTurn(Shipped, size, d, u).Stop?
    ensures var p := SizeTurn(Shipped, size, d, u).p;
            p.status.More? && p.rest != "" <==> LeavesOver(size, d, u)
  {
  }

  /** For every decoder state and every buffer: the shipped decoder waits with text left over exactly then. */
  lemma {:induction false} LeavesOverExactly(size: Sizer, d: Place, u: string)
    requires Counters(d)
    ensures Chunks(Shipped, size, d, u).status.More? && Chunks(Shipped, size, d, u).rest != "" <==>
            LeavesOver(size, d, u)
    decreases |u|
  {
    if u == "" {
    } else if d.reading {
      var n := Min(d.size - d.got, |u|);
      if n == d.size - d.got && |u| - n > 1 && u[n..][..2] == CRLF {
        LeavesOverExactly(size, Outside(d.body + u[..n]), u[n..][2..]);
      }
    } else if Find(u, CRLF, 0).None? {
      ShippedShortLine(size, d, u);
    } else if SizeTurn(Shipped, size, d, u).Again? {
      LeavesOverExactly(size, SizeTurn(Shipped, size, d, u).place, SizeTurn(Shipped, size, d, u).rest);
    } else {
      LeavesOverSize(size, d, u);
    }
  }

  // ---------------------------------------------------------------- the same over whole deliveries

  /** The text received so far ends at no bad cut after any read. */
  ghost predicate CleanCuts(size: Sizer, d: Place, u: string, pieces: seq<string>)
    requires Counters(d)
    decreases |pieces|
  {
    pieces != [] ==> !CutsFraming(size, d, u + pieces[0]) && CleanCuts(size, d, u + pieces[0], pieces[1..])
  }

  /** After every read the shipped decoder, now at `p`, stands where one repaired decode of everything received so far
      stands. */
  ghost predicate InStep(size: Sizer, d: Place, u: string, p: Decoded, pieces: seq<string>)
    requires Counters(d) && Counters(p.place)
    decreases |pieces|
  {
    pieces != [] ==>
      var q := Then(Shipped, size, p, pieces[0]);
      q == Chunks(Repaired, size, d, u + pieces[0]) && InStep(size, d, u + pieces[0], q, pieces[1..])
  }

  lemma OneRead(size: Sizer, d: Place, u: string, more: string)
    requires Counters(d)
    ensures Then(Shipped, size, Chunks(Repaired, size, d, u), more) == Chunks(Repaired, size, d, u + more) <==>
            !CutsFraming(size, d, u + more)
  {
    var p := Chunks(Repaired, size, d, u);
    ChunksResume(size, d, u, more);
    CutResume(size, d, u, more);
    if p.status.More? { ShippedAgreesExactly(size, p.place, p.rest + more); }
  }

  /** Main result on the shipped decoder: over any delivery it keeps in step with the byte stream after every read
      if and only if no read leaves the received text at a bad cut. */
  lemma {:induction false} ShippedInStepExactly(size: Sizer, d: Place, u: string, pieces: seq<string>)
    requires Counters(d)
    ensures InStep(size, d, u, Chunks(Repaired, size, d, u), pieces) <==> CleanCuts(size, d, u, pieces)
    decreases |pieces|
  {
    if pieces != [] {
      OneRead(size, d, u, pieces[0]);
      if !CutsFraming(size, d, u + pieces[0]) {
        ShippedInStepExactly(size, d, u + pieces[0], pieces[1..]);
      }
    }
  }

  /** In particular a clean delivery ends where one decode of the whole stream ends. */
  lemma {:induction false} InStepDelivers(size: Sizer, d: Place, u: string, p: Decoded, pieces: seq<string>)
    requires Counters(d) && Counters(p.place) && p == Chunks(Repaired, size, d, u)
    requires InStep(size, d, u, p, pieces)
    ensures Deliver(Shipped, size, p, pieces) == Chunks(Repaired, size, d, u + Concat(pieces))
    decreases |pieces|
  {
    ConcatStep(u, pieces);
    if pieces != [] {
      InStepDelivers(size, d, u + pieces[0], Then(Shipped, size, p, pieces[0]), pieces[1..]);
    }
  }

  // ---------------------------------------------------------------- shared by both rules

  /** A body that is finished is not changed by what follows it, and what follows is left unread:
      chunked bodies delimit themselves, under either rule. */
  lemma {:induction false} FinishedExtends(rule: Rule, size: Sizer, d: Place, u: string, more: string)
    requires Counters(d) && Chunks(rule, size, d, u).status.Finished?
    ensures Chunks(rule, size, d, u + more) == Chunks(rule, size, d, u).(rest := Chunks(rule, size, d, u).rest + more)
    decreases |u|
  {
    if !d.reading && Find(u, CRLF, 0).None? {
      if u != "" { ShortLine(size, d, u); }
    } else {
      TurnExtends(rule, size, d, u, more);
      match OneTurn(rule, size, d, u)
      case Again(next, rest) => FinishedExtends(rule, size, next, rest, more);
      case Stop(p) =>
    }
  }

  lemma DataAtRest(rule: Rule, size: Sizer, d: Place, u: string)
    requires Counters(d) && d.reading
    requires DataTurn(d, u).Stop? && DataTurn(d, u).p.status.More?
    ensures var p := DataTurn(d, u).p; Counters(p.place) && Chunks(rule, size, p.place, p.rest) == p
  {
    DataResumes(d, u, "");
    assert DataTurn(d, u).p.rest + "" == DataTurn(d, u).p.rest && u + "" == u;
  }

  lemma SizeAtRest(rule: Rule, size: Sizer, d: Place, u: string)
    requires Counters(d) && !d.reading && u != ""
    requires SizeTurn(rule, size, d, u).Stop? && SizeTurn(rule, size, d, u).p.status.More?
    ensures var p := SizeTurn(rule, size, d, u).p; p.place == d && Chunks(rule, size, d, p.rest) == p
  {
    var p := SizeTurn(rule, size, d, u).p;
    if p.rest != u { OneByteAtRest(size, d, p.rest); }
  }

  /** Parsing again without new text changes nothing, under either rule. */
  lemma {:induction false} AtRest(rule: Rule, size: Sizer, d: Place, u: string)
    requires Counters(d)
    ensures var p := Chunks(rule, size, d, u);
            p.status.More? ==> Chunks(rule, size, p.place, p.rest) == p
    decreases |u|
  {
    if u != "" {
      match OneTurn(rule, size, d, u)
      case Again(next, rest) => AtRest(rule, size, next, rest);
      case Stop(p) =>
        if p.status.More? {
          if d.reading { DataAtRest(rule, size, d, u); } else { SizeAtRest(rule, size, d, u); }
        }
    }
  }

  lemma OneByteAtRest(size: Sizer, d: Place, c: string)
    requires Counters(d) && !d.reading && |c| <= 1
    ensures Chunks(Shipped, size, d, c) == Decoded(More, d, c)
  {
    if c != "" { ShortLine(size, d, c); }
  }
}
