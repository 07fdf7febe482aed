/** Which texts the chunked decoder takes, with sizes in any form the size lines allow, and which it refuses
    (parse_chunked_body, srcs/ReqRes/RequestParser.cpp:330-409). */
module ChunkGrammar {
  import opened Text
  import opened Chunked

  /** A chunk as it is written: the size line without its line end, and the data. */
  datatype Chunk = Chunk(line: string, data: string)

  /** Chunks, each with a line end behind its size line and one behind its data, in front of `tail`. */
  function Framed(cs: seq<Chunk>, tail: string): string
    decreases |cs|
  {
    if cs == [] then tail else cs[0].line + CRLF + (cs[0].data + (CRLF + Framed(cs[1..], tail)))
  }

  function Contents(cs: seq<Chunk>): string
    decreases |cs|
  {
    if cs == [] then "" else cs[0].data + Contents(cs[1..])
  }

  /** The line has no line end in it and announces `n` bytes. */
  ghost predicate Announces(size: Sizer, line: string, n: nat) {
    Find(line + CRLF, CRLF, 0) == Some(|line|) && SizeOf(size, line + CRLF) == Some(n)
  }

  ghost predicate GoodChunks(size: Sizer, cs: seq<Chunk>) {
    forall i :: 0 <= i < |cs| ==> cs[i].data != "" && Announces(size, cs[i].line, |cs[i].data|)
  }

  /** The text is a whole chunked body with these contents, closed by a line that announces nothing and an empty
      line. */
  ghost predicate WholeBody(size: Sizer, u: string, contents: string, rest: string) {
    exists cs: seq<Chunk>, last: string ::
      && GoodChunks(size, cs) && Announces(size, last, 0)
      && u == Framed(cs, last + CRLF + (CRLF + rest)) && contents == Contents(cs)
  }

  // ---------------------------------------------------------------- well-framed text is taken

  lemma LineFound(line: string, tail: string)
    requires Find(line + CRLF, CRLF, 0) == Some(|line|)
    ensures Find(line + CRLF + tail, CRLF, 0) == Some(|line|) && LineEnd(line + CRLF + tail) == |line| + 2
    ensures (line + CRLF + tail)[..|line| + 2] == line + CRLF && (line + CRLF + tail)[|line| + 2..] == tail
  {
    FindExtends(line + CRLF, tail, CRLF, 0);
    AppendParts(line + CRLF, tail);
  }

  lemma SizeLineTurn(rule: Rule, size: Sizer, body: string, line: string, n: nat, tail: string)
    requires Announces(size, line, n) && tail != ""
    ensures SizeTurn(rule, size, Outside(body), line + CRLF + tail) ==
            if n == 0 then Stop(LastChunk(rule, Outside(body), line + CRLF + tail, |line| + 2))
            else Again(Place(body, true, n, 0), tail)
  {
    hide Find;
    hide At;
    LineFound(line, tail);
  }

  lemma DataTaken(body: string, data: string, tail: string)
    requires data != ""
    ensures DataTurn(Place(body, true, |data|, 0), data + (CRLF + tail)) == Again(Outside(body + data), tail)
  {
    AppendParts(data, CRLF + tail);
    AppendParts(CRLF, tail);
    assert (CRLF + tail)[..2] == CRLF;
  }

  lemma ChunkTaken(rule: Rule, size: Sizer, body: string, c: Chunk, tail: string)
    requires c.data != "" && Announces(size, c.line, |c.data|)
    ensures Chunks(rule, size, Outside(body), c.line + CRLF + (c.data + (CRLF + tail))) ==
            Chunks(rule, size, Outside(body + c.data), tail)
  {
    hide Announces;
    hide SizeTurn;
    hide DataTurn;
    SizeLineTurn(rule, size, body, c.line, |c.data|, c.data + (CRLF + tail));
    DataTaken(body, c.data, tail);
  }

  lemma {:induction false} ChunksTaken(rule: Rule, size: Sizer, body: string, cs: seq<Chunk>, tail: string)
    requires GoodChunks(size, cs)
    ensures Chunks(rule, size, Outside(body), Framed(cs, tail)) ==
            Chunks(rule, size, Outside(body + Contents(cs)), tail)
    decreases |cs|
  {
    hide Announces;
    hide Chunks;
    if cs == [] {
      assert body + "" == body;
    } else {
      ChunkTaken(rule, size, body, cs[0], Framed(cs[1..], tail));
      ChunksTaken(rule, size, body + cs[0].data, cs[1..], tail);
      Assoc(body, cs[0].data, Contents(cs[1..]));
    }
  }

  lemma LastTaken(rule: Rule, size: Sizer, body: string, last: string, rest: string)
    requires Announces(size, last, 0)
    ensures Chunks(rule, size, Outside(body), last + CRLF + (CRLF + rest)) == Decoded(Finished, Outside(body), rest)
  {
    hide Announces;
    var u := last + CRLF + (CRLF + rest);
    SizeLineTurn(rule, size, body, last, 0, CRLF + rest);
    AppendParts(last + CRLF, CRLF + rest);
    AppendParts(CRLF, rest);
    assert u[|last| + 2..] == CRLF + rest;
  }

  // ---------------------------------------------------------------- nothing else is

  /** The size line at the front of a text that has one, and what follows it. */
  lemma LineAtFront(u: string, k: nat)
    requires Find(u, CRLF, 0) == Some(k)
    ensures u == u[..k] + CRLF + u[k + 2..] && Find(u[..k] + CRLF, CRLF, 0) == Some(k) && u[..k + 2] == u[..k] + CRLF
  {
    hide Find;
    FindCut(u, CRLF, k);
    Assoc(u[..k], CRLF, u[k + 2..]);
    assert u[..k + 2] == u[..k] + CRLF;
  }

  lemma DataGiven(body: string, n: nat, w: string)
    requires n > 0
    ensures var t := DataTurn(Place(body, true, n, 0), w);
            && (t.Again? ==>
                  |w| >= n + 2 && w == w[..n] + (CRLF + w[n + 2..]) && t == Again(Outside(body + w[..n]), w[n + 2..]))
            && (t.Stop? ==> t.p.status != Finished)
            && (t.Stop? && t.p.status == Malformed <==> |w| >= n + 2 && w[n..n + 2] != CRLF)
  {
    if |w| >= n + 2 {
      DropTake(w, n, 2);
      DropDrop(w, n, 2);
      assert w == w[..n] + (w[n..n + 2] + w[n + 2..]);
    }
  }

  lemma LastGiven(rule: Rule, d: Place, u: string, e: nat)
    requires e <= |u|
    ensures var p := LastChunk(rule, d, u, e);
            && p.place == d
            && (p.status == Finished <==> |u| >= e + 2 && u[e..e + 2] == CRLF)
            && (p.status == Finished ==> u[e..] == CRLF + p.rest)
            && (p.status == Malformed <==> |u| >= e + 2 && u[e..e + 2] != CRLF)
  {
    if |u| >= e + 2 {
      DropTake(u, e, 2);
      assert u[e..] == u[e..][..2] + u[e..][2..];
    }
  }

  lemma WholeFromLast(size: Sizer, last: string, rest: string)
    requires Announces(size, last, 0)
    ensures WholeBody(size, last + CRLF + (CRLF + rest), "", rest)
  {
    assert GoodChunks(size, []);
    assert Framed([], last + CRLF + (CRLF + rest)) == last + CRLF + (CRLF + rest);
    assert Contents([]) == "";
  }

  lemma WholeFromChunk(size: Sizer, c: Chunk, u: string, contents: string, rest: string)
    requires c.data != "" && Announces(size, c.line, |c.data|) && WholeBody(size, u, contents, rest)
    ensures WholeBody(size, c.line + CRLF + (c.data + (CRLF + u)), c.data + contents, rest)
  {
    hide Announces;
    var cs: seq<Chunk>, last: string :|
      && GoodChunks(size, cs) && Announces(size, last, 0)
      && u == Framed(cs, last + CRLF + (CRLF + rest)) && contents == Contents(cs);
    var ds := [c] + cs;
    assert ds[1..] == cs;
    assert GoodChunks(size, ds);
    assert Framed(ds, last + CRLF + (CRLF + rest)) == c.line + CRLF + (c.data + (CRLF + u));
  }

  /** A call that starts at a size line: it waits for the line, ends at it, or goes on with the data behind it. */
  lemma LineTurn(rule: Rule, size: Sizer, body: string, u: string, k: nat)
    requires Find(u, CRLF, 0) == Some(k)
    ensures var p := Chunks(rule, size, Outside(body), u); var n := SizeOf(size, u[..k + 2]); var w := u[k + 2..];
            if w == "" then p.status == More
            else if n.None? then p.status == Malformed
            else if n.value == 0 then p == LastChunk(rule, Outside(body), u, k + 2)
            else
              var t := DataTurn(Place(body, true, n.value, 0), w);
              p == if t.Stop? then t.p else Chunks(rule, size, t.place, t.rest)
  {
    hide Find;
    hide At;
    hide DataTurn;
    hide LastChunk;
  }

  lemma OneByteLeft(rule: Rule, size: Sizer, d: Place, w: string)
    requires Counters(d) && d.reading && d.got == 0 && |w| == 1
    ensures Chunks(rule, size, d, w).status == More
  {
    hide SizeTurn;
  }

  lemma NoLineSize(rule: Rule, size: Sizer, body: string, u: string)
    requires Find(u, CRLF, 0).None? && u != ""
    ensures var t := SizeTurn(rule, size, Outside(body), u);
            && (t.Stop? ==> t.p.status != Finished && (rule.Repaired? ==> t.p.status == More))
            && (t.Again? ==> rule.Shipped? && Counters(t.place) && t.place.reading && t.place.got == 0 && |t.rest| == 1)
  {
    hide Find;
    hide At;
    hide SizeOf;
  }

  lemma NoLineTurn(rule: Rule, size: Sizer, body: string, u: string)
    requires Find(u, CRLF, 0).None?
    ensures Chunks(rule, size, Outside(body), u).status != Finished
    ensures rule == Repaired ==> Chunks(rule, size, Outside(body), u).status == More
  {
    hide Find;
    hide At;
    hide SizeTurn;
    hide DataTurn;
    if u != "" {
      NoLineSize(rule, size, body, u);
      var t := SizeTurn(rule, size, Outside(body), u);
      assert OneTurn(rule, size, Outside(body), u) == t;
      if t.Again? { OneByteLeft(rule, size, t.place, t.rest); }
    }
  }

  /** The size line and the data at the front, when they are whole. */
  lemma ChunkAtFront(size: Sizer, u: string, k: nat, n: nat)
    requires Find(u, CRLF, 0) == Some(k) && SizeOf(size, u[..k + 2]) == Some(n) && n > 0
    requires var w := u[k + 2..]; |w| >= n + 2 && w == w[..n] + (CRLF + w[n + 2..])
    ensures var w := u[k + 2..]; var c := Chunk(u[..k], w[..n]);
            && c.data != "" && Announces(size, c.line, |c.data|)
            && u == c.line + CRLF + (c.data + (CRLF + w[n + 2..]))
  {
    hide Find;
    hide At;
    LineAtFront(u, k);
  }

  lemma {:induction false} FinishedIsWhole(rule: Rule, size: Sizer, body: string, u: string) returns (contents: string)
    requires Chunks(rule, size, Outside(body), u).status == Finished
    ensures var p := Chunks(rule, size, Outside(body), u);
            p.place == Outside(body + contents) && WholeBody(size, u, contents, p.rest)
    decreases |u|
  {
    hide Chunks;
    hide Find;
    hide At;
    hide WholeBody;
    hide Announces;
    hide SizeOf;
    if Find(u, CRLF, 0).None? {
      NoLineTurn(rule, size, body, u);
      assert false;
    } else {
      var k := Find(u, CRLF, 0).value;
      LineTurn(rule, size, body, u, k);
      var n := SizeOf(size, u[..k + 2]).value;
      if n == 0 {
        LastGiven(rule, Outside(body), u, k + 2);
        contents := LastIsWhole(size, u, k, Chunks(rule, size, Outside(body), u).rest);
        assert body + "" == body;
      } else {
        var w := u[k + 2..];
        DataGiven(body, n, w);
        var more := FinishedIsWhole(rule, size, body + w[..n], w[n + 2..]);
        ChunkAtFront(size, u, k, n);
        WholeFromChunk(size, Chunk(u[..k], w[..n]), w[n + 2..], more, Chunks(rule, size, Outside(body), u).rest);
        contents := w[..n] + more;
        Assoc(body, w[..n], more);
      }
    }
  }

  lemma LastIsWhole(size: Sizer, u: string, k: nat, rest: string) returns (contents: string)
    requires Find(u, CRLF, 0) == Some(k) && SizeOf(size, u[..k + 2]) == Some(0) && u[k + 2..] == CRLF + rest
    ensures contents == "" && WholeBody(size, u, contents, rest)
  {
    hide Find;
    hide At;
    LineAtFront(u, k);
    WholeFromLast(size, u[..k], rest);
    contents := "";
  }

  /** Main result on acceptance: a decoding from the start finishes exactly on whole chunked bodies, with their contents
      and with what follows left unread; under both rules, and whatever form the sizes have. */
  lemma FinishedExactly(rule: Rule, size: Sizer, body: string, u: string, contents: string, rest: string)
    ensures Chunks(rule, size, Outside(body), u) == Decoded(Finished, Outside(body + contents), rest) <==>
            WholeBody(size, u, contents, rest)
  {
    hide Chunks;
    hide Announces;
    if Chunks(rule, size, Outside(body), u) == Decoded(Finished, Outside(body + contents), rest) {
      var found := FinishedIsWhole(rule, size, body, u);
      AppendParts(body, contents);
      AppendParts(body, found);
    }
    if WholeBody(size, u, contents, rest) {
      var cs: seq<Chunk>, last: string :|
        && GoodChunks(size, cs) && Announces(size, last, 0)
        && u == Framed(cs, last + CRLF + (CRLF + rest)) && contents == Contents(cs);
      ChunksTaken(rule, size, body, cs, last + CRLF + (CRLF + rest));
      LastTaken(rule, size, body + contents, last, rest);
    }
  }

  lemma WholeNotEmpty(size: Sizer, u: string, contents: string, rest: string)
    requires WholeBody(size, u, contents, rest)
    ensures u != ""
  {
    hide WholeBody;
    FinishedExactly(Repaired, size, "", u, contents, rest);
  }

  // ---------------------------------------------------------------- what is refused

  /** No size, or two bytes behind the announced ones that are no line end. */
  predicate BadBehind(n: Option<nat>, x: string) {
    x != "" && (n.None? || (|x| >= n.value + 2 && x[n.value..n.value + 2] != CRLF))
  }

  /** A size line that is no size, or with a size, and two bytes where a line end should be that are none. */
  ghost predicate BadChunk(size: Sizer, t: string) {
    exists line: string, x: string ::
      && Find(line + CRLF, CRLF, 0) == Some(|line|) && t == line + CRLF + x
      && BadBehind(SizeOf(size, line + CRLF), x)
  }

  ghost predicate Broken(size: Sizer, u: string) {
    exists cs: seq<Chunk>, t: string :: GoodChunks(size, cs) && u == Framed(cs, t) && BadChunk(size, t)
  }

  lemma BadAtFront(size: Sizer, u: string, k: nat)
    requires Find(u, CRLF, 0) == Some(k)
    ensures BadBehind(SizeOf(size, u[..k + 2]), u[k + 2..]) ==> BadChunk(size, u)
  {
    hide Find;
    hide At;
    hide BadBehind;
    hide SizeOf;
    LineAtFront(u, k);
  }

  lemma BrokenFromBad(size: Sizer, t: string)
    requires BadChunk(size, t)
    ensures Broken(size, t)
  {
    assert GoodChunks(size, []) && t == Framed([], t);
  }

  lemma BrokenFromChunk(size: Sizer, c: Chunk, u: string)
    requires c.data != "" && Announces(size, c.line, |c.data|) && Broken(size, u)
    ensures Broken(size, c.line + CRLF + (c.data + (CRLF + u)))
  {
    hide Announces;
    hide BadChunk;
    var cs: seq<Chunk>, t: string :| GoodChunks(size, cs) && u == Framed(cs, t) && BadChunk(size, t);
    var ds := [c] + cs;
    assert ds[1..] == cs;
    assert GoodChunks(size, ds);
    assert Framed(ds, t) == c.line + CRLF + (c.data + (CRLF + u));
  }

  lemma {:induction false} MalformedIsBroken(size: Sizer, body: string, u: string)
    requires Chunks(Repaired, size, Outside(body), u).status == Malformed
    ensures Broken(size, u)
    decreases |u|
  {
    hide Chunks;
    hide Find;
    hide At;
    hide Broken;
    hide BadChunk;
    hide Announces;
    hide SizeOf;
    if Find(u, CRLF, 0).None? {
      NoLineTurn(Repaired, size, body, u);
      assert false;
    } else {
      var k := Find(u, CRLF, 0).value;
      LineTurn(Repaired, size, body, u, k);
      var n, w := SizeOf(size, u[..k + 2]), u[k + 2..];
      BadAtFront(size, u, k);
      if n.Some? && n.value > 0 && !BadChunk(size, u) {
        DataGiven(body, n.value, w);
        MalformedIsBroken(size, body + w[..n.value], w[n.value + 2..]);
        ChunkAtFront(size, u, k, n.value);
        BrokenFromChunk(size, Chunk(u[..k], w[..n.value]), w[n.value + 2..]);
      } else {
        if n.Some? && n.value == 0 { LastGiven(Repaired, Outside(body), u, k + 2); LastCut(u, k); }
        BrokenFromBad(size, u);
      }
    }
  }

  lemma LastCut(u: string, k: nat)
    requires k + 4 <= |u|
    ensures u[k + 2..][0..2] == u[k + 2..k + 4]
  {
  }

  lemma BadRefused(size: Sizer, body: string, t: string)
    requires BadChunk(size, t)
    ensures Chunks(Repaired, size, Outside(body), t).status == Malformed
  {
    hide Chunks;
    hide Find;
    hide At;
    hide SizeOf;
    var line: string, x: string :|
      && Find(line + CRLF, CRLF, 0) == Some(|line|) && t == line + CRLF + x
      && BadBehind(SizeOf(size, line + CRLF), x);
    LineFound(line, x);
    LineTurn(Repaired, size, body, t, |line|);
    var n := SizeOf(size, line + CRLF);
    if n.Some? {
      if n.value > 0 { DataGiven(body, n.value, x); } else { LastGiven(Repaired, Outside(body), t, |line| + 2); }
    }
  }

  /** Main result on refusal: the repaired decoder refuses exactly the texts in which, behind good chunks, a size line
      is no size or two other bytes stand where a line end belongs. */
  lemma RefusedExactly(size: Sizer, body: string, u: string)
    ensures Chunks(Repaired, size, Outside(body), u).status == Malformed <==> Broken(size, u)
  {
    hide Chunks;
    hide BadChunk;
    hide Announces;
    if Chunks(Repaired, size, Outside(body), u).status == Malformed { MalformedIsBroken(size, body, u); }
    if Broken(size, u) {
      var cs: seq<Chunk>, t: string :| GoodChunks(size, cs) && u == Framed(cs, t) && BadChunk(size, t);
      ChunksTaken(Repaired, size, body, cs, t);
      BadRefused(size, body + Contents(cs), t);
    }
  }
}
