/** Whole runs of the connection loop: the request that is handed on does not depend on how the network cut up its
    bytes, and how much of a body is ever held. */
module Delivery {
  import opened Text
  import opened Numerals
  import opened Chunked
  import opened ChunkTheorems
  import opened Http
  import opened BodyPhase
  import opened HeaderBlock
  import opened ParseRequest
  import opened Routing
  import opened Connection

  /** The reads in turn, for as long as the connection is served. */
  function Feed(env: Env, c: Conn, pieces: seq<string>): (d: Conn)
    requires Sound(env, c)
    ensures Sound(env, d)
    decreases |pieces|
  {
    if pieces == [] || !Serving(c) then c
    else
      ReceiveSound(env, c, pieces[0]);
      Feed(env, OnReceive(env, c, pieces[0]), pieces[1..])
  }

  /** Between requests: nothing buffered, no response outstanding, and no earlier request, or a finished one. */
  ghost predicate Idle(env: Env, c: Conn) {
    && Sound(env, c) && Open(c) && c.buffer == ""
    && (c.parser.Some? ==> c.parser.value.req.phase == Done)
  }

  /** And the size check of the next read passes: it still looks at the earlier request. */
  ghost predicate Admits(env: Env, c: Conn) { Idle(env, c) && !TooLarge(env, c) }

  /** The whole request: parsed in one piece it is complete, nothing is left over, and there is a location for it.
      Chunked framing is left to the repaired rule here; for the shipped one see ChunkTheorems. */
  ghost predicate Accepted(env: Env, w: string) {
    && EnvOk(env) && Find(w, DOUBLE_CRLF, 0).Some?
    && var o := Parse(env.rule, Fresh, w);
       && o.req.phase == Done && o.rest == ""
       && Route(env.servers, o.req).req.phase == Done
       && (env.rule.Repaired? || !IsChunked(o.req))
  }

  function Final(env: Env, w: string): Routed
    requires EnvOk(env) && Find(w, DOUBLE_CRLF, 0).Some?
  {
    Route(env.servers, Parse(env.rule, Fresh, w).req)
  }

  /** The request has been handed to the response builder just as the one-piece parse reads it. */
  ghost predicate Delivered(env: Env, c0: Conn, c: Conn, w: string)
    requires EnvOk(env) && Find(w, DOUBLE_CRLF, 0).Some?
  {
    && c.live && !c.stalled && c.ready && c.buffer == "" && c.received == c0.received + w
    && c.parser == Some(Final(env, w)) && c.response == env.build(Final(env, w).req)
    && c.completed == c0.completed + [Final(env, w).req]
  }

  /** The connection after a proper part `a` of the request. */
  ghost predicate Waiting(env: Env, c0: Conn, c: Conn, a: string)
    requires EnvOk(env)
  {
    && Open(c) && c.completed == c0.completed && c.received == c0.received + a
    && if Find(a, DOUBLE_CRLF, 0).None? then c.parser == c0.parser && c.buffer == a
       else
         var o := Parse(env.rule, Fresh, a);
         c.parser == Some(Route(env.servers, o.req)) && c.buffer == o.rest && o.req.phase == Phase.Body
  }

  /** Some of the body is in the received text. */
  predicate BodyBegun(env: Env, a: string) {
    Find(a, DOUBLE_CRLF, 0).Some? && Head(env.rule, a).rest != ""
  }

  predicate Oversized(env: Env, p: Routed) {
    p.req.hasContentLength && p.server.Some? && p.server.value < |env.servers| && Length(p.req) > MaxBody(env, p)
  }

  /** No read finds part of an oversized body already parsed: then readIncomingData answers 413 instead of reading. */
  ghost predicate Admitted(env: Env, w: string, a: string, pieces: seq<string>)
    requires EnvOk(env) && Find(w, DOUBLE_CRLF, 0).Some?
    decreases |pieces|
  {
    pieces != [] ==>
      !(BodyBegun(env, a) && Oversized(env, Final(env, w))) && Admitted(env, w, a + pieces[0], pieces[1..])
  }

  // ---------------------------------------------------------------- a proper part of the request

  /** The header block is read from the part as from the whole. */
  lemma HeadOfPart(env: Env, w: string, a: string, b: string)
    requires Accepted(env, w) && w == a + b && b != "" && Find(a, DOUBLE_CRLF, 0).Some?
    ensures var h := Head(env.rule, a);
            h.req.phase == Phase.Body && Receiving(h.req) && (env.rule.Repaired? || !IsChunked(h.req))
    ensures var h, f := Head(env.rule, a).req, Parse(env.rule, Fresh, w).req;
            h.headers == f.headers && h.uri == f.uri && h.hasContentLength == f.hasContentLength
    ensures Parse(env.rule, Fresh, a).req.phase != Phase.RequestLine
  {
    hide ParseBody;
    hide Head;
    HeadStops(env.rule, a);
    HeadExtends(env.rule, a, b);
    HeadStops(env.rule, w);
    DriveIs(env.rule, a);
    DriveIs(env.rule, w);
    var h := Head(env.rule, w);
    if h.req.phase == Phase.Body { BodyKeeps(env.rule, h.req, h.rest); }
    if Head(env.rule, a).req.phase == Phase.Body { BodyKeeps(env.rule, Head(env.rule, a).req, Head(env.rule, a).rest); }
  }

  lemma SameRoute(env: Env, r: Request, f: Request)
    requires EnvOk(env) && r.errorCode == 0 && f.errorCode == 0 && r.headers == f.headers && r.uri == f.uri
    requires Route(env.servers, f).req.errorCode == 0
    ensures Route(env.servers, r) == Route(env.servers, f).(req := r)
  {
    hide PickServer;
    hide Best;
  }

  lemma PartIsOpen(env: Env, w: string, a: string, b: string)
    requires Accepted(env, w) && w == a + b && b != "" && Find(a, DOUBLE_CRLF, 0).Some?
    ensures var o, f := Parse(env.rule, Fresh, a), Parse(env.rule, Fresh, w);
            && o.req.phase == Phase.Body && !o.stalled && Receiving(o.req) && o.req.errorCode == 0 &&
                  f.req.errorCode == 0
            && ThenBody(env.rule, Parsed(o.req, o.rest), b) == Parsed(f.req, "")
            && (o.req.hasContentLength ==> o.rest == "")
  {
    hide ParseBody;
    hide Parse;
    hide Head;
    hide Route;
    HeadOfPart(env, w, a, b);
    ParseResumes(env.rule, a, b);
    ParseEnds(env.rule, a);
    ParseEnds(env.rule, w);
    PartFraming(env, a);
    HeadStops(env.rule, a);
    assert Parse(env.rule, Fresh, a).rest + b != "";
  }

  /** The open body has the headers of the whole request, and parse_body has recorded its length if it has run. */
  lemma PartFraming(env: Env, a: string)
    requires Find(a, DOUBLE_CRLF, 0).Some? && Head(env.rule, a).req.phase == Phase.Body
    ensures var h, o := Head(env.rule, a).req, Parse(env.rule, Fresh, a).req;
            && (o.phase != ErrorParse ==> o.headers == h.headers && IsChunked(o) == IsChunked(h))
            && o.uri == h.uri && o.hasContentLength == h.hasContentLength
            && (o.phase != ErrorParse ==> Length(o) == Length(h))
            && (o.hasContentLength ==> o.contentLength == if BodyBegun(env, a) then Length(h) else 0)
            && (o.hasContentLength && o.phase == Phase.Body ==> Parse(env.rule, Fresh, a).rest == "")
  {
    hide ParseBody;
    hide Head;
    hide Strtoul;
    DriveIs(env.rule, a);
    HeadStops(env.rule, a);
    HeadLength(env.rule, a);
    var h := Head(env.rule, a);
    BodyKeeps(env.rule, h.req, h.rest);
  }

  /** The body is still open after a proper part, and is going to be what the whole says. */
  lemma ParseOfPart(env: Env, w: string, a: string, b: string)
    requires Accepted(env, w) && w == a + b && b != "" && Find(a, DOUBLE_CRLF, 0).Some?
    ensures var o, f := Parse(env.rule, Fresh, a), Final(env, w);
            && o.req.phase == Phase.Body && !o.stalled && Receiving(o.req)
            && f.server.Some? && f.server.value < |env.servers| && f.req == Parse(env.rule, Fresh, w).req
            && Route(env.servers, o.req) == f.(req := o.req)
            && ThenBody(env.rule, Parsed(o.req, o.rest), b) == Parsed(f.req, "")
            && o.req.hasContentLength == f.req.hasContentLength && Length(o.req) == Length(f.req)
            && (o.req.hasContentLength ==>
                  o.rest == "" && o.req.contentLength == if BodyBegun(env, a) then Length(o.req) else 0)
  {
    hide ParseBody;
    hide Parse;
    hide Head;
    hide Strtoul;
    hide Receiving;
    hide Route;
    PartIsOpen(env, w, a, b);
    HeadOfPart(env, w, a, b);
    PartFraming(env, a);
    ParseEnds(env.rule, w);
    var o, f := Parse(env.rule, Fresh, a), Parse(env.rule, Fresh, w);
    RouteSound(env, f.req);
    SameRoute(env, o.req, f.req);
  }

  /** parse_body has not run on a request whose header block was the end of the text. */
  lemma HeadLength(rule: Rule, u: string)
    requires Find(u, DOUBLE_CRLF, 0).Some? && Head(rule, u).req.phase == Phase.Body
    ensures Head(rule, u).req.contentLength == 0
  {
    hide Field;
    hide SetLine;
    RequestLineStops(rule, Fresh, u);
    LineFailsSilently(rule, Fresh, FirstLine(u));
    var p := ParseRequestLine(rule, Fresh, u);
    LoopLength(Block(p.req, false, ""), p.rest);
  }

  lemma {:induction false} LoopLength(b: Block, u: string)
    requires BlankAhead(u)
    ensures HeaderLoop(b, u).req.contentLength == b.req.contentLength
    decreases |u|
  {
    hide HeaderLoop;
    hide Field;
    LoopTurn(b, u);
    BlankAfterLine(u);
    var e := LineEnd(u);
    if e != 2 {
      FieldLength(b, u[..e - 2]);
      var f := Field(b, u[..e - 2]);
      if f.Stored? { LoopLength(f.block, u[e..]); }
    }
  }

  lemma FieldLength(b: Block, line: string)
    ensures var f := Field(b, line);
            (if f.Refused? then f.req else f.block.req).contentLength == b.req.contentLength
  {
  }

  // ---------------------------------------------------------------- one read

  /** The read that completes the header block. */
  lemma HeadersComplete(env: Env, w: string, c0: Conn, c: Conn, a: string, b: string)
    requires Accepted(env, w) && EnvOk(env) && Open(c) && c.completed == c0.completed && c.received == c0.received + a
    requires w == a + b && c.buffer == a && Find(a, DOUBLE_CRLF, 0).Some?
    ensures var n := HeaderRead(env, c);
            if b == "" then Delivered(env, c0, n, w) else Waiting(env, c0, n, a)
  {
    hide Parse;
    hide Route;
    ParseEnds(env.rule, a);
    if b == "" {
      assert a == w;
    } else {
      ParseOfPart(env, w, a, b);
    }
  }

  lemma ReadBeforeHeaders(env: Env, w: string, c0: Conn, c: Conn, a: string, d: string, b: string)
    requires Accepted(env, w) && Admits(env, c0) && Sound(env, c) && Waiting(env, c0, c, a)
    requires w == a + d + b && d != "" && Find(a, DOUBLE_CRLF, 0).None?
    ensures var n := OnReceive(env, c, d);
            if b == "" then Delivered(env, c0, n, w) else Waiting(env, c0, n, a + d)
  {
    hide Parse;
    hide Route;
    hide Delivered;
    assert c0.received + a + d == c0.received + (a + d);
    var c1 := Receive(c, d);
    assert OnReceive(env, c, d) == HeaderRead(env, c1);
    assert b == "" ==> w == a + d;
    if Find(a + d, DOUBLE_CRLF, 0).Some? {
      HeadersComplete(env, w, c0, c1, a + d, b);
    }
  }

  /** A read in the body, once the size check has passed. */
  lemma BodyContinues(env: Env, w: string, c0: Conn, c: Conn, a: string, d: string, b: string)
    requires Accepted(env, w) && w == a + d + b && d != "" && Find(a, DOUBLE_CRLF, 0).Some?
    requires Open(c) && c.completed == c0.completed && c.received == c0.received + (a + d)
    requires c.parser.Some? && c.parser.value == Route(env.servers, Parse(env.rule, Fresh, a).req)
    requires c.buffer == Parse(env.rule, Fresh, a).rest + d
    requires Receiving(c.parser.value.req)
    ensures var n := BodyRead(env, c);
            if b == "" then Delivered(env, c0, n, w) else Waiting(env, c0, n, a + d)
  {
    hide Parse;
    hide Route;
    hide ParseBody;
    hide Length;
    hide Receiving;
    hide BodyBegun;
    assert w == a + (d + b);
    ParseOfPart(env, w, a, d + b);
    var o := Parse(env.rule, Fresh, a);
    BodyKeeps(env.rule, o.req, o.rest + d);
    if b == "" {
      assert d + b == d;
    } else {
      HeadOfPart(env, w, a, d + b);
      ParseResumes(env.rule, a, d);
      ParseOfPart(env, w, a + d, b);
    }
  }

  lemma ReadInBody(env: Env, w: string, c0: Conn, c: Conn, a: string, d: string, b: string)
    requires Accepted(env, w) && Admits(env, c0) && Sound(env, c) && Waiting(env, c0, c, a)
    requires w == a + d + b && d != "" && Find(a, DOUBLE_CRLF, 0).Some?
    requires !(BodyBegun(env, a) && Oversized(env, Final(env, w)))
    ensures var n := OnReceive(env, c, d);
            if b == "" then Delivered(env, c0, n, w) else Waiting(env, c0, n, a + d)
  {
    hide Parse;
    hide Route;
    hide BodyRead;
    hide Length;
    hide Delivered;
    hide Receiving;
    hide BodyBegun;
    assert c0.received + a + d == c0.received + (a + d);
    assert w == a + (d + b);
    ParseOfPart(env, w, a, d + b);
    assert !TooLarge(env, c);
    BodyContinues(env, w, c0, Receive(c, d), a, d, b);
  }

  lemma ReadRefused(env: Env, w: string, c0: Conn, c: Conn, a: string, d: string, b: string)
    requires Accepted(env, w) && Admits(env, c0) && Sound(env, c) && Waiting(env, c0, c, a)
    requires w == a + d + b && d != ""
    requires BodyBegun(env, a) && Oversized(env, Final(env, w))
    ensures OnReceive(env, c, d) == Terminate(c)
  {
    hide Parse;
    hide Route;
    hide Length;
    hide Head;
    hide Receiving;
    hide BodyRead;
    hide HeaderRead;
    assert w == a + (d + b);
    ParseOfPart(env, w, a, d + b);
    assert TooLarge(env, c);
  }

  // ---------------------------------------------------------------- main results

  ghost predicate NonEmpty(pieces: seq<string>) {
    forall i :: 0 <= i < |pieces| ==> pieces[i] != ""
  }

  /** One read, whatever it meets. */
  lemma OneRead(env: Env, w: string, c0: Conn, c: Conn, a: string, d: string, b: string)
    requires Accepted(env, w) && Admits(env, c0) && Sound(env, c) && Waiting(env, c0, c, a)
    requires w == a + d + b && d != ""
    ensures var n := OnReceive(env, c, d);
            if BodyBegun(env, a) && Oversized(env, Final(env, w)) then n == Terminate(c)
            else if b == "" then Delivered(env, c0, n, w) else Waiting(env, c0, n, a + d)
  {
    hide OnReceive;
    hide Parse;
    hide Route;
    hide Delivered;
    hide Waiting;
    hide BodyBegun;
    hide Oversized;
    if BodyBegun(env, a) && Oversized(env, Final(env, w)) { ReadRefused(env, w, c0, c, a, d, b); }
    else if Find(a, DOUBLE_CRLF, 0).None? { ReadBeforeHeaders(env, w, c0, c, a, d, b); }
    else { ReadInBody(env, w, c0, c, a, d, b); }
  }

  lemma ConcatEmpty(pieces: seq<string>)
    requires NonEmpty(pieces)
    ensures Concat(pieces) == "" <==> pieces == []
  {
    if pieces != [] { assert pieces[0] != ""; }
  }

  lemma {:induction false} FeedFrom(env: Env, w: string, c0: Conn, c: Conn, a: string, pieces: seq<string>)
    requires Accepted(env, w) && Admits(env, c0) && Sound(env, c) && Waiting(env, c0, c, a)
    requires w == a + Concat(pieces) && pieces != [] && NonEmpty(pieces)
    ensures var d := Feed(env, c, pieces);
            if Admitted(env, w, a, pieces) then Delivered(env, c0, d, w) else !d.live && d.completed == c0.completed
    decreases |pieces|
  {
    hide OnReceive;
    hide Waiting;
    hide Parse;
    hide Oversized;
    hide BodyBegun;
    hide Delivered;
    OpenWhileWaiting(env, c0, c, a);
    var d, rest := pieces[0], pieces[1..];
    var n := OnReceive(env, c, d);
    assert w == a + d + Concat(rest);
    assert d != "" && NonEmpty(rest);
    OneRead(env, w, c0, c, a, d, Concat(rest));
    ReceiveSound(env, c, d);
    ConcatEmpty(rest);
    assert Feed(env, c, pieces) == Feed(env, n, rest);
    if BodyBegun(env, a) && Oversized(env, Final(env, w)) {
      assert Feed(env, n, rest) == n;
    } else if rest == [] {
      assert Admitted(env, w, a + d, rest);
    } else {
      FeedFrom(env, w, c0, n, a + d, rest);
    }
  }

  lemma OpenWhileWaiting(env: Env, c0: Conn, c: Conn, a: string)
    requires EnvOk(env) && Waiting(env, c0, c, a)
    ensures Open(c) && c.completed == c0.completed
  {
  }

  /** A read of a connection that does not admit one closes it. */
  lemma NotAdmitted(env: Env, c: Conn, pieces: seq<string>)
    requires Idle(env, c) && TooLarge(env, c) && pieces != []
    ensures Feed(env, c, pieces) == Terminate(c)
  {
    hide BodyRead;
    hide HeaderRead;
    ReceiveSound(env, c, pieces[0]);
    assert OnReceive(env, c, pieces[0]) == Terminate(c);
  }

  lemma AcceptedNotEmpty(env: Env, w: string, pieces: seq<string>)
    requires Find(w, DOUBLE_CRLF, 0).Some? && Concat(pieces) == w
    ensures pieces != []
  {
  }

  /** Main result: an accepted request, delivered from an idle connection in any pieces at all, is handed on with the
      method, URI, query, headers and body of its one-piece parse, if and only if the request before it was within the
      size limit and no read is attempted after part of an oversized body was parsed; otherwise the connection is closed
      with nothing handed on. */
  lemma DeliveredExactly(env: Env, w: string, c0: Conn, pieces: seq<string>)
    requires Accepted(env, w) && Idle(env, c0) && Concat(pieces) == w && NonEmpty(pieces)
    ensures Delivered(env, c0, Feed(env, c0, pieces), w) <==> !TooLarge(env, c0) && Admitted(env, w, "", pieces)
    ensures TooLarge(env, c0) || !Admitted(env, w, "", pieces) ==>
              !Feed(env, c0, pieces).live && Feed(env, c0, pieces).completed == c0.completed
  {
    AcceptedNotEmpty(env, w, pieces);
    if TooLarge(env, c0) {
      NotAdmitted(env, c0, pieces);
    } else {
      AdmittedDelivers(env, w, c0, pieces);
    }
  }

  lemma AdmittedDelivers(env: Env, w: string, c0: Conn, pieces: seq<string>)
    requires Accepted(env, w) && Admits(env, c0) && Concat(pieces) == w && NonEmpty(pieces)
    ensures var d := Feed(env, c0, pieces);
            if Admitted(env, w, "", pieces) then Delivered(env, c0, d, w) else !d.live && d.completed == c0.completed
  {
    assert "" + Concat(pieces) == w;
    assert Find("", DOUBLE_CRLF, 0).None?;
    assert c0.received + "" == c0.received;
    AcceptedNotEmpty(env, w, pieces);
    FeedFrom(env, w, c0, c0, "", pieces);
  }

  lemma {:induction false} SmallIsAdmitted(env: Env, w: string, a: string, pieces: seq<string>)
    requires EnvOk(env) && Find(w, DOUBLE_CRLF, 0).Some? && !Oversized(env, Final(env, w))
    ensures Admitted(env, w, a, pieces)
    decreases |pieces|
  {
    if pieces != [] { SmallIsAdmitted(env, w, a + pieces[0], pieces[1..]); }
  }

  /** Within the size limit every split delivers the same request: chunked bodies under the repaired rule,
      Content-Length and bodiless requests under either. */
  lemma SplitDoesNotMatter(env: Env, w: string, c0: Conn, pieces: seq<string>, other: seq<string>)
    requires Accepted(env, w) && Idle(env, c0) && !Oversized(env, Final(env, w))
    requires Concat(pieces) == w && NonEmpty(pieces) && Concat(other) == w && NonEmpty(other)
    ensures var c, d := Feed(env, c0, pieces), Feed(env, c0, other);
            && (Delivered(env, c0, c, w) <==> !TooLarge(env, c0))
            && c.parser == d.parser && c.completed == d.completed && c.response == d.response
  {
    hide Feed;
    hide Delivered;
    DeliveredExactly(env, w, c0, pieces);
    DeliveredExactly(env, w, c0, other);
    SmallIsAdmitted(env, w, "", pieces);
    SmallIsAdmitted(env, w, "", other);
    AcceptedNotEmpty(env, w, pieces);
    AcceptedNotEmpty(env, w, other);
    if TooLarge(env, c0) {
      NotAdmitted(env, c0, pieces);
      NotAdmitted(env, c0, other);
    } else {
      DeliveredSame(env, c0, Feed(env, c0, pieces), Feed(env, c0, other), w);
    }
  }

  lemma DeliveredSame(env: Env, c0: Conn, c: Conn, d: Conn, w: string)
    requires EnvOk(env) && Find(w, DOUBLE_CRLF, 0).Some? && Delivered(env, c0, c, w) && Delivered(env, c0, d, w)
    ensures c.parser == d.parser && c.completed == d.completed && c.response == d.response
  {
  }

  // ---------------------------------------------------------------- refused requests

  /** A read whose header block is refused: the request is answered with its error, whatever response was
      outstanding. */
  lemma ErrorRead(env: Env, c: Conn, data: string)
    requires Sound(env, c) && Serving(c) && !InBody(c) && !NullServer(c) && !TooLarge(env, c)
    requires var u := c.buffer + data; Find(u, DOUBLE_CRLF, 0).Some? && Head(env.rule, u).req.phase == ErrorParse
    ensures var h := Head(env.rule, c.buffer + data);
            && |h.rest| <= |c.buffer + data|
            && OnReceive(env, c, data) == Complete(env, Consume(Receive(c, data), h.rest), Routed(h.req, None, None))
  {
    hide Head;
    hide Parse;
    hide Find;
    hide At;
    var u := c.buffer + data;
    HeadStops(env.rule, u);
    DriveIs(env.rule, u);
    ParseEnds(env.rule, u);
  }

  lemma ReadGrows(env: Env, c: Conn, data: string)
    requires Sound(env, c) && Serving(c)
    ensures c.completed <= OnReceive(env, c, data).completed
  {
    hide Parse;
    hide ParseBody;
    hide Route;
    hide Find;
    hide At;
  }

  lemma {:induction false} FeedGrows(env: Env, c: Conn, pieces: seq<string>)
    requires Sound(env, c)
    ensures c.completed <= Feed(env, c, pieces).completed
    decreases |pieces|
  {
    hide OnReceive;
    hide Sound;
    if pieces != [] && Serving(c) {
      ReadGrows(env, c, pieces[0]);
      ReceiveSound(env, c, pieces[0]);
      FeedGrows(env, OnReceive(env, c, pieces[0]), pieces[1..]);
    }
  }

  /** The connection while the header block is not complete. */
  ghost predicate Gathering(env: Env, c0: Conn, c: Conn, a: string) {
    && Sound(env, c) && Serving(c) && c.parser == c0.parser && c.completed == c0.completed && c.buffer == a
    && Find(a, DOUBLE_CRLF, 0).None?
  }

  lemma GatheringRead(env: Env, c0: Conn, c: Conn, a: string, d: string)
    requires Admits(env, c0) && Gathering(env, c0, c, a)
    ensures !InBody(c) && !NullServer(c) && !TooLarge(env, c)
    ensures Find(a + d, DOUBLE_CRLF, 0).None? ==> Gathering(env, c0, OnReceive(env, c, d), a + d)
  {
    hide Parse;
    hide Route;
    hide Find;
    hide At;
    ReceiveSound(env, c, d);
  }

  lemma {:induction false} RefusedFrom(env: Env, w: string, c0: Conn, c: Conn, a: string, pieces: seq<string>)
    requires Admits(env, c0) && Gathering(env, c0, c, a) && w == a + Concat(pieces)
    requires Find(w, DOUBLE_CRLF, 0).Some? && Head(env.rule, w).req.phase == ErrorParse
    ensures c0.completed + [Head(env.rule, w).req] <= Feed(env, c, pieces).completed
    decreases |pieces|
  {
    hide OnReceive;
    hide Head;
    hide Sound;
    hide Admits;
    hide Find;
    hide At;
    ConcatStep(a, pieces);
    if pieces != [] {
      var d, rest := pieces[0], pieces[1..];
      GatheringRead(env, c0, c, a, d);
      ReceiveSound(env, c, d);
      if Find(a + d, DOUBLE_CRLF, 0).None? {
        RefusedFrom(env, w, c0, OnReceive(env, c, d), a + d, rest);
      } else {
        HeadExtends(env.rule, a + d, Concat(rest));
        ErrorRead(env, c, d);
        FeedGrows(env, OnReceive(env, c, d), rest);
      }
    }
  }

  /** Main result on refused requests: whatever the partition into reads, the first request that is handed on is the one
      with the error, and the fields so far, that the one-piece parse finds in its request line and headers; unless the
      size check on the request before it closes the connection. */
  lemma RefusedFirst(env: Env, w: string, c0: Conn, pieces: seq<string>)
    requires Idle(env, c0) && Concat(pieces) == w
    requires Find(w, DOUBLE_CRLF, 0).Some? && Head(env.rule, w).req.phase == ErrorParse
    ensures Parse(env.rule, Fresh, w).req == Head(env.rule, w).req
    ensures if TooLarge(env, c0) then Feed(env, c0, pieces).completed == c0.completed
            else c0.completed + [Parse(env.rule, Fresh, w).req] <= Feed(env, c0, pieces).completed
  {
    hide Head;
    DriveIs(env.rule, w);
    AcceptedNotEmpty(env, w, pieces);
    if TooLarge(env, c0) {
      NotAdmitted(env, c0, pieces);
    } else {
      assert Find("", DOUBLE_CRLF, 0).None?;
      assert "" + w == w;
      RefusedFrom(env, w, c0, c0, "", pieces);
    }
  }

  // ---------------------------------------------------------------- how much is buffered

  function Bound(env: Env, p: Routed): nat
    requires ServerKnown(env, p)
  {
    if MaxBody(env, p) < RD_SIZE then RD_SIZE else MaxBody(env, p)
  }

  /** A Content-Length body is never longer than its length, nor than the limit or one read. */
  ghost predicate BodyBounded(env: Env, c: Conn) {
    c.parser.Some? && c.parser.value.req.hasContentLength && ServerKnown(env, c.parser.value) ==>
      && |c.parser.value.req.place.body| <= Length(c.parser.value.req)
      && |c.parser.value.req.place.body| <= Bound(env, c.parser.value)
  }

  /** While a body is open, its size is known once bytes of it were seen, however the request started. */
  ghost predicate OpenMeasured(c: Conn) {
    Serving(c) && InBody(c) && c.parser.value.req.hasContentLength ==>
      var r := c.parser.value.req;
      c.buffer == "" && (r.contentLength == Length(r) || r.place.body == "")
  }

  /** What it takes to keep the bound. */
  ghost predicate Measured(env: Env, c: Conn) {
    BodyBounded(env, c) && OpenMeasured(c)
  }

  lemma SettledMeasured(env: Env, c: Conn, p: Routed)
    requires Serving(c)
    requires p.req.hasContentLength && ServerKnown(env, p) ==>
               |p.req.place.body| <= Length(p.req) && |p.req.place.body| <= Bound(env, p)
    requires p.req.phase == Phase.Body && p.req.hasContentLength ==>
            c.buffer == "" && p.req.contentLength in {Length(p.req), 0}
    requires p.req.phase == Phase.Body && p.req.hasContentLength && p.req.contentLength != Length(p.req) ==>
            p.req.place.body == ""
    ensures Measured(env, Settled(env, c, p))
  {
    hide Length;
  }

  lemma BodyReadMeasured(env: Env, c: Conn, data: string)
    requires Sound(env, c) && Serving(c) && Measured(env, c) && |data| <= RD_SIZE && !TooLarge(env, c) && InBody(c)
    ensures Measured(env, BodyRead(env, Receive(c, data)))
  {
    hide ParseBody;
    hide Strtoul;
    var p, c1 := c.parser.value, Receive(c, data);
    BodyKeeps(env.rule, p.req, c1.buffer);
    var q := ParseBody(env.rule, p.req, c1.buffer);
    SettledMeasured(env, Consume(c1, q.rest), p.(req := q.req));
  }

  /** What follows the first empty line all came with the last read. */
  lemma AfterBlankIsNew(old_: string, data: string)
    requires Find(old_, DOUBLE_CRLF, 0).None? && Find(old_ + data, DOUBLE_CRLF, 0).Some?
    ensures |(old_ + data)[Find(old_ + data, DOUBLE_CRLF, 0).value + 4..]| <= |data|
  {
    var h := Find(old_ + data, DOUBLE_CRLF, 0).value;
    if h + 4 <= |old_| { AtPrefix(old_, data, DOUBLE_CRLF, h); }
  }

  lemma RouteKeeps(env: Env, r: Request)
    requires EnvOk(env)
    ensures var p := Route(env.servers, r).req;
            p.place == r.place && p.hasContentLength == r.hasContentLength && p.contentLength == r.contentLength &&
                Length(p) == Length(r)
    ensures Route(env.servers, r).server.Some? ==> r.errorCode == 0
  {
    hide Strtoul;
    hide Best;
    hide PickServer;
  }

  /** What else the first parse of a request leaves of its body. */
  lemma FirstBodyState(rule: Rule, u: string)
    requires Find(u, DOUBLE_CRLF, 0).Some?
    requires var o := Parse(rule, Fresh, u).req; o.hasContentLength && o.errorCode == 0 && o.phase != Phase.RequestLine
    ensures var o := Parse(rule, Fresh, u);
            o.req.phase == Phase.Body ==>
              o.rest == "" && (o.req.contentLength == Length(o.req) ||
                  (o.req.contentLength == 0 && o.req.place.body == ""))
  {
    hide ParseBody;
    hide Head;
    hide Strtoul;
    hide Find;
    hide At;
    HeadStops(rule, u);
    DriveIs(rule, u);
    var h := Head(rule, u);
    if h.req.phase == Phase.Body {
      BodyKeeps(rule, h.req, h.rest);
      HeadLength(rule, u);
    }
  }

  lemma SizedTakes(r: Request, u: string)
    requires Receiving(r) && r.hasContentLength && Length(r) > 0 && r.place.body == ""
    ensures |Sized(r, u).req.place.body| == Min(Length(r), |u|) && Sized(r, u).req.headers == r.headers
  {
    hide Strtoul;
    if |u| < Length(r) { SizedPartial(r, u); } else { SizedComplete(r, u); }
  }

  lemma BodyBehindHead(rule: Rule, h: Parsed)
    requires Receiving(h.req) && h.req.place == Outside("") && h.req.hasContentLength
    requires AfterHead(rule, h).req.errorCode == 0
    ensures var o := AfterHead(rule, h).req; |o.place.body| == Min(Length(o), |h.rest|) && o.phase in {Phase.Body, Done}
  {
    hide Sized;
    hide Strtoul;
    if h.rest != "" {
      BodyKeeps(rule, h.req, h.rest);
      if Length(h.req) == 0 { SizedRefused(h.req, h.rest); } else { SizedTakes(h.req, h.rest); }
    }
  }

  /** How much of a body the first parse of a request takes. */
  lemma FirstBodyTakes(rule: Rule, u: string)
    requires Find(u, DOUBLE_CRLF, 0).Some?
    requires var o := Parse(rule, Fresh, u).req; o.hasContentLength && o.errorCode == 0 && o.phase != Phase.RequestLine
    ensures var o := Parse(rule, Fresh, u).req;
            |o.place.body| == Min(Length(o), |u| - Find(u, DOUBLE_CRLF, 0).value - 4)
  {
    hide Head;
    hide Length;
    hide Find;
    hide At;
    hide Parse;
    DriveIs(rule, u);
    HeadStops(rule, u);
    var h := Head(rule, u);
    if h.req.phase == Done { HeadDoneHasNoLength(rule, u); }
    if h.req.phase == Phase.Body {
      LengthStays(rule, h);
      BodyBehindHead(rule, h);
    }
  }

  lemma LengthStays(rule: Rule, h: Parsed)
    requires Receiving(h.req)
    ensures AfterHead(rule, h).req.hasContentLength == h.req.hasContentLength
  {
    hide ParseBody;
    BodyKeeps(rule, h.req, h.rest);
  }

  lemma RouteKnows(env: Env, r: Request)
    requires EnvOk(env) && r.errorCode == 0
    ensures ServerKnown(env, Route(env.servers, r))
  {
  }

  /** The request at the front of `u`, if its header block is complete and carries a Content-Length: its length, or the
      text behind its header block, keeps the bound. */
  predicate StartKeeps(env: Env, u: string)
    requires EnvOk(env)
  {
    Find(u, DOUBLE_CRLF, 0).Some? ==>
      var o := Parse(env.rule, Fresh, u);
      !o.stalled && o.req.hasContentLength && o.req.errorCode == 0 ==>
        (RouteKnows(env, o.req);
         var most := Bound(env, Route(env.servers, o.req));
         Length(o.req) <= most || |u| - Find(u, DOUBLE_CRLF, 0).value - 4 <= most)
  }

  lemma HeaderReadMeasured(env: Env, c: Conn)
    requires Sound(env, c) && Serving(c) && BodyBounded(env, c) && !InBody(c)
    ensures Measured(env, HeaderRead(env, c)) <==> StartKeeps(env, c.buffer)
  {
    hide Parse;
    hide Length;
    hide Find;
    hide At;
    hide Route;
    if Find(c.buffer, DOUBLE_CRLF, 0).Some? {
      ParseEnds(env.rule, c.buffer);
      var o := Parse(env.rule, Fresh, c.buffer);
      if !o.stalled {
        RouteSound(env, o.req);
        RouteKeeps(env, o.req);
      }
      if !o.stalled && o.req.hasContentLength && o.req.errorCode == 0 {
        RouteKnows(env, o.req);
        FirstBodyTakes(env.rule, c.buffer);
        FirstBodyState(env.rule, c.buffer);
      }
    }
  }

  /** A read keeps the bound exactly when the request it starts, if it starts one, keeps it. */
  lemma ReadMeasured(env: Env, c: Conn, data: string)
    requires Sound(env, c) && Serving(c) && Measured(env, c) && |data| <= RD_SIZE
    ensures Measured(env, OnReceive(env, c, data)) <==>
            (!NullServer(c) && !TooLarge(env, c) && !InBody(c) ==> StartKeeps(env, c.buffer + data))
  {
    hide BodyRead;
    hide HeaderRead;
    hide Length;
    hide StartKeeps;
    if !NullServer(c) && !TooLarge(env, c) {
      ReceivedSound(env, c, data);
      if InBody(c) { BodyReadMeasured(env, c, data); } else { HeaderReadMeasured(env, Receive(c, data)); }
    }
  }

  lemma ReadOpens(env: Env, c: Conn, data: string)
    requires Sound(env, c) && Serving(c) && Measured(env, c) && |data| <= RD_SIZE
    ensures OpenMeasured(OnReceive(env, c, data))
  {
    hide BodyRead;
    hide HeaderRead;
    hide Length;
    if !NullServer(c) && !TooLarge(env, c) {
      ReceivedSound(env, c, data);
      if InBody(c) { BodyReadMeasured(env, c, data); } else { HeaderReadOpens(env, Receive(c, data)); }
    }
  }

  lemma HeaderReadOpens(env: Env, c: Conn)
    requires Sound(env, c) && Serving(c) && !InBody(c)
    ensures OpenMeasured(HeaderRead(env, c))
  {
    hide Parse;
    hide Length;
    hide Find;
    hide At;
    hide Route;
    if Find(c.buffer, DOUBLE_CRLF, 0).Some? {
      ParseEnds(env.rule, c.buffer);
      var o := Parse(env.rule, Fresh, c.buffer);
      if !o.stalled {
        RouteSound(env, o.req);
        RouteKeeps(env, o.req);
        if o.req.hasContentLength && o.req.errorCode == 0 { FirstBodyState(env.rule, c.buffer); }
      }
    }
  }

  lemma WritableMeasured(env: Env, c: Conn, n: nat, timedOut: bool)
    requires Sound(env, c) && c.live && Measured(env, c) && n <= |c.response|
    ensures Measured(env, OnWritable(c, n, timedOut))
  {
    hide Length;
  }

  /** Every request that a read of the run starts keeps the bound by its length or by the text that came with it. */
  ghost predicate StartsKeep(env: Env, c: Conn, events: seq<Event>)
    requires Sound(env, c)
    decreases |events|
  {
    events != [] && Enabled(c, events[0]) ==>
      && StartKept(env, c, events[0])
      && (StepSound(env, c, events[0]); StartsKeep(env, Step(env, c, events[0]), events[1..]))
  }

  ghost predicate StartKept(env: Env, c: Conn, e: Event)
    requires EnvOk(env)
  {
    e.Received? && !NullServer(c) && !TooLarge(env, c) && !InBody(c) ==> StartKeeps(env, c.buffer + e.data)
  }

  /** The bound holds at every point of the run. */
  ghost predicate AlwaysBounded(env: Env, c: Conn, events: seq<Event>)
    requires Sound(env, c)
    decreases |events|
  {
    && BodyBounded(env, c)
    && (events != [] && Enabled(c, events[0]) ==>
          (StepSound(env, c, events[0]); AlwaysBounded(env, Step(env, c, events[0]), events[1..])))
  }

  lemma StepMeasured(env: Env, c: Conn, e: Event)
    requires Sound(env, c) && Enabled(c, e) && Measured(env, c)
    ensures Measured(env, Step(env, c, e)) <==> StartKept(env, c, e)
    ensures BodyBounded(env, Step(env, c, e)) ==> Measured(env, Step(env, c, e))
  {
    hide OnWritable;
    hide Length;
    hide StartKeeps;
    hide BodyRead;
    hide HeaderRead;
    match e
    case Received(data) =>
      ReadMeasured(env, c, data);
      ReadOpens(env, c, data);
    case PeerClosed =>
    case Writable(n, timedOut) => WritableMeasured(env, c, n, timedOut);
  }

  /** Main result, over whole runs with any number of requests, reads of at most 1024 bytes and sends in between:
      a Content-Length body never holds more than its length, nor more than the configured limit or one read, at any
      point of the run, if and only if every request the run starts keeps that by its length or by the text that came
      with its header block. */
  lemma {:induction false} BodiesStayBoundedExactly(env: Env, c: Conn, events: seq<Event>)
    requires Sound(env, c) && Measured(env, c)
    ensures AlwaysBounded(env, c, events) <==> StartsKeep(env, c, events)
    decreases |events|
  {
    hide Step;
    hide BodyBounded;
    hide StartKept;
    hide Measured;
    MeasuredBounds(env, c);
    if events != [] && Enabled(c, events[0]) {
      StepSound(env, c, events[0]);
      StepMeasured(env, c, events[0]);
      var d := Step(env, c, events[0]);
      if Measured(env, d) { BodiesStayBoundedExactly(env, d, events[1..]); } else { assert !BodyBounded(env, d); }
    }
  }

  /** Every request of the run begins in a buffer that holds no complete header block yet: in particular in an empty
      one. */
  ghost predicate FreshStarts(env: Env, c: Conn, events: seq<Event>)
    requires Sound(env, c)
    decreases |events|
  {
    events != [] && Enabled(c, events[0]) ==>
      && (events[0].Received? && !InBody(c) ==> Find(c.buffer, DOUBLE_CRLF, 0).None?)
      && (StepSound(env, c, events[0]); FreshStarts(env, Step(env, c, events[0]), events[1..]))
  }

  lemma FreshStartKeeps(env: Env, buffer: string, data: string)
    requires EnvOk(env) && Find(buffer, DOUBLE_CRLF, 0).None? && |data| <= RD_SIZE
    ensures StartKeeps(env, buffer + data)
  {
    hide Parse;
    hide Length;
    hide Find;
    hide At;
    hide Route;
    if Find(buffer + data, DOUBLE_CRLF, 0).Some? { AfterBlankIsNew(buffer, data); }
  }

  lemma {:induction false} FreshStartsKeep(env: Env, c: Conn, events: seq<Event>)
    requires Sound(env, c) && FreshStarts(env, c, events)
    ensures StartsKeep(env, c, events)
    decreases |events|
  {
    hide Step;
    hide StartKeeps;
    if events != [] && Enabled(c, events[0]) {
      StepSound(env, c, events[0]);
      if events[0].Received? && !InBody(c) { FreshStartKeeps(env, c.buffer, events[0].data); }
      FreshStartsKeep(env, Step(env, c, events[0]), events[1..]);
    }
  }

  lemma {:induction false} AlwaysAtTheEnd(env: Env, c: Conn, events: seq<Event>)
    requires Sound(env, c) && AlwaysBounded(env, c, events) && Run(env, c, events).Some?
    ensures BodyBounded(env, Run(env, c, events).value)
    decreases |events|
  {
    hide Step;
    hide BodyBounded;
    if events != [] {
      StepSound(env, c, events[0]);
      AlwaysAtTheEnd(env, Step(env, c, events[0]), events[1..]);
    }
  }

  /** In particular when every request begins in a buffer that holds no complete header block. */
  lemma BodiesStayBounded(env: Env, c: Conn, events: seq<Event>)
    requires Sound(env, c) && Measured(env, c) && FreshStarts(env, c, events) && Run(env, c, events).Some?
    ensures BodyBounded(env, Run(env, c, events).value)
  {
    hide Measured;
    hide BodyBounded;
    FreshStartsKeep(env, c, events);
    BodiesStayBoundedExactly(env, c, events);
    AlwaysAtTheEnd(env, c, events);
  }

  lemma MeasuredBounds(env: Env, c: Conn)
    requires Measured(env, c)
    ensures BodyBounded(env, c)
  {
  }

  lemma NewIsMeasured(env: Env)
    requires EnvOk(env)
    ensures Sound(env, NewConn) && Measured(env, NewConn) && Idle(env, NewConn)
  {
    NewIsSound(env);
  }

  /** So it is from the opening of a connection on. */
  lemma BoundedFromTheStart(env: Env, events: seq<Event>)
    requires EnvOk(env)
    ensures Sound(env, NewConn)
    ensures FreshStarts(env, NewConn, events) && Run(env, NewConn, events).Some? ==>
              BodyBounded(env, Run(env, NewConn, events).value)
  {
    NewIsMeasured(env);
    if FreshStarts(env, NewConn, events) && Run(env, NewConn, events).Some? { BodiesStayBounded(env, NewConn, events); }
  }

}
