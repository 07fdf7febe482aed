/** Where the shipped connection loop does what the repaired one does, for every framing. */
module ShippedDelivery {
  import opened Text
  import opened Chunked
  import opened ChunkTheorems
  import opened Http
  import opened BodyPhase
  import opened ParseRequest
  import opened ConfigTypes
  import opened Connection
  import opened Delivery
  import Uri

  // ---------------------------------------------------------------- one parse

  lemma SettleInjective(r: Request, a: Decoded, b: Decoded)
    requires r.errorCode == 0 && r.phase == Phase.Body
    ensures Settle(r, a) == Settle(r, b) <==> a == b
  {
  }

  /** A call of parse_body: the rules agree exactly when the text ends at no bad cut. */
  lemma BodyAgreesExactly(r: Request, u: string)
    requires Receiving(r)
    ensures ParseBody(Shipped, r, u) == ParseBody(Repaired, r, u) <==>
            !(IsChunked(r) && CutsFraming(ChunkSize, r.place, u))
  {
    hide ChunkSize;
    hide Chunks;
    if IsChunked(r) {
      ShippedAgreesExactly(ChunkSize, r.place, u);
      SettleInjective(r, Chunks(Shipped, ChunkSize, r.place, u), Chunks(Repaired, ChunkSize, r.place, u));
    } else {
      RuleOnlyMattersForChunks(r, u);
    }
  }

  lemma LineAgrees(r: Request, line: string)
    requires !EmptyTarget(line)
    ensures SetLine(Shipped, r, line) == SetLine(Repaired, r, line)
  {
    hide Split;
    hide LegalTarget;
    hide BeforeFragment;
    hide SetVersion;
    var parts := Split(line, ' ');
    if |parts| == 3 && KnownMethod(parts[0]) {
      hide Uri.Normalize;
      NormalizeEmpty(BeforeFragment(parts[1]));
    }
  }

  lemma HeadAgrees(u: string)
    requires Find(u, DOUBLE_CRLF, 0).Some? && !SilentTarget(u)
    ensures Head(Shipped, u) == Head(Repaired, u)
  {
    hide SetLine;
    hide EmptyTarget;
    RequestLineStops(Shipped, Fresh, u);
    RequestLineStops(Repaired, Fresh, u);
    if LineEnd(u) <= MAX_REQUEST_LINE_LENGTH { LineAgrees(Fresh, FirstLine(u)); }
  }

  /** The buffer's target is not empty, and what it holds of a chunked body ends at no bad cut and leaves nothing
      over in the middle of the framing. */
  predicate CleanStart(u: string)
    requires Find(u, DOUBLE_CRLF, 0).Some?
  {
    && !SilentTarget(u)
    && (HeadStops(Repaired, u);
        var h := Head(Repaired, u);
        h.req.phase == Phase.Body && IsChunked(h.req) ==> CleanBody(h.req.place, h.rest))
  }

  predicate CleanBody(d: Place, u: string)
    requires Counters(d)
  {
    !CutsFraming(ChunkSize, d, u) && !LeavesOver(ChunkSize, d, u)
  }

  lemma CleanBodyMeans(d: Place, u: string)
    requires Counters(d)
    ensures CleanBody(d, u) <==>
            !CutsFraming(ChunkSize, d, u)
            && (Chunks(Repaired, ChunkSize, d, u).status.More? ==> Chunks(Repaired, ChunkSize, d, u).rest == "")
  {
    hide Chunks;
    hide ChunkSize;
    hide CutsFraming;
    hide LeavesOver;
    ShippedAgreesExactly(ChunkSize, d, u);
    LeavesOverExactly(ChunkSize, d, u);
  }

  /** The first parse of a request: the shipped loop ends with the repaired outcome exactly on a clean start. */
  lemma ParseAgreesExactly(u: string)
    requires Find(u, DOUBLE_CRLF, 0).Some?
    ensures Parse(Shipped, Fresh, u) == Parse(Repaired, Fresh, u) <==> CleanStart(u)
  {
    hide ParseBody;
    hide Head;
    hide CutsFraming;
    hide CleanBody;
    HeadStops(Repaired, u);
    HeadStops(Shipped, u);
    DriveIs(Repaired, u);
    DriveIs(Shipped, u);
    if !SilentTarget(u) {
      HeadAgrees(u);
      var h := Head(Repaired, u);
      if h.req.phase == Phase.Body {
        BodyAgreesExactly(h.req, h.rest);
        CleanBodyMeans(h.req.place, h.rest);
        RestOfBody(h.req, h.rest);
      }
    }
  }

  lemma RestOfBody(r: Request, u: string)
    requires Receiving(r)
    ensures u == "" ==> !CutsFraming(ChunkSize, r.place, u)
    ensures var q := ParseBody(Repaired, r, u);
            if IsChunked(r) then
              var d := Chunks(Repaired, ChunkSize, r.place, u);
              (d.status.More? <==> q.req.phase == Phase.Body) && d.rest == q.rest && (u == "" ==> d.rest == "")
            else q.req.phase == Phase.Body ==> q.rest == ""
  {
    hide ChunkSize;
    hide Sized;
    BodyKeeps(Repaired, r, u);
  }

  // ---------------------------------------------------------------- whole deliveries

  /** A read after which the shipped rule is in no trouble. Only the connection's own state and the new bytes matter. */
  predicate CleanRead(c: Conn, data: string)
    requires InBody(c) ==> Receiving(c.parser.value.req)
  {
    var u := c.buffer + data;
    if InBody(c) then IsChunked(c.parser.value.req) ==> !CutsFraming(ChunkSize, c.parser.value.req.place, u)
    else Find(u, DOUBLE_CRLF, 0).Some? ==> CleanStart(u)
  }

  function With(env: Env, rule: Rule): Env { env.(rule := rule) }

  lemma SoundUnderBoth(env: Env, c: Conn, rule: Rule)
    requires Sound(env, c)
    ensures Sound(With(env, rule), c)
  {
  }

  /** The shipped connection takes this read as the repaired one does. */
  predicate ReadsAlike(env: Env, c: Conn, data: string)
    requires Sound(env, c) && Serving(c)
  {
    SoundUnderBoth(env, c, Shipped);
    SoundUnderBoth(env, c, Repaired);
    OnReceive(With(env, Shipped), c, data) == OnReceive(With(env, Repaired), c, data)
  }

  /** A read that is not refused as too large, and does not complete a header block the repaired parser refuses. */
  ghost predicate Accepting(env: Env, c: Conn, data: string)
    requires EnvOk(env)
  {
    && !NullServer(c) && !TooLarge(env, c)
    && var u := c.buffer + data;
       !InBody(c) && Find(u, DOUBLE_CRLF, 0).Some? ==>
         Parse(Repaired, Fresh, u).req.errorCode == 0 &&
             Route(env.servers, Parse(Repaired, Fresh, u).req).req.errorCode == 0
  }

  lemma SettledInjective(env: Env, c: Conn, rest: string, other: string, p: Routed, q: Routed)
    requires |rest| <= |c.buffer| && |other| <= |c.buffer|
    requires Settled(env, Consume(c, rest), p) == Settled(env, Consume(c, other), q)
    ensures rest == other && p == q
  {
  }

  lemma BodyReadsAlike(env: Env, c: Conn)
    requires InBody(c) && Receiving(c.parser.value.req)
    ensures BodyRead(With(env, Shipped), c) == BodyRead(With(env, Repaired), c) <==>
            (IsChunked(c.parser.value.req) ==> !CutsFraming(ChunkSize, c.parser.value.req.place, c.buffer))
  {
    hide ParseBody;
    hide CutsFraming;
    hide Settled;
    var p := c.parser.value;
    BodyAgreesExactly(p.req, c.buffer);
    BodyKeeps(Shipped, p.req, c.buffer);
    BodyKeeps(Repaired, p.req, c.buffer);
    var s, r := ParseBody(Shipped, p.req, c.buffer), ParseBody(Repaired, p.req, c.buffer);
    SettledRule(env, Consume(c, s.rest), p.(req := s.req));
    SettledRule(env, Consume(c, r.rest), p.(req := r.req));
    if BodyRead(With(env, Shipped), c) == BodyRead(With(env, Repaired), c) {
      SettledInjective(env, c, s.rest, r.rest, p.(req := s.req), p.(req := r.req));
    }
  }

  lemma SettledRule(env: Env, c: Conn, p: Routed)
    ensures Settled(With(env, Shipped), c, p) == Settled(env, c, p) == Settled(With(env, Repaired), c, p)
  {
  }

  lemma RouteInjective(servers: seq<ServerConfig>, r: Request, s: Request)
    requires servers != [] && s.errorCode == 0 && Route(servers, s).req.errorCode == 0 &&
            Route(servers, r) == Route(servers, s)
    requires ErrorCloses(r) && ErrorCloses(s)
    ensures r == s
  {
  }

  lemma HeaderReadsAlike(env: Env, c: Conn)
    requires EnvOk(env) && !c.stalled && Find(c.buffer, DOUBLE_CRLF, 0).Some?
    requires Parse(Repaired, Fresh, c.buffer).req.errorCode == 0
    requires Route(env.servers, Parse(Repaired, Fresh, c.buffer).req).req.errorCode == 0
    ensures HeaderRead(With(env, Shipped), c) == HeaderRead(With(env, Repaired), c) <==> CleanStart(c.buffer)
  {
    hide Parse;
    hide Route;
    hide CleanStart;
    hide Settled;
    hide SilentTarget;
    hide Find;
    hide At;
    ParseAgreesExactly(c.buffer);
    ParseEnds(Shipped, c.buffer);
    ParseEnds(Repaired, c.buffer);
    var s, r := Parse(Shipped, Fresh, c.buffer), Parse(Repaired, Fresh, c.buffer);
    SettledRule(env, Consume(c, r.rest), Route(env.servers, r.req));
    SettledStalls(env, Consume(c, r.rest), Route(env.servers, r.req));
    if !s.stalled {
      SettledRule(env, Consume(c, s.rest), Route(env.servers, s.req));
      if HeaderRead(With(env, Shipped), c) == HeaderRead(With(env, Repaired), c) {
        SettledInjective(env, c, s.rest, r.rest, Route(env.servers, s.req), Route(env.servers, r.req));
        RouteInjective(env.servers, s.req, r.req);
      }
    }
  }

  lemma SettledStalls(env: Env, c: Conn, p: Routed)
    ensures Settled(env, c, p).stalled == c.stalled
  {
  }

  /** One read: on a connection that is accepting, the shipped rule takes it as the repaired one exactly when it is
      clean. */
  lemma ReadAgreesExactly(env: Env, c: Conn, data: string)
    requires Sound(env, c) && Serving(c) && Accepting(env, c, data)
    ensures InBody(c) ==> Receiving(c.parser.value.req)
    ensures ReadsAlike(env, c, data) <==> CleanRead(c, data)
  {
    hide Parse;
    hide Route;
    hide BodyRead;
    hide HeaderRead;
    hide CleanStart;
    hide CutsFraming;
    hide Find;
    hide At;
    var c1 := Receive(c, data);
    if InBody(c) {
      SupersededParser(env, c);
      BodyReadsAlike(env, c1);
    } else if Find(c1.buffer, DOUBLE_CRLF, 0).Some? {
      HeaderReadsAlike(env, c1);
    } else {
      NothingRead(env, c1);
    }
  }

  lemma NothingRead(env: Env, c: Conn)
    requires EnvOk(env) && Find(c.buffer, DOUBLE_CRLF, 0).None?
    ensures HeaderRead(With(env, Shipped), c) == c == HeaderRead(With(env, Repaired), c)
  {
  }

  /** After every read the shipped connection stands where the repaired one stands. */
  ghost predicate InStepWithRepaired(env: Env, c: Conn, pieces: seq<string>)
    requires Sound(env, c)
    decreases |pieces|
  {
    pieces != [] && Serving(c) ==>
      && ReadsAlike(env, c, pieces[0])
      && (ReceiveSound(env, c, pieces[0]); InStepWithRepaired(env, OnReceive(env, c, pieces[0]), pieces[1..]))
  }

  ghost predicate CleanReads(env: Env, c: Conn, pieces: seq<string>)
    requires Sound(env, c)
    decreases |pieces|
  {
    pieces != [] && Serving(c) ==>
      && (InBody(c) ==> Receiving(c.parser.value.req)) && (TooLarge(env, c) || CleanRead(c, pieces[0]))
      && (ReceiveSound(env, c, pieces[0]); CleanReads(env, OnReceive(env, c, pieces[0]), pieces[1..]))
  }

  /** Every read of an accepted request within the limit is accepting. */
  lemma AcceptedIsAccepting(env: Env, w: string, c0: Conn, c: Conn, a: string, d: string, b: string)
    requires env.rule.Repaired? && Accepted(env, w) && Admits(env, c0) && Sound(env, c) && Waiting(env, c0, c, a)
    requires w == a + d + b && d != "" && !Oversized(env, Final(env, w))
    ensures Accepting(env, c, d)
  {
    hide Parse;
    hide Route;
    hide Length;
    hide Head;
    hide Receiving;
    hide Find;
    hide At;
    hide BodyBegun;
    if Find(a, DOUBLE_CRLF, 0).Some? {
      assert w == a + (d + b);
      ParseOfPart(env, w, a, d + b);
    } else if Find(a + d, DOUBLE_CRLF, 0).Some? {
      if b == "" {
        assert w == a + d;
        ParseEnds(env.rule, w);
        RouteErrors(env, Parse(env.rule, Fresh, w).req);
      } else {
        ParseOfPart(env, w, a + d, b);
        SupersededCode(Parse(env.rule, Fresh, a + d).req);
      }
    }
  }

  lemma RouteErrors(env: Env, r: Request)
    requires EnvOk(env) && ErrorCloses(r) && Route(env.servers, r).req.phase == Done
    ensures Route(env.servers, r).req.errorCode == 0
  {
  }

  lemma SupersededCode(r: Request)
    requires Receiving(r)
    ensures r.errorCode == 0
  {
  }

  lemma {:induction false} InStepFrom(env: Env, w: string, c0: Conn, c: Conn, a: string, pieces: seq<string>)
    requires env.rule.Repaired? && Accepted(env, w) && Admits(env, c0) && Sound(env, c) && Waiting(env, c0, c, a)
    requires w == a + Concat(pieces) && NonEmpty(pieces) && !Oversized(env, Final(env, w))
    ensures InStepWithRepaired(env, c, pieces) <==> CleanReads(env, c, pieces)
    decreases |pieces|
  {
    hide OnReceive;
    hide ReadsAlike;
    hide CleanRead;
    hide TooLarge;
    hide Waiting;
    hide Oversized;
    hide BodyBegun;
    hide Delivered;
    hide Parse;
    if pieces != [] {
      OpenWhileWaiting(env, c0, c, a);
      var d, rest := pieces[0], pieces[1..];
      assert w == a + d + Concat(rest);
      assert d != "" && NonEmpty(rest);
      AcceptedIsAccepting(env, w, c0, c, a, d, Concat(rest));
      ReadAgreesExactly(env, c, d);
      ReceiveSound(env, c, d);
      Delivery.OneRead(env, w, c0, c, a, d, Concat(rest));
      ConcatEmpty(rest);
      if rest != [] { InStepFrom(env, w, c0, OnReceive(env, c, d), a + d, rest); }
    }
  }

  lemma IdleWaits(env: Env, c0: Conn)
    requires Admits(env, c0)
    ensures Waiting(env, c0, c0, "")
  {
    assert Find("", DOUBLE_CRLF, 0).None?;
    assert c0.received + "" == c0.received;
  }

  lemma NotAdmittedAlike(env: Env, c: Conn, pieces: seq<string>)
    requires Idle(env, c) && TooLarge(env, c)
    ensures InStepWithRepaired(env, c, pieces) && CleanReads(env, c, pieces)
  {
    hide BodyRead;
    hide HeaderRead;
    hide CleanRead;
    if pieces != [] {
      ReceiveSound(env, c, pieces[0]);
      assert OnReceive(env, c, pieces[0]) == Terminate(c);
    }
  }

  /** Main result for the shipped connection, any framing: while it receives an accepted request within the size limit,
      cut into reads in any way, it stands after every read where the repaired connection stands if and only if every
      read is clean. */
  lemma ConnectionInStepExactly(env: Env, w: string, c0: Conn, pieces: seq<string>)
    requires env.rule.Repaired? && Accepted(env, w) && Idle(env, c0) && !Oversized(env, Final(env, w))
    requires Concat(pieces) == w && NonEmpty(pieces)
    ensures InStepWithRepaired(env, c0, pieces) <==> CleanReads(env, c0, pieces)
  {
    hide Waiting;
    hide Parse;
    hide TooLarge;
    if TooLarge(env, c0) {
      NotAdmittedAlike(env, c0, pieces);
    } else {
      IdleWaits(env, c0);
      assert "" + Concat(pieces) == w;
      InStepFrom(env, w, c0, c0, "", pieces);
    }
  }

  lemma {:induction false} ShippedFollows(env: Env, c: Conn, pieces: seq<string>)
    requires env.rule.Repaired? && Sound(env, c) && InStepWithRepaired(env, c, pieces)
    ensures Sound(With(env, Shipped), c)
    ensures Feed(With(env, Shipped), c, pieces) == Feed(env, c, pieces)
    decreases |pieces|
  {
    hide OnReceive;
    SoundUnderBoth(env, c, Shipped);
    assert With(env, Repaired) == env;
    if pieces != [] && Serving(c) {
      ReceiveSound(env, c, pieces[0]);
      ShippedFollows(env, OnReceive(env, c, pieces[0]), pieces[1..]);
    }
  }

  /** So, when every read is clean, the shipped connection hands on any accepted request within the limit, chunked
      included, just as its one-piece parse reads it, unless the size check on the request before it closes it. */
  lemma ShippedDelivers(env: Env, w: string, c0: Conn, pieces: seq<string>)
    requires env.rule.Repaired? && Accepted(env, w) && Idle(env, c0) && !Oversized(env, Final(env, w))
    requires Concat(pieces) == w && NonEmpty(pieces) && CleanReads(env, c0, pieces)
    ensures Sound(With(env, Shipped), c0)
    ensures Delivered(env, c0, Feed(With(env, Shipped), c0, pieces), w) <==> !TooLarge(env, c0)
  {
    hide CleanReads;
    hide InStepWithRepaired;
    hide Feed;
    hide Delivered;
    ConnectionInStepExactly(env, w, c0, pieces);
    ShippedFollows(env, c0, pieces);
    SmallIsAdmitted(env, w, "", pieces);
    DeliveredExactly(env, w, c0, pieces);
  }
}
