/** From the text of a request, as a client writes it, to the request that is handed to the response builder: the
    parser, the routing and the connection loop together (srcs/ReqRes/RequestParser.cpp,
    srcs/Server/ClientServer.cpp:110-264). */
module WrittenDelivery {
  import opened Text
  import opened Numerals
  import opened Chunked
  import opened ChunkTheorems
  import opened ChunkGrammar
  import opened Http
  import opened BodyPhase
  import opened HeaderBlock
  import opened ParseRequest
  import opened RequestRoundTrip
  import opened ConfigTypes
  import opened Routing
  import opened Connection
  import opened Delivery
  import opened ShippedDelivery

  /** A request as it is written: method, target, fields, the text behind the empty line, and what it stands for. */
  datatype Message = Message(httpMethod: string, target: string, fs: seq<FieldText>, text: string, body: string)

  function TextOf(m: Message): string { HeadText(m.httpMethod, m.target, m.fs) + m.text }

  predicate Says(m: Message, name: string, value: string) {
    Named(LineTexts(m.fs), name) && name in MapOf(m.fs) && MapOf(m.fs)[name] == value
  }

  predicate HasNone(m: Message, name: string) { !Named(LineTexts(m.fs), name) }

  /** The fields announce the text: none, as many bytes as they say, or chunks. */
  ghost predicate Framing(m: Message) {
    || (HasNone(m, "content-length") && HasNone(m, "transfer-encoding") && m.text == "" && m.body == "")
    || (Says(m, "content-length", Dec(|m.body|)) && 0 < |m.body| < SIZE_MODULUS && m.text == m.body)
    || (Says(m, "transfer-encoding", "chunked") && WholeBody(ChunkSize, m.text, m.body, ""))
  }

  ghost predicate Written(m: Message) { Proper(m.httpMethod, m.target, m.fs) && Framing(m) }

  /** A server for the host has a block for the path, and its limit admits a body announced by its length. */
  ghost predicate Served(servers: seq<ServerConfig>, m: Message, name: string) {
    TargetText(m.target).Some? && exists s: nat ::
      && ServerFor(servers, name, s)
      && (exists l :: l in servers[s].locations && Covers(l, PathOf(TargetText(m.target).value)))
      && (HasNone(m, "content-length") || |m.body| <= servers[s].clientMaxBodySize)
  }

  lemma WrittenRead(rule: Rule, m: Message)
    requires Written(m)
    ensures ReadsBody(rule, TextOf(m), m.httpMethod, m.target, m.fs, m.body, "")
  {
    hide Proper;
    hide ReadsBody;
    hide HeadText;
    hide WholeBody;
    hide Dec;
    hide Named;
    hide MapOf;
    if Says(m, "content-length", Dec(|m.body|)) && 0 < |m.body| < SIZE_MODULUS && m.text == m.body {
      SizedRequestRead(rule, m.httpMethod, m.target, m.fs, m.body, "");
      assert m.body + "" == m.body;
    } else if Says(m, "transfer-encoding", "chunked") && WholeBody(ChunkSize, m.text, m.body, "") {
      FramedRequestRead(rule, m.httpMethod, m.target, m.fs, m.text, m.body, "");
    } else {
      PlainRequestRead(rule, m.httpMethod, m.target, m.fs, "");
    }
  }

  lemma UriIsPath(m: Message, r: Request)
    requires ReadAs(r, m.httpMethod, m.target, m.fs)
    ensures r.uri == PathOf(TargetText(m.target).value)
  {
    hide Find;
    hide At;
    hide TargetText;
    var text := TargetText(m.target).value;
    if '?' in text {
      assert text == r.uri + ['?'] + r.query;
      FindChar(r.uri, '?', r.query);
      AppendParts(r.uri, "?" + r.query);
    } else {
      FindCharAbsent(text, '?');
    }
  }

  /** The request as it is read from its text. */
  function ReadOf(rule: Rule, m: Message): Request
    requires Find(TextOf(m), DOUBLE_CRLF, 0).Some?
  {
    Parse(rule, Fresh, TextOf(m)).req
  }

  lemma HostIsSaid(m: Message, r: Request, name: string, port: string)
    requires ReadAs(r, m.httpMethod, m.target, m.fs) && Says(m, "host", name + port)
    ensures "host" in r.headers && r.headers["host"] == name + port && r.errorCode == 0
  {
  }

  /** The server is the one for the host, and the block the longest one for the path. */
  ghost predicate Placed(servers: seq<ServerConfig>, p: Routed, name: string) {
    && p.server.Some? && ServerFor(servers, name, p.server.value)
    && p.location.Some? && LocationOf(servers[p.server.value].locations, p.req.uri, p.location.value)
  }

  lemma RequestPlaced(servers: seq<ServerConfig>, m: Message, r: Request, name: string, port: string)
    requires servers != [] && ReadAs(r, m.httpMethod, m.target, m.fs) && Served(servers, m, name)
    requires ':' !in name && (port == "" || port[0] == ':') && Says(m, "host", name + port)
    ensures Route(servers, r).req == r && Placed(servers, Route(servers, r), name)
    ensures HasNone(m, "content-length") || |m.body| <= servers[Route(servers, r).server.value].clientMaxBodySize
  {
    hide ReadAs;
    hide Says;
    hide Covers;
    hide LocationOf;
    hide Route;
    hide TargetText;
    hide HasNone;
    HostIsSaid(m, r, name, port);
    UriIsPath(m, r);
    RoutedExactly(servers, r, name, port);
    var s: nat :|
      && ServerFor(servers, name, s)
      && (exists l :: l in servers[s].locations && Covers(l, PathOf(TargetText(m.target).value)))
      && (HasNone(m, "content-length") || |m.body| <= servers[s].clientMaxBodySize);
    ServerUnique(servers, name, s, Route(servers, r).server.value);
  }

  lemma LengthSaid(m: Message, r: Request)
    requires Framing(m) && ReadAs(r, m.httpMethod, m.target, m.fs) && Proper(m.httpMethod, m.target, m.fs)
    ensures r.hasContentLength <==> !HasNone(m, "content-length")
    ensures r.hasContentLength ==> Length(r) == |m.body|
  {
    hide Dec;
    hide Strtoul;
    hide WholeBody;
    hide MapOf;
    hide TargetText;
    hide TargetOk;
    OnlyOneFraming(m.httpMethod, m.fs);
    if Says(m, "content-length", Dec(|m.body|)) && |m.body| < SIZE_MODULUS { StrtoulDec(|m.body|); }
  }

  lemma WrittenIsAccepted(env: Env, m: Message, name: string, port: string)
    requires EnvOk(env) && env.rule == Repaired && Written(m) && Served(env.servers, m, name)
    requires ':' !in name && (port == "" || port[0] == ':') && Says(m, "host", name + port)
    ensures Accepted(env, TextOf(m)) && !Oversized(env, Final(env, TextOf(m)))
    ensures var p := Final(env, TextOf(m));
            && p.req == ReadOf(Repaired, m) && ReadAs(p.req, m.httpMethod, m.target, m.fs)
            && p.req.place == Outside(m.body) && Placed(env.servers, p, name)
  {
    hide ReadAs;
    hide Proper;
    hide Framing;
    hide Served;
    hide Says;
    hide HasNone;
    hide Parse;
    hide Route;
    hide Find;
    hide At;
    hide Placed;
    hide TextOf;
    WrittenRead(Repaired, m);
    var r := ReadOf(Repaired, m);
    RequestPlaced(env.servers, m, r, name, port);
    LengthSaid(m, r);
  }

  /** What has been handed on: the request that was written, placed with the server and the block it is for. */
  ghost predicate HandedOn(env: Env, c0: Conn, c: Conn, m: Message, name: string) {
    && c.live && c.ready && c.parser.Some? && Placed(env.servers, c.parser.value, name)
    && var r := c.parser.value.req;
       && c.completed == c0.completed + [r] && c.response == env.build(r)
       && r.phase == Done && ReadAs(r, m.httpMethod, m.target, m.fs) && r.place == Outside(m.body)
  }

  /** Main result of the model: a request written by a client, with names in any case and a body framed in any of the
      ways there are, delivered to an idle connection in any pieces, is handed on with its method, path, query, fields
      and body, for the server its host names and the longest block for its path; unless the size check on the request
      before it closes the connection. */
  lemma WrittenRequestDelivered(env: Env, m: Message, name: string, port: string, c0: Conn, pieces: seq<string>)
    requires EnvOk(env) && env.rule == Repaired && Written(m) && Served(env.servers, m, name)
    requires ':' !in name && (port == "" || port[0] == ':') && Says(m, "host", name + port)
    requires Idle(env, c0) && Concat(pieces) == TextOf(m) && NonEmpty(pieces)
    ensures HandedOn(env, c0, Feed(env, c0, pieces), m, name) <==> !TooLarge(env, c0)
  {
    hide Accepted;
    hide Feed;
    hide Placed;
    hide ReadAs;
    hide Written;
    hide Served;
    hide Oversized;
    hide TooLarge;
    hide Idle;
    hide Concat;
    hide NonEmpty;
    hide Admitted;
    hide TextOf;
    hide Find;
    hide At;
    WrittenIsAccepted(env, m, name, port);
    WrittenRead(Repaired, m);
    SmallIsAdmitted(env, TextOf(m), "", pieces);
    DeliveredExactly(env, TextOf(m), c0, pieces);
  }

  /** The shipped connection does the same when every read is clean. */
  lemma WrittenRequestShipped(env: Env, m: Message, name: string, port: string, c0: Conn, pieces: seq<string>)
    requires EnvOk(env) && env.rule == Repaired && Written(m) && Served(env.servers, m, name)
    requires ':' !in name && (port == "" || port[0] == ':') && Says(m, "host", name + port)
    requires Idle(env, c0) && Concat(pieces) == TextOf(m) && NonEmpty(pieces) && CleanReads(env, c0, pieces)
    ensures Sound(With(env, Shipped), c0)
    ensures !TooLarge(env, c0) ==> HandedOn(env, c0, Feed(With(env, Shipped), c0, pieces), m, name)
  {
    hide Accepted;
    hide Feed;
    hide Placed;
    hide ReadAs;
    hide Written;
    hide Served;
    hide Oversized;
    hide TooLarge;
    hide Idle;
    hide Concat;
    hide NonEmpty;
    hide CleanReads;
    hide TextOf;
    hide Find;
    hide At;
    WrittenIsAccepted(env, m, name, port);
    WrittenRead(Repaired, m);
    ShippedDelivers(env, TextOf(m), c0, pieces);
  }
}
