/** One client connection as a state machine over its events (srcs/Server/ClientServer.cpp:110-264, :281-291, :399-478).
    Reads are handled at any time, also while a response is still being sent, as the source does.
    The response builder is a parameter; CGI jobs and the sending of interim and 413 responses are outside. */
module Connection {
  import opened Text
  import opened Chunked
  import opened Http
  import opened BodyPhase
  import opened ParseRequest
  import opened ConfigTypes
  import opened Routing

  const RD_SIZE: nat := 1024

  /** What the connection runs with: the parser's rule, the servers listening, and the response builder. */
  datatype Env = Env(rule: Rule, servers: seq<ServerConfig>, build: Request -> string)

  predicate EnvOk(env: Env) { env.servers != [] }

  /** A parsed request with the server and location match_location gave it. */
  datatype Routed = Routed(req: Request, server: Option<nat>, location: Option<nat>)

  function LocationFor(servers: seq<ServerConfig>, headers: map<string, string>, uri: string): (nat, Option<nat>)
    requires servers != []
  {
    var s := PickServer(servers, HostName(headers));
    (s, Best(Paths(servers[s].locations), uri))
  }

  /** match_location, which runs only for a request without error, and may log a 404. */
  function Route(servers: seq<ServerConfig>, r: Request): Routed
    requires servers != []
  {
    if r.errorCode != 0 then Routed(r, None, None)
    else
      var (s, l) := LocationFor(servers, r.headers, r.uri);
      Routed(if l.None? then LogError(r, 404) else r, Some(s), l)
  }

  /** The block's path, slashes collapsed, is a prefix of the request path; the empty path only covers itself. */
  predicate Covers(l: Location, uri: string) {
    Collapse(l.location) <= uri && (Collapse(l.location) == "" ==> uri == "")
  }

  /** The first of the blocks with the longest path that covers the request path. */
  ghost predicate LocationOf(ls: seq<Location>, uri: string, i: nat) {
    && i < |ls| && Covers(ls[i], uri)
    && (forall j :: 0 <= j < |ls| && Covers(ls[j], uri) ==> |Collapse(ls[j].location)| <= |Collapse(ls[i].location)|)
    && (forall j :: 0 <= j < i && Covers(ls[j], uri) ==> |Collapse(ls[j].location)| < |Collapse(ls[i].location)|)
  }

  lemma LocationIs(ls: seq<Location>, uri: string)
    ensures var b := Best(Paths(ls), uri);
            && (b.Some? ==> LocationOf(ls, uri, b.value))
            && (b.None? ==> forall i :: 0 <= i < |ls| ==> !Covers(ls[i], uri))
  {
    hide Best;
    hide Collapse;
    BestIsLongest(Paths(ls), uri);
    forall i | 0 <= i < |ls| ensures Candidate(Paths(ls)[i], uri) == Covers(ls[i], uri) {
    }
  }

  /** Main result on routing: whatever port stands behind the host name, the server is the one for the name, and the
      location is found among the blocks of that server; without one the request becomes a 404. */
  lemma RoutedExactly(servers: seq<ServerConfig>, r: Request, name: string, port: string)
    requires servers != [] && r.errorCode == 0
    requires ':' !in name && (port == "" || port[0] == ':')
    requires if "host" in r.headers then r.headers["host"] == name + port else name == ""
    ensures var p := Route(servers, r);
            && p.server.Some? && ServerFor(servers, name, p.server.value)
            && (p.location.Some? ==>
                  p.req == r && LocationOf(servers[p.server.value].locations, r.uri, p.location.value))
            && (p.location.None? ==>
                  && p.req == r.(phase := ErrorParse, errorCode := 404, headers := r.headers["connection" := "close"])
                  && forall l :: l in servers[p.server.value].locations ==> !Covers(l, r.uri))
  {
    hide HostName;
    hide Best;
    hide Covers;
    hide LocationOf;
    if "host" in r.headers { HostNameOnly(r.headers, name, port); } else { NoHostName(r.headers); }
    var s := PickServer(servers, name);
    LocationIs(servers[s].locations, r.uri);
  }

  /** The fields of ClientServer, and the history of the bytes: `received` and `consumed` since the connection opened,
      `sent` of the response built last, `completed` the requests handed to the response builder. `stalled` is set where
      parse_request never returns, `crashed` where a NULL server_config is followed. */
  datatype Conn = Conn(
    live: bool, parser: Option<Routed>, buffer: string, response: string, ready: bool,
    continueSent: bool, stalled: bool, crashed: bool,
    received: string, consumed: string, sent: string, completed: seq<Request>)

  const NewConn: Conn := Conn(true, None, "", "", false, false, false, false, "", "", "", [])

  /** terminate. */
  function Terminate(c: Conn): Conn {
    c.(live := false, parser := None, buffer := "", response := "", ready := false)
  }

  /** Events are still handled. */
  predicate Serving(c: Conn) { c.live && !c.stalled && !c.crashed }

  /** And no response is outstanding. */
  predicate Open(c: Conn) { Serving(c) && !c.ready }

  predicate ServerKnown(env: Env, p: Routed) { p.server.Some? && p.server.value < |env.servers| }

  function MaxBody(env: Env, p: Routed): nat
    requires ServerKnown(env, p)
  {
    env.servers[p.server.value].clientMaxBodySize
  }

  /** What every reachable connection satisfies. */
  ghost predicate Sound(env: Env, c: Conn) {
    && EnvOk(env)
    && (c.live ==>
          && (!c.stalled ==> c.received == c.consumed + c.buffer)
          && (c.completed != [] ==>
                env.build(c.completed[|c.completed| - 1]) == if c.ready then c.sent + c.response else c.sent)
          && (c.ready ==> c.parser.Some? && c.completed != [])
          && (c.parser.Some? && !InBody(c) ==>
                c.completed != [] && c.completed[|c.completed| - 1] == c.parser.value.req)
          && (c.parser.Some? ==> SoundParser(env, c, c.parser.value)))
  }

  ghost predicate SoundParser(env: Env, c: Conn, p: Routed) {
    && SoundRequest(env, p)
    && (p.req.phase == ErrorParse ==> c.ready)
  }

  /** The state of a parser that a connection holds: ERROR_PARSE exactly with an error code; a Content-Length body never
      longer than its length, and exactly that long when it is done; a server unless there is an error. */
  ghost predicate SoundRequest(env: Env, p: Routed) {
    && p.req.phase in {Phase.Body, Done, ErrorParse}
    && ErrorCloses(p.req)
    && (p.req.phase == Phase.Body ==> Receiving(p.req))
    && (p.req.phase == Done && p.req.hasContentLength ==> |p.req.place.body| == Length(p.req))
    && (p.req.phase != ErrorParse ==> ServerKnown(env, p))
    && (p.server.Some? ==> ServerKnown(env, p))
  }

  // ---------------------------------------------------------------- reading

  /** readIncomingData follows server_config for any parser that saw a Content-Length, also for one that was never
      routed. */
  predicate NullServer(c: Conn) {
    c.parser.Some? && c.parser.value.req.hasContentLength && c.parser.value.server.None?
  }

  /** The check at the top of readIncomingData, made on what the previous calls have parsed. */
  predicate TooLarge(env: Env, c: Conn) {
    && c.parser.Some? && c.parser.value.req.hasContentLength && ServerKnown(env, c.parser.value)
    && c.parser.value.req.contentLength > MaxBody(env, c.parser.value)
  }

  /** What the parser took off the front of the buffer. */
  function Consume(c: Conn, rest: string): Conn
    requires |rest| <= |c.buffer|
  {
    c.(consumed := c.consumed + c.buffer[..|c.buffer| - |rest|], buffer := rest)
  }

  /** processCompletedRequest for a request that is not a CGI job. A response still outstanding is overwritten. */
  function Complete(env: Env, c: Conn, p: Routed): Conn {
    c.(parser := Some(p), response := env.build(p.req), ready := true, sent := "", completed := c.completed + [p.req])
  }

  /** The request is handed on unless its body is still open. */
  function Settled(env: Env, c: Conn, p: Routed): Conn {
    if p.req.phase == Phase.Body then c.(parser := Some(p)) else Complete(env, c, p)
  }

  predicate InBody(c: Conn) { c.parser.Some? && c.parser.value.req.phase == Phase.Body }

  /** isParsingRequestBody with a request in BODY. */
  function BodyRead(env: Env, c: Conn): Conn
    requires c.parser.Some? && Receiving(c.parser.value.req)
  {
    var p := c.parser.value;
    var q := ParseBody(env.rule, p.req, c.buffer);
    BodyKeeps(env.rule, p.req, c.buffer);
    Settled(env, Consume(c, q.rest), p.(req := q.req))
  }

  /** processRequestHeaders and parseHeaders: nothing happens before the first empty line is there. */
  function HeaderRead(env: Env, c: Conn): Conn
    requires EnvOk(env)
  {
    if Find(c.buffer, DOUBLE_CRLF, 0).None? then c
    else
      ParseEnds(env.rule, c.buffer);
      var o := Parse(env.rule, Fresh, c.buffer);
      if o.stalled then c.(stalled := true)
      else Settled(env, Consume(c, o.rest), Route(env.servers, o.req))
  }

  function Receive(c: Conn, data: string): Conn {
    c.(buffer := c.buffer + data, received := c.received + data,
       continueSent := c.continueSent || (c.parser.Some? && "expect" in c.parser.value.req.headers))
  }

  /** handleIncomingData when recv delivers `data`. */
  function OnReceive(env: Env, c: Conn, data: string): Conn
    requires Sound(env, c) && Serving(c)
  {
    if NullServer(c) then c.(crashed := true)
    else if TooLarge(env, c) then Terminate(c)
    else
      var c1 := Receive(c, data);
      if InBody(c1) then BodyRead(env, c1) else HeaderRead(env, c1)
  }

  /** handleIncomingData when recv brings nothing or fails. */
  function OnClosed(c: Conn): Conn {
    if NullServer(c) then c.(crashed := true) else Terminate(c)
  }

  // ---------------------------------------------------------------- sending

  predicate KeepAlive(c: Conn) {
    c.parser.Some? && ("connection" in c.parser.value.req.headers ==>
        c.parser.value.req.headers["connection"] != "close")
  }

  /** finalizeResponse. */
  function Finalize(c: Conn): Conn {
    var d := c.(ready := false);
    if !KeepAlive(c) then Terminate(d)
    else if d.parser.value.req.errorCode != 0 then d.(parser := None)
    else d
  }

  /** handleResponse when send takes `n` bytes (none or fewer stand for its failure). */
  function OnWritable(c: Conn, n: nat, timedOut: bool): Conn
    requires n <= |c.response|
  {
    if !c.ready || c.response == "" then c
    else if timedOut || n == 0 then Terminate(c)
    else
      var d := c.(response := c.response[n..], sent := c.sent + c.response[..n]);
      if d.response == "" then Finalize(d) else d
  }

  // ---------------------------------------------------------------- runs

  datatype Event = Received(data: string) | PeerClosed | Writable(n: nat, timedOut: bool)

  /** What the network can do next, whatever the connection is busy with. */
  predicate Enabled(c: Conn, e: Event) {
    && Serving(c)
    && (e.Received? ==> 0 < |e.data| <= RD_SIZE)
    && (e.Writable? ==> e.n <= |c.response|)
  }

  function Step(env: Env, c: Conn, e: Event): Conn
    requires Sound(env, c) && Enabled(c, e)
  {
    match e
    case Received(data) => OnReceive(env, c, data)
    case PeerClosed => OnClosed(c)
    case Writable(n, timedOut) => OnWritable(c, n, timedOut)
  }

  // ---------------------------------------------------------------- what every run keeps

  lemma RouteSound(env: Env, r: Request)
    requires EnvOk(env)
    requires r.phase in {Phase.Body, Done, ErrorParse} && ErrorCloses(r) && (r.phase == Phase.Body ==> Receiving(r))
    ensures var p := Route(env.servers, r);
            && p.req.phase in {Phase.Body, Done, ErrorParse} && ErrorCloses(p.req)
            && (p.req.phase == Phase.Body ==> Receiving(p.req))
            && (p.req.phase != ErrorParse ==> p.req == r && ServerKnown(env, p) && p.location.Some?)
            && (p.server.Some? ==> ServerKnown(env, p))
            && (r.phase == ErrorParse ==> p.req == r)
  {
  }

  lemma ConsumeKeeps(c: Conn, rest: string)
    requires |rest| <= |c.buffer| && rest == c.buffer[|c.buffer| - |rest|..] && c.received == c.consumed + c.buffer
    ensures Consume(c, rest).received == Consume(c, rest).consumed + Consume(c, rest).buffer
  {
    assert c.buffer == c.buffer[..|c.buffer| - |rest|] + rest;
    assert c.consumed + (c.buffer[..|c.buffer| - |rest|] + rest) == c.consumed + c.buffer[..|c.buffer| - |rest|] + rest;
  }

  lemma SettledSound(env: Env, c: Conn, p: Routed)
    requires EnvOk(env) && Serving(c) && c.received == c.consumed + c.buffer
    requires c.completed != [] ==>
               env.build(c.completed[|c.completed| - 1]) == if c.ready then c.sent + c.response else c.sent
    requires c.ready ==> c.completed != []
    requires SoundRequest(env, p)
    ensures Sound(env, Settled(env, c, p))
  {
    hide SoundRequest;
    hide Receiving;
    assert "" + env.build(p.req) == env.build(p.req);
    SettledPhases(env, p);
  }

  lemma SettledPhases(env: Env, p: Routed)
    requires SoundRequest(env, p)
    ensures p.req.phase in {Phase.Body, Done, ErrorParse}
  {
  }

  lemma BodyReadSound(env: Env, c: Conn)
    requires EnvOk(env) && Serving(c) && InBody(c) && SoundRequest(env, c.parser.value)
    requires c.received == c.consumed + c.buffer && (c.ready ==> c.completed != [])
    requires c.completed != [] ==>
               env.build(c.completed[|c.completed| - 1]) == if c.ready then c.sent + c.response else c.sent
    ensures Sound(env, BodyRead(env, c))
  {
    hide ParseBody;
    hide Sound;
    hide Length;
    var p := c.parser.value;
    BodyKeeps(env.rule, p.req, c.buffer);
    var q := ParseBody(env.rule, p.req, c.buffer);
    ConsumeKeeps(c, q.rest);
    if p.req.hasContentLength && q.req.phase == Done { BodyCompletes(env.rule, p.req, c.buffer); }
    SettledSound(env, Consume(c, q.rest), p.(req := q.req));
  }

  lemma RoutedSound(env: Env, u: string)
    requires EnvOk(env) && Find(u, DOUBLE_CRLF, 0).Some? && !Parse(env.rule, Fresh, u).stalled
    ensures SoundRequest(env, Route(env.servers, Parse(env.rule, Fresh, u).req))
  {
    hide Parse;
    hide Route;
    hide Length;
    hide Find;
    hide At;
    ParseEnds(env.rule, u);
    RouteSound(env, Parse(env.rule, Fresh, u).req);
    DoneHasWholeBody(env.rule, u);
  }

  lemma HeaderReadSound(env: Env, c: Conn)
    requires Sound(env, c) && Serving(c)
    ensures Sound(env, HeaderRead(env, c))
  {
    hide Parse;
    hide Route;
    hide Length;
    hide Find;
    hide At;
    hide Settled;
    hide SoundRequest;
    hide IsChunked;
    if Find(c.buffer, DOUBLE_CRLF, 0).Some? {
      ParseEnds(env.rule, c.buffer);
      var o := Parse(env.rule, Fresh, c.buffer);
      if !o.stalled {
        ConsumeKeeps(c, o.rest);
        RoutedSound(env, c.buffer);
        SettledSound(env, Consume(c, o.rest), Route(env.servers, o.req));
      }
    }
  }

  lemma ReceivedSound(env: Env, c: Conn, data: string)
    requires Sound(env, c) && Serving(c)
    ensures Sound(env, Receive(c, data)) && Serving(Receive(c, data))
  {
    Assoc(c.consumed, c.buffer, data);
  }

  lemma ReceiveSound(env: Env, c: Conn, data: string)
    requires Sound(env, c) && Serving(c)
    ensures Sound(env, OnReceive(env, c, data))
  {
    hide BodyRead;
    hide HeaderRead;
    hide SoundRequest;
    if !NullServer(c) && !TooLarge(env, c) {
      var c1 := Receive(c, data);
      ReceivedSound(env, c, data);
      if InBody(c1) { BodyReadSound(env, c1); } else { HeaderReadSound(env, c1); }
    }
  }

  lemma WritableSound(env: Env, c: Conn, n: nat, timedOut: bool)
    requires Sound(env, c) && c.live && n <= |c.response|
    ensures Sound(env, OnWritable(c, n, timedOut))
  {
    hide SoundRequest;
    assert c.response == c.response[..n] + c.response[n..];
    assert c.sent + c.response == c.sent + c.response[..n] + c.response[n..];
    if c.parser.Some? { SoundErrors(env, c); }
    if n == |c.response| { assert c.sent + c.response[..n] + "" == c.sent + c.response[..n]; }
  }

  lemma SoundErrors(env: Env, c: Conn)
    requires Sound(env, c) && c.live && c.parser.Some?
    ensures ErrorCloses(c.parser.value.req) && (c.parser.value.req.phase == ErrorParse ==> c.ready && !KeepAlive(c))
  {
  }

  /** Main result on the connection, for every event in every reachable state: the bytes received are the bytes
      consumed by parsers followed by the buffer, the bytes sent followed by the rest of the response are the response
      that was built last, and a parser with an error waits for its response and never outlives it. */
  lemma StepSound(env: Env, c: Conn, e: Event)
    requires Sound(env, c) && Enabled(c, e)
    ensures Sound(env, Step(env, c, e))
  {
    match e
    case Received(data) => ReceiveSound(env, c, data);
    case PeerClosed =>
    case Writable(n, timedOut) => WritableSound(env, c, n, timedOut);
  }

  /** The connection after a run; None when the run asks for an event that cannot happen.
      Every connection that can be reached this way from a sound one is sound. */
  function Run(env: Env, c: Conn, events: seq<Event>): (d: Option<Conn>)
    requires Sound(env, c)
    ensures d.Some? ==> Sound(env, d.value)
    decreases |events|
  {
    if events == [] then Some(c)
    else if !Enabled(c, events[0]) then None
    else StepSound(env, c, events[0]); Run(env, Step(env, c, events[0]), events[1..])
  }

  lemma NewIsSound(env: Env)
    requires EnvOk(env)
    ensures Sound(env, NewConn)
  {
    assert "" + "" == "";
  }

  /** The bytes of a connection, over every run from its opening: what was received is what parsers consumed followed by
      the buffer, and what was sent of the response built last, followed by what is left of it, is that response; once
      no response is outstanding it was sent whole. */
  lemma BytesConserved(env: Env, events: seq<Event>)
    requires EnvOk(env)
    ensures Sound(env, NewConn)
    ensures var d := Run(env, NewConn, events);
            d.Some? && d.value.live ==>
              && (!d.value.stalled ==> d.value.received == d.value.consumed + d.value.buffer)
              && (d.value.completed != [] ==>
                    env.build(d.value.completed[|d.value.completed| - 1]) ==
                    if d.value.ready then d.value.sent + d.value.response else d.value.sent)
  {
    NewIsSound(env);
  }

  // ---------------------------------------------------------------- errors and outstanding responses

  /** A connection whose parser holds an error is never kept alive: the branch of finalizeResponse that would clean up
      such a parser on an open connection is never taken. */
  lemma CleanUpNeverTaken(env: Env, c: Conn)
    requires Sound(env, c) && c.live
    ensures !(KeepAlive(c) && c.parser.value.req.errorCode != 0)
  {
    if c.parser.Some? { SoundErrors(env, c); }
  }

  /** The request in the parser carries `Connection: close`; any other value, or none, keeps the connection open. */
  predicate AsksToClose(c: Conn) { c.parser.Some? && ("connection", "close") in c.parser.value.req.headers.Items }

  /** A send moves exactly the bytes it takes, and the connection goes on exactly when it took some in time and either
      some are left or the request in the parser lets the connection stay open. */
  lemma SendExactly(env: Env, c: Conn, n: nat, timedOut: bool)
    requires Sound(env, c) && Serving(c) && c.ready && c.response != "" && n <= |c.response|
    ensures var d := OnWritable(c, n, timedOut);
            && (d.live <==> !timedOut && n > 0 && (n < |c.response| || !AsksToClose(c)))
            && (d.live ==>
                  d.sent + d.response == c.sent + c.response && |d.sent| == |c.sent| + n && d.parser == c.parser)
            && (d.live ==> (d.ready <==> n < |c.response|))
            && (d.live && !d.ready ==> d.sent == env.build(d.completed[|d.completed| - 1]))
  {
    WritableSound(env, c, n, timedOut);
    SoundErrors(env, c);
    assert c.response == c.response[..n] + c.response[n..];
    Assoc(c.sent, c.response[..n], c.response[n..]);
  }

  /** A response is outstanding and its request is still the one in the parser. */
  predicate Answering(c: Conn) {
    Serving(c) && c.ready && c.parser.Some? && c.parser.value.req.phase != Phase.Body
  }

  /** Same request, same error, and no other request handed on. */
  predicate SameAnswer(c: Conn, d: Conn) { d.parser == c.parser && d.completed == c.completed }

  /** A newer request has taken the place of the one that was handed on as the `k`-th. */
  predicate Superseded(k: nat, d: Conn) { |d.completed| > k || (|d.completed| == k && InBody(d)) }

  lemma ReadWhileAnswering(env: Env, c: Conn, data: string)
    requires Sound(env, c) && Answering(c) && Serving(OnReceive(env, c, data))
    ensures var d := OnReceive(env, c, data);
            if Find(c.buffer + data, DOUBLE_CRLF, 0).None? then
              SameAnswer(c, d) && Answering(d) && d.sent == c.sent && d.response == c.response &&
                  d.buffer == c.buffer + data
            else Superseded(|c.completed|, d)
  {
    hide Parse;
    hide Route;
    hide Find;
    hide At;
    hide SoundRequest;
  }

  lemma WriteWhileAnswering(env: Env, c: Conn, n: nat, timedOut: bool)
    requires Sound(env, c) && Answering(c) && n <= |c.response| && Serving(OnWritable(c, n, timedOut))
    requires c.parser.value.req.errorCode != 0 || n < |c.response|
    ensures var d := OnWritable(c, n, timedOut);
            && SameAnswer(c, d) && Answering(d) && d.sent + d.response == c.sent + c.response && d.buffer == c.buffer
            && |d.response| == |c.response| - n
  {
    SoundErrors(env, c);
    assert c.response == c.response[..n] + c.response[n..];
    Assoc(c.sent, c.response[..n], c.response[n..]);
  }

  lemma SupersededStays(env: Env, k: nat, c: Conn, e: Event)
    requires Sound(env, c) && Enabled(c, e) && Superseded(k, c) && Serving(Step(env, c, e))
    ensures Superseded(k, Step(env, c, e))
  {
    hide Parse;
    hide ParseBody;
    hide Route;
    hide Find;
    hide At;
    if InBody(c) { SupersededParser(env, c); }
  }

  lemma SupersededParser(env: Env, c: Conn)
    requires Sound(env, c) && c.live && InBody(c)
    ensures Receiving(c.parser.value.req) && c.parser.value.req.errorCode == 0
  {
  }

  lemma {:induction false} SupersededRun(env: Env, k: nat, c: Conn, events: seq<Event>)
    requires Sound(env, c) && Serving(c) && Superseded(k, c) && Run(env, c, events).Some? &&
            Serving(Run(env, c, events).value)
    ensures Superseded(k, Run(env, c, events).value)
    decreases |events|
  {
    hide Step;
    hide Superseded;
    if events != [] {
      StillServing(env, c, events);
      StepSound(env, c, events[0]);
      SupersededStays(env, k, c, events[0]);
      SupersededRun(env, k, Step(env, c, events[0]), events[1..]);
    }
  }

  /** Nothing happens to a connection any more once it is closed, stalled or crashed. */
  lemma StillServing(env: Env, c: Conn, events: seq<Event>)
    requires Sound(env, c) && events != [] && Run(env, c, events).Some? && Serving(Run(env, c, events).value)
    ensures Enabled(c, events[0]) && Serving(Step(env, c, events[0]))
  {
    hide Step;
    hide Sound;
    StepSound(env, c, events[0]);
    if events[1..] != [] { assert Run(env, Step(env, c, events[0]), events[1..]).Some?; }
  }

  /** The bytes that reads bring, and how many sends take. */
  function Arrived(events: seq<Event>): string {
    if events == [] then "" else (if events[0].Received? then events[0].data else "") + Arrived(events[1..])
  }

  function Taken(events: seq<Event>): nat {
    if events == [] then 0 else (if events[0].Writable? then events[0].n else 0) + Taken(events[1..])
  }

  /** The response outstanding at `c` stays that of the parser's request, byte for byte. */
  ghost predicate Undisturbed(c: Conn, d: Conn, arrived: string) {
    SameAnswer(c, d) && Answering(d) && d.sent + d.response == c.sent + c.response && d.buffer == c.buffer + arrived
  }

  /** No read finds a complete header block in the buffer: nothing arrives, or no empty line is in what there is
      then. */
  predicate Quiet(buffer: string, arrived: string) {
    arrived == "" || Find(buffer + arrived, DOUBLE_CRLF, 0).None?
  }

  lemma QuietStep(buffer: string, data: string, more: string)
    requires data != ""
    ensures Quiet(buffer, data + more) <==> Find(buffer + data, DOUBLE_CRLF, 0).None? && Quiet(buffer + data, more)
  {
    hide Find;
    hide At;
    Assoc(buffer, data, more);
    if Find(buffer + data, DOUBLE_CRLF, 0).Some? { FindExtends(buffer + data, more, DOUBLE_CRLF, 0); }
    if more == "" { assert buffer + data + more == buffer + data; }
  }

  lemma UndisturbedChain(c: Conn, b: Conn, d: Conn, data: string, more: string)
    requires Undisturbed(c, b, data) && Undisturbed(b, d, more)
    ensures Undisturbed(c, d, data + more)
  {
    Assoc(c.buffer, data, more);
  }

  lemma AnswerStep(env: Env, c: Conn, e: Event)
    requires Sound(env, c) && Answering(c) && Enabled(c, e) && Serving(Step(env, c, e))
    requires c.parser.value.req.errorCode != 0 || (e.Writable? ==> e.n < |c.response|)
    ensures var d := Step(env, c, e);
            && (e.Received? && Find(c.buffer + e.data, DOUBLE_CRLF, 0).Some? ==> Superseded(|c.completed|, d))
            && (e.Received? && Find(c.buffer + e.data, DOUBLE_CRLF, 0).None? ==>
                  Undisturbed(c, d, e.data) && |d.response| == |c.response|)
            && (!e.Received? ==> e.Writable? && Undisturbed(c, d, "") && |d.response| == |c.response| - e.n)
  {
    hide Sound;
    hide OnReceive;
    hide OnWritable;
    hide Find;
    hide At;
    match e
    case Received(data) => ReadWhileAnswering(env, c, data);
    case PeerClosed =>
    case Writable(n, timedOut) =>
      WriteWhileAnswering(env, c, n, timedOut);
      assert c.buffer + "" == c.buffer;
  }

  lemma {:induction false} WhileAnswering(env: Env, c: Conn, events: seq<Event>)
    requires Sound(env, c) && Answering(c) && Run(env, c, events).Some? && Serving(Run(env, c, events).value)
    requires c.parser.value.req.errorCode != 0 || Taken(events) < |c.response|
    ensures var d := Run(env, c, events).value;
            if Quiet(c.buffer, Arrived(events)) then Undisturbed(c, d, Arrived(events))
                else Superseded(|c.completed|, d)
    decreases |events|
  {
    hide Step;
    hide Sound;
    hide Superseded;
    hide Quiet;
    hide Find;
    hide At;
    if events == [] {
      assert Quiet(c.buffer, "") by { QuietNothing(c.buffer); }
      assert c.buffer + "" == c.buffer;
    } else {
      var e, rest := events[0], events[1..];
      StillServing(env, c, events);
      StepSound(env, c, e);
      AnswerStep(env, c, e);
      var b := Step(env, c, e);
      if e.Received? { QuietStep(c.buffer, e.data, Arrived(rest)); }
      if e.Received? && Find(c.buffer + e.data, DOUBLE_CRLF, 0).Some? {
        SupersededRun(env, |c.completed|, b, rest);
      } else {
        WhileAnswering(env, b, rest);
        var data := if e.Received? then e.data else "";
        assert "" + Arrived(rest) == Arrived(rest) && c.buffer + "" == c.buffer;
        if Quiet(b.buffer, Arrived(rest)) { UndisturbedChain(c, b, Run(env, b, rest).value, data, Arrived(rest)); }
      }
    }
  }

  lemma QuietNothing(buffer: string)
    ensures Quiet(buffer, "")
  {
  }

  lemma SupersededDiffers(c: Conn, d: Conn)
    requires Answering(c) && Superseded(|c.completed|, d)
    ensures !SameAnswer(c, d)
  {
  }

  /** Main result on errors, over every run: a connection that holds an error and is still served later holds that same
      error, with nothing else handed on, if and only if no read found a complete header block behind it. */
  lemma FirstErrorLastsExactly(env: Env, c: Conn, events: seq<Event>)
    requires Sound(env, c) && Serving(c) && c.parser.Some? && c.parser.value.req.errorCode != 0
    requires Run(env, c, events).Some? && Serving(Run(env, c, events).value)
    ensures SameAnswer(c, Run(env, c, events).value) <==> Quiet(c.buffer, Arrived(events))
  {
    hide Quiet;
    hide Superseded;
    hide Step;
    SoundErrors(env, c);
    WhileAnswering(env, c, events);
    if !Quiet(c.buffer, Arrived(events)) { SupersededDiffers(c, Run(env, c, events).value); }
  }

  /** Main result on the end of errors, over every run: when the rest of an error response is sent, and no other request
      was handed on meanwhile, the connection is closed unless a read found a complete header block behind the error and
      put in the parser's place an unfinished request that lets the connection stay open. Then it does stay open,
      although the whole response, marked to close it, was sent. */
  lemma ErrorsCloseExactly(env: Env, c: Conn, events: seq<Event>)
    requires Sound(env, c) && Serving(c) && c.parser.Some? && c.parser.value.req.errorCode != 0
    requires Run(env, c, events).Some?
    requires var b := Run(env, c, events).value;
             Serving(b) && b.ready && b.completed == c.completed && b.response != ""
    ensures var b := Run(env, c, events).value; var d := OnWritable(b, |b.response|, false);
            && (d.live <==> !Quiet(c.buffer, Arrived(events)) && KeepAlive(b))
            && (d.live ==> Serving(d) && !d.ready && InBody(d) && d.sent == env.build(c.parser.value.req))
  {
    hide Quiet;
    hide Step;
    var b := Run(env, c, events).value;
    SoundErrors(env, c);
    WhileAnswering(env, c, events);
    SendExactly(env, b, |b.response|, false);
    if Quiet(c.buffer, Arrived(events)) { SoundErrors(env, b); }
  }

  /** Main result on responses: as long as sends have not taken all of an outstanding response, it stays the answer to
      the request in the parser if and only if no read found a complete header block behind it; and then the bytes sent
      and the bytes left are together what they were. */
  lemma AnswerStandsExactly(env: Env, c: Conn, events: seq<Event>)
    requires Sound(env, c) && Answering(c) && Taken(events) < |c.response|
    requires Run(env, c, events).Some? && Serving(Run(env, c, events).value)
    ensures var d := Run(env, c, events).value;
            && (SameAnswer(c, d) <==> Quiet(c.buffer, Arrived(events)))
            && (SameAnswer(c, d) ==>
                  && d.ready && d.sent + d.response == c.sent + c.response
                  && d.buffer == c.buffer + Arrived(events))
  {
    hide Quiet;
    hide Superseded;
    hide Step;
    WhileAnswering(env, c, events);
    if !Quiet(c.buffer, Arrived(events)) { SupersededDiffers(c, Run(env, c, events).value); }
  }

  /** The read, or the close, that crashes the server is exactly one that meets a parser which saw a Content-Length and
      was never routed; and such a parser holds an error of its first parse. */
  lemma CrashesExactly(env: Env, c: Conn, e: Event)
    requires Sound(env, c) && Enabled(c, e)
    ensures Step(env, c, e).crashed <==> !e.Writable? && NullServer(c)
    ensures NullServer(c) ==> c.ready && c.parser.value.req.errorCode != 0
  {
    hide Parse;
    hide ParseBody;
    hide Route;
    hide Find;
    hide At;
  }

  /** Which buffers lead there: those whose first request is refused behind a Content-Length field of its own. */
  lemma NullServerExactly(env: Env, c: Conn)
    requires Sound(env, c) && Serving(c) && !InBody(c) && Find(c.buffer, DOUBLE_CRLF, 0).Some?
    requires env.rule.Shipped? ==> !SilentTarget(c.buffer) && !StartLeavesOver(c.buffer)
    ensures NullServer(HeaderRead(env, c)) <==> RefusedWithLength(c.buffer)
  {
    hide Parse;
    hide SilentTarget;
    hide StartLeavesOver;
    hide RefusedWithLength;
    hide Find;
    hide At;
    hide Route;
    ParseEnds(env.rule, c.buffer);
    ParseTerminatesExactly(env.rule, c.buffer);
    RefusedWithLengthExactly(env.rule, c.buffer);
    RouteNull(env, Parse(env.rule, Fresh, c.buffer).req);
  }

  lemma RouteNull(env: Env, r: Request)
    requires EnvOk(env)
    ensures var p := Route(env.servers, r);
            p.req.hasContentLength == r.hasContentLength && (p.server.None? <==> r.errorCode != 0)
  {
  }
}
