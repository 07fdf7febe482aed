/** The connection as the object it is in the source, proved against the state machine of Connection
    under the shipped rule (srcs/Server/ClientServer.cpp:126-306, :399-478). */
module ClientServers {
  import opened Text
  import opened Chunked
  import opened Http
  import opened BodyPhase
  import opened ParseRequest
  import opened ConfigTypes
  import opened Connection
  import opened RequestParsers

  lemma RouteOfError(servers: seq<ServerConfig>, r: Request)
    requires servers != []
    ensures r.errorCode != 0 ==> Route(servers, r) == Routed(r, None, None)
  {
  }

  class ClientServer {
    const servers: seq<ServerConfig>
    const build: Request -> string

    var isStarted: bool
    var parser: RequestParser?
    var requestBuffer: string
    var responseBuffer: string
    var responseReady: bool
    var continueSent: bool
    /** Set where parse_request would never return, and where a NULL server_config would be followed. */
    var stalled: bool
    var crashed: bool

    ghost var received: string
    ghost var consumed: string
    ghost var sent: string
    ghost var completed: seq<Request>

    ghost function Setting(): Env { Env(Shipped, servers, build) }

    /** The value of the object. */
    ghost function State(): Conn
      reads this, parser
    {
      Conn(isStarted, if parser == null then None else Some(parser.Matched()),
           requestBuffer, responseBuffer, responseReady,
           continueSent, stalled, crashed, received, consumed, sent, completed)
    }

    constructor (servers: seq<ServerConfig>, build: Request -> string)
      requires servers != []
      ensures State() == NewConn && this.servers == servers && this.build == build
    {
      this.servers, this.build := servers, build;
      isStarted, parser, requestBuffer, responseBuffer := true, null, "", "";
      responseReady, continueSent, stalled, crashed := false, false, false, false;
      received, consumed, sent, completed := "", "", "", [];
    }

    method Close()
      modifies this
      ensures State() == Terminate(old(State()))
    {
      parser := null;
      requestBuffer, responseBuffer, responseReady := "", "", false;
      isStarted := false;
    }

    // -------------------------------------------------------------- reading

    /** readIncomingData; `arrived` is what recv brings, None when it brings nothing or fails. */
    method ReadIncomingData(arrived: Option<string>) returns (ok: bool)
      requires Sound(Setting(), State()) && Serving(State())
      modifies this
      ensures ok == (arrived.Some? && !NullServer(old(State())) && !TooLarge(Setting(), old(State())))
      ensures parser == if ok || NullServer(old(State())) then old(parser) else null
      ensures !ok ==> State() == OnClosed(old(State()))
      ensures ok ==> State() == old(State()).(buffer := old(requestBuffer) + arrived.value,
              received := old(received) + arrived.value)
    {
      if parser != null && parser.hasContentLength {
        if parser.route.0.None? {
          crashed := true;
          return false;
        }
        var maxSize := servers[parser.route.0.value].clientMaxBodySize;
        if parser.contentLengthValue > maxSize {
          Close();
          return false;
        }
      }
      if arrived.None? {
        Close();
        return false;
      }
      requestBuffer := requestBuffer + arrived.value;
      received := received + arrived.value;
      return true;
    }

    method HandleExpectContinue()
      modifies this
      ensures parser == old(parser)
      ensures State() == old(State()).(continueSent := old(continueSent) ||
                (old(State()).parser.Some? && "expect" in old(State()).parser.value.req.headers))
    {
      if parser != null && "expect" in parser.headers && !continueSent {
        continueSent := true;
      }
    }

    method ProcessCompletedRequest()
      requires parser != null
      modifies this
      ensures parser == old(parser)
      ensures State() == Complete(Setting(), old(State()), old(State()).parser.value)
    {
      responseBuffer := build(parser.Snapshot());
      responseReady := true;
      sent := "";
      completed := completed + [parser.Snapshot()];
    }

    /** Parse what is buffered, and erase what was consumed. */
    method ParseMore()
      requires Serving(State()) && parser != null && Receiving(parser.Snapshot())
      modifies this, parser
      ensures parser == old(parser)
      ensures var c := old(State()); var q := ParseBody(Shipped, c.parser.value.req, c.buffer);
              |q.rest| <= |c.buffer| && State() == Consume(c, q.rest).(parser := Some(c.parser.value.(req := q.req)))
    {
      hide ParseBody;
      hide Parse;
      ghost var c, p := State(), parser.Matched();
      BodyKeeps(Shipped, p.req, requestBuffer);
      ParseInBody(Shipped, p.req, requestBuffer);
      var bytesRead, hangs := parser.Run(requestBuffer);
      ghost var q := ParseBody(Shipped, p.req, c.buffer);
      assert |q.rest| == |c.buffer| - bytesRead;
      consumed := consumed + requestBuffer[..bytesRead];
      requestBuffer := requestBuffer[bytesRead..];
    }

    /** isParsingRequestBody; `handled` tells the caller to stop there. */
    method IsParsingRequestBody() returns (handled: bool)
      requires Serving(State()) && (parser != null && parser.state == Phase.Body ==> Receiving(parser.Snapshot()))
      modifies this, parser
      ensures handled == (old(parser) != null && old(parser.state) == Phase.Body)
      ensures parser == old(parser)
      ensures State() == if handled then BodyRead(Setting(), old(State())) else old(State())
    {
      hide ParseBody;
      hide Receiving;
      if parser == null || parser.state != Phase.Body {
        return false;
      }
      BodyKeeps(Shipped, parser.Snapshot(), requestBuffer);
      ParseMore();
      if parser.state == Done || parser.state == ErrorParse {
        ProcessCompletedRequest();
      }
      return true;
    }

    /** The first lines of parseHeaders: a new parser on the whole buffer, and what it consumed erased. */
    method ParseBuffer() returns (p: RequestParser)
      requires Serving(State()) && Find(requestBuffer, DOUBLE_CRLF, 0).Some?
      modifies this
      ensures parser == old(parser) && fresh(p) && p.route == (None, None)
      ensures var o := Parse(Shipped, Fresh, old(requestBuffer));
              && |o.rest| <= |old(requestBuffer)|
              && if o.stalled then State() == old(State()).(stalled := true)
                 else State() == Consume(old(State()), o.rest) && p.Snapshot() == o.req
    {
      hide Parse;
      hide Find;
      hide At;
      ParseEnds(Shipped, requestBuffer);
      ghost var o := Parse(Shipped, Fresh, requestBuffer);
      p := new RequestParser();
      var bytesRead, hangs := p.Run(requestBuffer);
      if hangs {
        stalled := true;
        return;
      }
      assert |o.rest| == |requestBuffer| - bytesRead;
      consumed := consumed + requestBuffer[..bytesRead];
      requestBuffer := requestBuffer[bytesRead..];
    }

    /** parseHeaders: a new parser for the buffered request, routed if it has no error. */
    method ParseHeaders()
      requires servers != [] && Serving(State()) && Find(requestBuffer, DOUBLE_CRLF, 0).Some?
      modifies this
      ensures var o := Parse(Shipped, Fresh, old(requestBuffer));
              if o.stalled then State() == old(State()).(stalled := true) && parser == old(parser)
              else
                && parser != null && fresh(parser) && |o.rest| <= |old(requestBuffer)|
                && State() == Consume(old(State()), o.rest).(parser := Some(Route(servers, o.req)))
    {
      hide Parse;
      hide Route;
      hide Find;
      hide At;
      var p := ParseBuffer();
      if stalled {
        return;
      }
      RouteOfError(servers, p.Snapshot());
      if p.errorCode == 0 {
        p.MatchLocation(servers);
      }
      parser := p;
    }

    method ProcessRequestHeaders()
      requires servers != [] && Serving(State())
      modifies this
      ensures State() == HeaderRead(Setting(), old(State()))
      ensures parser == old(parser) || fresh(parser)
    {
      if Find(requestBuffer, DOUBLE_CRLF, 0).None? {
        return;
      }
      ParseHeaders();
      if stalled || parser.state == Phase.Body {
        return;
      }
      ProcessCompletedRequest();
    }

    method HandleIncomingData(arrived: Option<string>)
      requires Sound(Setting(), State()) && Serving(State())
      modifies this, parser
      ensures Sound(Setting(), State())
      ensures State() == if arrived.None? then OnClosed(old(State()))
              else OnReceive(Setting(), old(State()), arrived.value)
    {
      if arrived.Some? { ReceiveSound(Setting(), State(), arrived.value); }
      var ok := ReadIncomingData(arrived);
      if !ok {
        return;
      }
      HandleExpectContinue();
      var handled := IsParsingRequestBody();
      if handled {
        return;
      }
      ProcessRequestHeaders();
    }

    // -------------------------------------------------------------- sending

    method ShouldKeepAlive() returns (yes: bool)
      ensures yes == KeepAlive(State())
    {
      return parser != null && !("connection" in parser.headers && parser.headers["connection"] == "close");
    }

    method FinalizeResponse()
      modifies this
      ensures State() == Finalize(old(State()))
    {
      responseReady := false;
      var keep := ShouldKeepAlive();
      if !keep {
        Close();
      } else if parser.errorCode != 0 {
        parser := null;
      }
    }

    /** handleResponse with sendResponseChunk; `n` is how many bytes send takes. */
    method HandleResponse(n: nat, timedOut: bool)
      requires n <= |responseBuffer|
      modifies this
      ensures State() == OnWritable(old(State()), n, timedOut)
    {
      if !responseReady || responseBuffer == "" {
        return;
      }
      if timedOut || n == 0 {
        Close();
        return;
      }
      sent := sent + responseBuffer[..n];
      responseBuffer := responseBuffer[n..];
      if responseBuffer == "" {
        FinalizeResponse();
      }
    }
  }
}
