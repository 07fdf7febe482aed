/** The request parser as the object it is in the source: fields updated in place, loops that move a position
    through the buffer. Every method is proved against the functions of Http, Chunked, BodyPhase and ParseRequest,
    always under the shipped rule. */
module RequestParsers {
  import opened Text
  import opened Numerals
  import opened Chunked
  import opened Http
  import opened BodyPhase
  import opened HeaderBlock
  import opened ParseRequest
  import opened ConfigTypes
  import opened Routing
  import opened Connection
  import ChunkTheorems
  import Uri

  lemma SuffixOf(s: string, i: nat, j: nat)
    requires i <= j <= |s|
    ensures s[i..][j - i..] == s[j..]
  {
  }

  /** find_line_end: past the first CRLF; without one, the last byte. */
  method FindLineEnd(s: string, pos: nat) returns (e: nat)
    requires pos <= |s|
    ensures e == pos + LineEnd(s[pos..])
  {
    FindInSuffix(s, CRLF, pos);
    var p := pos;
    while p + 1 < |s|
      invariant pos <= p && (p == pos || p < |s|)
      invariant forall j :: pos <= j < p ==> !At(s, CRLF, j)
    {
      assert s[p..p + 2] == [s[p], s[p + 1]];
      if s[p] == '\r' && s[p + 1] == '\n' {
        FindIs(s, CRLF, pos, p);
        return p + 2;
      }
      p := p + 1;
    }
    return if p < |s| then p else |s|;
  }

  lemma EmptyLineIsZero(line: string)
    ensures SizeOf(ChunkSize, line) == ChunkSize(line)
  {
    StrtoulEmpty(16);
    assert Trim("", "\r\n \t") == "";
  }

  lemma NoSizeLine(d: Place, u: string)
    requires LineEnd(u) == |u|
    ensures SizeTurn(Shipped, ChunkSize, d, u) == Stop(Decoded(More, d, u))
  {
    hide LineEnd;
  }

  lemma SizeLineRead(d: Place, u: string)
    requires LineEnd(u) < |u|
    ensures var e := LineEnd(u); var n := SizeOf(ChunkSize, u[..e]);
            SizeTurn(Shipped, ChunkSize, d, u) ==
            if n.None? then Stop(Decoded(Malformed, d, u))
            else if n.value == 0 then Stop(LastChunk(Shipped, d, u, e))
                else Again(Place(d.body, true, n.value, 0), u[e..])
  {
    hide LineEnd;
    hide SizeOf;
    hide LastChunk;
  }

  method CheckTarget(target: string) returns (legal: bool)
    ensures legal == LegalTarget(target)
  {
    for i := 0 to |target|
      invariant forall j :: 0 <= j < i ==>
                  target[j] !in FORBIDDEN_IN_URI && Signed(target[j]) > 31 && target[j] as int != 127
    {
      if target[i] in FORBIDDEN_IN_URI || Signed(target[i]) <= 31 || target[i] as int == 127 {
        return false;
      }
    }
    return true;
  }

  class RequestParser {
    var state: Phase
    var httpMethod: string
    var requestUri: string
    var queryString: string
    var httpVersion: string
    var headers: map<string, string>
    var body: string
    var errorCode: int
    var readingChunkData: bool
    var currentChunkSize: nat
    var currentChunkRead: nat
    var contentLengthValue: nat
    var hasContentLength: bool
    var hasTransferEncoding: bool
    /** server_config and location_config, as indices; NULL before match_location. */
    var route: (Option<nat>, Option<nat>)

    function Decoder(): Place
      reads this
    {
      Place(body, readingChunkData, currentChunkSize, currentChunkRead)
    }

    /** The value of the object. */
    function Snapshot(): Request
      reads this
    {
      Request(state, httpMethod, requestUri, queryString, httpVersion, headers, Decoder(), errorCode,
              hasContentLength, hasTransferEncoding, contentLengthValue)
    }

    function Matched(): Routed
      reads this
    {
      Routed(Snapshot(), route.0, route.1)
    }

    constructor ()
      ensures Snapshot() == Fresh && route == (None, None)
    {
      route := (None, None);
      state, errorCode := Phase.RequestLine, 0;
      httpMethod, requestUri, queryString, httpVersion, headers, body := "", "", "", "", map[], "";
      readingChunkData, currentChunkSize, currentChunkRead, contentLengthValue := false, 0, 0, 0;
      hasContentLength, hasTransferEncoding := false, false;
    }

    method LogErrorCode(code: int)
      modifies this
      ensures route == old(route)
      ensures Snapshot() == LogError(old(Snapshot()), code)
    {
      if errorCode == 0 {
        errorCode := code;
        if code != 0 {
          headers := headers["connection" := "close"];
        }
        state := ErrorParse;
      }
    }

    // -------------------------------------------------------------- setters

    method SetHttpMethod(m: string) returns (ok: bool)
      modifies this
      ensures route == old(route)
      ensures (Snapshot(), ok) == SetMethod(old(Snapshot()), m)
    {
      if m == "GET" || m == "POST" || m == "DELETE" {
        httpMethod := m;
        return true;
      }
      if m in {"HEAD", "OPTIONS", "TRACE", "PUT", "PATCH", "CONNECT"} {
        LogErrorCode(501);
      } else {
        LogErrorCode(400);
      }
      return false;
    }

    method SetRequestUri(target: string) returns (ok: bool)
      modifies this
      ensures route == old(route)
      ensures (Snapshot(), ok) == SetUri(Shipped, old(Snapshot()), target)
    {
      var legal := CheckTarget(target);
      if !legal {
        LogErrorCode(400);
        return false;
      }
      var fragment := Find(target, "#", 0);
      var normalized := Uri.NormalizeUri(if fragment.Some? then target[..fragment.value] else target);
      if normalized.Refused? {
        LogErrorCode(400);
        return false;
      }
      if normalized.text == "" {
        return false;
      }
      ok := StoreRequestUri(normalized.text);
    }

    method StoreRequestUri(text: string) returns (ok: bool)
      modifies this
      ensures route == old(route)
      ensures (Snapshot(), ok) == StoreUri(old(Snapshot()), text)
    {
      var uri := text;
      var mark := Find(uri, "?", 0);
      if mark.Some? {
        queryString := uri[mark.value + 1..];
        uri := uri[..mark.value];
      }
      if uri == "" || uri[0] != '/' {
        LogErrorCode(400);
        return false;
      }
      if |uri| > MAX_URI_LENGTH {
        LogErrorCode(414);
        return false;
      }
      requestUri := uri;
      return true;
    }

    method SetHttpVersion(v: string) returns (ok: bool)
      modifies this
      ensures route == old(route)
      ensures (Snapshot(), ok) == SetVersion(old(Snapshot()), v)
    {
      if v == "HTTP/1.1" {
        httpVersion := v;
        return true;
      }
      if v == "HTTP/0.9" || v == "HTTP/1.0" {
        LogErrorCode(505);
      } else {
        LogErrorCode(400);
      }
      return false;
    }

    method SetAllParts(m: string, target: string, v: string) returns (ok: bool)
      modifies this
      ensures route == old(route)
      ensures (Snapshot(), ok) == SetParts(Shipped, old(Snapshot()), m, target, v)
    {
      ok := SetHttpMethod(m);
      if ok {
        ok := SetRequestUri(target);
      }
      if ok {
        ok := SetHttpVersion(v);
      }
    }

    method SetRequestLine(line: string) returns (ok: bool)
      modifies this
      ensures route == old(route)
      ensures (Snapshot(), ok) == SetLine(Shipped, old(Snapshot()), line)
    {
      var parts := SplitLoop(line, ' ');
      if |parts| != 3 {
        LogErrorCode(400);
        return false;
      }
      ok := SetAllParts(parts[0], parts[1], parts[2]);
    }

    // -------------------------------------------------------------- the phases

    method ParseRequestLineAt(request: string, pos: nat) returns (next: nat)
      requires pos <= |request|
      modifies this
      ensures route == old(route)
      ensures pos <= next <= |request|
      ensures Parsed(Snapshot(), request[next..]) == ParseRequestLine(Shipped, old(Snapshot()), request[pos..])
    {
      hide SetLine;
      var lineEnd := FindLineEnd(request, pos);
      if lineEnd == |request| {
        return pos;
      }
      if lineEnd - pos > MAX_REQUEST_LINE_LENGTH {
        LogErrorCode(414);
        return pos;
      }
      var line := if lineEnd - pos >= 2 then request[pos..lineEnd - 2] else "";
      assert line == LineText(request[pos..], lineEnd - pos);
      SuffixOf(request, pos, lineEnd);
      var ok := SetRequestLine(line);
      if !ok {
        return pos;
      }
      state := Phase.Headers;
      return lineEnd;
    }

    /** The checks of one field line and its storing: one turn of parse_headers. */
    method StoreField(line: string, hasHost: bool, lengthText: string)
      returns (stored: bool, hasHost': bool, lengthText': string)
      modifies this
      ensures route == old(route)
      ensures match Field(Block(old(Snapshot()), hasHost, lengthText), line)
              case Refused(r, code) => !stored && Snapshot() == LogError(r, code)
              case Stored(b) => stored && b == Block(Snapshot(), hasHost', lengthText')
    {
      stored, hasHost', lengthText' := false, hasHost, lengthText;
      if line != "" && (line[0] == ' ' || line[0] == '\t') {
        LogErrorCode(400);
        return;
      }
      if |line| + 2 > MAX_HEADER_LENGTH {
        LogErrorCode(431);
        return;
      }
      var colon := Find(line, ":", 0);
      if colon.None? || colon.value == 0 || line[colon.value - 1] == ' ' {
        LogErrorCode(400);
        return;
      }
      var key := Lower(line[..colon.value]);
      var value := Trim(line[colon.value + 1..], " \t");
      if !ValidName(key) || !ValidValue(value) {
        LogErrorCode(400);
        return;
      }
      assert WellFormed(line) && key == Key(line) && value == Value(line);
      stored, hasHost', lengthText' := StoreKeyed(key, value, hasHost, lengthText);
    }

    method RaiseFlags(key: string, value: string, hasHost: bool, lengthText: string)
      returns (ok: bool, hasHost': bool, lengthText': string)
      modifies this
      ensures route == old(route)
      ensures match Raise(Block(old(Snapshot()), hasHost, lengthText), key, value)
              case Refused(r, code) => !ok && Snapshot() == LogError(r, code)
              case Stored(b) => ok && b == Block(Snapshot(), hasHost', lengthText')
    {
      ok, hasHost', lengthText' := false, hasHost, lengthText;
      if key == "content-length" {
        var numeric := IsNumericLoop(value);
        if !numeric || (hasContentLength && lengthText != value) {
          LogErrorCode(400);
          return;
        }
        hasContentLength := true;
        lengthText' := value;
      } else if key == "transfer-encoding" {
        if value !in {"chunked", "compress", "deflate", "gzip"} {
          LogErrorCode(400);
          return;
        }
        hasTransferEncoding := true;
      } else if key == "host" {
        if hasHost {
          LogErrorCode(400);
          return;
        }
        hasHost' := true;
      } else if key == "expect" && Lower(value) != "100-continue" {
        LogErrorCode(417);
        return;
      }
      ok := true;
    }

    method StoreKeyed(key: string, value: string, hasHost: bool, lengthText: string)
      returns (stored: bool, hasHost': bool, lengthText': string)
      modifies this
      ensures route == old(route)
      ensures match Keyed(Block(old(Snapshot()), hasHost, lengthText), key, value)
              case Refused(r, code) => !stored && Snapshot() == LogError(r, code)
              case Stored(b) => stored && b == Block(Snapshot(), hasHost', lengthText')
    {
      stored, hasHost', lengthText' := RaiseFlags(key, value, hasHost, lengthText);
      if stored {
        if |headers| >= MAX_HEADER_COUNT {
          LogErrorCode(431);
          stored := false;
        } else {
          headers := headers[key := if key == "expect" then Lower(value) else value];
        }
      }
    }

    method FinishHeaders(hasHost: bool, ghost lengthText: string)
      modifies this
      ensures route == old(route)
      ensures Snapshot() == EndOfHeaders(Block(old(Snapshot()), hasHost, lengthText))
    {
      if !hasHost {
        LogErrorCode(400);
      } else if hasContentLength && hasTransferEncoding {
        LogErrorCode(400);
      } else if !hasContentLength && !hasTransferEncoding {
        if httpMethod == "POST" {
          LogErrorCode(411);
        } else {
          state := Done;
        }
      } else {
        state := Phase.Body;
      }
    }

    method ParseHeadersAt(request: string, pos: nat) returns (next: nat)
      requires pos <= |request| && BlankAhead(request[pos..]) && Unparsed(Snapshot())
      modifies this
      ensures route == old(route)
      ensures pos <= next <= |request|
      ensures Parsed(Snapshot(), request[next..]) == ParseHeaders(old(Snapshot()), request[pos..])
    {
      hide Field;
      hide HeaderLoop;
      hide EndOfHeaders;
      hide BlankAhead;
      hide LineEnd;
      var hasHost, lengthText := false, "";
      next := pos;
      LoopTurn(Block(Snapshot(), hasHost, lengthText), request[pos..]);
      var headerEnd := FindLineEnd(request, next);
      while next != headerEnd - 2
        invariant pos <= next <= |request| && BlankAhead(request[next..]) && Unparsed(Snapshot()) && route == old(route)
        invariant headerEnd == next + LineEnd(request[next..])
        invariant HeaderLoop(Block(Snapshot(), hasHost, lengthText), request[next..]) ==
                ParseHeaders(old(Snapshot()), request[pos..])
        decreases |request| - next
      {
        ghost var u, b := request[next..], Block(Snapshot(), hasHost, lengthText);
        LoopTurn(b, u);
        SuffixOf(request, next, headerEnd);
        var line := request[next..headerEnd - 2];
        assert u[..headerEnd - next - 2] == line;
        FieldKeeps(b, line);
        var stored;
        stored, hasHost, lengthText := StoreField(line, hasHost, lengthText);
        if !stored {
          return;
        }
        next := headerEnd;
        headerEnd := FindLineEnd(request, next);
      }
      LoopTurn(Block(Snapshot(), hasHost, lengthText), request[next..]);
      FinishHeaders(hasHost, lengthText);
      if state != ErrorParse {
        SuffixOf(request, next, headerEnd);
        next := headerEnd;
      }
    }

    /** One turn inside chunk data. */
    method ReadChunkData(request: string, pos: nat) returns (next: nat, again: bool)
      requires pos < |request| && Counters(Decoder()) && readingChunkData
      modifies this
      ensures route == old(route)
      ensures pos <= next <= |request|
      ensures match DataTurn(old(Decoder()), request[pos..])
              case Stop(p) => !again && Parsed(Snapshot(), request[next..]) == Settle(old(Snapshot()), p)
              case Again(d, rest) => again && Snapshot() == old(Snapshot()).(place := d) && request[next..] == rest
    {
      hide DataTurn;
      ghost var d, u := Decoder(), request[pos..];
      again, next := false, pos;
      var toRead := Min(currentChunkSize - currentChunkRead, |request| - next);
      assert request[pos..][..toRead] == request[pos..pos + toRead];
      body := body + request[next..next + toRead];
      SuffixOf(request, pos, pos + toRead);
      ChunkTheorems.DataTurnIs(d, u, toRead);
      next := next + toRead;
      currentChunkRead := currentChunkRead + toRead;
      if currentChunkRead != currentChunkSize || |request| - next < 2 {
        return;
      }
      DropTake(request, next, 2);
      again := CloseChunk(request, next);
      if again {
        SuffixOf(request, next, next + 2);
        next := next + 2;
      }
    }

    /** Chunk data is followed by a CRLF. */
    method CloseChunk(request: string, pos: nat) returns (closed: bool)
      requires pos + 2 <= |request|
      modifies this
      ensures route == old(route)
      ensures closed == (request[pos..pos + 2] == CRLF)
      ensures Snapshot() == if closed then old(Snapshot()).(place := Outside(old(body)))
              else LogError(old(Snapshot()), 400)
    {
      assert request[pos..pos + 2] == [request[pos], request[pos + 1]];
      closed := request[pos] == '\r' && request[pos + 1] == '\n';
      if closed {
        currentChunkRead, currentChunkSize, readingChunkData := 0, 0, false;
      } else {
        LogErrorCode(400);
      }
    }

    /** The size on a line, its white space trimmed. */
    method ReadSize(request: string, pos: nat, lineEnd: nat) returns (parsed: Option<nat>)
      requires pos <= lineEnd <= |request|
      ensures parsed == SizeOf(ChunkSize, request[pos..][..lineEnd - pos])
    {
      hide Strtoul;
      hide Trim;
      assert request[pos..][..lineEnd - pos] == request[pos..lineEnd];
      EmptyLineIsZero(request[pos..lineEnd]);
      parsed := Strtoul(Trim(request[pos..lineEnd], "\r\n \t"), 16);
    }

    /** One turn on a size line. */
    method ReadSizeLine(request: string, pos: nat) returns (next: nat, again: bool)
      requires pos < |request| && Counters(Decoder()) && !readingChunkData && state != Done
      modifies this
      ensures route == old(route)
      ensures pos <= next <= |request|
      ensures match SizeTurn(Shipped, ChunkSize, old(Decoder()), request[pos..])
              case Stop(p) => !again && Parsed(Snapshot(), request[next..]) == Settle(old(Snapshot()), p)
              case Again(d, rest) => again && Snapshot() == old(Snapshot()).(place := d) && request[next..] == rest
    {
      hide ChunkSize;
      hide SizeOf;
      hide LastChunk;
      hide SizeTurn;
      hide LineEnd;
      hide Find;
      hide At;
      again, next := false, pos;
      var lineEnd := FindLineEnd(request, pos);
      if lineEnd == |request| {
        NoSizeLine(Decoder(), request[pos..]);
        return;
      }
      var parsed := ReadSize(request, pos, lineEnd);
      SizeLineRead(Decoder(), request[pos..]);
      if parsed.None? {
        LogErrorCode(400);
        return;
      }
      if parsed.value == 0 {
        next := CloseLastChunk(request, pos, lineEnd);
        return;
      }
      SuffixOf(request, pos, lineEnd);
      next := lineEnd;
      currentChunkSize, currentChunkRead, readingChunkData := parsed.value, 0, true;
      again := true;
    }

    /** The final chunk expects its CRLF. */
    method CloseLastChunk(request: string, ghost start: nat, pos: nat) returns (next: nat)
      requires start <= pos <= |request| && Counters(Decoder()) && !readingChunkData && state != Done
      modifies this
      ensures route == old(route)
      ensures pos <= next <= |request|
      ensures Parsed(Snapshot(), request[next..]) ==
              Settle(old(Snapshot()), LastChunk(Shipped, old(Decoder()), request[start..], pos - start))
    {
      SuffixOf(request, start, pos);
      currentChunkSize, next := 0, pos;
      if |request| - pos < 2 {
        return;
      }
      assert request[pos..][..2] == [request[pos], request[pos + 1]];
      if request[pos] != '\r' || request[pos + 1] != '\n' {
        LogErrorCode(400);
        return;
      }
      SuffixOf(request, pos, pos + 2);
      state, next := Done, pos + 2;
    }

    method ParseChunkedBody(request: string, pos: nat) returns (next: nat)
      requires pos <= |request| && Counters(Decoder()) && state != Done
      modifies this
      ensures route == old(route)
      ensures pos <= next <= |request|
      ensures Parsed(Snapshot(), request[next..]) ==
              Settle(old(Snapshot()), Chunks(Shipped, ChunkSize, old(Decoder()), request[pos..]))
    {
      next := pos;
      while next < |request|
        invariant pos <= next <= |request| && Counters(Decoder()) && route == old(route)
        invariant Snapshot() == old(Snapshot()).(place := Decoder())
        invariant Chunks(Shipped, ChunkSize, Decoder(), request[next..]) ==
                Chunks(Shipped, ChunkSize, old(Decoder()), request[pos..])
        decreases |request| - next
      {
        ghost var u, d := request[next..], Decoder();
        ghost var turn := OneTurn(Shipped, ChunkSize, d, u);
        var again;
        if readingChunkData {
          next, again := ReadChunkData(request, next);
        } else {
          next, again := ReadSizeLine(request, next);
        }
        if !again {
          return;
        }
        assert turn == Again(Decoder(), request[next..]);
      }
    }

    method ParseBodyAt(request: string, pos: nat) returns (next: nat)
      requires pos <= |request| && Counters(Decoder()) && state == Phase.Body
      modifies this
      ensures route == old(route)
      ensures pos <= next <= |request|
      ensures Parsed(Snapshot(), request[next..]) == ParseBody(Shipped, old(Snapshot()), request[pos..])
    {
      hide Sized;
      hide Chunks;
      hide Settle;
      hide ChunkSize;
      if hasTransferEncoding {
        if "transfer-encoding" in headers && headers["transfer-encoding"] == "chunked" {
          next := ParseChunkedBody(request, pos);
          return;
        }
        LogErrorCode(501);
        return pos;
      }
      if hasContentLength {
        next := ReadSized(request, pos);
        return;
      }
      return pos;
    }

    /** The branch for a Content-Length. */
    method ReadSized(request: string, pos: nat) returns (next: nat)
      requires pos <= |request| && state == Phase.Body
      modifies this
      ensures route == old(route)
      ensures pos <= next <= |request|
      ensures Parsed(Snapshot(), request[next..]) == Sized(old(Snapshot()), request[pos..])
    {
      hide Strtoul;
      var parsed := Strtoul(if "content-length" in headers then headers["content-length"] else "", 10);
      var contentLength := if parsed.Some? then parsed.value else 0;
      contentLengthValue := contentLength;
      if contentLength == 0 {
        LogErrorCode(400);
        return pos;
      }
      var bytesToRead := Min(SubSize(contentLength, |body|), |request| - pos);
      assert request[pos..][..bytesToRead] == request[pos..pos + bytesToRead];
      SuffixOf(request, pos, pos + bytesToRead);
      body := body + request[pos..pos + bytesToRead];
      if |body| == contentLength {
        state := Done;
      }
      return pos + bytesToRead;
    }

    /** parse_request. A loop that would turn for ever is reported instead of entered. */
    method Run(request: string) returns (consumed: nat, stalled: bool)
      requires Ready(Snapshot(), request)
      modifies this
      ensures route == old(route)
      ensures consumed <= |request|
      ensures Outcome(Snapshot(), request[consumed..], stalled) == Parse(Shipped, old(Snapshot()), request)
    {
      hide ParseBody;
      hide ParseRequestLine;
      hide ParseHeaders;
      hide Find;
      hide At;
      assert request[0..] == request;
      if state == Phase.Body {
        consumed := ParseBodyAt(request, 0);
        return consumed, false;
      }
      var pos := 0;
      while pos < |request| && state != Done && state != ErrorParse
        invariant pos <= |request| && Ready(Snapshot(), request[pos..]) && route == old(route)
        invariant Drive(Shipped, Snapshot(), request[pos..]) == Parse(Shipped, old(Snapshot()), request)
        decreases Rank(state), |request| - pos
      {
        ghost var r, u := Snapshot(), request[pos..];
        StepProgress(Shipped, r, u);
        var from, phase := pos, state;
        match state {
          case RequestLine => pos := ParseRequestLineAt(request, pos);
          case Headers => pos := ParseHeadersAt(request, pos);
          case Body => pos := ParseBodyAt(request, pos);
        }
        assert Parsed(Snapshot(), request[pos..]) == PhaseStep(Shipped, r, u);
        if state == ErrorParse || pos == |request| {
          return pos, false;
        }
        if state == phase && pos == from {
          return pos, true;
        }
      }
      return pos, false;
    }

    /** match_location on a request without error. */
    method MatchLocation(servers: seq<ServerConfig>)
      requires servers != [] && errorCode == 0
      modifies this
      ensures Matched() == Route(servers, old(Snapshot()))
    {
      var host := if "host" in headers then headers["host"] else "";
      var colon := Find(host, ":", 0);
      if colon.Some? {
        host := host[..colon.value];
      }
      var server := SearchServer(servers, host);
      var location := SearchLocation(servers[server].locations, requestUri);
      route := (Some(server), location);
      if location.None? {
        LogErrorCode(404);
      }
    }
  }
}
