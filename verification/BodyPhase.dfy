/** The body phase: chunked and Content-Length bodies (parse_body, srcs/ReqRes/RequestParser.cpp:280-327). */
module BodyPhase {
  import opened Text
  import opened Numerals
  import opened Chunked
  import opened ChunkTheorems
  import opened Http

  /** The size line as parse_chunked_body reads it. */
  function ChunkSize(line: string): Option<nat> {
    Strtoul(Trim(line, "\r\n \t"), 16)
  }

  function Header(r: Request, key: string): string {
    if key in r.headers then r.headers[key] else ""
  }

  predicate IsChunked(r: Request) {
    r.hasTransferEncoding && Header(r, "transfer-encoding") == "chunked"
  }

  /** The decoder's outcome written back into the request. */
  function Settle(r: Request, d: Decoded): Parsed {
    var t := r.(place := d.place);
    match d.status
    case More => Parsed(t, d.rest)
    case Finished => Parsed(t.(phase := Done), d.rest)
    case Malformed => Parsed(LogError(t, 400), d.rest)
  }

  /** The Content-Length value as parse_body reads it; 0 when it is refused. */
  function Length(r: Request): nat { LengthIn(r.headers) }

  function LengthIn(headers: map<string, string>): nat {
    var n := Strtoul(if "content-length" in headers then headers["content-length"] else "", 10);
    if n.Some? then n.value else 0
  }

  /** size_t subtraction. */
  function SubSize(a: nat, b: nat): nat {
    (a as int - b as int) % SIZE_MODULUS
  }

  function Append(r: Request, text: string): Request {
    r.(place := r.place.(body := r.place.body + text))
  }

  /** parse_body, Case 2. */
  function Sized(r: Request, u: string): Parsed {
    var n := Length(r);
    var t := r.(contentLength := n);
    if n == 0 then Parsed(LogError(t, 400), u)
    else
      var k := Min(SubSize(n, |r.place.body|), |u|);
      var s := Append(t, u[..k]);
      Parsed(if |s.place.body| == n then s.(phase := Done) else s, u[k..])
  }

  /** parse_body. */
  function ParseBody(rule: Rule, r: Request, u: string): Parsed
    requires Counters(r.place)
  {
    if r.hasTransferEncoding then
      if IsChunked(r) then Settle(r, Chunks(rule, ChunkSize, r.place, u)) else Parsed(LogError(r, 501), u)
    else if r.hasContentLength then Sized(r, u)
    else Parsed(r, u)
  }

  /** A request whose headers are accepted and whose body is still arriving. The last clause is what keeps
      `content_length - body.size()` from underflowing. */
  predicate Receiving(r: Request) {
    && r.phase == Phase.Body && r.errorCode == 0 && Counters(r.place)
    && r.hasContentLength != r.hasTransferEncoding
    && (r.hasContentLength ==> |r.place.body| <= Length(r) && r.place == Outside(r.place.body))
  }

  lemma LengthFits(r: Request)
    ensures Length(r) < SIZE_MODULUS
  {
  }

  /** What a call of parse_body keeps and where it can end. */
  ghost predicate Keeps(r: Request, u: string, p: Parsed) {
    && (p.req.phase == Phase.Body ==> Receiving(p.req))
    && Counters(p.req.place)
    && p.req.phase in {Phase.Body, Done, ErrorParse} && ErrorCloses(p.req)
    && (p.req.phase != ErrorParse ==> p.req.headers == r.headers) && p.req.uri == r.uri
    && Header(p.req, "content-length") == Header(r, "content-length")
    && p.req.hasContentLength == r.hasContentLength && p.req.hasTransferEncoding == r.hasTransferEncoding
    && |p.rest| <= |u| && p.rest == u[|u| - |p.rest|..]
  }

  /** And for a Content-Length body, what it holds. */
  ghost predicate Measures(r: Request, u: string, p: Parsed) {
    && (p.req.phase == Done ==> |p.req.place.body| == Length(r))
    && (p.req.phase == Phase.Body ==> p.rest == "")
    && p.req.contentLength == Length(r)
    && |p.req.place.body| <= Length(r) && |p.req.place.body| <= |r.place.body| + |u|
  }

  lemma ChunksKeep(rule: Rule, r: Request, u: string)
    requires Receiving(r) && r.hasTransferEncoding
    ensures Keeps(r, u, ParseBody(rule, r, u))
  {
    hide Chunks;
    hide Strtoul;
    hide ChunkSize;
  }

  lemma SizedKeeps(r: Request, u: string)
    requires Receiving(r) && r.hasContentLength
    ensures Keeps(r, u, Sized(r, u)) && Measures(r, u, Sized(r, u))
  {
    hide Strtoul;
    LengthFits(r);
    var n := Length(r);
    assert SubSize(n, |r.place.body|) == n - |r.place.body|;
  }

  lemma BodyKeeps(rule: Rule, r: Request, u: string)
    requires Receiving(r)
    ensures Keeps(r, u, ParseBody(rule, r, u))
    ensures r.hasContentLength ==> Measures(r, u, ParseBody(rule, r, u))
  {
    hide Keeps;
    hide Measures;
    if r.hasContentLength { SizedKeeps(r, u); } else { ChunksKeep(rule, r, u); }
  }

  /** A call that completes a Content-Length body has read its whole length. */
  lemma BodyCompletes(rule: Rule, r: Request, u: string)
    requires Receiving(r) && r.hasContentLength && ParseBody(rule, r, u).req.phase == Done
    ensures var p := ParseBody(rule, r, u).req; |p.place.body| == Length(p)
  {
    hide Strtoul;
    hide ParseBody;
    BodyKeeps(rule, r, u);
  }

  /** The caller's next step, for any framing. */
  function ThenBody(rule: Rule, p: Parsed, more: string): Parsed
    requires p.req.phase == Phase.Body ==> Counters(p.req.place)
  {
    if p.req.phase == Phase.Body then ParseBody(rule, p.req, p.rest + more) else Parsed(p.req, p.rest + more)
  }

  /** While the body is still short of its length, a call takes everything there is. */
  lemma SizedPartial(r: Request, u: string)
    requires Receiving(r) && r.hasContentLength && |r.place.body| + |u| < Length(r)
    ensures Sized(r, u) == Parsed(Append(r.(contentLength := Length(r)), u), "")
    ensures Receiving(Sized(r, u).req) && Length(Sized(r, u).req) == Length(r)
  {
    LengthFits(r);
    assert u[..|u|] == u && u[|u|..] == "";
  }

  /** Once there is enough, it takes exactly what is missing. */
  lemma SizedComplete(r: Request, u: string)
    requires Receiving(r) && r.hasContentLength && 0 < Length(r) <= |r.place.body| + |u|
    ensures var k := Length(r) - |r.place.body|;
            Sized(r, u) == Parsed(Append(r.(contentLength := Length(r)), u[..k]).(phase := Done), u[k..])
  {
    hide LengthIn;
    LengthFits(r);
  }

  lemma AppendTwice(r: Request, a: string, b: string)
    ensures Append(Append(r, a), b) == Append(r, a + b)
  {
    assert r.place.body + (a + b) == r.place.body + a + b;
  }

  lemma SizedTwice(r: Request, u: string, more: string)
    requires Receiving(r) && r.hasContentLength && |r.place.body| + |u| < Length(r)
    ensures Sized(Sized(r, u).req, more) == Sized(r, u + more)
  {
    var n := Length(r);
    SizedPartial(r, u);
    var s := Sized(r, u).req;
    if |r.place.body| + |u + more| < n {
      SizedPartial(r, u + more);
      SizedPartial(s, more);
      AppendTwice(r.(contentLength := n), u, more);
    } else {
      var m := n - |r.place.body| - |u|;
      SizedComplete(r, u + more);
      SizedComplete(s, more);
      assert (u + more)[..|u| + m] == u + more[..m];
      assert (u + more)[|u| + m..] == more[m..];
      AppendTwice(r.(contentLength := n), u, more[..m]);
    }
  }

  lemma SizedEnough(r: Request, u: string, more: string)
    requires Receiving(r) && r.hasContentLength && 0 < Length(r) <= |r.place.body| + |u|
    ensures Sized(r, u).req.phase == Done
    ensures Sized(r, u + more) == Parsed(Sized(r, u).req, Sized(r, u).rest + more)
  {
    var k := Length(r) - |r.place.body|;
    SizedComplete(r, u);
    SizedComplete(r, u + more);
    assert (u + more)[..k] == u[..k];
    assert (u + more)[k..] == u[k..] + more;
  }

  lemma SizedRefused(r: Request, u: string)
    requires Receiving(r) && r.hasContentLength && Length(r) == 0
    ensures Sized(r, u).req.phase == ErrorParse && Sized(r, u).rest == u
    ensures forall v :: Sized(r, v) == Parsed(Sized(r, u).req, v)
  {
  }

  lemma SizedResume(r: Request, u: string, more: string)
    requires Receiving(r) && r.hasContentLength
    ensures ThenSized(Sized(r, u), more) == Sized(r, u + more)
  {
    if Length(r) == 0 {
      SizedRefused(r, u);
    } else if Length(r) <= |r.place.body| + |u| {
      SizedEnough(r, u, more);
    } else {
      SizedPartial(r, u);
      SizedTwice(r, u, more);
      assert "" + more == more;
    }
  }

  function ThenSized(p: Parsed, more: string): Parsed {
    if p.req.phase == Phase.Body then Sized(p.req, p.rest + more) else Parsed(p.req, p.rest + more)
  }

  /** Stopping anywhere in the body and going on is one parse of the whole body. Only the shipped rule with
      chunked framing is left out, where it holds just at the clean cuts (see ChunkTheorems). */
  lemma BodyResume(rule: Rule, r: Request, u: string, more: string)
    requires Receiving(r) && (rule.Repaired? || !IsChunked(r))
    ensures var p := ParseBody(rule, r, u);
            (p.req.phase == Phase.Body ==> Counters(p.req.place)) &&
                ThenBody(rule, p, more) == ParseBody(rule, r, u + more)
  {
    BodyKeeps(rule, r, u);
    if r.hasContentLength {
      SizedResume(r, u, more);
    } else if IsChunked(r) {
      ChunksResume(ChunkSize, r.place, u, more);
    }
  }

  /** A complete body is not changed by what follows, under either rule. */
  lemma BodyDoneExtends(rule: Rule, r: Request, u: string, more: string)
    requires Receiving(r) && ParseBody(rule, r, u).req.phase == Done
    ensures ParseBody(rule, r, u + more) == Parsed(ParseBody(rule, r, u).req, ParseBody(rule, r, u).rest + more)
  {
    if r.hasContentLength {
      SizedResume(r, u, more);
    } else {
      FinishedExtends(rule, ChunkSize, r.place, u, more);
    }
  }

  lemma SizedAtRest(r: Request, u: string)
    requires Receiving(r) && r.hasContentLength && Sized(r, u).req.phase == Phase.Body
    ensures Sized(Sized(r, u).req, Sized(r, u).rest) == Sized(r, u)
  {
    SizedResume(r, u, "");
    assert u + "" == u;
    assert Sized(r, u).rest + "" == Sized(r, u).rest;
  }

  /** Parsing again without new text changes nothing, under either rule. */
  lemma BodyAtRest(rule: Rule, r: Request, u: string)
    requires Receiving(r) && ParseBody(rule, r, u).req.phase == Phase.Body
    ensures var p := ParseBody(rule, r, u);
            Counters(p.req.place) && ParseBody(rule, p.req, p.rest) == p
  {
    hide Sized;
    hide Chunks;
    hide ChunkSize;
    BodyKeeps(rule, r, u);
    if r.hasContentLength {
      SizedAtRest(r, u);
    } else {
      AtRest(rule, ChunkSize, r.place, u);
    }
  }

  /** Away from chunked framing the two rules are the same. */
  lemma RuleOnlyMattersForChunks(r: Request, u: string)
    requires Counters(r.place) && !IsChunked(r)
    ensures ParseBody(Shipped, r, u) == ParseBody(Repaired, r, u)
  {
  }
}
