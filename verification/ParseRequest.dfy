/** The driving loop of the parser (parse_request, srcs/ReqRes/RequestParser.cpp:69-105). */
module ParseRequest {
  import opened Text
  import opened Chunked
  import opened ChunkTheorems
  import opened Http
  import opened BodyPhase
  import opened HeaderBlock
  import Uri

  /** One pass of the switch. */
  function PhaseStep(rule: Rule, r: Request, u: string): Parsed
    requires Ready(r, u)
  {
    match r.phase
    case RequestLine => ParseRequestLine(rule, r, u)
    case Headers => ParseHeaders(r, u)
    case Body => ParseBody(rule, r, u)
    case _ => Parsed(r, u)
  }

  /** What its only caller guarantees of a new parser, and what each phase guarantees to the next. */
  predicate Ready(r: Request, u: string) {
    match r.phase
    case RequestLine => Unparsed(r) && Find(u, DOUBLE_CRLF, 0).Some?
    case Headers => Unparsed(r) && BlankAhead(u)
    case Body => Receiving(r)
    case _ => true
  }

  function Rank(p: Phase): nat {
    match p case RequestLine => 3 case Headers => 2 case Body => 1 case _ => 0
  }

  /** How the loop ends. `stalled` stands for a loop without end: the phase gave back its input and its phase
      unchanged although text is left, and nothing in the loop stops it from doing so for ever. */
  datatype Outcome = Outcome(req: Request, rest: string, stalled: bool)

  /** The loop. In the shipped code nothing but DONE, ERROR_PARSE and the end of the text ends it;
      the repaired rule also returns to the caller when there was no progress. */
  function Drive(rule: Rule, r: Request, u: string): Outcome
    requires Ready(r, u)
    decreases Rank(r.phase), |u|
  {
    if u == "" || r.phase in {Done, ErrorParse} then Outcome(r, u, false)
    else
      var p := PhaseStep(rule, r, u);
      StepProgress(rule, r, u);
      if p.req.phase == ErrorParse || p.rest == "" then Outcome(p.req, p.rest, false)
      else if p.req.phase == r.phase && p.rest == u then Outcome(p.req, u, rule.Shipped?)
      else Drive(rule, p.req, p.rest)
  }

  /** parse_request on a parser in any phase. */
  function Parse(rule: Rule, r: Request, u: string): Outcome
    requires Ready(r, u)
  {
    if r.phase == Phase.Body then
      var p := ParseBody(rule, r, u); Outcome(p.req, p.rest, false)
    else Drive(rule, r, u)
  }

  lemma ParseInBody(rule: Rule, r: Request, u: string)
    requires Receiving(r)
    ensures var p := ParseBody(rule, r, u); Parse(rule, r, u) == Outcome(p.req, p.rest, false)
  {
    hide ParseBody;
  }

  // ---------------------------------------------------------------- the request line

  lemma {:induction false} DecodeEmpty(s: string)
    ensures Uri.DecodePercent(s) == Uri.Path("") <==> s == ""
  {
  }

  lemma NormalizeEmpty(s: string)
    ensures Uri.Normalize(s) == Uri.Path("") <==> s == ""
  {
    DecodeEmpty(s);
  }

  function FirstLine(u: string): string { LineText(u, LineEnd(u)) }

  /** A request line with a known method whose target is empty, or empty before its fragment. */
  predicate EmptyTarget(line: string) {
    var parts := Split(line, ' ');
    && |parts| == 3
    && KnownMethod(parts[0]) && LegalTarget(parts[1]) && BeforeFragment(parts[1]) == ""
  }

  /** set_request_uri fails silently on the empty target only. */
  lemma UriFailsSilently(rule: Rule, r: Request, target: string)
    requires r.errorCode == 0
    ensures var (s, ok) := SetUri(rule, r, target);
            && (ok ==> s.errorCode == 0 && s == r.(uri := s.uri, query := s.query))
            && (!ok && s.errorCode == 0 ==>
                  rule.Shipped? && LegalTarget(target) && BeforeFragment(target) == "" && s == r)
            && (!ok && s.errorCode != 0 ==> ErrorCloses(s))
            && (rule.Shipped? && LegalTarget(target) && BeforeFragment(target) == "" ==> !ok && s == r)
  {
    NormalizeEmpty(BeforeFragment(target));
  }

  /** The three setters one after another. */
  lemma PartsFailSilently(rule: Rule, r: Request, m: string, target: string, v: string)
    requires r.errorCode == 0
    ensures var (s, ok) := SetParts(rule, r, m, target, v);
            var empty := KnownMethod(m) && LegalTarget(target) && BeforeFragment(target) == "";
            && (ok ==> s == r.(httpMethod := s.httpMethod, uri := s.uri, query := s.query, version := s.version))
            && (!ok && s.errorCode == 0 ==> rule.Shipped? && empty && s == r.(httpMethod := m))
            && (!ok && s.errorCode != 0 ==> ErrorCloses(s))
            && (rule.Shipped? && empty ==> !ok && s == r.(httpMethod := m))
  {
    var r1 := r.(httpMethod := m);
    assert SetMethod(r, m).1 <==> KnownMethod(m);
    if KnownMethod(m) {
      assert SetMethod(r, m) == (r1, true);
      UriFailsSilently(rule, r1, target);
      var u := SetUri(rule, r1, target);
      if u.1 { assert SetVersion(u.0, v).1 || SetVersion(u.0, v).0.errorCode != 0; }
    } else {
      assert SetMethod(r, m).0.errorCode != 0;
    }
  }

  function PathOf(text: string): string {
    match Find(text, "?", 0) case Some(k) => text[..k] case None => text
  }

  /** The text of a legal target that is not refused, decoded and normalised. */
  function TargetText(target: string): Option<string> {
    var n := Uri.Normalize(BeforeFragment(target));
    if LegalTarget(target) && n.Path? then Some(n.text) else None
  }

  predicate Rooted(target: string) {
    TargetText(target).Some? && PathOf(TargetText(target).value) != "" && PathOf(TargetText(target).value)[0] == '/'
  }

  predicate TargetOk(target: string) {
    Rooted(target) && |PathOf(TargetText(target).value)| <= 2048
  }

  /** The text cut at its first question mark, if there is one, and joined again. */
  lemma QuerySplit(text: string)
    ensures '?' !in PathOf(text)
    ensures Find(text, "?", 0).None? <==> '?' !in text
    ensures var q := Find(text, "?", 0); q.Some? ==> text == PathOf(text) + "?" + text[q.value + 1..]
  {
    match Find(text, "?", 0)
    case None => NoCharAt(text, '?', |text|);
    case Some(k) =>
      NoCharAt(text, '?', k);
      assert text[k..k + 1] == "?" && text[k] == '?';
  }

  /** The bytes a target may hold: printable ASCII but for the space and nine signs. */
  lemma LegalTargetExactly(target: string)
    requires forall i :: 0 <= i < |target| ==> target[i] as int < 256
    ensures LegalTarget(target) <==>
            forall i :: 0 <= i < |target| ==> '!' <= target[i] <= '~' && target[i] !in "<>\"{}|\\^`"
  {
    assert forall c: char :: c in FORBIDDEN_IN_URI <==> c in " \t\r\n" || c in "<>\"{}|\\^`";
  }

  /** A target without percent signs whose text is canonical, query and all, is taken as it stands up to its
      fragment. */
  lemma PlainTargetRead(text: string, fragment: string)
    requires Uri.Canonical(text) && '%' !in text && '#' !in text && (fragment == "" || fragment[0] == '#')
    requires LegalTarget(text + fragment)
    ensures TargetText(text + fragment) == Some(text)
  {
    hide LegalTarget;
    FragmentCut(text, fragment);
    Uri.DecodePlain(text);
    Uri.CanonicalKept(text);
  }

  lemma FragmentCut(text: string, fragment: string)
    requires '#' !in text && (fragment == "" || fragment[0] == '#')
    ensures BeforeFragment(text + fragment) == text
  {
    hide Find;
    hide At;
    if fragment == "" {
      assert text + fragment == text;
      FindCharAbsent(text, '#');
    } else {
      assert text + fragment == text + ['#'] + fragment[1..];
      FindChar(text, '#', fragment[1..]);
    }
  }

  lemma UriExactly(rule: Rule, r: Request, target: string)
    requires r.errorCode == 0
    ensures var (s, ok) := SetUri(rule, r, target);
            && (ok <==> TargetOk(target))
            && (ok ==> s == r.(uri := s.uri, query := s.query) && '?' !in s.uri &&
                       var text := TargetText(target).value;
                       if '?' in text then text == s.uri + "?" + s.query else text == s.uri && s.query == r.query)
            && (!ok ==> s.errorCode in {0, 400, 414} && (s.errorCode == 414 <==> Rooted(target)))
  {
    hide StoreUri;
    hide PathOf;
    hide LegalTarget;
    hide BeforeFragment;
    if TargetText(target).Some? { StoreExactly(r, TargetText(target).value); }
    NothingRooted();
  }

  lemma NothingRooted()
    ensures PathOf("") == ""
  {
  }

  lemma StoreExactly(r: Request, text: string)
    requires r.errorCode == 0
    ensures var (s, ok) := StoreUri(r, text); var path := PathOf(text);
            && (ok <==> path != "" && path[0] == '/' && |path| <= 2048)
            && (ok ==> s == r.(uri := path, query := s.query) && '?' !in path &&
                       if '?' in text then text == path + "?" + s.query else text == path && s.query == r.query)
            && (!ok ==> s.errorCode in {400, 414} && (s.errorCode == 414 <==> path != "" && path[0] == '/'))
  {
    hide Find;
    hide At;
    QuerySplit(text);
  }

  lemma VersionExactly(r: Request, v: string)
    requires r.errorCode == 0
    ensures var (s, ok) := SetVersion(r, v);
            && (ok <==> v == "HTTP/1.1") && (ok ==> s == r.(version := v))
            && (!ok ==> s.errorCode == if v in {"HTTP/0.9", "HTTP/1.0"} then 505 else 400)
  {
    assert v == "HTTP/1.1" ==> v[7] == '1' && v[5] == '1';
  }

  lemma MethodExactly(r: Request, m: string)
    requires r.errorCode == 0
    ensures var (s, ok) := SetMethod(r, m);
            && (ok <==> m in {"GET", "POST", "DELETE"}) && (ok ==> s == r.(httpMethod := m))
            && (!ok ==>
                  s.errorCode == if m in {"HEAD", "OPTIONS", "TRACE", "PUT", "PATCH", "CONNECT"} then 501 else 400)
  {
    assert KnownMethod(m) ==> m[1] in {'E', 'O'} && |m| in {3, 4, 6};
  }

  predicate GoodRequestLine(line: string) {
    var ps := Split(line, ' ');
    |ps| == 3 && ps[0] in {"GET", "POST", "DELETE"} && TargetOk(ps[1]) && ps[2] == "HTTP/1.1"
  }

  /** Main result on request lines. A line is accepted if and only if it has three parts, a known method, a target that
      decodes and normalises to a rooted path that is not too long, and the one supported version; then the path and
      query stored are the two sides of the first question mark. Each other code has its own cause. */
  lemma RequestLineExactly(rule: Rule, r: Request, line: string)
    requires r.errorCode == 0
    ensures SetLine(rule, r, line).1 <==> GoodRequestLine(line)
    ensures var (s, ok) := SetLine(rule, r, line); var ps := Split(line, ' ');
            ok ==>
              && s == r.(httpMethod := ps[0], uri := s.uri, query := s.query, version := "HTTP/1.1")
              && '?' !in s.uri
              && var text := TargetText(ps[1]).value;
                 if '?' in text then text == s.uri + "?" + s.query else text == s.uri && s.query == r.query
    ensures var (s, ok) := SetLine(rule, r, line); var ps := Split(line, ' ');
            var known := |ps| == 3 && ps[0] in {"GET", "POST", "DELETE"};
            && (s.errorCode == 501 <==> |ps| == 3 && ps[0] in {"HEAD", "OPTIONS", "TRACE", "PUT", "PATCH", "CONNECT"})
            && (s.errorCode == 414 <==> known && Rooted(ps[1]) && !TargetOk(ps[1]))
            && (s.errorCode == 505 <==> known && TargetOk(ps[1]) && ps[2] in {"HTTP/0.9", "HTTP/1.0"})
            && s.errorCode in {0, 400, 414, 501, 505}
  {
    hide Split;
    hide SetMethod;
    hide SetUri;
    hide SetVersion;
    hide Rooted;
    hide TargetOk;
    hide TargetText;
    var ps := Split(line, ' ');
    if |ps| == 3 {
      MethodExactly(r, ps[0]);
      DistinctMethods(ps[0]);
      var r1 := SetMethod(r, ps[0]).0;
      if KnownMethod(ps[0]) {
        UriExactly(rule, r1, ps[1]);
        if TargetOk(ps[1]) { VersionExactly(SetUri(rule, r1, ps[1]).0, ps[2]); OkIsRooted(ps[1]); }
      }
    }
  }

  lemma OkIsRooted(target: string)
    ensures TargetOk(target) ==> Rooted(target) && TargetText(target).Some?
  {
  }

  lemma DistinctMethods(m: string)
    ensures KnownMethod(m) ==> m !in {"HEAD", "OPTIONS", "TRACE", "PUT", "PATCH", "CONNECT"}
  {
    assert m == "POST" ==> m[0] == 'P' && |m| == 4;
    assert m in {"PUT", "HEAD"} ==> |m| == 3 || m[0] == 'H';
  }

  /** The first line of the buffer is such a line, and short enough to be looked at. */
  predicate SilentTarget(u: string) {
    LineEnd(u) <= 8192 && EmptyTarget(FirstLine(u))
  }

  lemma LineFailsSilently(rule: Rule, r: Request, line: string)
    requires r.errorCode == 0
    ensures var (s, ok) := SetLine(rule, r, line);
            && (ok ==> s == r.(httpMethod := s.httpMethod, uri := s.uri, query := s.query, version := s.version))
            && (!ok && s.errorCode == 0 ==>
                  rule.Shipped? && EmptyTarget(line) && s == r.(httpMethod := Split(line, ' ')[0]))
            && (!ok && s.errorCode != 0 ==> ErrorCloses(s))
            && (rule.Shipped? && EmptyTarget(line) ==> !ok && s == r.(httpMethod := Split(line, ' ')[0]))
  {
    hide SetParts;
    hide Split;
    var parts := Split(line, ' ');
    if |parts| == 3 { PartsFailSilently(rule, r, parts[0], parts[1], parts[2]); }
  }

  /** parse_request_line on a buffer that holds a complete header block. */
  lemma RequestLineStops(rule: Rule, r: Request, u: string)
    requires Unparsed(r) && r.phase == Phase.RequestLine && Find(u, DOUBLE_CRLF, 0).Some?
    ensures var p := ParseRequestLine(rule, r, u);
            && p.req.phase in {Phase.RequestLine, Phase.Headers, ErrorParse}
            && ErrorCloses(p.req)
            && (p.req.phase == Phase.RequestLine <==> rule.Shipped? && SilentTarget(u))
            && (p.req.phase != Phase.Headers ==> p.rest == u)
    ensures var p := ParseRequestLine(rule, r, u);
            p.req.phase != ErrorParse ==>
              && Unparsed(p.req) && p.req.headers == r.headers
              && p.req.hasContentLength == r.hasContentLength && p.req.hasTransferEncoding == r.hasTransferEncoding
    ensures var p := ParseRequestLine(rule, r, u);
            p.req.phase == Phase.Headers ==>
              && BlankAhead(p.rest) && |p.rest| < |u| && p.rest == u[LineEnd(u)..]
              && p.rest[BlankEnd(p.rest)..] == u[Find(u, DOUBLE_CRLF, 0).value + 4..]
  {
    hide SetLine;
    hide EmptyTarget;
    hide Find;
    hide At;
    BlankAfterLine(u);
    var e := LineEnd(u);
    var h := Find(u, DOUBLE_CRLF, 0).value;
    assert e < |u|;
    if e <= MAX_REQUEST_LINE_LENGTH {
      LineFailsSilently(rule, r, FirstLine(u));
      assert e + BlankEnd(u[e..]) == h + 4;
      DropDrop(u, e, BlankEnd(u[e..]));
    }
  }

  /** Text after the header block does not change the request line. */
  lemma RequestLineExtends(rule: Rule, r: Request, u: string, more: string)
    requires Find(u, DOUBLE_CRLF, 0).Some?
    ensures ParseRequestLine(rule, r, u + more) ==
            Parsed(ParseRequestLine(rule, r, u).req, ParseRequestLine(rule, r, u).rest + more)
  {
    hide SetLine;
    hide Find;
    hide At;
    BlankAfterLine(u);
    FindExtends(u, more, CRLF, 0);
    var e := LineEnd(u);
    assert e < |u|;
    AppendCut(u, more, e - 2);
    AppendCut(u, more, e);
  }

  /** A phase either stays where it is with all its text, or moves on: the loop's measure. */
  lemma StepProgress(rule: Rule, r: Request, u: string)
    requires Ready(r, u) && r.phase !in {Done, ErrorParse}
    ensures var p := PhaseStep(rule, r, u);
            && Ready(p.req, p.rest) && |p.rest| <= |u|
            && (Rank(p.req.phase) < Rank(r.phase) ||
                  (Rank(p.req.phase) == Rank(r.phase) && (p.rest == u || |p.rest| < |u|)))
            && (p.req.phase == ErrorParse ==> p.req.errorCode != 0)
  {
    match r.phase
    case RequestLine => RequestLineStops(rule, r, u);
    case Headers => HeadersStop(Block(r, false, ""), u);
    case Body => BodyKeeps(rule, r, u);
  }

  // ---------------------------------------------------------------- a new parser on a complete header block

  /** Request line and headers of a new parser. */
  function Head(rule: Rule, u: string): Parsed
    requires Find(u, DOUBLE_CRLF, 0).Some?
  {
    RequestLineStops(rule, Fresh, u);
    var p := ParseRequestLine(rule, Fresh, u);
    if p.req.phase == Phase.Headers then ParseHeaders(p.req, p.rest) else p
  }

  lemma HeadStops(rule: Rule, u: string)
    requires Find(u, DOUBLE_CRLF, 0).Some?
    ensures var h := Head(rule, u);
            && h.req.phase in {Phase.RequestLine, Phase.Body, Done, ErrorParse}
            && ErrorCloses(h.req)
            && (h.req.phase == Phase.RequestLine <==> rule.Shipped? && SilentTarget(u))
            && (h.req.phase == Phase.RequestLine ==> h.rest == u)
            && (h.req.phase in {Phase.Body, Done} ==> h.rest == u[Find(u, DOUBLE_CRLF, 0).value + 4..])
            && (h.req.phase == Phase.Body ==> Receiving(h.req) && h.req.place == Outside(""))
            && IsSuffix(h.rest, u)
  {
    RequestLineStops(rule, Fresh, u);
    var p := ParseRequestLine(rule, Fresh, u);
    if p.req.phase == Phase.Headers {
      HeadersStop(Block(p.req, false, ""), p.rest);
      SuffixOfSuffix(ParseHeaders(p.req, p.rest).rest, u, LineEnd(u));
    }
  }

  lemma HeadExtends(rule: Rule, u: string, more: string)
    requires Find(u, DOUBLE_CRLF, 0).Some?
    ensures Find(u + more, DOUBLE_CRLF, 0).Some?
    ensures Head(rule, u + more) == Parsed(Head(rule, u).req, Head(rule, u).rest + more)
  {
    FindExtends(u, more, DOUBLE_CRLF, 0);
    RequestLineExtends(rule, Fresh, u, more);
    RequestLineStops(rule, Fresh, u);
    var p := ParseRequestLine(rule, Fresh, u);
    if p.req.phase == Phase.Headers { HeadersExtend(Block(p.req, false, ""), p.rest, more); }
  }

  function AfterHead(rule: Rule, h: Parsed): Outcome
    requires h.req.phase == Phase.Body ==> Receiving(h.req)
  {
    if h.req.phase == Phase.RequestLine then Outcome(h.req, h.rest, true)
    else if h.req.phase != Phase.Body || h.rest == "" then Outcome(h.req, h.rest, false)
    else
      var q := ParseBody(rule, h.req, h.rest);
      Outcome(q.req, q.rest, rule.Shipped? && q.req.phase == Phase.Body && q.rest != "")
  }

  lemma DriveStep(rule: Rule, r: Request, u: string)
    requires Ready(r, u) && u != "" && r.phase in {Phase.RequestLine, Phase.Headers}
    requires PhaseStep(rule, r, u).req.phase != r.phase
    ensures var p := PhaseStep(rule, r, u);
            Ready(p.req, p.rest) && Drive(rule, r, u) == Drive(rule, p.req, p.rest)
  {
    StepProgress(rule, r, u);
  }

  lemma DriveBody(rule: Rule, r: Request, u: string)
    requires Receiving(r)
    ensures Drive(rule, r, u) == AfterHead(rule, Parsed(r, u))
  {
    if u != "" {
      BodyKeeps(rule, r, u);
      var p := ParseBody(rule, r, u);
      if p.req.phase == Phase.Body && p.rest != "" && p.rest != u {
        BodyAtRest(rule, r, u);
        assert Drive(rule, p.req, p.rest) == Outcome(p.req, p.rest, rule.Shipped?);
      }
    }
  }

  lemma DriveHeaders(rule: Rule, r: Request, u: string)
    requires Unparsed(r) && r.phase == Phase.Headers && BlankAhead(u)
    ensures ParseHeaders(r, u).req.phase == Phase.Body ==> Receiving(ParseHeaders(r, u).req)
    ensures Drive(rule, r, u) == AfterHead(rule, ParseHeaders(r, u))
  {
    HeadersStop(Block(r, false, ""), u);
    var p := ParseHeaders(r, u);
    DriveStep(rule, r, u);
    if p.req.phase == Phase.Body && p.rest != "" {
      DriveBody(rule, p.req, p.rest);
    }
  }

  /** The whole loop in one formula: request line, headers, and the body at most twice. */
  lemma DriveIs(rule: Rule, u: string)
    requires Find(u, DOUBLE_CRLF, 0).Some?
    ensures Head(rule, u).req.phase == Phase.Body ==> Receiving(Head(rule, u).req)
    ensures Parse(rule, Fresh, u) == AfterHead(rule, Head(rule, u))
  {
    HeadStops(rule, u);
    RequestLineStops(rule, Fresh, u);
    var p := ParseRequestLine(rule, Fresh, u);
    if p.req.phase == Phase.Headers {
      assert p.rest != "";
      DriveHeaders(rule, p.req, p.rest);
    }
  }

  // ---------------------------------------------------------------- main results

  /** How the parse of a buffer with a complete header block ends, by phase and by what it leaves. */
  lemma ParseEnds(rule: Rule, u: string)
    requires Find(u, DOUBLE_CRLF, 0).Some?
    ensures var o := Parse(rule, Fresh, u);
            && (o.stalled <==> rule.Shipped? && (SilentTarget(u) || (o.req.phase == Phase.Body && o.rest != "")))
            && (!o.stalled ==> o.req.phase in {Phase.Body, Done, ErrorParse})
            && (o.stalled ==> o.req.phase in {Phase.RequestLine, Phase.Body})
            && (o.req.phase == Phase.Body && o.rest != "" ==> IsChunked(o.req))
            && ErrorCloses(o.req)
            && (o.req.phase == Phase.Body ==> Receiving(o.req))
            && IsSuffix(o.rest, u)
  {
    DriveIs(rule, u);
    HeadStops(rule, u);
    var h := Head(rule, u);
    if h.req.phase == Phase.Body {
      BodyKeeps(rule, h.req, h.rest);
      SuffixOfSuffix(Parse(rule, Fresh, u).rest, u, |u| - |h.rest|);
    }
  }

  /** The text of a chunked body that came with the header block stops the shipped decoder with some of it left. */
  predicate StartLeavesOver(u: string)
    requires Find(u, DOUBLE_CRLF, 0).Some?
  {
    HeadStops(Shipped, u);
    var h := Head(Shipped, u);
    h.req.phase == Phase.Body && IsChunked(h.req) && LeavesOver(ChunkSize, h.req.place, h.rest)
  }

  /** On every buffer with a complete header block the parse ends in BODY, DONE or ERROR_PARSE and gives back part of
      the buffer, except that the shipped loop runs for ever in exactly two cases, both to be read off the buffer: an
      empty request target, and text of a chunked body that stops the decoder with some of it left over.
      The repaired rule always terminates. */
  lemma ParseTerminatesExactly(rule: Rule, u: string)
    requires Find(u, DOUBLE_CRLF, 0).Some?
    ensures var o := Parse(rule, Fresh, u);
            && (o.stalled <==> rule.Shipped? && (SilentTarget(u) || StartLeavesOver(u)))
            && (!o.stalled ==> o.req.phase in {Phase.Body, Done, ErrorParse})
            && ErrorCloses(o.req) && IsSuffix(o.rest, u)
  {
    hide Chunks;
    hide ChunkSize;
    hide LeavesOver;
    hide SilentTarget;
    ParseEnds(rule, u);
    DriveIs(rule, u);
    HeadStops(rule, u);
    var h := Head(rule, u);
    if rule.Shipped? && h.req.phase == Phase.Body {
      BodyKeeps(rule, h.req, h.rest);
      LeavesOverExactly(ChunkSize, h.req.place, h.rest);
    }
  }

  lemma HeadDoneHasNoLength(rule: Rule, u: string)
    requires Find(u, DOUBLE_CRLF, 0).Some? && Head(rule, u).req.phase == Done
    ensures !Head(rule, u).req.hasContentLength
  {
    hide SetLine;
    hide Field;
    hide HeaderLoop;
    RequestLineStops(rule, Fresh, u);
    var p := ParseRequestLine(rule, Fresh, u);
    HeadersAcceptedExactly(p.req, p.rest);
  }

  /** A complete request with a Content-Length holds exactly that many bytes. */
  lemma DoneHasWholeBody(rule: Rule, u: string)
    requires Find(u, DOUBLE_CRLF, 0).Some?
    ensures var o := Parse(rule, Fresh, u).req; o.phase == Done && o.hasContentLength ==> |o.place.body| == Length(o)
  {
    hide ParseBody;
    hide Head;
    hide Length;
    hide Find;
    hide At;
    hide Parse;
    DriveIs(rule, u);
    HeadStops(rule, u);
    var h := Head(rule, u);
    if h.req.phase == Done {
      HeadDoneHasNoLength(rule, u);
    } else if h.req.phase == Phase.Body {
      BodyKeeps(rule, h.req, h.rest);
      if h.req.hasContentLength && ParseBody(rule, h.req, h.rest).req.phase == Done {
        BodyCompletes(rule, h.req, h.rest);
      }
    }
  }

  // ---------------------------------------------------------------- refused behind a Content-Length

  /** The buffer's first request is refused after a Content-Length of it was seen: in its header block, or because that
      length is zero and some of a body has come. Everything is read off the lines of the buffer. */
  ghost predicate RefusedWithLength(u: string)
    requires Find(u, DOUBLE_CRLF, 0).Some?
  {
    var e := LineEnd(u);
    && e <= 8192 && GoodRequestLine(FirstLine(u)) && BlankAhead(u[e..])
    && var lines := Lines(u[e..]);
       if AcceptedBlock(Split(FirstLine(u), ' ')[0], lines) then
         && Named(lines, "content-length") && LengthIn(LastWrite(lines)) == 0
         && |u| > Find(u, DOUBLE_CRLF, 0).value + 4
       else LengthSeen(lines)
  }

  lemma LineExactly(rule: Rule, u: string)
    requires Find(u, DOUBLE_CRLF, 0).Some?
    ensures var p := ParseRequestLine(rule, Fresh, u);
            && (p.req.phase == Phase.Headers <==>
                  LineEnd(u) <= 8192 && GoodRequestLine(FirstLine(u)))
            && (p.req.phase == Phase.Headers ==>
                  p.req.httpMethod == Split(FirstLine(u), ' ')[0] && p.req.headers == map[] && Unparsed(p.req))
            && !p.req.hasContentLength && !p.req.hasTransferEncoding
  {
    hide SetLine;
    hide GoodRequestLine;
    hide Find;
    hide At;
    hide Split;
    BlankAfterLine(u);
    RequestLineStops(rule, Fresh, u);
    LineFlags(rule, FirstLine(u));
    RequestLineExactly(rule, Fresh, FirstLine(u));
  }

  lemma LineFlags(rule: Rule, line: string)
    ensures var s := SetLine(rule, Fresh, line).0; !s.hasContentLength && !s.hasTransferEncoding
  {
    hide Split;
    hide LegalTarget;
    hide BeforeFragment;
    hide Uri.Normalize;
    hide Find;
    hide At;
  }

  /** Header block and request line of a new parser, with the flag that a refusal leaves raised. */
  lemma HeadExactly(rule: Rule, u: string)
    requires Find(u, DOUBLE_CRLF, 0).Some? && !(rule.Shipped? && SilentTarget(u))
    ensures var h := Head(rule, u).req; var e := LineEnd(u);
            if e > 8192 || !GoodRequestLine(FirstLine(u)) then
              h.phase == ErrorParse && !h.hasContentLength
            else
              && BlankAhead(u[e..])
              && var lines := Lines(u[e..]);
                 && (h.phase == ErrorParse <==> !AcceptedBlock(Split(FirstLine(u), ' ')[0], lines))
                 && (h.hasContentLength <==> LengthSeen(lines))
                 && (h.phase != ErrorParse ==>
                       h.headers == LastWrite(lines) && h.hasContentLength == Named(lines, "content-length"))
  {
    hide GoodRequestLine;
    hide SilentTarget;
    hide Find;
    hide At;
    hide HeaderLoop;
    hide AcceptedBlock;
    hide LengthSeen;
    hide Split;
    hide ParseRequestLine;
    RequestLineStops(rule, Fresh, u);
    LineExactly(rule, u);
    var p := ParseRequestLine(rule, Fresh, u);
    if p.req.phase == Phase.Headers {
      HeadersAcceptedExactly(p.req, p.rest);
      LoopRaises(Block(p.req, false, ""), p.rest);
      RaisedExactly(Block(p.req, false, ""), Lines(p.rest));
    }
  }

  /** The first parse fails with its Content-Length seen exactly on such a buffer. */
  lemma RefusedWithLengthExactly(rule: Rule, u: string)
    requires Find(u, DOUBLE_CRLF, 0).Some? && !Parse(rule, Fresh, u).stalled
    ensures var o := Parse(rule, Fresh, u).req; o.hasContentLength && o.errorCode != 0 <==> RefusedWithLength(u)
  {
    hide Head;
    hide Parse;
    hide GoodRequestLine;
    hide AcceptedBlock;
    hide LengthSeen;
    hide LengthIn;
    hide Find;
    hide At;
    hide Split;
    hide SilentTarget;
    hide StartLeavesOver;
    ParseTerminatesExactly(rule, u);
    HeadExactly(rule, u);
    HeadStops(rule, u);
    DriveIs(rule, u);
    var h := Head(rule, u);
    if h.req.phase == Phase.Body { BodyFails(rule, h.req, h.rest); }
    if h.req.phase == Done { HeadDoneHasNoLength(rule, u); }
  }

  /** An open body fails with its Content-Length seen only when the length is zero. */
  lemma BodyFails(rule: Rule, r: Request, u: string)
    requires Receiving(r)
    ensures var o := ParseBody(rule, r, u).req;
            o.hasContentLength && o.errorCode != 0 <==> r.hasContentLength && LengthIn(r.headers) == 0
  {
    hide LengthIn;
    hide Chunks;
    BodyKeeps(rule, r, u);
  }

  /** The state at which `stalled` is reported repeats itself: any number of further turns of the shipped loop
      leave it as it is. */
  lemma {:induction false} StalledForEver(r: Request, u: string, turns: nat)
    requires Ready(r, u) && r.phase !in {Done, ErrorParse}
    requires PhaseStep(Shipped, r, u).req.phase == r.phase && PhaseStep(Shipped, r, u).rest == u
    ensures Ready(PhaseStep(Shipped, r, u).req, u)
    ensures var stuck := PhaseStep(Shipped, r, u).req; Turns(stuck, u, turns) == Parsed(stuck, u)
    decreases turns
  {
    StepProgress(Shipped, r, u);
    var stuck := PhaseStep(Shipped, r, u).req;
    StuckStep(r, u);
    if turns > 0 { StalledForEver(stuck, u, turns - 1); }
  }

  lemma StuckStep(r: Request, u: string)
    requires Ready(r, u) && r.phase !in {Done, ErrorParse}
    requires PhaseStep(Shipped, r, u).req.phase == r.phase && PhaseStep(Shipped, r, u).rest == u
    ensures var stuck := PhaseStep(Shipped, r, u).req;
            Ready(stuck, u) && PhaseStep(Shipped, stuck, u) == Parsed(stuck, u)
  {
    StepProgress(Shipped, r, u);
    match r.phase
    case RequestLine =>
      RequestLineStops(Shipped, r, u);
      hide SetLine;
      LineFailsSilently(Shipped, r, FirstLine(u));
      LineFailsSilently(Shipped, ParseRequestLine(Shipped, r, u).req, FirstLine(u));
    case Headers => HeadersStop(Block(r, false, ""), u);
    case Body => BodyAtRest(Shipped, r, u);
  }

  /** That many turns of the shipped loop. */
  function Turns(r: Request, u: string, turns: nat): Parsed
    requires Ready(r, u)
    decreases turns
  {
    if turns == 0 || r.phase in {Done, ErrorParse} then Parsed(r, u)
    else
      StepProgress(Shipped, r, u);
      var p := PhaseStep(Shipped, r, u);
      Turns(p.req, p.rest, turns - 1)
  }

  /** Requests delimit themselves, whatever their framing and under either rule: if a request alone parses to DONE
      with nothing left, then in front of any other text it parses to the same request and leaves exactly that text. */
  lemma SelfDelimiting(rule: Rule, w: string, more: string)
    requires Find(w, DOUBLE_CRLF, 0).Some?
    requires Parse(rule, Fresh, w).req.phase == Done && Parse(rule, Fresh, w).rest == ""
    ensures Find(w + more, DOUBLE_CRLF, 0).Some?
    ensures Parse(rule, Fresh, w + more) == Outcome(Parse(rule, Fresh, w).req, more, false)
  {
    HeadStops(rule, w);
    HeadExtends(rule, w, more);
    DriveIs(rule, w);
    DriveIs(rule, w + more);
    var h := Head(rule, w);
    if h.req.phase == Phase.Body { BodyDoneExtends(rule, h.req, h.rest, more); }
  }

  /** A parse that has reached the body goes on, call by call, as one parse of everything received would. */
  lemma ParseResumes(rule: Rule, u: string, more: string)
    requires Find(u, DOUBLE_CRLF, 0).Some? && more != ""
    requires rule.Repaired? || !IsChunked(Head(rule, u).req)
    requires Parse(rule, Fresh, u).req.phase != Phase.RequestLine
    ensures Find(u + more, DOUBLE_CRLF, 0).Some?
    ensures var o := Parse(rule, Fresh, u);
            (o.req.phase == Phase.Body ==> Counters(o.req.place)) &&
            var q := ThenBody(rule, Parsed(o.req, o.rest), more);
            Parse(rule, Fresh, u + more) ==
            Outcome(q.req, q.rest, rule.Shipped? && q.req.phase == Phase.Body && q.rest != "")
  {
    hide Head;
    hide Parse;
    hide ParseBody;
    HeadStops(rule, u);
    HeadExtends(rule, u, more);
    DriveIs(rule, u);
    DriveIs(rule, u + more);
    var h := Head(rule, u);
    if h.req.phase == Phase.Body {
      BodyResume(rule, h.req, h.rest, more);
      BodyKeeps(rule, h.req, h.rest);
      if h.rest == "" { assert "" + more == more; }
    }
  }
}
