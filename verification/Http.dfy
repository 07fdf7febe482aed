/** The request under construction, and the request line and header phases of the parser as functions
    (srcs/ReqRes/RequestParser.cpp:107-277, :512-563, :680-758).
    Each phase takes the unread text and returns the new request with the text it leaves unread. */
module Http {
  import opened Text
  import opened Chunked
  import Uri

  const MAX_REQUEST_LINE_LENGTH: nat := 8192
  const MAX_URI_LENGTH: nat := 2048
  const MAX_HEADER_LENGTH: nat := 8192
  const MAX_HEADER_COUNT: nat := 100

  datatype Phase = RequestLine | Headers | Body | Done | ErrorParse

  /** The fields of RequestParser. `place` holds its body and the chunk counters. */
  datatype Request = Request(
    phase: Phase, httpMethod: string, uri: string, query: string, version: string,
    headers: map<string, string>, place: Place, errorCode: int,
    hasContentLength: bool, hasTransferEncoding: bool, contentLength: nat)

  const Fresh: Request := Request(RequestLine, "", "", "", "", map[], Outside(""), 0, false, false, 0)

  datatype Parsed = Parsed(req: Request, rest: string)

  /** log_error: the first error is kept, and it closes the connection. */
  function LogError(r: Request, code: int): (e: Request)
    ensures r.errorCode != 0 ==> e == r
    ensures r.errorCode == 0 && code != 0 ==>
              e.phase == ErrorParse && e.errorCode == code && "connection" in e.headers &&
                  e.headers["connection"] == "close"
  {
    if r.errorCode != 0 then r
    else r.(errorCode := code, phase := ErrorParse,
            headers := if code != 0 then r.headers["connection" := "close"] else r.headers)
  }

  /** The state is ERROR_PARSE exactly when there is an error code, and then the connection is to be closed. */
  predicate ErrorCloses(r: Request) {
    && (r.phase == ErrorParse <==> r.errorCode != 0)
    && (r.errorCode != 0 ==> "connection" in r.headers && r.headers["connection"] == "close")
  }

  // ---------------------------------------------------------------- request line

  predicate KnownMethod(m: string) { m == "GET" || m == "POST" || m == "DELETE" }

  function SetMethod(r: Request, m: string): (Request, bool) {
    if KnownMethod(m) then (r.(httpMethod := m), true)
    else if m in {"HEAD", "OPTIONS", "TRACE", "PUT", "PATCH", "CONNECT"} then (LogError(r, 501), false)
    else (LogError(r, 400), false)
  }

  const FORBIDDEN_IN_URI: string := " \t\r\n<>\"{}|\\^`"

  predicate LegalTarget(target: string) {
    forall i :: 0 <= i < |target| ==>
      target[i] !in FORBIDDEN_IN_URI && Signed(target[i]) > 31 && target[i] as int != 127
  }

  function BeforeFragment(target: string): string {
    match Find(target, "#", 0)
    case Some(k) => target[..k]
    case None => target
  }

  /** set_request_uri. An empty target (before any fragment) is refused without logging an error;
      the repaired rule logs the 400 its unused constant HTTP_PARSE_MISSING_REQUEST_URI is for. */
  function SetUri(rule: Rule, r: Request, target: string): (Request, bool) {
    if !LegalTarget(target) then (LogError(r, 400), false)
    else
      match Uri.Normalize(BeforeFragment(target))
      case Refused => (LogError(r, 400), false)
      case Path(text) =>
        if text == "" then (if rule.Shipped? then r else LogError(r, 400), false)
        else StoreUri(r, text)
  }

  function StoreUri(r: Request, text: string): (Request, bool) {
    var mark := Find(text, "?", 0);
    var q := if mark.Some? then r.(query := text[mark.value + 1..]) else r;
    var path := if mark.Some? then text[..mark.value] else text;
    if path == "" || path[0] != '/' then (LogError(q, 400), false)
    else if |path| > MAX_URI_LENGTH then (LogError(q, 414), false)
    else (q.(uri := path), true)
  }

  function SetVersion(r: Request, v: string): (Request, bool) {
    if v == "HTTP/1.1" then (r.(version := v), true)
    else if v == "HTTP/0.9" || v == "HTTP/1.0" then (LogError(r, 505), false)
    else (LogError(r, 400), false)
  }

  /** set_http_method, set_request_uri and set_http_version joined by `||`: the first failure stops the chain. */
  function SetParts(rule: Rule, r: Request, m: string, target: string, v: string): (Request, bool) {
    var (r1, ok1) := SetMethod(r, m);
    if !ok1 then (r1, false)
    else
      var (r2, ok2) := SetUri(rule, r1, target);
      if !ok2 then (r2, false) else SetVersion(r2, v)
  }

  function LineText(u: string, e: nat): string
    requires e <= |u|
  {
    if e >= 2 then u[..e - 2] else ""
  }

  /** The line split at spaces, and its three parts set. */
  function SetLine(rule: Rule, r: Request, line: string): (Request, bool) {
    var parts := Split(line, ' ');
    if |parts| != 3 then (LogError(r, 400), false) else SetParts(rule, r, parts[0], parts[1], parts[2])
  }

  /** parse_request_line. */
  function ParseRequestLine(rule: Rule, r: Request, u: string): Parsed {
    var e := LineEnd(u);
    if e == |u| then Parsed(r, u)
    else if e > MAX_REQUEST_LINE_LENGTH then Parsed(LogError(r, 414), u)
    else
      var (s, ok) := SetLine(rule, r, LineText(u, e));
      if ok then Parsed(s.(phase := Headers), u[e..]) else Parsed(s, u)
  }

  // ---------------------------------------------------------------- header fields

  predicate ValidName(name: string) {
    forall i :: 0 <= i < |name| ==> IsAlnum(name[i]) || name[i] == '-' || name[i] == '_'
  }

  predicate ValidValue(value: string) {
    forall i :: 0 <= i < |value| ==> (Signed(value[i]) >= 32 && value[i] as int != 127) || value[i] == '\t'
  }

  /** What parse_headers carries from line to line: the request and its two local variables. */
  datatype Block = Block(req: Request, hasHost: bool, lengthText: string)

  datatype FieldResult = Refused(req: Request, code: int) | Stored(block: Block)

  const CODINGS: set<string> := {"chunked", "compress", "deflate", "gzip"}

  function Colon(line: string): Option<nat> { Find(line, ":", 0) }

  function Key(line: string): string {
    match Colon(line) case Some(c) => Lower(line[..c]) case None => ""
  }

  function Value(line: string): string {
    match Colon(line) case Some(c) => Trim(line[c + 1..], " \t") case None => ""
  }

  /** The checks on one field line that do not look at the other lines. */
  predicate WellFormed(line: string) {
    && line != "" && line[0] != ' ' && line[0] != '\t'
    && |line| + 2 <= MAX_HEADER_LENGTH
    && Colon(line).Some? && Colon(line).value != 0 && line[Colon(line).value - 1] != ' '
    && ValidName(Key(line)) && ValidValue(Value(line))
  }

  /** The value as it is stored: the Expect value is lower-cased first. */
  function StoredValue(line: string): string {
    if Key(line) == "expect" then Lower(Value(line)) else Value(line)
  }

  /** One turn of the loop of parse_headers on a line that is not empty. The framing flags are raised
      before the header count is checked, so a refusal for the count leaves them raised. */
  function Field(b: Block, line: string): FieldResult {
    if line != "" && (line[0] == ' ' || line[0] == '\t') then Refused(b.req, 400)
    else if |line| + 2 > MAX_HEADER_LENGTH then Refused(b.req, 431)
    else if !WellFormed(line) then Refused(b.req, 400)
    else Keyed(b, Key(line), Value(line))
  }

  /** The checks that depend on the field's name; the framing flags and has_host are raised on the way. */
  function Raise(b: Block, key: string, value: string): FieldResult {
    if key == "content-length" then
      if !IsNumeric(value) || (b.req.hasContentLength && b.lengthText != value) then Refused(b.req, 400)
      else Stored(Block(b.req.(hasContentLength := true), b.hasHost, value))
    else if key == "transfer-encoding" then
      if value !in CODINGS then Refused(b.req, 400)
      else Stored(b.(req := b.req.(hasTransferEncoding := true)))
    else if key == "host" then
      if b.hasHost then Refused(b.req, 400) else Stored(b.(hasHost := true))
    else if key == "expect" && Lower(value) != "100-continue" then Refused(b.req, 417)
    else Stored(b)
  }

  function Store(b: Block, key: string, value: string): FieldResult {
    if |b.req.headers| >= MAX_HEADER_COUNT then Refused(b.req, 431)
    else Stored(b.(req := b.req.(headers := b.req.headers[key := value])))
  }

  function Keyed(b: Block, key: string, value: string): FieldResult {
    match Raise(b, key, value)
    case Refused(r, code) => Refused(r, code)
    case Stored(c) => Store(c, key, if key == "expect" then Lower(value) else value)
  }

  /** The decision at the empty line. */
  function EndOfHeaders(b: Block): (r: Request) {
    if !b.hasHost then LogError(b.req, 400)
    else if b.req.hasContentLength && b.req.hasTransferEncoding then LogError(b.req, 400)
    else if !b.req.hasContentLength && !b.req.hasTransferEncoding then
      if b.req.httpMethod == "POST" then LogError(b.req, 411) else b.req.(phase := Done)
    else b.req.(phase := Body)
  }

  /** The header block still ahead is closed by an empty line: what processRequestHeaders checks before parsing. */
  predicate BlankAhead(u: string) {
    At(u, CRLF, 0) || Find(u, DOUBLE_CRLF, 0).Some?
  }

  /** The offset just past that empty line. */
  function BlankEnd(u: string): (n: nat)
    requires BlankAhead(u)
    ensures n <= |u|
  {
    if At(u, CRLF, 0) then 2 else Find(u, DOUBLE_CRLF, 0).value + 4
  }

  lemma DoubleIsTwo(u: string, h: nat)
    ensures At(u, DOUBLE_CRLF, h) <==> At(u, CRLF, h) && At(u, CRLF, h + 2)
  {
    if h + 4 <= |u| {
      var w := u[h..h + 4];
      assert w == u[h..h + 2] + u[h + 2..h + 4];
      assert DOUBLE_CRLF == CRLF + CRLF;
      assert w[..2] == u[h..h + 2] && w[2..] == u[h + 2..h + 4];
    }
  }

  lemma AtAfter(u: string, pat: string, k: nat, j: nat)
    requires k <= |u|
    ensures At(u[k..], pat, j) <==> At(u, pat, k + j)
  {
    assert u == u[..k] + u[k..];
    AtSuffix(u[..k], u[k..], pat, j);
  }

  /** Two line ends in a row are not a line end that starts one byte into the first. */
  lemma NoOverlap(u: string, k: nat)
    ensures !(At(u, CRLF, k) && At(u, CRLF, k + 1))
  {
    if k + 3 <= |u| { assert u[k..k + 2][1] == u[k + 1] && u[k + 1..k + 3][0] == u[k + 1]; }
  }

  lemma BlankInRest(u: string, k: nat, h: nat)
    requires Find(u, CRLF, 0) == Some(k) && Find(u, DOUBLE_CRLF, 0) == Some(h) && k < h
    ensures k + 2 <= h && Find(u[k + 2..], DOUBLE_CRLF, 0) == Some(h - k - 2) && !At(u[k + 2..], CRLF, 0)
  {
    hide At;
    hide Find;
    DoubleIsTwo(u, h);
    NoOverlap(u, k);
    DoubleIsTwo(u, k);
    AtAfter(u, CRLF, k + 2, 0);
    AtAfter(u, DOUBLE_CRLF, k + 2, h - k - 2);
    var v := u[k + 2..];
    forall j | 0 <= j < h - k - 2 ensures !At(v, DOUBLE_CRLF, j) {
      AtAfter(u, DOUBLE_CRLF, k + 2, j);
    }
    FindIs(v, DOUBLE_CRLF, 0, h - k - 2);
  }

  /** Taking one line off leaves the same empty line ahead. */
  lemma BlankAfterLine(u: string)
    requires BlankAhead(u)
    ensures Find(u, CRLF, 0).Some?
    ensures var k := Find(u, CRLF, 0).value;
            k != 0 ==> BlankAhead(u[k + 2..]) && BlankEnd(u) == k + 2 + BlankEnd(u[k + 2..])
    ensures var k := Find(u, CRLF, 0).value;
            Find(u, DOUBLE_CRLF, 0).Some? ==>
              BlankAhead(u[k + 2..]) && Find(u, DOUBLE_CRLF, 0).value + 4 == k + 2 + BlankEnd(u[k + 2..])
  {
    hide At;
    hide Find;
    if Find(u, DOUBLE_CRLF, 0).Some? {
      var h := Find(u, DOUBLE_CRLF, 0).value;
      DoubleIsTwo(u, h);
      var k := Find(u, CRLF, 0).value;
      assert k <= h;
      if k == h {
        AtAfter(u, CRLF, k + 2, 0);
      } else {
        BlankInRest(u, k, h);
      }
    }
  }

  lemma LineAhead(line: string, rest: string)
    requires '\r' !in line
    ensures var u := line + CRLF + rest;
            LineEnd(u) == |line| + 2 && u[..|line|] == line && u[|line| + 2..] == rest &&
                Find(u, CRLF, 0) == Some(|line|)
  {
    var u := line + CRLF + rest;
    assert u[|line|..|line| + 2] == CRLF;
    forall j | 0 <= j < |line| ensures !At(u, CRLF, j) {
      assert u[j] == line[j] && line[j] in line;
      if At(u, CRLF, j) { AtFirst(u, CRLF, j); }
    }
    FindIs(u, CRLF, 0, |line|);
  }

  /** A line in front of an empty line ahead keeps it ahead. */
  lemma BlankThrough(line: string, rest: string)
    requires BlankAhead(rest)
    ensures Find(line + CRLF + rest, DOUBLE_CRLF, 0).Some? && BlankAhead(line + CRLF + rest)
  {
    hide Find;
    var u, k := line + CRLF + rest, |line|;
    assert u[k..k + 2] == CRLF && u == (line + CRLF) + rest;
    if At(rest, CRLF, 0) {
      AtSuffix(line + CRLF, rest, CRLF, 0);
      DoubleIsTwo(u, k);
    } else {
      AtSuffix(line + CRLF, rest, DOUBLE_CRLF, Find(rest, DOUBLE_CRLF, 0).value);
    }
  }

  /** The loop of parse_headers. */
  function HeaderLoop(b: Block, u: string): (p: Parsed)
    requires BlankAhead(u)
    decreases |u|
  {
    BlankAfterLine(u);
    var e := LineEnd(u);
    if e == 2 then
      var r := EndOfHeaders(b);
      Parsed(r, if r.phase == ErrorParse then u else u[2..])
    else
      match Field(b, u[..e - 2])
      case Refused(r, code) => Parsed(LogError(r, code), u)
      case Stored(next) => HeaderLoop(next, u[e..])
  }

  /** parse_headers. */
  function ParseHeaders(r: Request, u: string): (p: Parsed)
    requires BlankAhead(u)
  {
    HeaderLoop(Block(r, false, ""), u)
  }
}
