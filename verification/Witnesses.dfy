/** Concrete inputs on which the shipped code does not do what is expected of it. */
module Witnesses {
  import opened Text
  import opened Chunked
  import opened ChunkTheorems
  import opened Http
  import opened BodyPhase
  import opened HeaderBlock
  import opened ParseRequest
  import opened Connection
  import opened Delivery
  import opened RequestRoundTrip
  import Numerals
  import Uri

  // ---------------------------------------------------------------- reading given lines

  const GET: string := "GET / HTTP/1.1"

  const Got: Request := Fresh.(phase := Phase.Headers, httpMethod := "GET", uri := "/", version := "HTTP/1.1")

  lemma RootTarget()
    ensures TargetOk("/") && TargetText("/") == Some("/") && '?' !in "/"
  {
    hide Find;
    hide At;
    hide Uri.NormalizePath;
    hide Uri.DecodePercent;
    FindCharAbsent("/", '#');
    FindCharAbsent("/", '?');
    Uri.DecodePlain("/");
    RootPath();
  }

  lemma RootPath()
    ensures Uri.NormalizePath("/") == Uri.Path("/")
  {
    hide Split;
    SplitFirst("", '/', "");
    assert "" + ['/'] + "" == "/";
    assert Split("", '/') == [] by { SplitNothing(); }
    assert [""][1..] == [];
    assert Uri.Walk(true, [], [""]) == Some([]);
  }

  lemma SplitNothing()
    ensures Split("", '/') == []
  {
  }

  lemma GetParts()
    ensures Split(GET, ' ') == ["GET", "/", "HTTP/1.1"]
  {
    hide Split;
    assert GET == "GET" + [' '] + "/ HTTP/1.1" && "/ HTTP/1.1" == "/" + [' '] + "HTTP/1.1";
    SplitFirst("GET", ' ', "/ HTTP/1.1");
    SplitFirst("/", ' ', "HTTP/1.1");
    SplitWhole("HTTP/1.1", ' ');
  }

  lemma GetText()
    ensures '\r' !in GET && |GET| == 14
  {
  }

  lemma SetGet(rule: Rule)
    ensures SetLine(rule, Fresh, GET) == (Got.(phase := RequestLine), true)
  {
    hide SetLine;
    hide GET;
    hide TargetOk;
    hide TargetText;
    hide Split;
    GetParts();
    RootTarget();
    RequestLineExactly(rule, Fresh, GET);
  }

  lemma GetLine(rule: Rule, rest: string)
    requires rest != ""
    ensures ParseRequestLine(rule, Fresh, GET + CRLF + rest) == Parsed(Got, rest)
  {
    hide SetLine;
    hide GET;
    hide LineEnd;
    GetText();
    SetGet(rule);
    LineAhead(GET, rest);
  }

  lemma LowerPlain(name: string)
    requires forall i :: 0 <= i < |name| ==> !('A' <= name[i] <= 'Z')
    ensures Lower(name) == name
  {
  }

  /** A short field line without spaces and capitals. */
  predicate PlainText(name: string, value: string) {
    && name != "" && value != "" && |name| + |value| <= 100
    && (forall i :: 0 <= i < |name| ==> 'a' <= name[i] <= 'z' || name[i] == '-')
    && (forall i :: 0 <= i < |value| ==> 'a' <= value[i] <= 'z' || IsDigit(value[i]))
  }

  lemma PlainLine(name: string, value: string)
    requires PlainText(name, value)
    ensures '\r' !in name + ":" + value && name + ":" + value != ""
  {
  }

  lemma PlainField(b: Block, name: string, value: string)
    requires PlainText(name, value)
    ensures Field(b, name + ":" + value) == Keyed(b, name, value)
  {
    hide Keyed;
    hide Field;
    var f := FieldText(name, "", value, "");
    assert "" + value + "" == value;
    LowerPlain(name);
    FieldRead(b, f);
  }

  /** The head of a request whose first line is GET. */
  lemma GetHead(rule: Rule, rest: string)
    requires Find(GET + CRLF + rest, DOUBLE_CRLF, 0).Some? && BlankAhead(rest) && rest != ""
    ensures Head(rule, GET + CRLF + rest) == HeaderLoop(Block(Got, false, ""), rest)
  {
    GetLine(rule, rest);
  }

  /** A GET request with one field line in front of `rest`. */
  lemma HeadThen(rule: Rule, name: string, value: string, rest: string)
    requires BlankAhead(rest) && PlainText(name, value)
    ensures var line := name + ":" + value; var u := GET + CRLF + (line + CRLF + rest);
            && Find(u, DOUBLE_CRLF, 0).Some?
            && var f := Keyed(Block(Got, false, ""), name, value);
               Head(rule, u) == if f.Refused? then Parsed(LogError(f.req, f.code), line + CRLF + rest)
                   else HeaderLoop(f.block, rest)
  {
    hide GET;
    hide Keyed;
    hide Head;
    hide HeaderLoop;
    hide Find;
    hide At;
    hide PlainText;
    var line := name + ":" + value;
    PlainLine(name, value);
    BlankThrough(line, rest);
    BlankThrough(GET, line + CRLF + rest);
    GetHead(rule, line + CRLF + rest);
    PlainField(Block(Got, false, ""), name, value);
    FieldTurn(Block(Got, false, ""), line, rest);
  }

  // ---------------------------------------------------------------- an error that is replaced

  const EXPECT: string := "expect:x"
  const REFUSED: string := EXPECT + CRLF + CRLF
  const REFUSED_REQUEST: string := GET + CRLF + ("host" + ":" + "a" + CRLF + REFUSED)

  lemma RefusedBlank()
    ensures Find(REFUSED, DOUBLE_CRLF, 0).Some? && BlankAhead(REFUSED) && BlankAhead(CRLF)
  {
    hide EXPECT;
    EmptyLine(Block(Got, false, ""), "");
    assert CRLF + "" == CRLF;
    BlankThrough(EXPECT, CRLF);
  }

  /** The third line is refused with 417, and the text is left at the start of that line. */
  lemma RefusedHead(rule: Rule)
    ensures Find(REFUSED_REQUEST, DOUBLE_CRLF, 0).Some?
    ensures var h := Head(rule, REFUSED_REQUEST);
            h.req.errorCode == 417 && h.req.phase == ErrorParse && !h.req.hasContentLength && h.rest == REFUSED
  {
    hide HeaderLoop;
    hide Head;
    hide Find;
    hide At;
    hide GET;
    RefusedBlank();
    assert PlainText("host", "a") && PlainText("expect", "x");
    HeadThen(rule, "host", "a", REFUSED);
    var next := Keyed(Block(Got, false, ""), "host", "a").block;
    PlainField(next, "expect", "x");
    PlainLine("expect", "x");
    assert EXPECT == "expect" + ":" + "x";
    LowerPlain("x");
    FieldTurn(next, EXPECT, CRLF);
  }

  lemma LaterHead(rule: Rule)
    ensures Find(REFUSED + "z", DOUBLE_CRLF, 0).Some?
    ensures var h := Head(rule, REFUSED + "z"); h.req.errorCode == 400 && h.req.phase == ErrorParse
  {
    hide SetParts;
    hide Find;
    hide At;
    hide Split;
    RefusedBlank();
    FindExtends(REFUSED, "z", DOUBLE_CRLF, 0);
    assert REFUSED + "z" == EXPECT + CRLF + (CRLF + "z");
    LineAhead(EXPECT, CRLF + "z");
    SplitWhole(EXPECT, ' ');
  }

  lemma ShortTexts()
    ensures 0 < |REFUSED_REQUEST| <= RD_SIZE && 0 < |BARE| <= RD_SIZE && |BROKEN| < 100
  {
  }

  /** Every response takes more than one byte, as one with a status line does. */
  ghost predicate Speaks(env: Env) {
    EnvOk(env) && forall r: Request :: |env.build(r)| > 1
  }

  /** A run that goes on is the run of its second part from where the first one ends. */
  lemma {:induction false} RunOn(env: Env, c: Conn, events: seq<Event>, more: seq<Event>)
    requires Sound(env, c) && Run(env, c, events).Some?
    ensures Run(env, c, events + more) == Run(env, Run(env, c, events).value, more)
    decreases |events|
  {
    hide Step;
    hide Sound;
    if events == [] {
      assert events + more == more;
    } else {
      assert (events + more)[0] == events[0] && (events + more)[1..] == events[1..] + more;
      StepSound(env, c, events[0]);
      RunOn(env, Step(env, c, events[0]), events[1..], more);
    }
  }

  lemma RunOne(env: Env, c: Conn, e: Event)
    requires Sound(env, c) && Enabled(c, e)
    ensures Sound(env, Step(env, c, e)) && Run(env, c, [e]) == Some(Step(env, c, e))
  {
    hide Step;
    hide Sound;
    StepSound(env, c, e);
    assert [e][1..] == [];
  }

  /** A refused first request, its error response built. */
  function Refused(env: Env, text: string): Conn
    requires EnvOk(env) && Find(text, DOUBLE_CRLF, 0).Some? && Head(env.rule, text).req.phase == ErrorParse
  {
    var h := Head(env.rule, text);
    HeadStops(env.rule, text);
    Complete(env, Consume(Receive(NewConn, text), h.rest), Routed(h.req, None, None))
  }

  /** And the first byte of that response sent. */
  function AfterError(env: Env, text: string): Conn
    requires Speaks(env) && Find(text, DOUBLE_CRLF, 0).Some? && Head(env.rule, text).req.phase == ErrorParse
  {
    var c := Refused(env, text);
    c.(response := c.response[1..], sent := c.response[..1])
  }

  lemma FirstRefused(env: Env, text: string)
    requires EnvOk(env) && 0 < |text| <= RD_SIZE
    requires Find(text, DOUBLE_CRLF, 0).Some? && Head(env.rule, text).req.phase == ErrorParse
    ensures Sound(env, NewConn) && Run(env, NewConn, [Received(text)]) == Some(Refused(env, text))
  {
    hide Head;
    hide OnReceive;
    hide Find;
    hide At;
    hide Sound;
    hide Run;
    NewIsSound(env);
    assert "" + text == text;
    ErrorRead(env, NewConn, text);
    RunOne(env, NewConn, Received(text));
  }

  lemma FirstByte(c: Conn)
    requires c.ready && c.sent == "" && |c.response| > 1
    ensures OnWritable(c, 1, false) == c.(response := c.response[1..], sent := c.response[..1])
  {
    assert "" + c.response[..1] == c.response[..1];
  }

  lemma RefusedThenSent(env: Env, text: string)
    requires Speaks(env) && 0 < |text| <= RD_SIZE
    requires Find(text, DOUBLE_CRLF, 0).Some? && Head(env.rule, text).req.phase == ErrorParse
    ensures Sound(env, NewConn) && Sound(env, AfterError(env, text)) && Serving(AfterError(env, text))
    ensures Run(env, NewConn, [Received(text)] + [Writable(1, false)]) == Some(AfterError(env, text))
  {
    hide Head;
    hide OnWritable;
    hide Find;
    hide At;
    hide Sound;
    hide Run;
    FirstRefused(env, text);
    var c := Refused(env, text);
    FirstByte(c);
    RunOne(env, c, Writable(1, false));
    RunOn(env, NewConn, [Received(text)], [Writable(1, false)]);
  }

  const REPLACING: seq<Event> := [Received(REFUSED_REQUEST)] + [Writable(1, false)] + [Received("z")]

  /** The first error does not last: the one byte that arrives behind a refused request while its 417 is partly sent
      makes the connection parse what the 417 left in the buffer as a new request, and answer that with a 400. */
  lemma ErrorReplaced(env: Env)
    requires Speaks(env)
    ensures Sound(env, NewConn)
    ensures var one := Run(env, NewConn, [Received(REFUSED_REQUEST)] + [Writable(1, false)]);
            && one.Some? && Serving(one.value) && one.value.ready && one.value.response != ""
            && one.value.parser.Some? && one.value.parser.value.req.errorCode == 417
    ensures var two := Run(env, NewConn, REPLACING);
            && two.Some? && Serving(two.value) && two.value.parser.Some? && two.value.parser.value.req.errorCode == 400
            && |two.value.completed| == 2 && two.value.sent == ""
  {
    hide Head;
    hide OnReceive;
    hide REFUSED_REQUEST;
    hide REFUSED;
    hide Find;
    hide At;
    hide Sound;
    hide Run;
    ShortTexts();
    RefusedHead(env.rule);
    RefusedThenSent(env, REFUSED_REQUEST);
    var c := AfterError(env, REFUSED_REQUEST);
    LaterHead(env.rule);
    ErrorRead(env, c, "z");
    RunOne(env, c, Received("z"));
    RunOn(env, NewConn, [Received(REFUSED_REQUEST)] + [Writable(1, false)], [Received("z")]);
  }

  // ---------------------------------------------------------------- a server_config that is not there

  const BARE: string := GET + CRLF + ("content-length" + ":" + "1" + CRLF + CRLF)

  /** Refused for its missing Host after its Content-Length was seen. */
  lemma BareHead(rule: Rule)
    ensures Find(BARE, DOUBLE_CRLF, 0).Some?
    ensures var h := Head(rule, BARE).req; h.errorCode == 400 && h.phase == ErrorParse && h.hasContentLength
  {
    hide Head;
    hide HeaderLoop;
    hide Find;
    hide At;
    hide GET;
    RefusedBlank();
    assert PlainText("content-length", "1");
    HeadThen(rule, "content-length", "1", CRLF);
    assert IsNumeric("1");
    var f := Keyed(Block(Got, false, ""), "content-length", "1");
    assert f.Stored? && f.block.req.hasContentLength && !f.block.hasHost;
    EmptyLine(f.block, "");
    assert CRLF + "" == CRLF;
  }

  const CRASHING: seq<Event> := [Received(BARE)] + [Writable(1, false)] + [Received("z")]

  /** The next byte on that connection makes the size check follow a null pointer. */
  lemma CrashReached(env: Env)
    requires Speaks(env)
    ensures Sound(env, NewConn)
    ensures var end := Run(env, NewConn, CRASHING); end.Some? && end.value.crashed
  {
    hide Head;
    hide OnReceive;
    hide BARE;
    hide Find;
    hide At;
    hide Sound;
    hide Run;
    ShortTexts();
    BareHead(env.rule);
    RefusedThenSent(env, BARE);
    var c := AfterError(env, BARE);
    CrashesExactly(env, c, Received("z"));
    RunOne(env, c, Received("z"));
    RunOn(env, NewConn, [Received(BARE)] + [Writable(1, false)], [Received("z")]);
  }

  // ---------------------------------------------------------------- an error that does not close, a bound that breaks

  const HELD_FIELDS: string := "host" + ":" + "a" + CRLF + ("content-length" + ":" + "5000" + CRLF + CRLF)
  const HELD: string := GET + CRLF + HELD_FIELDS
  const BROKEN: string := GET + CRLF + HELD

  const HeldHeaders: map<string, string> := map["host" := "a", "content-length" := "5000"]
  const Held: Request := Got.(phase := Phase.Body, headers := HeldHeaders, hasContentLength := true)

  lemma LengthOfHeld()
    ensures LengthIn(HeldHeaders) == 5000
  {
    assert Numerals.ValueOf("", 10) == 0;
    assert "5"[..0] == "" && "50"[..1] == "5" && "500"[..2] == "50" && "5000"[..3] == "500";
    assert Numerals.ValueOf("5", 10) == 5;
    assert Numerals.ValueOf("50", 10) == 50;
    assert Numerals.ValueOf("500", 10) == 500;
    assert Numerals.ValueOf("5000", 10) == 5000;
    Numerals.StrtoulDigits("5000", 10);
    assert HeldHeaders["content-length"] == "5000";
  }

  lemma HeldFieldsAhead()
    ensures BlankAhead(HELD_FIELDS) && HELD_FIELDS != "" && Find(HELD, DOUBLE_CRLF, 0).Some?
  {
    hide GET;
    RefusedBlank();
    BlankThrough("content-length" + ":" + "5000", CRLF);
    BlankThrough("host" + ":" + "a", "content-length" + ":" + "5000" + CRLF + CRLF);
    BlankThrough(GET, HELD_FIELDS);
  }

  /** The head of a well-formed request with a long body. */
  lemma HeldHead(rule: Rule)
    ensures Find(HELD, DOUBLE_CRLF, 0).Some? && Head(rule, HELD) == Parsed(Held, "")
  {
    hide Head;
    hide HeaderLoop;
    hide Find;
    hide At;
    hide GET;
    HeldFieldsAhead();
    RefusedBlank();
    assert PlainText("host", "a") && PlainText("content-length", "5000") && IsNumeric("5000");
    BlankThrough("content-length" + ":" + "5000", CRLF);
    HeadThen(rule, "host", "a", "content-length" + ":" + "5000" + CRLF + CRLF);
    var next := Keyed(Block(Got, false, ""), "host", "a").block;
    PlainField(next, "content-length", "5000");
    PlainLine("content-length", "5000");
    FieldTurn(next, "content-length" + ":" + "5000", CRLF);
    var last := Keyed(next, "content-length", "5000").block;
    assert last.req.headers == HeldHeaders;
    EmptyLine(last, "");
    assert CRLF + "" == CRLF;
  }

  lemma GetIsNoField(b: Block)
    ensures Field(b, GET) == FieldResult.Refused(b.req, 400)
  {
    FindCharAbsent(GET, ':');
  }

  /** A request line where a field line should be: refused, and everything from that line on is left in the buffer. */
  lemma BrokenHead(rule: Rule, more: string)
    ensures Find(BROKEN + more, DOUBLE_CRLF, 0).Some?
    ensures Head(rule, BROKEN + more) == Parsed(LogError(Got, 400), HELD + more)
  {
    hide Head;
    hide HeaderLoop;
    hide Field;
    hide Find;
    hide At;
    hide GET;
    hide HELD_FIELDS;
    HeldFieldsAhead();
    GetText();
    BlankThrough(GET, HELD);
    GetHead(rule, HELD);
    GetIsNoField(Block(Got, false, ""));
    FieldTurn(Block(Got, false, ""), GET, HELD_FIELDS);
    HeadExtends(rule, BROKEN, more);
  }

  /** The held request with the first bytes of its body. */
  function Begun(x: string): Request { Append(Held.(contentLength := 5000), x) }

  lemma HeldBody(rule: Rule, x: string)
    requires 0 < |x| < 5000
    ensures Receiving(Held) && ParseBody(rule, Held, x) == Parsed(Begun(x), "")
  {
    hide LengthIn;
    LengthOfHeld();
    SizedPartial(Held, x);
  }

  lemma AfterBody(rule: Rule, r: Request, u: string, q: Request)
    requires Receiving(r) && u != "" && ParseBody(rule, r, u) == Parsed(q, "")
    ensures AfterHead(rule, Parsed(r, u)) == Outcome(q, "", false)
  {
    hide ParseBody;
  }

  lemma HeldParse(rule: Rule, x: string)
    requires 0 < |x| < 5000
    ensures Find(HELD + x, DOUBLE_CRLF, 0).Some? && Parse(rule, Fresh, HELD + x) == Outcome(Begun(x), "", false)
  {
    hide Head;
    hide Find;
    hide At;
    hide HELD;
    hide ParseBody;
    hide Parse;
    hide AfterHead;
    hide Begun;
    hide Held;
    HeldHead(rule);
    HeadExtends(rule, HELD, x);
    assert "" + x == x;
    HeldBody(rule, x);
    AfterBody(rule, Held, x, Begun(x));
    DriveIs(rule, HELD + x);
  }

  /** The location that the held request needs. */
  ghost predicate Serves(env: Env) {
    Speaks(env) && Route(env.servers, Held).req.errorCode == 0
  }

  /** A read that completes the held request's header block puts it into the parser and leaves the response alone. */
  lemma HeldRead(env: Env, c: Conn, data: string, x: string)
    requires Serves(env) && Sound(env, c) && Serving(c) && !InBody(c) && !NullServer(c) && !TooLarge(env, c)
    requires c.buffer + data == HELD + x && 0 < |x| < 5000
    ensures var d := OnReceive(env, c, data);
            && Serving(d) && d.parser == Some(Route(env.servers, Held).(req := Begun(x)))
            && d.completed == c.completed && d.ready == c.ready && d.response == c.response && d.sent == c.sent
  {
    hide Parse;
    hide Route;
    hide Find;
    hide At;
    HeldParse(env.rule, x);
    ParseEnds(env.rule, HELD + x);
    SameRoute(env, Begun(x), Held);
  }

  lemma AfterBroken(env: Env, more: string)
    requires Speaks(env) && |more| < 100
    ensures Find(BROKEN + more, DOUBLE_CRLF, 0).Some? && Head(env.rule, BROKEN + more).req.phase == ErrorParse
    ensures 0 < |BROKEN + more| <= RD_SIZE
    ensures Sound(env, NewConn) && Sound(env, AfterError(env, BROKEN + more)) && Serving(AfterError(env, BROKEN + more))
    ensures var c := AfterError(env, BROKEN + more);
            && Run(env, NewConn, [Received(BROKEN + more)] + [Writable(1, false)]) == Some(c)
            && c.buffer == HELD + more && c.ready && c.response == env.build(LogError(Got, 400))[1..] &&
                  c.completed == [LogError(Got, 400)]
            && !InBody(c) && !NullServer(c) && !TooLarge(env, c)
  {
    hide Head;
    hide Find;
    hide At;
    hide BROKEN;
    hide HELD;
    hide Run;
    hide Sound;
    ShortTexts();
    BrokenHead(env.rule, more);
    RefusedThenSent(env, BROKEN + more);
  }

  function Outliving(n: nat): seq<Event> {
    [Received(BROKEN + "")] + [Writable(1, false)] + [Received("h")] + [Writable(n, false)]
  }

  /** An error that does not close: the 400 is sent whole, its request asked for the connection to be closed, and yet
      the connection stays open, because the byte that came meanwhile put the rest of the buffer into the parser. */
  lemma ErrorOutlived(env: Env)
    requires Serves(env)
    ensures Sound(env, NewConn)
    ensures var error := LogError(Got, 400); var end := Run(env, NewConn, Outliving(|env.build(error)| - 1));
            && error.headers["connection"] == "close"
            && end.Some? && Serving(end.value) && !end.value.ready
            && end.value.completed == [error] && end.value.sent == env.build(error)
  {
    hide Head;
    hide Find;
    hide At;
    hide BROKEN;
    hide HELD;
    hide Run;
    hide Sound;
    hide OnReceive;
    hide OnWritable;
    hide Route;
    hide AfterError;
    AfterBroken(env, "");
    var c := AfterError(env, BROKEN + "");
    assert c.buffer + "h" == HELD + "h" by { assert HELD + "" == HELD; }
    HeldRead(env, c, "h", "h");
    RunOne(env, c, Received("h"));
    RunOn(env, NewConn, [Received(BROKEN + "")] + [Writable(1, false)], [Received("h")]);
    var b := Step(env, c, Received("h"));
    LastSend(env, c, b);
    RunOne(env, b, Writable(|b.response|, false));
    RunOn(env, NewConn, [Received(BROKEN + "")] + [Writable(1, false)] + [Received("h")],
        [Writable(|b.response|, false)]);
  }

  lemma LastSend(env: Env, c: Conn, b: Conn)
    requires EnvOk(env) && Sound(env, c) && Sound(env, b) && Serving(b) && b.ready && b.response != ""
    requires b.parser.Some? && b.parser.value.req.headers == HeldHeaders && b.completed != []
    ensures var d := OnWritable(b, |b.response|, false);
            Serving(d) && !d.ready && d.completed == b.completed && d.sent == env.build(b.completed[|b.completed| - 1])
  {
    assert "connection" !in HeldHeaders;
    SendExactly(env, b, |b.response|, false);
  }

  const Many: string := seq(1024, _ => 'x')

  const OVERFLOWING: seq<Event> := [Received(BROKEN + "x")] + [Writable(1, false)] + [Received(Many)]

  /** A request that begins in a buffer that holds it already, with some of its body, brings more of the body than the
      limit and one read: what was left behind the error is parsed together with the next 1024 bytes. */
  lemma BoundBroken(env: Env)
    requires Serves(env) && ServerKnown(env, Route(env.servers, Held)) &&
            MaxBody(env, Route(env.servers, Held)) <= RD_SIZE
    ensures Sound(env, NewConn) && Measured(env, NewConn)
    ensures Run(env, NewConn, OVERFLOWING).Some? && !BodyBounded(env, Run(env, NewConn, OVERFLOWING).value)
    ensures !AlwaysBounded(env, NewConn, OVERFLOWING) && !StartsKeep(env, NewConn, OVERFLOWING)
  {
    hide Head;
    hide Find;
    hide At;
    hide BROKEN;
    hide HELD;
    hide Run;
    hide Sound;
    hide OnReceive;
    hide OnWritable;
    hide Route;
    hide AfterError;
    hide Many;
    hide LengthIn;
    hide StartsKeep;
    hide AlwaysBounded;
    hide Measured;
    NewIsMeasured(env);
    AfterBroken(env, "x");
    ManyBytes();
    var c := AfterError(env, BROKEN + "x");
    Assoc(HELD, "x", Many);
    HeldRead(env, c, Many, "x" + Many);
    RunOne(env, c, Received(Many));
    RunOn(env, NewConn, [Received(BROKEN + "x")] + [Writable(1, false)], [Received(Many)]);
    BodiesStayBoundedExactly(env, NewConn, OVERFLOWING);
    if AlwaysBounded(env, NewConn, OVERFLOWING) { AlwaysAtTheEnd(env, NewConn, OVERFLOWING); }
  }

  lemma ManyBytes()
    ensures |Many| == 1024 && |"x" + Many| == 1025
  {
  }

  // ---------------------------------------------------------------- parses without end

  const CODED: string := "transfer-encoding" + ":" + "chunked"
  const CUT: string := GET + CRLF + ("host" + ":" + "a" + CRLF + (CODED + CRLF + (CRLF + "1")))

  /** A first buffer that ends inside the first size line of a chunked body. */
  lemma CutStartStalls()
    ensures Find(CUT, DOUBLE_CRLF, 0).Some? && StartLeavesOver(CUT)
    ensures Parse(Shipped, Fresh, CUT).stalled
  {
    hide Head;
    hide HeaderLoop;
    hide Find;
    hide At;
    hide GET;
    hide Parse;
    assert PlainText("host", "a") && PlainText("transfer-encoding", "chunked");
    EmptyLine(Block(Got, false, ""), "1");
    PlainLine("transfer-encoding", "chunked");
    BlankThrough(CODED, CRLF + "1");
    HeadThen(Shipped, "host", "a", CODED + CRLF + (CRLF + "1"));
    var next := Keyed(Block(Got, false, ""), "host", "a").block;
    PlainField(next, "transfer-encoding", "chunked");
    FieldTurn(next, CODED, CRLF + "1");
    var last := Keyed(next, "transfer-encoding", "chunked").block;
    EmptyLine(last, "1");
    OneByteLeft();
    ParseTerminatesExactly(Shipped, CUT);
  }

  lemma OneByteLeft()
    ensures LeavesOver(ChunkSize, Outside(""), "1")
  {
    assert "1"[..0] == "";
  }

  const NO_TARGET: string := "GET  HTTP/1.1" + CRLF + CRLF

  lemma NoTargetParts()
    ensures Split("GET  HTTP/1.1", ' ') == ["GET", "", "HTTP/1.1"]
  {
    hide Split;
    assert "GET  HTTP/1.1" == "GET" + [' '] + " HTTP/1.1" && " HTTP/1.1" == "" + [' '] + "HTTP/1.1";
    SplitFirst("GET", ' ', " HTTP/1.1");
    SplitFirst("", ' ', "HTTP/1.1");
    SplitWhole("HTTP/1.1", ' ');
  }

  /** A request line without a target. */
  lemma NoTargetStalls()
    ensures Find(NO_TARGET, DOUBLE_CRLF, 0).Some? && SilentTarget(NO_TARGET)
    ensures Parse(Shipped, Fresh, NO_TARGET).stalled
  {
    hide Find;
    hide At;
    hide Split;
    hide Parse;
    hide StartLeavesOver;
    RefusedBlank();
    BlankThrough("GET  HTTP/1.1", CRLF);
    LineAhead("GET  HTTP/1.1", CRLF);
    NoTargetParts();
    FindCharAbsent("", '#');
    ParseTerminatesExactly(Shipped, NO_TARGET);
  }
}
