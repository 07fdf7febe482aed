/** What the header phase guarantees (parse_headers, srcs/ReqRes/RequestParser.cpp:138-277). */
module HeaderBlock {
  import opened Text
  import opened Chunked
  import opened Http
  import opened BodyPhase

  // ---------------------------------------------------------------- where it stops

  /** The request as the header phase finds it: no error, nothing of the body yet. */
  predicate Unparsed(r: Request) {
    r.errorCode == 0 && r.phase in {Phase.RequestLine, Phase.Headers} && r.place == Outside("")
  }

  /** A stored field leaves everything but the headers and the two framing flags alone. */
  lemma FieldKeeps(b: Block, line: string)
    ensures match Field(b, line)
            case Refused(r, code) => code in {400, 417, 431} && r.errorCode == b.req.errorCode
            case Stored(next) =>
              next.req == b.req.(headers := next.req.headers, hasContentLength := next.req.hasContentLength,
                                 hasTransferEncoding := next.req.hasTransferEncoding)
  {
    hide WellFormed;
    hide Key;
    hide Value;
    hide Lower;
    hide IsNumeric;
  }

  /** One turn of the loop of parse_headers. */
  lemma LoopTurn(b: Block, u: string)
    requires BlankAhead(u)
    ensures LineEnd(u) >= 2
    ensures LineEnd(u) == 2 ==>
              HeaderLoop(b, u) == Parsed(EndOfHeaders(b), if EndOfHeaders(b).phase == ErrorParse then u else u[2..])
    ensures LineEnd(u) != 2 ==>
              var f := Field(b, u[..LineEnd(u) - 2]);
              && BlankAhead(u[LineEnd(u)..])
              && HeaderLoop(b, u) == if f.Refused? then Parsed(LogError(f.req, f.code), u)
                    else HeaderLoop(f.block, u[LineEnd(u)..])
  {
    hide Field;
    hide EndOfHeaders;
    BlankAfterLine(u);
  }

  lemma FieldTurn(b: Block, line: string, rest: string)
    requires '\r' !in line && line != "" && BlankAhead(line + CRLF + rest)
    ensures BlankAhead(rest)
    ensures var f := Field(b, line); var u := line + CRLF + rest;
            HeaderLoop(b, u) == if f.Refused? then Parsed(LogError(f.req, f.code), u) else HeaderLoop(f.block, rest)
  {
    hide Field;
    hide HeaderLoop;
    LineAhead(line, rest);
    LoopTurn(b, line + CRLF + rest);
  }

  lemma EmptyLine(b: Block, rest: string)
    ensures BlankAhead(CRLF + rest)
    ensures HeaderLoop(b, CRLF + rest) ==
            Parsed(EndOfHeaders(b), if EndOfHeaders(b).phase == ErrorParse then CRLF + rest else rest)
  {
    hide EndOfHeaders;
    assert (CRLF + rest)[0..2] == CRLF && (CRLF + rest)[2..] == rest;
    FindIs(CRLF + rest, CRLF, 0, 0);
  }

  /** On success the phase moves to BODY or DONE and exactly the text up to the first empty line is consumed;
      otherwise an error is logged. It never stops in HEADERS. */
  lemma {:induction false} HeadersStop(b: Block, u: string)
    requires Unparsed(b.req) && BlankAhead(u)
    ensures var p := HeaderLoop(b, u);
            && p.req.phase in {Phase.Body, Done, ErrorParse}
            && ErrorCloses(p.req)
            && (p.req.phase != ErrorParse ==> p.rest == u[BlankEnd(u)..])
            && (p.req.phase == Phase.Body ==> Receiving(p.req))
            && (p.req.phase != ErrorParse ==>
                  p.req.place == Outside("") && p.req.httpMethod == b.req.httpMethod && p.req.uri == b.req.uri)
            && IsSuffix(p.rest, u)
    decreases |u|
  {
    hide HeaderLoop;
    hide Field;
    LoopTurn(b, u);
    BlankAfterLine(u);
    var e := LineEnd(u);
    if e != 2 {
      FieldKeeps(b, u[..e - 2]);
      var f := Field(b, u[..e - 2]);
      if f.Stored? {
        HeadersStop(f.block, u[e..]);
        assert u[e..][BlankEnd(u[e..])..] == u[BlankEnd(u)..];
        SuffixOfSuffix(HeaderLoop(f.block, u[e..]).rest, u, e);
      }
    }
  }

  /** What follows the empty line has no influence. */
  lemma {:induction false} HeadersExtend(b: Block, u: string, more: string)
    requires BlankAhead(u)
    ensures BlankAhead(u + more)
    ensures HeaderLoop(b, u + more) == Parsed(HeaderLoop(b, u).req, HeaderLoop(b, u).rest + more)
    decreases |u|
  {
    hide Find;
    hide At;
    hide Field;
    hide EndOfHeaders;
    BlankExtends(u, more);
    BlankAfterLine(u);
    FindExtends(u, more, CRLF, 0);
    var e := LineEnd(u);
    assert LineEnd(u + more) == e;
    AppendCut(u, more, e);
    if e == 2 {
      assert HeaderLoop(b, u + more) == Parsed(HeaderLoop(b, u).req, HeaderLoop(b, u).rest + more);
    } else {
      AppendCut(u, more, e - 2);
      match Field(b, u[..e - 2])
      case Refused(r, code) =>
      case Stored(next) =>
        assert !At(u, CRLF, 0);
        HeadersExtend(next, u[e..], more);
    }
  }

  lemma BlankExtends(u: string, more: string)
    requires BlankAhead(u)
    ensures BlankAhead(u + more) && BlankEnd(u + more) == BlankEnd(u)
  {
    if At(u, CRLF, 0) {
      AtPrefix(u, more, CRLF, 0);
    } else {
      FindExtends(u, more, DOUBLE_CRLF, 0);
      AtPrefix(u, more, CRLF, 0);
    }
  }

  // ---------------------------------------------------------------- the field lines, on their own

  /** The lines before the empty line. */
  function Lines(u: string): seq<string>
    requires BlankAhead(u)
    decreases |u|
  {
    BlankAfterLine(u);
    var e := LineEnd(u);
    if e == 2 then [] else [u[..e - 2]] + Lines(u[e..])
  }

  function FoldFields(b: Block, lines: seq<string>): Option<Block>
    decreases |lines|
  {
    if lines == [] then Some(b)
    else match Field(b, lines[0])
         case Refused(_, _) => None
         case Stored(next) => FoldFields(next, lines[1..])
  }

  lemma {:induction false} LoopIsFold(b: Block, u: string)
    requires Unparsed(b.req) && BlankAhead(u)
    ensures var f := FoldFields(b, Lines(u));
            HeaderLoop(b, u).req.phase != ErrorParse <==> f.Some? && EndOfHeaders(f.value).phase != ErrorParse
    ensures var f := FoldFields(b, Lines(u));
            f.Some? ==>
              && HeaderLoop(b, u).req == EndOfHeaders(f.value)
              && Unparsed(f.value.req) && f.value.req.httpMethod == b.req.httpMethod
    decreases |u|
  {
    BlankAfterLine(u);
    var e := LineEnd(u);
    if e != 2 {
      FieldKeeps(b, u[..e - 2]);
      match Field(b, u[..e - 2])
      case Refused(r, code) =>
        assert FoldFields(b, Lines(u)).None?;
      case Stored(next) =>
        assert !At(u, CRLF, 0);
        LoopIsFold(next, u[e..]);
        assert Lines(u)[1..] == Lines(u[e..]);
        assert Lines(u)[0] == u[..e - 2];
    }
  }

  lemma {:induction false} FoldSnoc(b: Block, lines: seq<string>, line: string)
    ensures FoldFields(b, lines + [line]) ==
            match FoldFields(b, lines)
            case None => None
            case Some(c) => (match Field(c, line) case Refused(_, _) => None case Stored(next) => Some(next))
    decreases |lines|
  {
    if lines == [] {
      assert (lines + [line])[1..] == [];
    } else {
      assert (lines + [line])[1..] == lines[1..] + [line];
      match Field(b, lines[0])
      case Refused(_, _) =>
      case Stored(next) => FoldSnoc(next, lines[1..], line);
    }
  }

  // ---------------------------------------------------------------- which header blocks are accepted

  /** Every line is well formed, and what its name asks of its value holds. */
  predicate LineOk(line: string) {
    && WellFormed(line)
    && (Key(line) == "content-length" ==> IsNumeric(Value(line)))
    && (Key(line) == "transfer-encoding" ==> Value(line) in {"chunked", "compress", "deflate", "gzip"})
    && (Key(line) == "expect" ==> Lower(Value(line)) == "100-continue")
  }

  predicate Named(lines: seq<string>, name: string) {
    exists i :: 0 <= i < |lines| && Key(lines[i]) == name
  }

  /** The header map as the last-write fold over the field lines. */
  function LastWrite(lines: seq<string>): map<string, string>
    decreases |lines|
  {
    if lines == [] then map[]
    else
      var last := lines[|lines| - 1];
      LastWrite(lines[..|lines| - 1])[Key(last) := StoredValue(last)]
  }

  /** At most one Host. */
  ghost predicate OneHost(lines: seq<string>) {
    forall i, j :: 0 <= i < j < |lines| && Key(lines[i]) == "host" ==> Key(lines[j]) != "host"
  }

  /** Repeated Content-Length values agree. */
  ghost predicate OneLength(lines: seq<string>) {
    forall i, j :: 0 <= i < j < |lines| && Key(lines[i]) == "content-length" && Key(lines[j]) == "content-length" ==>
      Value(lines[i]) == Value(lines[j])
  }

  /** There is room in the map before each line is stored. */
  ghost predicate Room(lines: seq<string>) {
    forall i :: 0 <= i < |lines| ==> |LastWrite(lines[..i])| < 100
  }

  ghost predicate GoodLines(lines: seq<string>) {
    (forall i :: 0 <= i < |lines| ==> LineOk(lines[i])) && OneHost(lines) && OneLength(lines) && Room(lines)
  }

  /** `value` is the Content-Length of every line that has one. */
  ghost predicate LengthIs(lines: seq<string>, value: string) {
    forall i :: 0 <= i < |lines| && Key(lines[i]) == "content-length" ==> value == Value(lines[i])
  }

  /** What the accumulators hold after those lines. */
  ghost predicate Summary(start: Block, b: Block, lines: seq<string>) {
    && b.req == start.req.(headers := LastWrite(lines), hasContentLength := Named(lines, "content-length"),
                           hasTransferEncoding := Named(lines, "transfer-encoding"))
    && b.hasHost == Named(lines, "host")
    && LengthIs(lines, b.lengthText)
  }

  ghost predicate StartBlock(b: Block) {
    !b.hasHost && !b.req.hasContentLength && !b.req.hasTransferEncoding && b.req.headers == map[]
  }

  lemma RoomSnoc(front: seq<string>, line: string)
    ensures Room(front + [line]) <==> Room(front) && |LastWrite(front)| < 100
  {
    var all := front + [line];
    assert all[..|front|] == front;
    assert forall i :: 0 <= i < |front| ==> all[..i] == front[..i];
    if Room(all) {
      assert |LastWrite(all[..|front|])| < 100;
      forall i | 0 <= i < |front| ensures |LastWrite(front[..i])| < 100 {
        assert |LastWrite(all[..i])| < 100;
      }
    }
  }

  lemma OneHostSnoc(front: seq<string>, line: string)
    ensures OneHost(front + [line]) <==> OneHost(front) && (Key(line) == "host" ==> !Named(front, "host"))
  {
    var all := front + [line];
    assert all[|front|] == line;
    assert forall i :: 0 <= i < |front| ==> all[i] == front[i];
  }

  lemma OneLengthSnoc(front: seq<string>, line: string)
    ensures OneLength(front + [line]) <==>
            OneLength(front) && (Key(line) == "content-length" ==> LengthIs(front, Value(line)))
  {
    var all := front + [line];
    assert all[|front|] == line;
    assert forall i :: 0 <= i < |front| ==> all[i] == front[i];
  }

  lemma NamedSnoc(front: seq<string>, line: string, name: string)
    ensures Named(front + [line], name) <==> Named(front, name) || Key(line) == name
  {
    var all := front + [line];
    assert all[|front|] == line;
    assert forall i :: 0 <= i < |front| ==> all[i] == front[i];
  }

  /** What a line must meet to follow good lines. */
  ghost predicate Fits(front: seq<string>, line: string) {
    && LineOk(line)
    && (Key(line) == "host" ==> !Named(front, "host"))
    && (Key(line) == "content-length" ==> LengthIs(front, Value(line)))
    && |LastWrite(front)| < 100
  }

  lemma GoodSnoc(front: seq<string>, line: string)
    ensures GoodLines(front + [line]) <==> GoodLines(front) && Fits(front, line)
  {
    var all := front + [line];
    OneHostSnoc(front, line);
    OneLengthSnoc(front, line);
    RoomSnoc(front, line);
    assert all[|front|] == line;
    assert forall i :: 0 <= i < |front| ==> all[i] == front[i];
  }

  lemma FieldFits(start: Block, b: Block, front: seq<string>, line: string)
    requires Summary(start, b, front)
    ensures Field(b, line).Stored? <==> Fits(front, line)
  {
    hide LastWrite;
    hide Key;
    hide Value;
    hide ValidName;
    hide ValidValue;
    hide IsNumeric;
    hide Lower;
    if Key(line) == "content-length" && Named(front, "content-length") {
      assert LengthIs(front, Value(line)) <==> b.lengthText == Value(line);
    }
  }

  lemma StoredIs(b: Block, line: string)
    requires Field(b, line).Stored?
    ensures var key := Key(line);
            Field(b, line).block ==
            Block(b.req.(hasContentLength := b.req.hasContentLength || key == "content-length",
                         hasTransferEncoding := b.req.hasTransferEncoding || key == "transfer-encoding",
                         headers := b.req.headers[key := StoredValue(line)]),
                  b.hasHost || key == "host", if key == "content-length" then Value(line) else b.lengthText)
  {
  }

  lemma LengthSnoc(front: seq<string>, line: string, value: string)
    ensures LengthIs(front + [line], value) <==>
            LengthIs(front, value) && (Key(line) == "content-length" ==> value == Value(line))
  {
    var all := front + [line];
    assert all[|front|] == line;
    assert forall i :: 0 <= i < |front| ==> all[i] == front[i];
  }

  lemma LastWriteSnoc(front: seq<string>, line: string)
    ensures LastWrite(front + [line]) == LastWrite(front)[Key(line) := StoredValue(line)]
  {
    var all := front + [line];
    assert all[..|all| - 1] == front && all[|all| - 1] == line;
  }

  lemma FieldSummary(start: Block, b: Block, front: seq<string>, line: string)
    requires Summary(start, b, front) && Field(b, line).Stored? && Fits(front, line)
    ensures Summary(start, Field(b, line).block, front + [line])
  {
    StoredIs(b, line);
    LastWriteSnoc(front, line);
    LengthSnoc(front, line, Field(b, line).block.lengthText);
    NamedSnoc(front, line, "host");
    NamedSnoc(front, line, "content-length");
    NamedSnoc(front, line, "transfer-encoding");
    hide Field;
    hide LastWrite;
    hide Named;
    hide LengthIs;
    hide Key;
    hide Value;
    hide StoredValue;
    hide LineOk;
    assert Key(line) != "content-length" ==> LengthIs(front, b.lengthText);
  }

  /** The fold accepts exactly the good lists of lines, and its accumulators are what the lines say. */
  lemma {:induction false} FoldExactly(start: Block, lines: seq<string>)
    requires StartBlock(start)
    ensures FoldFields(start, lines).Some? <==> GoodLines(lines)
    ensures FoldFields(start, lines).Some? ==> Summary(start, FoldFields(start, lines).value, lines)
    decreases |lines|
  {
    if lines != [] {
      var n := |lines| - 1;
      var front, line := lines[..n], lines[n];
      assert lines == front + [line];
      FoldExactly(start, front);
      FoldSnoc(start, front, line);
      GoodSnoc(front, line);
      if FoldFields(start, front).Some? {
        var b := FoldFields(start, front).value;
        FieldFits(start, b, front, line);
        if Field(b, line).Stored? { FieldSummary(start, b, front, line); }
      }
    }
  }

  /** What a header block of a request with that method must meet. */
  ghost predicate AcceptedBlock(httpMethod: string, lines: seq<string>) {
    && GoodLines(lines) && Named(lines, "host")
    && !(Named(lines, "content-length") && Named(lines, "transfer-encoding"))
    && (httpMethod == "POST" ==> Named(lines, "content-length") || Named(lines, "transfer-encoding"))
  }

  /** Main result on headers. A fresh header block is accepted if and only if its lines are good, name the host,
      do not carry both framings, and carry one of them if the method is POST. Then the framing is fixed:
      BODY with exactly one of the two framings, or DONE with none; the map is the last-write fold over the lines. */
  lemma HeadersAcceptedExactly(r: Request, u: string)
    requires Unparsed(r) && !r.hasContentLength && !r.hasTransferEncoding && r.headers == map[] && BlankAhead(u)
    ensures ParseHeaders(r, u).req.phase != ErrorParse <==> AcceptedBlock(r.httpMethod, Lines(u))
    ensures var lines := Lines(u); var p := ParseHeaders(r, u).req;
            p.phase != ErrorParse ==>
              && p.headers == LastWrite(lines) && |p.headers| <= 100
              && p.hasContentLength == Named(lines, "content-length")
              && p.hasTransferEncoding == Named(lines, "transfer-encoding")
              && p.phase == if p.hasContentLength || p.hasTransferEncoding then Phase.Body else Done
  {
    var b := Block(r, false, "");
    var lines := Lines(u);
    FoldExactly(b, lines);
    LoopIsFold(b, u);
    if GoodLines(lines) { LastWriteSmall(lines); }
  }

  /** The decision at the empty line: each outcome with its exact cause, and nothing else of the request changed. */
  lemma EndOfHeadersExactly(b: Block)
    requires Unparsed(b.req)
    ensures var r := EndOfHeaders(b); var sized, coded := b.req.hasContentLength, b.req.hasTransferEncoding;
            && (r.phase == Phase.Body <==> b.hasHost && sized != coded)
            && (r.phase == Done <==> b.hasHost && !sized && !coded && b.req.httpMethod != "POST")
            && (r.errorCode == 411 <==> b.hasHost && !sized && !coded && b.req.httpMethod == "POST")
            && (r.errorCode == 400 <==> !b.hasHost || (sized && coded))
            && (r.phase == ErrorParse <==> r.errorCode in {400, 411})
            && r == b.req.(phase := r.phase, errorCode := r.errorCode, headers := r.headers)
            && r.headers == if r.phase == ErrorParse then b.req.headers["connection" := "close"] else b.req.headers
  {
  }

  /** The flags that a field line raises are those its name asks for, and it is refused exactly when its value is wrong
      or contradicts an earlier line. */
  lemma RaiseExactly(b: Block, key: string, value: string)
    ensures var f := Raise(b, key, value);
            && (f.Refused? <==>
                  || (key == "content-length" &&
                      (!IsNumeric(value) || (b.req.hasContentLength && b.lengthText != value)))
                  || (key == "transfer-encoding" && value !in {"chunked", "compress", "deflate", "gzip"})
                  || (key == "host" && b.hasHost)
                  || (key == "expect" && Lower(value) != "100-continue"))
            && (f.Refused? ==> f.req == b.req && f.code == if key == "expect" then 417 else 400)
            && (f.Stored? ==>
                  f.block == Block(b.req.(hasContentLength := b.req.hasContentLength || key == "content-length",
                                          hasTransferEncoding := b.req.hasTransferEncoding ||
                                              key == "transfer-encoding"),
                                   b.hasHost || key == "host", if key == "content-length" then value else b.lengthText))
  {
  }

  // ---------------------------------------------------------------- a Content-Length seen before a refusal

  /** The flag has_content_length after the loop over those lines, also when it ends early. */
  predicate Raised(b: Block, lines: seq<string>)
    decreases |lines|
  {
    if lines == [] then b.req.hasContentLength
    else
      match Field(b, lines[0])
      case Refused(r, _) => r.hasContentLength
      case Stored(next) => Raised(next, lines[1..])
  }

  lemma {:induction false} LoopRaises(b: Block, u: string)
    requires BlankAhead(u)
    ensures HeaderLoop(b, u).req.hasContentLength == Raised(b, Lines(u))
    decreases |u|
  {
    hide HeaderLoop;
    hide Field;
    LoopTurn(b, u);
    LinesStep(u);
    var e := LineEnd(u);
    if e != 2 {
      var f := Field(b, u[..e - 2]);
      if f.Stored? { LoopRaises(f.block, u[e..]); }
    }
  }

  lemma LinesStep(u: string)
    requires BlankAhead(u)
    ensures LineEnd(u) >= 2
    ensures if LineEnd(u) == 2 then Lines(u) == []
            else
              && BlankAhead(u[LineEnd(u)..])
              && Lines(u) != [] && Lines(u)[0] == u[..LineEnd(u) - 2] && Lines(u)[1..] == Lines(u[LineEnd(u)..])
  {
    BlankAfterLine(u);
  }

  /** A valid Content-Length that agrees with those before it: it raises the flag, even where the map has no room
      left. */
  ghost predicate LengthLine(front: seq<string>, line: string) {
    WellFormed(line) && Key(line) == "content-length" && IsNumeric(Value(line)) && LengthIs(front, Value(line))
  }

  /** Such a line stands behind good lines only. */
  ghost predicate LengthSeen(lines: seq<string>) {
    exists i :: 0 <= i < |lines| && GoodLines(lines[..i]) && LengthLine(lines[..i], lines[i])
  }

  lemma LengthSeenSnoc(front: seq<string>, line: string)
    ensures LengthSeen(front + [line]) <==> LengthSeen(front) || (GoodLines(front) && LengthLine(front, line))
  {
    hide GoodLines;
    hide LengthLine;
    var all := front + [line];
    assert all[..|front|] == front && all[|front|] == line;
    assert forall i :: 0 <= i < |front| ==> all[..i] == front[..i] && all[i] == front[i];
    if LengthSeen(front) {
      var i :| 0 <= i < |front| && GoodLines(front[..i]) && LengthLine(front[..i], front[i]);
      assert GoodLines(all[..i]) && LengthLine(all[..i], all[i]);
    }
    if GoodLines(front) && LengthLine(front, line) {
      assert GoodLines(all[..|front|]) && LengthLine(all[..|front|], all[|front|]);
    }
  }

  function FlagOf(f: FieldResult): bool {
    if f.Refused? then f.req.hasContentLength else f.block.req.hasContentLength
  }

  lemma {:induction false} RaisedSnoc(b: Block, front: seq<string>, line: string)
    ensures var f := FoldFields(b, front);
            if f.None? then Raised(b, front + [line]) == Raised(b, front)
            else
              && Raised(b, front) == f.value.req.hasContentLength
              && Raised(b, front + [line]) == FlagOf(Field(f.value, line))
    decreases |front|
  {
    hide Field;
    var all := front + [line];
    if front == [] {
      assert all[1..] == [];
    } else {
      assert all[0] == front[0] && all[1..] == front[1..] + [line];
      match Field(b, front[0])
      case Refused(_, _) =>
      case Stored(next) => RaisedSnoc(next, front[1..], line);
    }
  }

  lemma FlagExactly(start: Block, b: Block, front: seq<string>, line: string)
    requires Summary(start, b, front)
    ensures FlagOf(Field(b, line)) <==> Named(front, "content-length") || LengthLine(front, line)
  {
    hide LastWrite;
    hide Key;
    hide Value;
    hide ValidName;
    hide ValidValue;
    hide IsNumeric;
    hide Lower;
  }

  /** The flag is raised exactly when such a line was seen. */
  lemma {:induction false} RaisedExactly(start: Block, lines: seq<string>)
    requires StartBlock(start)
    ensures Raised(start, lines) <==> LengthSeen(lines)
    decreases |lines|
  {
    hide Field;
    hide LengthSeen;
    hide GoodLines;
    hide LengthLine;
    hide Summary;
    hide FoldFields;
    hide Raised;
    if lines == [] {
      NothingRaised(start);
    } else {
      var n := |lines| - 1;
      var front, line := lines[..n], lines[n];
      assert lines == front + [line];
      RaisedExactly(start, front);
      RaisedSnoc(start, front, line);
      LengthSeenSnoc(front, line);
      FoldExactly(start, front);
      if FoldFields(start, front).Some? {
        FlagExactly(start, FoldFields(start, front).value, front, line);
        SummaryFlag(start, FoldFields(start, front).value, front);
      }
    }
  }

  lemma SummaryFlag(start: Block, b: Block, front: seq<string>)
    requires Summary(start, b, front)
    ensures b.req.hasContentLength == Named(front, "content-length")
  {
  }

  lemma NothingRaised(start: Block)
    requires StartBlock(start)
    ensures !Raised(start, []) && !LengthSeen([])
  {
  }

  lemma LastWriteSmall(lines: seq<string>)
    requires GoodLines(lines)
    ensures |LastWrite(lines)| <= 100
  {
    if lines != [] {
      var n := |lines| - 1;
      assert |LastWrite(lines[..n])| < 100;
      var m := LastWrite(lines[..n]);
      var key := Key(lines[n]);
      assert m[key := StoredValue(lines[n])].Keys == m.Keys + {key};
    }
  }
}
