/** Requests written out and read back: field lines with names in any case and blanks around their values, and whole
    requests with each kind of body (srcs/ReqRes/RequestParser.cpp:107-409). */
module RequestRoundTrip {
  import opened Text
  import opened Numerals
  import opened Chunked
  import opened Http
  import opened BodyPhase
  import opened HeaderBlock
  import opened ParseRequest
  import opened ChunkEncoder
  import opened ChunkGrammar

  // ---------------------------------------------------------------- one field line

  /** A field as it is written: blanks may stand on both sides of its value. */
  datatype FieldText = FieldText(name: string, before: string, value: string, after: string)

  function Line(f: FieldText): string { f.name + ":" + (f.before + f.value + f.after) }

  predicate Blank(s: string) {
    forall i :: 0 <= i < |s| ==> s[i] == ' ' || s[i] == '\t'
  }

  /** A value without blanks at its ends. */
  predicate Bare(value: string) {
    value != "" ==> value[0] !in " \t" && value[|value| - 1] !in " \t"
  }

  /** Letters, digits, hyphens and underscores. */
  predicate NameSyntax(name: string) {
    forall i :: 0 <= i < |name| ==>
      'a' <= name[i] <= 'z' || 'A' <= name[i] <= 'Z' || '0' <= name[i] <= '9' || name[i] in "-_"
  }

  /** Printable ASCII, spaces and tabs. */
  predicate ValueSyntax(value: string) {
    forall i :: 0 <= i < |value| ==> ' ' <= value[i] <= '~' || value[i] == '\t'
  }

  predicate Bytes(s: string) { forall i :: 0 <= i < |s| ==> s[i] as int < 256 }

  predicate FieldSyntax(f: FieldText) {
    && f.name != "" && NameSyntax(f.name) && Bare(f.value) && ValueSyntax(f.value)
    && Blank(f.before) && Blank(f.after) && |Line(f)| + 2 <= 8192
  }

  /** No capital letter is in it. */
  predicate LowerCase(s: string) {
    forall i :: 0 <= i < |s| ==> !('A' <= s[i] <= 'Z')
  }

  /** The same letter, in whatever case. */
  predicate SameLetter(a: char, b: char) {
    a == b || ('A' <= a <= 'Z' && b as int == a as int + 32) || ('A' <= b <= 'Z' && a as int == b as int + 32)
  }

  predicate SameName(a: string, b: string) {
    |a| == |b| && forall i :: 0 <= i < |a| ==> SameLetter(a[i], b[i])
  }

  lemma LowerIsLowerCase(s: string)
    ensures LowerCase(Lower(s)) && SameName(Lower(s), s)
  {
  }

  lemma SameNameLowers(a: string, b: string)
    requires SameName(a, b)
    ensures Lower(a) == Lower(b)
  {
  }

  lemma LineParts(f: FieldText)
    requires FieldSyntax(f)
    ensures var line, n := Line(f), |f.name|;
            && line != "" && line[0] == f.name[0] && line[n - 1] == f.name[n - 1]
            && line[..n] == f.name && line[n + 1..] == f.before + f.value + f.after
            && Colon(line) == Some(n)
  {
    hide Find;
    hide At;
    FindChar(f.name, ':', f.before + f.value + f.after);
  }

  lemma ValueBare(f: FieldText)
    requires FieldSyntax(f)
    ensures Trim(f.before + f.value + f.after, " \t") == f.value
  {
    hide Trim;
    forall c | c in f.before + f.after ensures c in " \t" {
      assert c in f.before || c in f.after;
    }
    TrimCore(f.before, f.value, f.after, " \t");
  }

  /** A field line is read with its name lower-cased and its value without the blanks around it. */
  lemma FieldRead(b: Block, f: FieldText)
    requires FieldSyntax(f)
    ensures Key(Line(f)) == Lower(f.name) && Value(Line(f)) == f.value && WellFormed(Line(f))
    ensures Field(b, Line(f)) == Keyed(b, Lower(f.name), f.value)
  {
    hide Find;
    hide At;
    hide Trim;
    hide Keyed;
    LineParts(f);
    ValueBare(f);
  }

  /** The field a line is written from: the name before the colon, and the value between its blanks. */
  function FieldOf(line: string, colon: nat): FieldText
    requires colon < |line|
  {
    var s := line[colon + 1..];
    var t := TrimLeft(s, " \t");
    var v := TrimRight(t, " \t");
    TrimmedLeft(s, " \t");
    TrimmedRight(t, " \t");
    FieldText(line[..colon], s[..|s| - |t|], v, t[|v|..])
  }

  lemma BareMiddle(s: string)
    ensures var t := TrimLeft(s, " \t"); var v := TrimRight(t, " \t");
            && |v| <= |t| <= |s| && Bare(v)
            && Blank(s[..|s| - |t|]) && Blank(t[|v|..]) && s == s[..|s| - |t|] + v + t[|v|..]
  {
    hide TrimLeft;
    hide TrimRight;
    var t := TrimLeft(s, " \t");
    var v := TrimRight(t, " \t");
    TrimmedLeft(s, " \t");
    TrimmedRight(t, " \t");
    assert t == v + t[|v|..];
    Assoc(s[..|s| - |t|], v, t[|v|..]);
    assert s == s[..|s| - |t|] + t;
  }

  lemma FieldOfLine(line: string, colon: nat)
    requires colon < |line| && line[colon] == ':'
    ensures var f := FieldOf(line, colon);
            && Line(f) == line && f.value == Trim(line[colon + 1..], " \t")
            && Blank(f.before) && Blank(f.after) && Bare(f.value)
  {
    hide TrimLeft;
    hide TrimRight;
    hide Blank;
    hide Bare;
    BareMiddle(line[colon + 1..]);
    assert line == line[..colon] + ":" + line[colon + 1..];
  }

  lemma LowerValid(name: string)
    ensures ValidName(Lower(name)) <==> NameSyntax(name)
  {
    assert forall c: char :: IsAlnum(ToLower(c)) <==> 'a' <= c <= 'z' || 'A' <= c <= 'Z' || '0' <= c <= '9';
    assert forall c: char :: ToLower(c) in "-_" <==> c in "-_";
    forall i | 0 <= i < |name| ensures Lower(name)[i] == ToLower(name[i]) {
    }
  }

  /** Main result on field lines: a line of bytes passes the checks that look at it alone exactly when it is a name of
      letters, digits, hyphens and underscores, a colon, and a printable value with any blanks around it. */
  lemma WellFormedExactly(line: string)
    requires Bytes(line)
    ensures WellFormed(line) <==> exists f :: FieldSyntax(f) && Line(f) == line
  {
    hide Find;
    hide At;
    hide Trim;
    hide Lower;
    if WellFormed(line) {
      var c := Colon(line).value;
      ColonAt(line, c);
      FieldOfLine(line, c);
      LowerValid(line[..c]);
      TrimmedBytes(line[c + 1..]);
      assert FieldSyntax(FieldOf(line, c));
    }
    if exists f :: FieldSyntax(f) && Line(f) == line {
      var f :| FieldSyntax(f) && Line(f) == line;
      FieldRead(Block(Fresh, false, ""), f);
    }
  }

  lemma TrimmedBytes(s: string)
    requires Bytes(s)
    ensures ValidValue(Trim(s, " \t")) <==> ValueSyntax(Trim(s, " \t"))
  {
    hide TrimLeft;
    hide TrimRight;
    BareMiddle(s);
    var t := TrimLeft(s, " \t");
    var v := TrimRight(t, " \t");
    forall i | 0 <= i < |v| ensures v[i] as int < 256 {
      assert v[i] == s[|s| - |t| + i];
    }
  }

  lemma ColonAt(line: string, c: nat)
    requires Colon(line) == Some(c)
    ensures c < |line| && line[c] == ':'
  {
    assert line[c..c + 1] == ":";
  }

  lemma LineHasNoReturn(f: FieldText)
    requires FieldSyntax(f)
    ensures '\r' !in Line(f) && Line(f) != ""
  {
  }

  // ---------------------------------------------------------------- the block of field lines

  function FieldsText(fs: seq<FieldText>): string {
    if fs == [] then "" else Line(fs[0]) + CRLF + FieldsText(fs[1..])
  }

  predicate FieldsSyntax(fs: seq<FieldText>) {
    forall i :: 0 <= i < |fs| ==> FieldSyntax(fs[i])
  }

  function LineTexts(fs: seq<FieldText>): (r: seq<string>)
    ensures |r| == |fs| && forall i :: 0 <= i < |fs| ==> r[i] == Line(fs[i])
  {
    seq(|fs|, i requires 0 <= i < |fs| => Line(fs[i]))
  }

  /** The fields taken in turn by name and value alone; `tail` is what stands behind them. */
  function TakeFields(b: Block, fs: seq<FieldText>, tail: string): Parsed
    decreases |fs|
  {
    if fs == [] then
      Parsed(EndOfHeaders(b), if EndOfHeaders(b).phase == ErrorParse then CRLF + tail else tail)
    else
      var f := Keyed(b, Lower(fs[0].name), fs[0].value);
      if f.Refused? then Parsed(LogError(f.req, f.code), FieldsText(fs) + (CRLF + tail))
      else TakeFields(f.block, fs[1..], tail)
  }

  lemma FieldsStep(fs: seq<FieldText>, tail: string)
    requires fs != []
    ensures FieldsText(fs) + (CRLF + tail) == Line(fs[0]) + CRLF + (FieldsText(fs[1..]) + (CRLF + tail))
  {
    hide Line;
    Assoc(Line(fs[0]) + CRLF, FieldsText(fs[1..]), CRLF + tail);
  }

  lemma {:induction false} FieldsAhead(fs: seq<FieldText>, tail: string)
    ensures BlankAhead(FieldsText(fs) + (CRLF + tail))
    ensures fs != [] ==> Find(FieldsText(fs) + (CRLF + tail), DOUBLE_CRLF, 0).Some?
    decreases |fs|
  {
    hide Find;
    hide BlankAhead;
    hide Line;
    if fs == [] {
      EmptyLine(Block(Fresh, false, ""), tail);
      assert "" + (CRLF + tail) == CRLF + tail;
    } else {
      FieldsAhead(fs[1..], tail);
      FieldsStep(fs, tail);
      BlankThrough(Line(fs[0]), FieldsText(fs[1..]) + (CRLF + tail));
    }
  }

  /** The loop of parse_headers reads the written fields by name and value alone. */
  lemma {:induction false} LoopReads(b: Block, fs: seq<FieldText>, tail: string)
    requires FieldsSyntax(fs)
    ensures BlankAhead(FieldsText(fs) + (CRLF + tail))
    ensures HeaderLoop(b, FieldsText(fs) + (CRLF + tail)) == TakeFields(b, fs, tail)
    decreases |fs|
  {
    hide HeaderLoop;
    hide Keyed;
    hide Field;
    hide EndOfHeaders;
    hide FieldSyntax;
    hide Line;
    hide BlankAhead;
    FieldsAhead(fs, tail);
    if fs == [] {
      EmptyLine(b, tail);
      assert "" + (CRLF + tail) == CRLF + tail;
    } else {
      FieldsStep(fs, tail);
      FieldsAhead(fs[1..], tail);
      LineHasNoReturn(fs[0]);
      FieldRead(b, fs[0]);
      FieldTurn(b, Line(fs[0]), FieldsText(fs[1..]) + (CRLF + tail));
      var f := Keyed(b, Lower(fs[0].name), fs[0].value);
      if f.Stored? { LoopReads(f.block, fs[1..], tail); }
    }
  }

  lemma LinesOfLine(line: string, rest: string)
    requires '\r' !in line && line != "" && BlankAhead(rest)
    ensures BlankAhead(line + CRLF + rest) && Lines(line + CRLF + rest) == [line] + Lines(rest)
  {
    hide BlankAhead;
    hide Lines;
    BlankThrough(line, rest);
    LineAhead(line, rest);
    LinesStep(line + CRLF + rest);
    var all := Lines(line + CRLF + rest);
    assert all == [all[0]] + all[1..];
  }

  lemma {:induction false} LinesOfFields(fs: seq<FieldText>, tail: string)
    requires FieldsSyntax(fs)
    ensures BlankAhead(FieldsText(fs) + (CRLF + tail))
    ensures Lines(FieldsText(fs) + (CRLF + tail)) == LineTexts(fs)
    decreases |fs|
  {
    hide FieldSyntax;
    hide Line;
    hide BlankAhead;
    hide Lines;
    FieldsAhead(fs, tail);
    if fs == [] {
      LinesOfNothing(tail);
      assert "" + (CRLF + tail) == CRLF + tail;
    } else {
      FieldsStep(fs, tail);
      FieldsAhead(fs[1..], tail);
      LineHasNoReturn(fs[0]);
      LinesOfLine(Line(fs[0]), FieldsText(fs[1..]) + (CRLF + tail));
      LinesOfFields(fs[1..], tail);
      assert LineTexts(fs) == [Line(fs[0])] + LineTexts(fs[1..]);
    }
  }

  lemma LinesOfNothing(tail: string)
    ensures BlankAhead(CRLF + tail) && Lines(CRLF + tail) == []
  {
    EmptyLine(Block(Fresh, false, ""), tail);
    assert (CRLF + tail)[0..2] == CRLF;
    FindIs(CRLF + tail, CRLF, 0, 0);
  }

  /** Field names mean the same in either case. */
  predicate Alike(f: FieldText, g: FieldText) { SameName(f.name, g.name) && f.value == g.value }

  lemma {:induction false} TakeAlike(b: Block, fs: seq<FieldText>, gs: seq<FieldText>, tail: string)
    requires |fs| == |gs| && forall i :: 0 <= i < |fs| ==> Alike(fs[i], gs[i])
    ensures TakeFields(b, fs, tail).req == TakeFields(b, gs, tail).req
    decreases |fs|
  {
    hide Keyed;
    hide EndOfHeaders;
    if fs != [] {
      SameNameLowers(fs[0].name, gs[0].name);
      var f := Keyed(b, Lower(fs[0].name), fs[0].value);
      if f.Stored? { TakeAlike(f.block, fs[1..], gs[1..], tail); }
    }
  }

  /** Main result on field names and blanks: two header blocks whose fields differ only in the case of their names, and
      in the blanks around their values, give the same request, accepted or refused. */
  lemma CaseDoesNotMatter(r: Request, fs: seq<FieldText>, gs: seq<FieldText>, tail: string)
    requires FieldsSyntax(fs) && FieldsSyntax(gs)
    requires |fs| == |gs| && forall i :: 0 <= i < |fs| ==> Alike(fs[i], gs[i])
    ensures BlankAhead(FieldsText(fs) + (CRLF + tail)) && BlankAhead(FieldsText(gs) + (CRLF + tail))
    ensures ParseHeaders(r, FieldsText(fs) + (CRLF + tail)).req == ParseHeaders(r, FieldsText(gs) + (CRLF + tail)).req
  {
    hide TakeFields;
    hide FieldsText;
    LoopReads(Block(r, false, ""), fs, tail);
    LoopReads(Block(r, false, ""), gs, tail);
    TakeAlike(Block(r, false, ""), fs, gs, tail);
  }

  // ---------------------------------------------------------------- what is stored

  predicate LowerKeys(headers: map<string, string>) {
    forall k :: k in headers ==> LowerCase(k)
  }

  lemma FieldLowerKeys(b: Block, line: string)
    requires LowerKeys(b.req.headers)
    ensures var f := Field(b, line); LowerKeys(if f.Refused? then f.req.headers else f.block.req.headers)
  {
    hide Find;
    hide At;
    hide Trim;
    hide IsNumeric;
    hide ValidName;
    hide ValidValue;
    if Colon(line).Some? { LowerIsLowerCase(line[..Colon(line).value]); }
  }

  lemma {:induction false} LoopLowerKeys(b: Block, u: string)
    requires BlankAhead(u) && LowerKeys(b.req.headers)
    ensures LowerKeys(HeaderLoop(b, u).req.headers)
    decreases |u|
  {
    hide HeaderLoop;
    hide Field;
    hide BlankAhead;
    LoopTurn(b, u);
    var e := LineEnd(u);
    if e != 2 {
      var f := Field(b, u[..e - 2]);
      FieldLowerKeys(b, u[..e - 2]);
      if f.Stored? { LoopLowerKeys(f.block, u[e..]); }
    }
  }

  /** Whatever the header block, every key that is stored is in lower case. */
  lemma KeysAreLowerCase(r: Request, u: string)
    requires BlankAhead(u) && r.headers == map[]
    ensures forall k :: k in ParseHeaders(r, u).req.headers ==> LowerCase(k)
  {
    hide HeaderLoop;
    LoopLowerKeys(Block(r, false, ""), u);
  }

  /** The map that written fields give: the last value written under a name, in lower case for Expect. */
  function MapOf(fs: seq<FieldText>): map<string, string>
    decreases |fs|
  {
    if fs == [] then map[]
    else
      var f := fs[|fs| - 1];
      MapOf(fs[..|fs| - 1])[Lower(f.name) := if Lower(f.name) == "expect" then Lower(f.value) else f.value]
  }

  lemma {:induction false} MapOfLines(fs: seq<FieldText>)
    requires FieldsSyntax(fs)
    ensures LastWrite(LineTexts(fs)) == MapOf(fs)
    decreases |fs|
  {
    hide FieldSyntax;
    hide Line;
    hide Key;
    hide Value;
    if fs != [] {
      var n := |fs| - 1;
      FieldRead(Block(Fresh, false, ""), fs[n]);
      MapOfLines(fs[..n]);
      assert LineTexts(fs)[..n] == LineTexts(fs[..n]);
      assert LineTexts(fs) == LineTexts(fs[..n]) + [Line(fs[n])];
      LastWriteSnoc(LineTexts(fs[..n]), Line(fs[n]));
    }
  }

  lemma NamedField(fs: seq<FieldText>, name: string)
    requires FieldsSyntax(fs)
    ensures Named(LineTexts(fs), name) <==> exists i :: 0 <= i < |fs| && Lower(fs[i].name) == name
  {
    hide FieldSyntax;
    hide Line;
    hide Key;
    forall i | 0 <= i < |fs| ensures Key(LineTexts(fs)[i]) == Lower(fs[i].name) {
      FieldRead(Block(Fresh, false, ""), fs[i]);
    }
    if exists i :: 0 <= i < |fs| && Lower(fs[i].name) == name {
      var i :| 0 <= i < |fs| && Lower(fs[i].name) == name;
      assert Key(LineTexts(fs)[i]) == name;
    }
  }

  // ---------------------------------------------------------------- whole requests

  function RequestLine(httpMethod: string, target: string): string { httpMethod + " " + target + " HTTP/1.1" }

  function HeadText(httpMethod: string, target: string, fs: seq<FieldText>): string {
    RequestLine(httpMethod, target) + CRLF + (FieldsText(fs) + CRLF)
  }

  /** A request line and fields that are accepted; the fields by what their lines say. */
  ghost predicate Proper(httpMethod: string, target: string, fs: seq<FieldText>) {
    && httpMethod in {"GET", "POST", "DELETE"} && TargetOk(target)
    && |RequestLine(httpMethod, target)| + 2 <= 8192
    && FieldsSyntax(fs) && AcceptedBlock(httpMethod, LineTexts(fs))
  }

  /** What the request then is, but for its body and phase. */
  ghost predicate ReadAs(r: Request, httpMethod: string, target: string, fs: seq<FieldText>) {
    && r.errorCode == 0 && r.httpMethod == httpMethod && r.version == "HTTP/1.1" && r.headers == MapOf(fs)
    && r.hasContentLength == Named(LineTexts(fs), "content-length")
    && r.hasTransferEncoding == Named(LineTexts(fs), "transfer-encoding")
    && TargetText(target).Some? && '?' !in r.uri
    && var text := TargetText(target).value;
       if '?' in text then text == r.uri + "?" + r.query else text == r.uri && r.query == ""
  }

  lemma LineOfRequest(httpMethod: string, target: string)
    requires httpMethod in {"GET", "POST", "DELETE"} && TargetOk(target)
    ensures Split(RequestLine(httpMethod, target), ' ') == [httpMethod, target, "HTTP/1.1"]
    ensures '\r' !in RequestLine(httpMethod, target)
  {
    hide Split;
    hide RequestLine;
    MethodPlain(httpMethod);
    TargetPlain(target);
    LineOfWords(httpMethod, target);
  }

  lemma LineOfWords(a: string, b: string)
    requires ' ' !in a + b && '\r' !in a + b
    ensures Split(RequestLine(a, b), ' ') == [a, b, "HTTP/1.1"] && '\r' !in RequestLine(a, b)
  {
    hide Split;
    assert ' ' !in a && ' ' !in b && '\r' !in a && '\r' !in b;
    assert RequestLine(a, b) == a + [' '] + (b + [' '] + "HTTP/1.1");
    SplitFirst(a, ' ', b + [' '] + "HTTP/1.1");
    SplitFirst(b, ' ', "HTTP/1.1");
    SplitWhole("HTTP/1.1", ' ');
    assert [a] + ([b] + ["HTTP/1.1"]) == [a, b, "HTTP/1.1"];
  }

  lemma MethodPlain(m: string)
    requires m in {"GET", "POST", "DELETE"}
    ensures ' ' !in m && '\r' !in m
  {
  }

  lemma TargetPlain(target: string)
    requires TargetOk(target)
    ensures ' ' !in target && '\r' !in target
  {
    assert LegalTarget(target);
  }

  lemma RequestLineRead(rule: Rule, httpMethod: string, target: string, rest: string)
    requires httpMethod in {"GET", "POST", "DELETE"} && TargetOk(target)
    requires |RequestLine(httpMethod, target)| + 2 <= 8192
    requires rest != ""
    ensures var p := ParseRequestLine(rule, Fresh, RequestLine(httpMethod, target) + CRLF + rest);
            && p.rest == rest && p.req.phase == Phase.Headers && p.req.headers == map[]
            && p.req == Fresh.(phase := Phase.Headers, httpMethod := httpMethod, uri := p.req.uri, query := p.req.query,
                               version := "HTTP/1.1")
            && TargetText(target).Some? && '?' !in p.req.uri
            && var text := TargetText(target).value;
               if '?' in text then text == p.req.uri + "?" + p.req.query else text == p.req.uri && p.req.query == ""
  {
    hide SetLine;
    hide Split;
    hide RequestLine;
    hide TargetOk;
    hide TargetText;
    LineOfRequest(httpMethod, target);
    LineAhead(RequestLine(httpMethod, target), rest);
    RequestLineExactly(rule, Fresh, RequestLine(httpMethod, target));
    OkIsRooted(target);
  }

  lemma KeyedKeeps(b: Block, key: string, value: string)
    requires Unparsed(b.req)
    ensures var f := Keyed(b, key, value);
            && (f.Stored? ==>
                  Unparsed(f.block.req) &&
                  f.block.req == b.req.(headers := f.block.req.headers,
                                        hasContentLength := f.block.req.hasContentLength,
                                        hasTransferEncoding := f.block.req.hasTransferEncoding))
            && (f.Refused? ==> f.code != 0 && f.req.errorCode == 0)
  {
    hide Lower;
    hide IsNumeric;
  }

  lemma {:induction false} TakeKeeps(b: Block, fs: seq<FieldText>, tail: string)
    requires Unparsed(b.req)
    ensures var p := TakeFields(b, fs, tail);
            p.req.phase != ErrorParse ==>
              && p.rest == tail
              && p.req == b.req.(phase := p.req.phase, headers := p.req.headers,
                                 hasContentLength := p.req.hasContentLength,
                                 hasTransferEncoding := p.req.hasTransferEncoding)
    decreases |fs|
  {
    hide Keyed;
    if fs != [] {
      KeyedKeeps(b, Lower(fs[0].name), fs[0].value);
      var f := Keyed(b, Lower(fs[0].name), fs[0].value);
      if f.Stored? { TakeKeeps(f.block, fs[1..], tail); }
    }
  }

  lemma HeadersRead(r: Request, fs: seq<FieldText>, tail: string)
    requires Unparsed(r) && !r.hasContentLength && !r.hasTransferEncoding && r.headers == map[]
    requires FieldsSyntax(fs) && AcceptedBlock(r.httpMethod, LineTexts(fs))
    ensures BlankAhead(FieldsText(fs) + (CRLF + tail))
    ensures var p := ParseHeaders(r, FieldsText(fs) + (CRLF + tail)); var lines := LineTexts(fs);
            && p.rest == tail && p.req.headers == MapOf(fs)
            && p.req == r.(phase := p.req.phase, headers := p.req.headers, hasContentLength := p.req.hasContentLength,
                           hasTransferEncoding := p.req.hasTransferEncoding)
            && p.req.hasContentLength == Named(lines, "content-length")
            && p.req.hasTransferEncoding == Named(lines, "transfer-encoding")
            && p.req.phase == (if p.req.hasContentLength || p.req.hasTransferEncoding then Phase.Body else Done)
  {
    hide HeaderLoop;
    hide TakeFields;
    hide FieldsText;
    hide AcceptedBlock;
    hide FieldSyntax;
    hide BlankAhead;
    hide Lines;
    LinesOfFields(fs, tail);
    MapOfLines(fs);
    HeadersAcceptedExactly(r, FieldsText(fs) + (CRLF + tail));
    LoopReads(Block(r, false, ""), fs, tail);
    TakeKeeps(Block(r, false, ""), fs, tail);
  }

  /** The head of a proper request, whatever follows it. */
  lemma HeadRead(rule: Rule, httpMethod: string, target: string, fs: seq<FieldText>, tail: string)
    requires Proper(httpMethod, target, fs)
    ensures Find(HeadText(httpMethod, target, fs) + tail, DOUBLE_CRLF, 0).Some?
    ensures var h := Head(rule, HeadText(httpMethod, target, fs) + tail); var lines := LineTexts(fs);
            && h.rest == tail && ReadAs(h.req, httpMethod, target, fs) && h.req.place == Outside("")
            && h.req.hasContentLength == Named(lines, "content-length")
            && h.req.hasTransferEncoding == Named(lines, "transfer-encoding")
            && h.req.phase == (if h.req.hasContentLength || h.req.hasTransferEncoding then Phase.Body else Done)
            && (h.req.phase == Phase.Body ==> Receiving(h.req))
  {
    hide Find;
    hide At;
    hide RequestLine;
    hide FieldsText;
    hide TargetOk;
    hide TargetText;
    hide AcceptedBlock;
    hide ParseRequestLine;
    hide ParseHeaders;
    hide BlankAhead;
    hide Receiving;
    var line, block := RequestLine(httpMethod, target), FieldsText(fs) + (CRLF + tail);
    HeadIsLines(httpMethod, target, fs, tail);
    FieldsAhead(fs, tail);
    BlankThrough(line, block);
    HeadStops(rule, line + CRLF + block);
    RequestLineRead(rule, httpMethod, target, block);
    HeadersRead(ParseRequestLine(rule, Fresh, line + CRLF + block).req, fs, tail);
  }

  lemma HeadIsLines(httpMethod: string, target: string, fs: seq<FieldText>, tail: string)
    ensures HeadText(httpMethod, target, fs) + tail ==
            RequestLine(httpMethod, target) + CRLF + (FieldsText(fs) + (CRLF + tail))
  {
    Assoc(RequestLine(httpMethod, target) + CRLF, FieldsText(fs) + CRLF, tail);
    Assoc(FieldsText(fs), CRLF, tail);
  }

  /** How the parse of such a text ends. */
  ghost predicate ReadsBody(rule: Rule, u: string, httpMethod: string, target: string, fs: seq<FieldText>, body: string,
                            more: string)
  {
    && Find(u, DOUBLE_CRLF, 0).Some?
    && var o := Parse(rule, Fresh, u);
       && !o.stalled && o.req.phase == Done && ReadAs(o.req, httpMethod, target, fs)
       && o.req.place == Outside(body) && o.rest == more
  }

  /** Main result on requests without a body: written out in front of any text, such a request is read back whole, and
      the text is left. */
  lemma PlainRequestRead(rule: Rule, httpMethod: string, target: string, fs: seq<FieldText>, more: string)
    requires Proper(httpMethod, target, fs)
    requires !Named(LineTexts(fs), "content-length") && !Named(LineTexts(fs), "transfer-encoding")
    ensures ReadsBody(rule, HeadText(httpMethod, target, fs) + more, httpMethod, target, fs, "", more)
  {
    hide Head;
    hide HeadText;
    hide ReadAs;
    hide Proper;
    hide Find;
    hide At;
    HeadRead(rule, httpMethod, target, fs, more);
    DriveIs(rule, HeadText(httpMethod, target, fs) + more);
  }

  lemma SizedBodyRead(r: Request, body: string, more: string)
    requires Receiving(r) && r.hasContentLength && r.place == Outside("") && Length(r) == |body| > 0
    ensures Sized(r, body + more) ==
            Parsed(r.(contentLength := |body|, place := Outside(body), phase := Done), more)
  {
    hide LengthIn;
    AppendParts(body, more);
    assert "" + body == body;
    SizedComplete(r, body + more);
  }

  /** Main result on Content-Length: a request that announces the length of its body in decimal is read back with
      exactly that body, byte for byte, and what follows is left. */
  lemma SizedRequestRead(rule: Rule, httpMethod: string, target: string, fs: seq<FieldText>, body: string, more: string)
    requires Proper(httpMethod, target, fs) && 0 < |body| < SIZE_MODULUS
    requires Named(LineTexts(fs), "content-length") && "content-length" in MapOf(fs)
    requires MapOf(fs)["content-length"] == Dec(|body|)
    ensures ReadsBody(rule, HeadText(httpMethod, target, fs) + (body + more), httpMethod, target, fs, body, more)
  {
    hide Head;
    hide HeadText;
    hide Find;
    hide At;
    hide Dec;
    hide Strtoul;
    hide TargetText;
    hide MapOf;
    hide Sized;
    HeadRead(rule, httpMethod, target, fs, body + more);
    var h := Head(rule, HeadText(httpMethod, target, fs) + (body + more));
    StrtoulDec(|body|);
    OnlyOneFraming(httpMethod, fs);
    SizedBodyRead(h.req, body, more);
    DriveIs(rule, HeadText(httpMethod, target, fs) + (body + more));
  }

  lemma OnlyOneFraming(httpMethod: string, fs: seq<FieldText>)
    requires AcceptedBlock(httpMethod, LineTexts(fs))
    ensures !(Named(LineTexts(fs), "content-length") && Named(LineTexts(fs), "transfer-encoding"))
  {
  }

  /** A size line: hexadecimal digits in either case with blanks around them. */
  lemma SizeLineRead(before: string, digits: string, after: string)
    requires Blank(before) && Blank(after) && digits != "" && ValueOf(digits, 16) < SIZE_MODULUS
    requires forall i :: 0 <= i < |digits| ==> IsHexDigit(digits[i])
    ensures ChunkSize(before + digits + after + CRLF) == Some(ValueOf(digits, 16))
  {
    hide Trim;
    hide Strtoul;
    hide ValueOf;
    var pad := after + CRLF;
    forall c | c in before + pad ensures c in "\r\n \t" {
      assert c in before || c in after || c in CRLF;
    }
    Assoc(before + digits, after, CRLF);
    TrimCore(before, digits, pad, "\r\n \t");
    StrtoulDigits(digits, 16);
  }

  /** Main result on chunked requests: whatever the sizes look like, a request whose body is framed in chunks is read
      back with the contents of the chunks, and what follows is left. */
  lemma FramedRequestRead(rule: Rule, httpMethod: string, target: string, fs: seq<FieldText>, framed: string,
                          body: string, more: string)
    requires Proper(httpMethod, target, fs) && WholeBody(ChunkSize, framed, body, more)
    requires Named(LineTexts(fs), "transfer-encoding") && "transfer-encoding" in MapOf(fs)
    requires MapOf(fs)["transfer-encoding"] == "chunked"
    ensures ReadsBody(rule, HeadText(httpMethod, target, fs) + framed, httpMethod, target, fs, body, more)
  {
    hide Head;
    hide HeadText;
    hide Find;
    hide At;
    hide WholeBody;
    hide Chunks;
    hide ChunkSize;
    hide TargetText;
    hide MapOf;
    HeadRead(rule, httpMethod, target, fs, framed);
    FinishedExactly(rule, ChunkSize, "", framed, body, more);
    WholeNotEmpty(ChunkSize, framed, body, more);
    assert "" + body == body;
    DriveIs(rule, HeadText(httpMethod, target, fs) + framed);
  }

  /** Written by the sender with any chunk size, the body is read back as it was. */
  lemma ChunkedRequestRead(rule: Rule, httpMethod: string, target: string, fs: seq<FieldText>, body: string,
                           chunkSize: nat, more: string)
    requires Proper(httpMethod, target, fs) && 1 <= chunkSize < SIZE_MODULUS
    requires Named(LineTexts(fs), "transfer-encoding") && "transfer-encoding" in MapOf(fs)
    requires MapOf(fs)["transfer-encoding"] == "chunked"
    ensures ReadsBody(rule, HeadText(httpMethod, target, fs) + (Encode(body, chunkSize) + more),
                      httpMethod, target, fs, body, more)
  {
    hide Head;
    hide HeadText;
    hide Find;
    hide At;
    hide Encode;
    hide Chunks;
    hide ChunkSize;
    hide TargetText;
    hide MapOf;
    var tail := Encode(body, chunkSize) + more;
    HeadRead(rule, httpMethod, target, fs, tail);
    DecodeEncode(rule, "", body, chunkSize, more);
    assert "" + body == body;
    EncodeNotEmpty(body, chunkSize);
    DriveIs(rule, HeadText(httpMethod, target, fs) + tail);
  }

  lemma EncodeNotEmpty(data: string, chunkSize: nat)
    requires chunkSize >= 1
    ensures Encode(data, chunkSize) != ""
  {
  }

  /** The parse ends with this error, and reads nothing of the body. */
  ghost predicate RefusesBody(rule: Rule, u: string, code: int, tail: string) {
    && Find(u, DOUBLE_CRLF, 0).Some?
    && var o := Parse(rule, Fresh, u);
       && !o.stalled && o.req.phase == ErrorParse && o.req.errorCode == code
       && o.rest == tail && o.req.place == Outside("")
  }

  /** A Content-Length that is zero or empty is refused as soon as anything follows. */
  lemma ZeroLengthRefused(rule: Rule, httpMethod: string, target: string, fs: seq<FieldText>, tail: string)
    requires Proper(httpMethod, target, fs) && tail != ""
    requires Named(LineTexts(fs), "content-length") && "content-length" in MapOf(fs)
    requires MapOf(fs)["content-length"] in {"", Dec(0)}
    ensures RefusesBody(rule, HeadText(httpMethod, target, fs) + tail, 400, tail)
  {
    hide Head;
    hide HeadText;
    hide Find;
    hide At;
    hide Dec;
    hide Strtoul;
    hide TargetText;
    hide MapOf;
    hide Sized;
    HeadRead(rule, httpMethod, target, fs, tail);
    StrtoulDec(0);
    StrtoulEmpty(10);
    OnlyOneFraming(httpMethod, fs);
    ZeroRefused(Head(rule, HeadText(httpMethod, target, fs) + tail).req, tail);
    DriveIs(rule, HeadText(httpMethod, target, fs) + tail);
  }

  lemma ZeroRefused(r: Request, u: string)
    requires r.errorCode == 0 && Length(r) == 0
    ensures var p := Sized(r, u);
            p.rest == u && p.req.phase == ErrorParse && p.req.errorCode == 400 && p.req.place == r.place
  {
    hide LengthIn;
  }

  /** A transfer coding other than chunked passes the header checks and is refused with the body. */
  lemma OtherCodingRefused(rule: Rule, httpMethod: string, target: string, fs: seq<FieldText>, tail: string)
    requires Proper(httpMethod, target, fs) && tail != ""
    requires Named(LineTexts(fs), "transfer-encoding") && "transfer-encoding" in MapOf(fs)
    requires MapOf(fs)["transfer-encoding"] != "chunked"
    ensures RefusesBody(rule, HeadText(httpMethod, target, fs) + tail, 501, tail)
  {
    hide Head;
    hide HeadText;
    hide Find;
    hide At;
    hide TargetText;
    hide MapOf;
    hide Chunks;
    HeadRead(rule, httpMethod, target, fs, tail);
    DriveIs(rule, HeadText(httpMethod, target, fs) + tail);
  }
}
