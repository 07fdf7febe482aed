/** Forms of configuration text that the printer of ConfigRoundTrip does not choose: units in either case, comments,
    several codes on one line, and what stands when a directive is left out. */
module ConfigForms {
  import opened Text
  import opened Numerals
  import opened ConfigTypes
  import opened ConfigText
  import opened ConfigParser
  import opened ConfigRoundTrip

  // ---------------------------------------------------------------- units in either case

  /** The same size unit in lower and in upper case. */
  predicate SameUnit(c: char, d: char) {
    (c, d) in {('k', 'K'), ('K', 'k'), ('m', 'M'), ('M', 'm'), ('g', 'G'), ('G', 'g')}
  }

  /** The same character, or the same unit in another case behind a digit. */
  predicate SameAt(a: string, b: string, afterDigit: bool, i: nat)
    requires i < |a| && i < |b|
  {
    a[i] == b[i] || (SameUnit(a[i], b[i]) && if i == 0 then afterDigit else IsDigit(a[i - 1]))
  }

  /** The texts differ at most in the case of unit letters right behind a digit. */
  predicate SameButUnits(a: string, b: string, afterDigit: bool) {
    |a| == |b| && forall i :: 0 <= i < |a| ==> SameAt(a, b, afterDigit, i)
  }

  lemma SamePiece(c: char, d: char, afterDigit: bool)
    requires c == d || (SameUnit(c, d) && afterDigit)
    ensures Piece(afterDigit, c) == Piece(afterDigit, d) && IsDigit(c) == IsDigit(d)
  {
  }

  lemma {:induction false} RewriteSame(a: string, b: string, afterDigit: bool)
    requires SameButUnits(a, b, afterDigit)
    ensures Rewrite(afterDigit, a) == Rewrite(afterDigit, b)
    decreases |a|
  {
    hide Piece;
    hide SameUnit;
    if a != "" {
      assert SameAt(a, b, afterDigit, 0);
      SamePiece(a[0], b[0], afterDigit);
      forall i | 0 <= i < |a| - 1 ensures SameAt(a[1..], b[1..], IsDigit(a[0]), i) {
        assert SameAt(a, b, afterDigit, i + 1);
      }
      RewriteSame(a[1..], b[1..], IsDigit(a[0]));
    }
  }

  /** Main result on units: the round trip holds for every way of choosing the case of the units in the text. */
  lemma ConfigRoundTripsAnyCase(ss: seq<ServerConfig>, text: string)
    requires forall i :: 0 <= i < |ss| ==> GoodServer(ss[i])
    requires SameButUnits(text, Write(ss), false)
    ensures Read(text) == Some(ss)
  {
    hide GoodServer;
    hide Write;
    hide Tokens;
    hide SameButUnits;
    ConfigRoundTrips(ss);
    RewriteSame(text, Write(ss), false);
  }

  // ---------------------------------------------------------------- tokens with their text

  /** The text that these tokens are read from, up to a space at its end. */
  predicate Prints(k: Ahead, text: string) { Fine(k) && Render(Front(k)) == text + " " }

  lemma {:induction false} SpaceAtEnd(word: string, s: string)
    ensures WordsFrom(word, s + " ") == WordsFrom(word, s)
    decreases |s|
  {
    if s != "" {
      assert (s + " ")[1..] == s[1..] + " ";
      SpaceAtEnd(if IsSpace(s[0]) then "" else word + [s[0]], s[1..]);
    } else {
      assert (s + " ")[1..] == "";
    }
  }

  lemma ReadPrinted(k: Ahead, text: string)
    requires Prints(k, text)
    ensures Read(text) == Config(k)
  {
    hide Printable;
    hide Config;
    hide Tokens;
    hide Render;
    hide Rewrite;
    hide WordsFrom;
    RenderWords(Front(k), false);
    PrintableClassified(Front(k), false);
    RewriteAppend(false, text, " ");
    RewriteSpace();
    SpaceAtEnd("", Rewrite(false, text));
    TokensAreWords(Rewrite(false, text));
    FrontAndEnd(k);
  }

  lemma RewriteSpace()
    ensures forall d :: Rewrite(d, " ") == " "
  {
    SpaceFirst("");
    assert " " + "" == " ";
    assert Rewrite(false, "") == "";
  }

  lemma RenderPut(t: Token, k: Ahead)
    ensures Render(Front(Put(t, k))) == t.value + (Gap(Front(k)) + Render(Front(k)))
    ensures k[0].kind != END ==> Front(k) != [] && Front(k)[0] == k[0]
  {
    assert Front(Put(t, k)) == [t] + Front(k);
    assert Front(Put(t, k))[1..] == Front(k);
    if |k| == 1 { assert k[0] == EndToken; }
  }

  /** A word in front of other words. */
  lemma PrintsWord(t: Token, k: Ahead, text: string)
    requires Sound(t) && Prints(k, text) && k[0].kind != END && !Glued(k[0])
    ensures Prints(Put(t, k), t.value + (" " + text))
  {
    hide Sound;
    hide Fine;
    hide Render;
    FinePut(t, k);
    RenderPut(t, k);
    Assoc(" ", text, " ");
    Assoc(t.value, " " + text, " ");
  }

  /** A word in front of a semicolon. */
  lemma PrintsLast(t: Token, k: Ahead, text: string)
    requires Sound(t) && Prints(k, text) && k[0].kind == SEMICOLON
    ensures Prints(Put(t, k), t.value + text)
  {
    hide Sound;
    hide Fine;
    hide Render;
    FinePut(t, k);
    RenderPut(t, k);
    assert "" + (text + " ") == text + " ";
    Assoc(t.value, text, " ");
  }

  const TheEnd: Ahead := [EndToken]

  lemma FrontOfEnd()
    ensures Front(TheEnd) == [] && Fine(TheEnd)
  {
  }

  lemma PrintsShut()
    ensures Prints(Put(Shut, TheEnd), "}")
  {
    hide Fine;
    hide Sound;
    FrontOfEnd();
    PunctuationSound();
    FinePut(Shut, TheEnd);
    RenderPut(Shut, TheEnd);
    assert Gap([]) == " " && "}" + (" " + "") == "}" + " ";
  }

  lemma PrintsMark(t: Token, k: Ahead, text: string)
    requires t in {Semi, Open, Shut} && Prints(k, text) && k[0].kind != END && !Glued(k[0])
    ensures Prints(Put(t, k), t.value + (" " + text))
  {
    hide Sound;
    hide Prints;
    PunctuationSound();
    PrintsWord(t, k, text);
  }

  lemma PrintsKeyword(t: Token, k: Ahead, text: string)
    requires Keyword(t.value) == Some(t.kind) && t.value != "" && Letters(t.value)
    requires !IsDelimiterKind(t.kind) && t.kind != CLIENT_MAX_BODY_SIZE_MUL
    requires Prints(k, text) && k[0].kind != END && !Glued(k[0])
    ensures Prints(Put(t, k), t.value + (" " + text))
  {
    hide Sound;
    hide Prints;
    hide Letters;
    hide Keyword;
    KeywordSound(t);
    PrintsWord(t, k, text);
  }

  /** A keyword with its space, in front of its line. */
  lemma PrintsLine(t: Token, spaced: string, k: Ahead, text: string)
    requires Keyword(t.value) == Some(t.kind) && t.value != "" && Letters(t.value)
    requires !IsDelimiterKind(t.kind) && t.kind != CLIENT_MAX_BODY_SIZE_MUL
    requires Prints(k, text) && k[0].kind in {NUMBER, STRING} && spaced == t.value + " "
    ensures Prints(Put(t, k), spaced + text)
  {
    hide Prints;
    hide Letters;
    hide Keyword;
    hide Put;
    PrintsKeyword(t, k, text);
    Assoc(t.value, " ", text);
  }

  const Server: Token := Token(SERVER, "server")

  function InServer(k: Ahead): Ahead { Put(Server, Put(Open, k)) }

  lemma PrintsServer(k: Ahead, text: string)
    requires Prints(k, text) && k[0].kind != END && !Glued(k[0])
    ensures Prints(InServer(k), "server { " + text)
  {
    hide Prints;
    PrintsMark(Open, k, text);
    PrintsKeyword(Server, Put(Open, k), "{" + (" " + text));
    Assoc("{", " ", text);
    Assoc(" ", "{ ", text);
    Assoc("server", " { ", text);
    assert "server" + " { " == "server { " && " " + "{ " == " { " && "{" + " " == "{ ";
  }

  /** Reading a server block with one line in it. */
  lemma ReadServer(k: Ahead, keyword: string, text: string)
    requires Prints(k, keyword + text) && k[0].kind != END && !Glued(k[0])
    ensures Read("server { " + keyword + text) == Config(InServer(k))
  {
    hide Prints;
    hide Read;
    hide Config;
    hide InServer;
    PrintsServer(k, keyword + text);
    Assoc("server { ", keyword, text);
    ReadPrinted(InServer(k), "server { " + keyword + text);
  }

  lemma ConfigOfServer(k: Ahead, s: ServerConfig)
    requires ServerBody(NewServer, k) == Okay(s, TheEnd)
    ensures Config(InServer(k)) == Some([s])
  {
    hide ServerBody;
    assert Config(TheEnd) == Some([]);
    assert [s] + [] == [s];
  }

  // ---------------------------------------------------------------- what stands when nothing is said

  /** A server block without directives has the default port, host, name and size limit. */
  lemma BareServer()
    ensures Read("server { }") == Some([ServerConfig(80, "0.0.0.0", ["localhost"], map[], 1024 * 1024, [])])
  {
    hide Read;
    hide Prints;
    var k := Put(Shut, TheEnd);
    PrintsShut();
    assert "" + "}" == "}" && "server { " + "" + "}" == "server { }";
    ReadServer(k, "", "}");
    ConfigOfServer(k, NewServer);
  }

  lemma PrintsRedirect(url: string)
    requires PlainWord(url)
    ensures Prints(RedirectTo(url, Put(Shut, Put(Shut, TheEnd))), "redirect " + (url + "; } }"))
  {
    hide Prints;
    hide PlainWord;
    hide Sound;
    var k := Put(Shut, TheEnd);
    PrintsShut();
    PrintsMark(Shut, k, "}");
    assert "}" + (" " + "}") == "} }";
    PrintsMark(Semi, Put(Shut, k), "} }");
    assert ";" + (" " + "} }") == "; } }";
    WordSound(url);
    PrintsLast(Str(url), Put(Semi, Put(Shut, k)), "; } }");
    PrintsKeyword(Token(REDIRECT, "redirect"), Put(Str(url), Put(Semi, Put(Shut, k))), url + "; } }");
    Assoc("redirect", " ", url + "; } }");
    assert "redirect" + " " == "redirect ";
  }

  function RedirectTo(url: string, k: Ahead): Ahead {
    Put(Token(REDIRECT, "redirect"), Put(Str(url), Put(Semi, k)))
  }

  function InLocation(path: string, k: Ahead): Ahead {
    Put(Token(LOCATION, "location"), Put(Str(path), Put(Open, k)))
  }

  lemma PrintsLocation(path: string, k: Ahead, text: string)
    requires PlainWord(path) && Prints(k, text) && k[0].kind != END && !Glued(k[0])
    ensures Prints(InServer(InLocation(path, k)), "server { location " + (path + (" { " + text)))
  {
    hide Prints;
    hide PlainWord;
    hide Sound;
    PrintsMark(Open, k, text);
    WordSound(path);
    PrintsWord(Str(path), Put(Open, k), "{" + (" " + text));
    Assoc("{", " ", text);
    Assoc(" ", "{ ", text);
    assert "{" + " " == "{ " && " " + "{ " == " { ";
    var rest := path + (" { " + text);
    PrintsKeyword(Token(LOCATION, "location"), Put(Str(path), Put(Open, k)), rest);
    Assoc("location", " ", rest);
    assert "location" + " " == "location " && "server { " + "location " == "server { location ";
    PrintsServer(InLocation(path, k), "location " + rest);
    Assoc("server { ", "location ", rest);
  }

  const DefaultServer: ServerConfig := ServerConfig(80, "0.0.0.0", ["localhost"], map[], 1024 * 1024, [])

  lemma LocationInServer(path: string, k: Ahead, l: Location)
    requires LocationBody(NewLocation(path), k) == Okay(l, Put(Shut, TheEnd))
    ensures Config(InServer(InLocation(path, k))) == Some([DefaultServer.(locations := [l])])
  {
    hide LocationBody;
    hide ServerBody;
    var ts := InLocation(path, k);
    Taken(Token(LOCATION, "location"), Put(Str(path), Put(Open, k)));
    Taken(Str(path), Put(Open, k));
    Taken(Open, k);
    assert [] + [l] == [l];
    var s := NewServer.(locations := [l]);
    assert ServerDirective(NewServer, ts) == Okay(s, Put(Shut, TheEnd));
    ServerStep(NewServer, ts, s, Put(Shut, TheEnd));
    ServerShut(s);
    ConfigOfServer(ts, s);
  }

  lemma ServerShut(s: ServerConfig)
    ensures ServerBody(s, Put(Shut, TheEnd)) == Okay(s, TheEnd)
  {
  }

  /** A location block without directives allows the three methods, serves index.html and does nothing else. */
  lemma BareLocation(path: string)
    requires PlainWord(path)
    ensures Read("server { location " + (path + " { } }")) ==
            Some([DefaultServer.(locations := [
                Location(path, ["GET", "POST", "DELETE"], "", false, "index.html", false, "", false, 0, false, "", "",
                         false, 0, "")])])
  {
    hide Read;
    hide Prints;
    hide PlainWord;
    hide Config;
    var k := Put(Shut, Put(Shut, TheEnd));
    PrintsShut();
    PrintsMark(Shut, Put(Shut, TheEnd), "}");
    PrintsLocation(path, k, "}" + (" " + "}"));
    assert " { " + ("}" + (" " + "}")) == " { } }";
    ReadPrinted(InServer(InLocation(path, k)), "server { location " + (path + " { } }"));
    LocationInServer(path, k, NewLocation(path));
  }

  /** A redirect without a code is a temporary one. */
  lemma RedirectWithoutCode(path: string, url: string)
    requires PlainWord(path) && PlainWord(url)
    ensures Read("server { location " + (path + (" { " + ("redirect " + (url + "; } }"))))) ==
            Some([DefaultServer.(locations := [
                Location(path, ["GET", "POST", "DELETE"], "", false, "index.html", true, url, false, 302, false, "", "",
                         false, 0, "")])])
  {
    hide Read;
    hide Prints;
    hide PlainWord;
    hide Config;
    hide LocationBody;
    var k := Put(Shut, TheEnd);
    var ts := RedirectTo(url, Put(Shut, k));
    var l := NewLocation(path).(isRedirect := true, redirectUrl := url, redirectCode := 302);
    PrintsRedirect(url);
    PrintsLocation(path, ts, "redirect " + (url + "; } }"));
    ReadPrinted(InServer(InLocation(path, ts)),
                "server { location " + (path + (" { " + ("redirect " + (url + "; } }")))));
    Taken(Token(REDIRECT, "redirect"), Put(Str(url), Put(Semi, Put(Shut, k))));
    Taken(Str(url), Put(Semi, Put(Shut, k)));
    Taken(Semi, Put(Shut, k));
    assert LocationDirective(NewLocation(path), ts) == Okay(l, Put(Shut, k));
    LocationStep(NewLocation(path), ts, l, Put(Shut, k));
    LocationShut(l, k);
    LocationInServer(path, ts, l);
  }

  lemma LocationShut(l: Location, k: Ahead)
    ensures LocationBody(l, Put(Shut, k)) == Okay(l, k)
  {
  }

  // ---------------------------------------------------------------- sizes

  /** What one unit stands for, in bytes. */
  predicate UnitBytes(u: char, bytes: nat) {
    (u, bytes) in {('k', 1024), ('K', 1024), ('m', 1024 * 1024), ('M', 1024 * 1024),
                   ('g', 1024 * 1024 * 1024), ('G', 1024 * 1024 * 1024)}
  }

  function SizeLine(n: nat, u: char, k: Ahead): Ahead {
    Put(Token(CLIENT_MAX_BODY_SIZE, "client_max_body_size"),
        Put(Num(n), Put(Token(CLIENT_MAX_BODY_SIZE_MUL, [u]), Put(Semi, k))))
  }

  lemma PrintsNumberUnit(n: nat, u: char)
    requires n <= INT_MAX && u in "kmg"
    ensures var k := Put(Token(CLIENT_MAX_BODY_SIZE_MUL, [u]), Put(Semi, Put(Shut, TheEnd)));
            Prints(Put(Num(n), k), Dec(n) + ([u] + "; }"))
  {
    hide Fine;
    hide Dec;
    hide Render;
    var shut := Put(Shut, TheEnd);
    var unit := Token(CLIENT_MAX_BODY_SIZE_MUL, [u]);
    PrintsShut();
    PrintsMark(Semi, shut, "}");
    assert ";" + (" " + "}") == "; }";
    FineUnit(n, unit, shut);
    RenderPut(unit, Put(Semi, shut));
    RenderPut(Num(n), Put(unit, Put(Semi, shut)));
    assert [u] + ("" + ("; }" + " ")) == [u] + "; }" + " ";
    assert "" + ([u] + "; }" + " ") == [u] + "; }" + " ";
    Assoc(Dec(n), [u] + "; }", " ");
  }

  lemma SizeOfPrinted(n: nat, u: char, bytes: nat)
    requires n <= INT_MAX && if u in "kmg" then UnitBytes(u, bytes) else bytes == 1
    ensures SizeOf(Dec(n), [u]) == n * bytes
  {
    hide Dec;
    hide IntOf;
    DecInt(n);
  }

  lemma SizeDirective(s: ServerConfig, n: nat, u: char, size: nat, k: Ahead)
    requires n <= INT_MAX && SizeOf(Dec(n), [u]) == size
    ensures BodySizeDirective(s, SizeLine(n, u, k)) == Okay(s.(clientMaxBodySize := size), k)
  {
    hide Dec;
    hide Put;
    hide Take;
    hide SizeOf;
    var unit := Token(CLIENT_MAX_BODY_SIZE_MUL, [u]);
    Taken(Token(CLIENT_MAX_BODY_SIZE, "client_max_body_size"), Put(Num(n), Put(unit, Put(Semi, k))));
    Taken(Num(n), Put(unit, Put(Semi, k)));
    Taken(unit, Put(Semi, k));
    Taken(Semi, k);
  }

  /** An upper-case unit that sanitising has not seen behind a digit, because a space stands between, counts for
      nothing. */
  lemma LoneUpperUnit(s: ServerConfig, n: nat, u: char, k: Ahead)
    requires n <= INT_MAX && u in "KMG"
    ensures Classify([u]) == Some(Token(CLIENT_MAX_BODY_SIZE_MUL, [u]))
    ensures BodySizeDirective(s, SizeLine(n, u, k)) == Okay(s.(clientMaxBodySize := n), k)
  {
    hide Dec;
    hide Put;
    hide BodySizeDirective;
    hide SizeOf;
    SizeOfPrinted(n, u, 1);
    SizeDirective(s, n, u, n, k);
  }

  lemma SizeServer(n: nat, u: char, size: nat)
    requires n <= INT_MAX && SizeOf(Dec(n), [u]) == size
    ensures Config(InServer(SizeLine(n, u, Put(Shut, TheEnd)))) == Some([DefaultServer.(clientMaxBodySize := size)])
  {
    hide BodySizeDirective;
    hide Num;
    hide Config;
    hide ServerBody;
    hide SizeOf;
    var k := Put(Shut, TheEnd);
    var ts, s := SizeLine(n, u, k), NewServer.(clientMaxBodySize := size);
    SizeDirective(NewServer, n, u, size, k);
    ServerStep(NewServer, ts, s, k);
    ServerShut(s);
    ConfigOfServer(ts, s);
  }

  lemma PrintsSizeLine(n: nat, u: char)
    requires n <= INT_MAX && u in "kmg"
    ensures Prints(SizeLine(n, u, Put(Shut, TheEnd)), "client_max_body_size " + (Dec(n) + ([u] + "; }")))
  {
    hide Prints;
    hide Dec;
    var text := Dec(n) + ([u] + "; }");
    PrintsNumberUnit(n, u);
    PrintsLine(Token(CLIENT_MAX_BODY_SIZE, "client_max_body_size"), "client_max_body_size ",
               SizeLine(n, u, Put(Shut, TheEnd))[1..], text);
  }

  lemma LowerUnitRead(n: nat, u: char, bytes: nat)
    requires n <= INT_MAX && u in "kmg" && UnitBytes(u, bytes)
    ensures Read("server { client_max_body_size " + (Dec(n) + ([u] + "; }"))) ==
            Some([DefaultServer.(clientMaxBodySize := n * bytes)])
  {
    hide Read;
    hide Prints;
    hide Dec;
    hide Config;
    hide UnitBytes;
    hide InServer;
    PrintsSizeLine(n, u);
    ReadServer(SizeLine(n, u, Put(Shut, TheEnd)), "client_max_body_size ", Dec(n) + ([u] + "; }"));
    assert "server { " + "client_max_body_size " == "server { client_max_body_size ";
    SizeOfPrinted(n, u, bytes);
    SizeServer(n, u, n * bytes);
  }

  lemma SameBehind(lead: string, n: nat, u: char, v: char, tail: string)
    requires SameUnit(u, v)
    ensures SameButUnits(lead + (Dec(n) + ([u] + tail)), lead + (Dec(n) + ([v] + tail)), false)
  {
    hide SameUnit;
    var a, b := lead + (Dec(n) + ([u] + tail)), lead + (Dec(n) + ([v] + tail));
    var m := |lead| + |Dec(n)|;
    assert a[m - 1] == Dec(n)[|Dec(n)| - 1];
    forall i | 0 <= i < |a| ensures SameAt(a, b, false, i) {
    }
  }

  /** Main result on sizes: a printed number with a unit behind it, in either case, is that many units. */
  lemma SizeFromText(n: nat, u: char, bytes: nat)
    requires n <= INT_MAX && UnitBytes(u, bytes)
    ensures Read("server { client_max_body_size " + (Dec(n) + ([u] + "; }"))) ==
            Some([DefaultServer.(clientMaxBodySize := n * bytes)])
  {
    hide Tokens;
    hide Dec;
    hide Config;
    hide SameButUnits;
    hide Rewrite;
    if u in "kmg" {
      LowerUnitRead(n, u, bytes);
    } else {
      var v := ToLower(u);
      LowerUnitRead(n, v, bytes);
      var lead := "server { client_max_body_size ";
      SameBehind(lead, n, u, v, "; }");
      RewriteSame(lead + (Dec(n) + ([u] + "; }")), lead + (Dec(n) + ([v] + "; }")), false);
    }
  }

  // ---------------------------------------------------------------- several codes for one page

  function Decs(codes: seq<nat>): (r: seq<string>)
    ensures |r| == |codes|
    decreases |codes|
  {
    if codes == [] then [] else [Dec(codes[0])] + Decs(codes[1..])
  }

  function PutNums(codes: seq<nat>, k: Ahead): Ahead
    decreases |codes|
  {
    if codes == [] then k else Put(Num(codes[0]), PutNums(codes[1..], k))
  }

  lemma {:induction false} NumsBack(codes: seq<nat>, k: Ahead)
    requires k[0].kind != NUMBER
    ensures Numbers(PutNums(codes, k)) == (Decs(codes), k)
    decreases |codes|
  {
    hide Dec;
    if codes != [] { NumsBack(codes[1..], k); }
  }

  /** The codes, as the short numbers they are kept under, each with the page. */
  function PagesOf(codes: seq<nat>, file: string): map<int, string> {
    map c | c in codes :: ShortOf(c) := file
  }

  lemma PagesStep(pages: map<int, string>, codes: seq<nat>, file: string)
    requires codes != []
    ensures pages[ShortOf(codes[0]) := file] + PagesOf(codes[1..], file) == pages + PagesOf(codes, file)
  {
    hide ShortOf;
    HeadTail(codes);
    assert forall d :: d in codes <==> d == codes[0] || d in codes[1..];
    assert PagesOf(codes, file).Keys == {ShortOf(codes[0])} + PagesOf(codes[1..], file).Keys;
  }

  /** Every code of the line gets the page, and no other code changes. */
  lemma {:induction false} PagesAdded(pages: map<int, string>, codes: seq<nat>, file: string)
    requires forall i :: 0 <= i < |codes| ==> codes[i] <= INT_MAX
    ensures AddPages(pages, Decs(codes), file) == pages + PagesOf(codes, file)
    decreases |codes|
  {
    hide Dec;
    hide IntOf;
    hide ShortOf;
    if codes == [] {
      assert PagesOf(codes, file) == map[];
    } else {
      hide PagesOf;
      DecInt(codes[0]);
      PagesAdded(pages[ShortOf(codes[0]) := file], codes[1..], file);
      PagesStep(pages, codes, file);
    }
  }

  lemma {:induction false} PrintsNums(codes: seq<nat>, k: Ahead, text: string)
    requires forall i :: 0 <= i < |codes| ==> codes[i] <= INT_MAX
    requires Prints(k, text) && k[0].kind == STRING
    ensures Prints(PutNums(codes, k), Terminated(Decs(codes), ' ') + text)
    ensures PutNums(codes, k)[0].kind in {NUMBER, STRING}
    decreases |codes|
  {
    hide Prints;
    hide Dec;
    hide Sound;
    if codes == [] {
      assert "" + text == text;
    } else {
      var d, rest := Dec(codes[0]), Terminated(Decs(codes[1..]), ' ');
      PrintsNums(codes[1..], k, text);
      NumSound(codes[0]);
      PrintsWord(Num(codes[0]), PutNums(codes[1..], k), rest + text);
      Assoc(d + " ", rest, text);
      Assoc(d, " ", rest + text);
    }
  }

  function PageLine(codes: seq<nat>, file: string, k: Ahead): Ahead {
    Put(Token(ERROR_PAGE, "error_page"), PutNums(codes, Put(Str(file), Put(Semi, k))))
  }

  lemma PrintsPage(file: string)
    requires PlainWord(file)
    ensures Prints(Put(Str(file), Put(Semi, Put(Shut, TheEnd))), file + "; }")
  {
    hide Prints;
    hide PlainWord;
    hide Sound;
    PrintsShut();
    PrintsMark(Semi, Put(Shut, TheEnd), "}");
    assert ";" + (" " + "}") == "; }";
    WordSound(file);
    PrintsLast(Str(file), Put(Semi, Put(Shut, TheEnd)), "; }");
  }

  lemma PrintsErrorPage(k: Ahead, text: string)
    requires Prints(k, text) && k[0].kind in {NUMBER, STRING}
    ensures Prints(Put(Token(ERROR_PAGE, "error_page"), k), "error_page " + text)
  {
    hide Prints;
    hide Put;
    PrintsLine(Token(ERROR_PAGE, "error_page"), "error_page ", k, text);
  }

  lemma PrintsPageLine(codes: seq<nat>, file: string)
    requires (forall i :: 0 <= i < |codes| ==> codes[i] <= INT_MAX) && PlainWord(file)
    ensures Prints(PageLine(codes, file, Put(Shut, TheEnd)),
                   "error_page " + (Terminated(Decs(codes), ' ') + (file + "; }")))
  {
    hide Prints;
    hide PlainWord;
    hide PutNums;
    hide Terminated;
    hide Decs;
    hide Put;
    var tail := Put(Str(file), Put(Semi, Put(Shut, TheEnd)));
    PrintsPage(file);
    PrintsNums(codes, tail, file + "; }");
    PrintsErrorPage(PutNums(codes, tail), Terminated(Decs(codes), ' ') + (file + "; }"));
  }

  lemma PageDirective(s: ServerConfig, codes: seq<nat>, file: string, k: Ahead)
    requires forall i :: 0 <= i < |codes| ==> codes[i] <= INT_MAX
    ensures ErrorPageDirective(s, PageLine(codes, file, k)) ==
            Okay(s.(errorPages := s.errorPages + PagesOf(codes, file)), k)
  {
    hide Put;
    hide Take;
    hide PagesOf;
    hide AddPages;
    hide Numbers;
    var tail := Put(Str(file), Put(Semi, k));
    NumsBack(codes, tail);
    PagesAdded(s.errorPages, codes, file);
    Taken(Token(ERROR_PAGE, "error_page"), PutNums(codes, tail));
    Taken(Str(file), Put(Semi, k));
    Taken(Semi, k);
  }

  lemma PageServer(codes: seq<nat>, file: string)
    requires forall i :: 0 <= i < |codes| ==> codes[i] < 32768
    ensures Config(InServer(PageLine(codes, file, Put(Shut, TheEnd)))) ==
            Some([DefaultServer.(errorPages := map c | c in codes :: file)])
  {
    hide Config;
    hide ServerBody;
    hide ErrorPageDirective;
    hide InServer;
    hide PagesOf;
    var k := Put(Shut, TheEnd);
    var ts, s := PageLine(codes, file, k), NewServer.(errorPages := map[] + PagesOf(codes, file));
    PageDirective(NewServer, codes, file, k);
    KeysAreCodes(codes, file);
    ServerStep(NewServer, ts, s, k);
    ServerShut(s);
    ConfigOfServer(ts, s);
  }

  lemma ReadErrorPage(k: Ahead, text: string)
    requires Prints(k, "error_page " + text) && k[0].kind == ERROR_PAGE
    ensures Read("server { error_page " + text) == Config(InServer(k))
  {
    hide Prints;
    hide Read;
    hide Config;
    hide InServer;
    ReadServer(k, "error_page ", text);
    assert "server { " + "error_page " == "server { error_page ";
  }

  /** One error_page line gives all its codes the page. */
  lemma SeveralCodes(codes: seq<nat>, file: string)
    requires (forall i :: 0 <= i < |codes| ==> codes[i] < 32768) && PlainWord(file)
    ensures Read("server { error_page " + (Terminated(Decs(codes), ' ') + (file + "; }"))) ==
            Some([DefaultServer.(errorPages := map c | c in codes :: file)])
  {
    hide Read;
    hide Prints;
    hide PlainWord;
    hide Config;
    hide InServer;
    hide PutNums;
    hide Terminated;
    hide Decs;
    PrintsPageLine(codes, file);
    ReadErrorPage(PageLine(codes, file, Put(Shut, TheEnd)), Terminated(Decs(codes), ' ') + (file + "; }"));
    PageServer(codes, file);
  }

  lemma KeysAreCodes(codes: seq<nat>, file: string)
    requires forall i :: 0 <= i < |codes| ==> codes[i] < 32768
    ensures map[] + PagesOf(codes, file) == map c | c in codes :: file
  {
    assert forall c :: c in codes ==> ShortOf(c) == c;
  }

  // ---------------------------------------------------------------- comments

  lemma {:induction false} SkipLineBehind(s: string, t: string)
    requires '\n' !in s
    ensures SkipLine(s + ("\n" + t)) == t
    decreases |s|
  {
    if s == "" {
      assert "" + ("\n" + t) == "\n" + t;
    } else {
      assert (s + ("\n" + t))[1..] == s[1..] + ("\n" + t);
      SkipLineBehind(s[1..], t);
    }
  }

  /** Up to the first line end nothing behind it matters to the line that is skipped. */
  lemma {:induction false} SkipLineWithin(s: string, t: string)
    requires '\n' in s
    ensures SkipLine(s + t) == SkipLine(s) + t
    decreases |s|
  {
    assert (s + t)[1..] == s[1..] + t;
    if s[0] != '\n' { SkipLineWithin(s[1..], t); }
  }

  lemma {:induction false} SkipSpaceWithin(s: string, t: string)
    ensures SkipSpace(s) != "" ==> SkipSpace(s + t) == SkipSpace(s) + t
    ensures SkipSpace(s) == "" ==> SkipSpace(s + t) == SkipSpace(t)
    decreases |s|
  {
    if s == "" {
      assert s + t == t;
    } else {
      assert (s + t)[1..] == s[1..] + t;
      SkipSpaceWithin(s[1..], t);
    }
  }

  lemma {:induction false} WordWithin(s: string, t: string)
    requires t != "" && IsSpace(t[0])
    ensures WordLength(s + t) == WordLength(s)
    decreases |s|
  {
    if s == "" {
      assert s + t == t;
    } else {
      assert (s + t)[1..] == s[1..] + t;
      WordWithin(s[1..], t);
    }
  }

  /** Two texts that start with a space read alike, and also from within a comment. */
  ghost predicate ReadAlike(t: string, u: string) {
    && t != "" && u != "" && IsSpace(t[0]) && IsSpace(u[0]) && Tokens(t) == Tokens(u)
    && forall s :: '\n' !in s ==> Tokens(SkipLine(s + t)) == Tokens(SkipLine(s + u))
  }

  lemma TokensTurn(s: string)
    requires SkipSpace(s) != ""
    ensures var t := SkipSpace(s);
            var n := WordLength(t);
            n > 0 && Tokens(s) ==
            if t[..n] == "#" then Tokens(SkipLine(t[n..]))
            else if Classify(t[..n]).None? || Tokens(t[n..]).None? then None
            else Some([Classify(t[..n]).value] + Tokens(t[n..]).value)
  {
    hide Classify;
  }

  /** What stands in front does not tell such texts apart. */
  lemma {:induction false} ReadAlikeBehind(s: string, t: string, u: string)
    requires ReadAlike(t, u)
    ensures Tokens(s + t) == Tokens(s + u)
    decreases |s|
  {
    hide Tokens;
    hide Classify;
    hide SkipLine;
    hide WordLength;
    hide SkipSpace;
    var r := SkipSpace(s);
    SkipSpaceWithin(s, t);
    SkipSpaceWithin(s, u);
    if r == "" {
      SkipTwice(s + t);
      SkipTwice(s + u);
      SkipTwice(t);
      SkipTwice(u);
    } else {
      var n := WordLength(r);
      TokensTurn(s + t);
      TokensTurn(s + u);
      WordWithin(r, t);
      WordWithin(r, u);
      AppendCut(r, t, n);
      AppendCut(r, u, n);
      ReadAlikeBehind(r[n..], t, u);
      if '\n' in r[n..] {
        SkipLineWithin(r[n..], t);
        SkipLineWithin(r[n..], u);
        ReadAlikeBehind(SkipLine(r[n..]), t, u);
      }
    }
  }

  /** The text of a comment: the mark standing alone, and the line behind it. */
  function Comment(c: string): string { "# " + c }

  lemma CommentToken(w: string, r: string)
    requires '\n' !in w
    ensures Tokens(Comment(w) + ("\n" + r)) == Tokens(r)
  {
    hide Classify;
    var s := Comment(w) + ("\n" + r);
    var t := w + ("\n" + r);
    assert s[0] == '#' && s[1] == ' ' && s[1..] == " " + t;
    assert WordLength(s[1..]) == 0;
    assert SkipSpace(s) == s && WordLength(s) == 1 && s[..1] == "#";
    SkipLineBehind(" " + w, r);
    assert " " + w + ("\n" + r) == " " + t;
  }

  lemma {:induction false} RewriteAddsNone(afterDigit: bool, c: string, x: char)
    requires x !in c && x in "\n#"
    ensures x !in Rewrite(afterDigit, c)
    decreases |c|
  {
    if c != "" { RewriteAddsNone(IsDigit(c[0]), c[1..], x); }
  }

  lemma SpaceKept(sp: char, s: string, afterDigit: bool)
    requires IsSpace(sp)
    ensures Rewrite(afterDigit, [sp] + s) == [sp] + Rewrite(false, s)
  {
    assert ([sp] + s)[1..] == s;
  }

  lemma CommentRewritten(sp: char, c: string, b: string, afterDigit: bool)
    requires IsSpace(sp)
    ensures Rewrite(afterDigit, [sp] + (Comment(c) + ("\n" + b))) ==
            [sp] + (Comment(Rewrite(false, c)) + ("\n" + Rewrite(false, b)))
  {
    hide Rewrite;
    var t := c + ("\n" + b);
    SpaceKept(sp, Comment(c) + ("\n" + b), afterDigit);
    Assoc("# ", c, "\n" + b);
    Assoc("#", " ", t);
    assert "#" + " " == "# ";
    MarkKept(" " + t);
    SpaceKept(' ', t, false);
    RewriteAppend(false, c, "\n" + b);
    SpaceKept('\n', b, if c == "" then false else EndsInDigit(c));
    Assoc("#", " ", Rewrite(false, c) + ("\n" + Rewrite(false, b)));
    Assoc("# ", Rewrite(false, c), "\n" + Rewrite(false, b));
  }

  lemma MarkKept(s: string)
    ensures Rewrite(false, "#" + s) == "#" + Rewrite(false, s)
  {
    assert ("#" + s)[1..] == s;
  }

  lemma CommentAlike(sp: char, w: string, r: string)
    requires IsSpace(sp) && '\n' !in w
    ensures ReadAlike([sp] + (Comment(w) + ("\n" + r)), "\n" + r)
  {
    hide Tokens;
    var t := Comment(w) + ("\n" + r);
    CommentToken(w, r);
    SpaceSkipped(sp, t);
    SpaceSkipped('\n', r);
    forall s | '\n' !in s ensures Tokens(SkipLine(s + ([sp] + t))) == Tokens(SkipLine(s + ("\n" + r))) {
      SkipLineBehind(s, r);
      if sp == '\n' {
        SkipLineBehind(s, t);
      } else {
        Assoc(s, [sp], t);
        Assoc(s + [sp], Comment(w), "\n" + r);
        SkipLineBehind(s + [sp] + Comment(w), r);
      }
    }
  }

  lemma SpaceSkipped(sp: char, t: string)
    requires IsSpace(sp)
    ensures Tokens([sp] + t) == Tokens(t)
  {
    assert ([sp] + t)[1..] == t;
    assert SkipSpace([sp] + t) == SkipSpace(t);
  }

  /** Comments do not matter: wherever one stands, on a line of its own or behind other words, the configuration reads
      as it does with the comment cut off. */
  lemma CommentsDoNotMatter(a: string, sp: char, c: string, b: string)
    requires IsSpace(sp) && '\n' !in c
    ensures Read(a + ([sp] + (Comment(c) + ("\n" + b)))) == Read(a + ("\n" + b))
  {
    hide Tokens;
    hide Rewrite;
    hide Config;
    hide ReadAlike;
    var d := if a == "" then false else EndsInDigit(a);
    var w, r := Rewrite(false, c), Rewrite(false, b);
    RewriteAppend(false, a, [sp] + (Comment(c) + ("\n" + b)));
    RewriteAppend(false, a, "\n" + b);
    CommentRewritten(sp, c, b, d);
    SpaceKept('\n', b, d);
    RewriteAddsNone(false, c, '\n');
    CommentAlike(sp, w, r);
    ReadAlikeBehind(Rewrite(false, a), [sp] + (Comment(w) + ("\n" + r)), "\n" + r);
  }

  // ---------------------------------------------------------------- negative numbers

  lemma MinusKept(n: nat, b: string)
    ensures Rewrite(false, "-" + (Dec(n) + (" " + b))) == "-" + (Dec(n) + (" " + Rewrite(false, b)))
  {
    hide Dec;
    var t := Dec(n) + (" " + b);
    assert ("-" + t)[1..] == t;
    RewriteAppend(false, Dec(n), " " + b);
    DigitsStay(false, Dec(n));
    SpaceKept(' ', b, EndsInDigit(Dec(n)));
  }

  lemma {:induction false} WordBeforeSpace(w: string, r: string)
    requires forall i :: 0 <= i < |w| ==> !IsSpace(w[i])
    ensures WordLength(w + (" " + r)) == |w|
    decreases |w|
  {
    if w == "" {
      assert w + (" " + r) == " " + r;
    } else {
      assert (w + (" " + r))[1..] == w[1..] + (" " + r);
      WordBeforeSpace(w[1..], r);
    }
  }

  lemma NegativeToken(n: nat, r: string)
    requires 0 < n <= INT_MAX + 1
    ensures Tokens("-" + (Dec(n) + (" " + r))) == None
  {
    hide Dec;
    hide Keyword;
    var w := "-" + Dec(n);
    var s := w + (" " + r);
    Assoc("-", Dec(n), " " + r);
    WordBeforeSpace(w, r);
    AppendParts(w, " " + r);
    assert s[0] == '-' && SkipSpace(s) == s;
    DecValueOf(n);
    assert w[1..] == Dec(n);
    MinusIsNoKeyword(w);
    var v: int := n;
    assert ParseInt(w) == Some(-v);
    assert Classify(w) == None;
  }

  lemma MinusIsNoKeyword(w: string)
    requires w != "" && w[0] == '-'
    ensures Keyword(w) == None && w != "#"
  {
  }

  lemma {:induction false} RefusedBehind(s: string, t: string)
    requires Tokens(t) == None && '#' !in s
    ensures Tokens(s + ([' '] + t)) == None
    decreases |s|
  {
    hide Tokens;
    hide Classify;
    hide WordLength;
    hide SkipSpace;
    var u := [' '] + t;
    SpaceSkipped(' ', t);
    SkipSpaceWithin(s, u);
    SkipTwice(s + u);
    SkipTwice(u);
    var r := SkipSpace(s);
    if r != "" {
      var n := WordLength(r);
      TokensTurn(s + u);
      WordWithin(r, u);
      AppendCut(r, u, n);
      SpacesOnlyDropped(s);
      assert r[0] != '#';
      RefusedBehind(r[n..], t);
    }
  }

  lemma {:induction false} SpacesOnlyDropped(s: string)
    requires '#' !in s
    ensures '#' !in SkipSpace(s)
  {
    if s != "" { SpacesOnlyDropped(s[1..]); }
  }

  /** A negative number is refused wherever it stands as a word outside a comment. */
  lemma NegativeRefused(a: string, n: nat, b: string)
    requires '#' !in a && 0 < n <= INT_MAX + 1
    ensures Read(a + (" -" + (Dec(n) + (" " + b)))) == None
  {
    hide Tokens;
    hide Rewrite;
    hide Dec;
    var d := if a == "" then false else EndsInDigit(a);
    var tail := "-" + (Dec(n) + (" " + b));
    assert " -" + (Dec(n) + (" " + b)) == [' '] + tail;
    RewriteAppend(false, a, [' '] + tail);
    SpaceKept(' ', tail, d);
    RewriteAddsNone(false, a, '#');
    MinusKept(n, b);
    NegativeToken(n, Rewrite(false, b));
    RefusedBehind(Rewrite(false, a), "-" + (Dec(n) + (" " + Rewrite(false, b))));
  }

  // ---------------------------------------------------------------- which words the round trip is about

  predicate Digits(s: string) { forall i :: 0 <= i < |s| ==> '0' <= s[i] <= '9' }

  /** A word that is a number: digits with a sign or without, in the range of a 32-bit int. */
  predicate IntWord(w: string) {
    var digits := if w != "" && (w[0] == '+' || w[0] == '-') then w[1..] else w;
    && digits != "" && Digits(digits)
    && ValueOf(digits, 10) <= if w[0] == '-' then 0x8000_0000 else 0x7FFF_FFFF
  }

  lemma IntWordExactly(w: string)
    ensures ParseInt(w).Some? <==> IntWord(w)
    ensures IntWord(w) ==>
              ParseInt(w).value == if w[0] == '-' then -(ValueOf(w[1..], 10) as int)
              else if w[0] == '+' then ValueOf(w[1..], 10) else ValueOf(w, 10)
  {
    hide ValueOf;
    var digits := if w != "" && (w[0] == '+' || w[0] == '-') then w[1..] else w;
    assert IsNumeric(digits) <==> Digits(digits);
  }

  /** No space, no delimiter, and no unit letter right behind a digit. */
  predicate OneWord(w: string) {
    && (forall i :: 0 <= i < |w| ==> w[i] != ' ' && !(9 <= w[i] as int <= 13) && w[i] !in ";{}")
    && (forall i :: 0 < i < |w| && w[i] in "kmgKMG" ==> !('0' <= w[i - 1] <= '9'))
  }

  const Keywords: set<string> := {
    "server", "listen", "server_name", "root", "error_page", "location", "autoindex", "index", "client_max_body_size",
    "allowed_methods", "redirect", "return", "cgi", "cgi_path", "upload_store" }

  lemma {:induction false} RewriteGrows(afterDigit: bool, s: string)
    ensures |Rewrite(afterDigit, s)| >= |s|
    decreases |s|
  {
    if s != "" { RewriteGrows(IsDigit(s[0]), s[1..]); }
  }

  lemma PieceStays(afterDigit: bool, c: char)
    ensures |Piece(afterDigit, c)| == 1 <==> c !in ";{}" && !(afterDigit && c in "kmgKMG")
    ensures |Piece(afterDigit, c)| == 1 ==> Piece(afterDigit, c) == [c]
    ensures |Piece(afterDigit, c)| in {1, 3}
  {
  }

  predicate Unchanged(afterDigit: bool, w: string) {
    && (forall i :: 0 <= i < |w| ==> w[i] !in ";{}")
    && (w != "" && afterDigit ==> w[0] !in "kmgKMG")
    && (forall i :: 0 < i < |w| && w[i] in "kmgKMG" ==> !('0' <= w[i - 1] <= '9'))
  }

  lemma UnchangedStep(afterDigit: bool, w: string)
    requires w != ""
    ensures Unchanged(afterDigit, w) <==>
            w[0] !in ";{}" && !(afterDigit && w[0] in "kmgKMG") && Unchanged(IsDigit(w[0]), w[1..])
  {
    var t := w[1..];
    if Unchanged(IsDigit(w[0]), t) && w[0] !in ";{}" && !(afterDigit && w[0] in "kmgKMG") {
      forall i | 0 <= i < |w| ensures w[i] !in ";{}" {
        if i > 0 { assert w[i] == t[i - 1]; }
      }
      forall i | 0 < i < |w| && w[i] in "kmgKMG" ensures !('0' <= w[i - 1] <= '9') {
        if i == 1 { assert w[1] == t[0]; } else { assert w[i] == t[i - 1] && w[i - 1] == t[i - 2]; }
      }
    }
    if Unchanged(afterDigit, w) {
      forall i | 0 <= i < |t| ensures t[i] !in ";{}" {
        assert w[i + 1] == t[i];
      }
      forall i | 0 < i < |t| && t[i] in "kmgKMG" ensures !('0' <= t[i - 1] <= '9') {
        assert w[i + 1] == t[i] && w[i] == t[i - 1];
      }
    }
  }

  lemma {:induction false} UnchangedExactly(afterDigit: bool, w: string)
    ensures Rewrite(afterDigit, w) == w <==> Unchanged(afterDigit, w)
    decreases |w|
  {
    if w != "" {
      var r := Rewrite(IsDigit(w[0]), w[1..]);
      UnchangedStep(afterDigit, w);
      PieceStays(afterDigit, w[0]);
      UnchangedExactly(IsDigit(w[0]), w[1..]);
      RewriteGrows(IsDigit(w[0]), w[1..]);
      HeadTail(w);
      if |Piece(afterDigit, w[0])| == 1 {
        assert ([w[0]] + r)[1..] == r;
      }
    }
  }

  lemma CleanExactly(w: string)
    ensures Clean(w) <==> w != "" && OneWord(w)
  {
    hide Rewrite;
    UnchangedExactly(false, w);
  }

  lemma KeywordExactly(w: string)
    ensures Keyword(w).None? <==> w !in Keywords && w !in {"{", "}", ";"}
    ensures Keyword(w).Some? ==> Keyword(w).value != STRING
  {
  }

  /** The words a configuration can be written with: in one piece, and neither a keyword, nor a unit, nor a number, nor
      the mark of a comment. */
  lemma PlainWordExactly(w: string)
    ensures PlainWord(w) <==>
            && w != "" && OneWord(w) && w !in Keywords && w != "#"
            && !(|w| == 1 && w[0] in "kmgKMG") && !IntWord(w)
  {
    hide ParseInt;
    hide IntWord;
    hide Keyword;
    hide Clean;
    CleanExactly(w);
    KeywordExactly(w);
    IntWordExactly(w);
    if w in {"{", "}", ";"} { assert w[0] in ";{}"; }
    if w != "" { UnitLetters(w[0]); }
  }

  lemma UnitLetters(c: char)
    ensures IsSizeMultiplier(c) <==> c in "kmgKMG"
  {
  }
}
