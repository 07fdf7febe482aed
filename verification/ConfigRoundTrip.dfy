/** Configuration text read back: printing servers as text, then sanitising, tokenising and parsing it. */
module ConfigRoundTrip {
  import opened Text
  import opened Numerals
  import opened ConfigTypes
  import opened ConfigText
  import opened ConfigParser

  // ---------------------------------------------------------------- text from tokens

  /** A semicolon and a size unit are written right behind the word in front of them. */
  predicate Glued(t: Token) { t.kind == SEMICOLON || t.kind == CLIENT_MAX_BODY_SIZE_MUL }

  function Gap(ts: seq<Token>): string { if ts != [] && Glued(ts[0]) then "" else " " }

  function Render(ts: seq<Token>): string
    decreases |ts|
  {
    if ts == [] then "" else ts[0].value + (Gap(ts[1..]) + Render(ts[1..]))
  }

  function Values(ts: seq<Token>): seq<string>
    decreases |ts|
  {
    if ts == [] then [] else [ts[0].value] + Values(ts[1..])
  }

  /** A word that sanitising leaves in one piece. */
  predicate Clean(w: string) {
    w != "" && (forall i :: 0 <= i < |w| ==> !IsSpace(w[i])) && Rewrite(false, w) == w
  }

  predicate IsDelimiterKind(k: Kind) { k == SEMICOLON || k == LBRACE || k == RBRACE }

  predicate EndsInDigit(w: string) { w != "" && IsDigit(w[|w| - 1]) }

  /** The token stands by itself in the text; a unit needs a digit in front of it. */
  predicate Stands(t: Token, afterDigit: bool) {
    if IsDelimiterKind(t.kind) then |t.value| == 1 && IsDelimiter(t.value[0])
    else if t.kind == CLIENT_MAX_BODY_SIZE_MUL then
      afterDigit && |t.value| == 1 && IsSizeMultiplier(t.value[0]) && ToLower(t.value[0]) == t.value[0]
    else !afterDigit && Clean(t.value)
  }

  /** Every token can be told from the text, and its word is classified as it. */
  predicate Printable(ts: seq<Token>, afterDigit: bool)
    decreases |ts|
  {
    ts != [] ==>
      && Stands(ts[0], afterDigit) && Classify(ts[0].value) == Some(ts[0]) && ts[0].value != "#"
      && Printable(ts[1..], Gap(ts[1..]) == "" && EndsInDigit(ts[0].value))
  }

  lemma {:induction false} RewriteAppend(afterDigit: bool, a: string, b: string)
    ensures Rewrite(afterDigit, a + b) ==
            Rewrite(afterDigit, a) + Rewrite(if a == "" then afterDigit else EndsInDigit(a), b)
    decreases |a|
  {
    if a == "" {
      assert a + b == b;
    } else {
      assert (a + b)[1..] == a[1..] + b;
      RewriteAppend(IsDigit(a[0]), a[1..], b);
    }
  }

  lemma {:induction false} WordsOfWord(acc: string, w: string, s: string)
    requires forall i :: 0 <= i < |w| ==> !IsSpace(w[i])
    ensures WordsFrom(acc, w + s) == WordsFrom(acc + w, s)
    decreases |w|
  {
    if w == "" {
      assert w + s == s && acc + w == acc;
    } else {
      assert (w + s)[1..] == w[1..] + s;
      WordsOfWord(acc + [w[0]], w[1..], s);
      assert acc + [w[0]] + w[1..] == acc + w;
    }
  }

  /** A word in front of a space is read as it is. */
  lemma WordThenSpace(w: string, s: string)
    requires w != "" && forall i :: 0 <= i < |w| ==> !IsSpace(w[i])
    requires s != "" && IsSpace(s[0])
    ensures Words(w + s) == [w] + Words(s)
  {
    WordsOfWord("", w, s);
    assert "" + w == w;
  }

  lemma SpaceFirst(s: string)
    ensures Words(" " + s) == Words(s)
    ensures forall d :: Rewrite(d, " " + s) == " " + Rewrite(false, s)
  {
    assert (" " + s)[1..] == s;
  }

  /** The text behind a token, rewritten, is again the text of tokens, up to a space. */
  lemma RewriteGap(ts: seq<Token>, w: string)
    ensures var d := Gap(ts) == "" && EndsInDigit(w);
            Words(Rewrite(EndsInDigit(w), Gap(ts) + Render(ts))) == Words(Rewrite(d, Render(ts)))
  {
    hide Rewrite;
    hide Render;
    hide Words;
    hide EndsInDigit;
    if Gap(ts) == "" {
      assert "" + Render(ts) == Render(ts);
    } else {
      SpaceFirst(Render(ts));
      SpaceFirst(Rewrite(false, Render(ts)));
    }
  }

  lemma SingleSpaced(d: char, t: string, afterDigit: bool)
    requires |Piece(afterDigit, d)| == 3 && !IsSpace(d) && ToLower(d) == d
    ensures Words(Rewrite(afterDigit, [d] + t)) == [[d]] + Words(Rewrite(IsDigit(d), t))
    ensures Rewrite(afterDigit, [d] + t) != "" && Rewrite(afterDigit, [d] + t)[0] == ' '
  {
    assert ([d] + t)[1..] == t;
    var r := Rewrite(IsDigit(d), t);
    assert Rewrite(afterDigit, [d] + t) == Piece(afterDigit, d) + r;
    assert [' ', d, ' '] + r == Spaced(d, r);
    WordsSpaced("", d, r);
  }

  /** What follows a clean word starts with a space. */
  lemma GapSpace(ts: seq<Token>, afterDigit: bool)
    requires Printable(ts, Gap(ts) == "" && afterDigit)
    ensures var s := Rewrite(afterDigit, Gap(ts) + Render(ts)); s != "" && IsSpace(s[0])
  {
    if Gap(ts) == "" {
      var t := ts[0];
      assert t.value == [t.value[0]];
      assert Gap(ts) + Render(ts) == [t.value[0]] + (Gap(ts[1..]) + Render(ts[1..]));
      SingleSpaced(t.value[0], Gap(ts[1..]) + Render(ts[1..]), afterDigit);
    } else {
      SpaceFirst(Render(ts));
    }
  }

  /** A token and the text behind it. */
  lemma FirstWord(ts: seq<Token>, afterDigit: bool)
    requires ts != [] && Printable(ts, afterDigit)
    ensures var d := Gap(ts[1..]) == "" && EndsInDigit(ts[0].value);
            Words(Rewrite(afterDigit, Render(ts))) == [ts[0].value] + Words(Rewrite(d, Render(ts[1..])))
  {
    hide Classify;
    hide Rewrite;
    hide Words;
    hide Gap;
    var t, rest := ts[0], ts[1..];
    var tail := Gap(rest) + Render(rest);
    RewriteGap(rest, t.value);
    assert Render(ts) == t.value + tail;
    if IsDelimiterKind(t.kind) || t.kind == CLIENT_MAX_BODY_SIZE_MUL {
      assert t.value == [t.value[0]];
      SingleSpaced(t.value[0], tail, afterDigit);
    } else {
      RewriteAppend(false, t.value, tail);
      GapSpace(rest, EndsInDigit(t.value));
      WordThenSpace(t.value, Rewrite(EndsInDigit(t.value), tail));
    }
  }

  lemma {:induction false} RenderWords(ts: seq<Token>, afterDigit: bool)
    requires Printable(ts, afterDigit)
    ensures Words(Rewrite(afterDigit, Render(ts))) == Values(ts)
    decreases |ts|
  {
    if ts != [] {
      hide Classify;
      hide Stands;
      hide Rewrite;
      hide Words;
      hide Render;
      FirstWord(ts, afterDigit);
      RenderWords(ts[1..], Gap(ts[1..]) == "" && EndsInDigit(ts[0].value));
    }
  }

  lemma {:induction false} PrintableClassified(ts: seq<Token>, afterDigit: bool)
    requires Printable(ts, afterDigit)
    ensures ClassifyAll(Values(ts)) == Some(ts + [EndToken]) && "#" !in Values(ts)
    decreases |ts|
  {
    hide Classify;
    hide Stands;
    hide EndsInDigit;
    if ts != [] {
      PrintableClassified(ts[1..], Gap(ts[1..]) == "" && EndsInDigit(ts[0].value));
      AppendParts([ts[0].value], Values(ts[1..]));
      HeadTail(ts);
      Assoc([ts[0]], ts[1..], [EndToken]);
    } else {
      assert ts + [EndToken] == [EndToken];
    }
  }

  /** Printed tokens are read back by sanitising and tokenising their text. */
  lemma TokensOfRender(ts: seq<Token>)
    requires Printable(ts, false)
    ensures Tokens(Rewrite(false, Render(ts))) == Some(ts + [EndToken])
  {
    hide Printable;
    RenderWords(ts, false);
    PrintableClassified(ts, false);
    TokensAreWords(Rewrite(false, Render(ts)));
  }

  // ---------------------------------------------------------------- numbers

  lemma {:induction false} DigitsStay(afterDigit: bool, s: string)
    requires forall i :: 0 <= i < |s| ==> IsDigit(s[i])
    ensures Rewrite(afterDigit, s) == s
    decreases |s|
  {
    if s != "" {
      DigitsStay(true, s[1..]);
      assert Piece(afterDigit, s[0]) == [s[0]];
      assert s == [s[0]] + s[1..];
    }
  }

  lemma DigitIsNoKeyword(w: string)
    requires w != "" && IsDigit(w[0])
    ensures Keyword(w) == None && w != "#"
  {
  }

  /** A printed number is a NUMBER token with its value. */
  lemma DecIsNumber(n: nat)
    requires n <= INT_MAX
    ensures ParseInt(Dec(n)) == Some(n) && Classify(Dec(n)) == Some(Token(NUMBER, Dec(n)))
    ensures Clean(Dec(n)) && EndsInDigit(Dec(n)) && Dec(n) != "#" && IntOf(Dec(n)) == n
  {
    hide Keyword;
    hide Rewrite;
    var s := Dec(n);
    DecValueOf(n);
    DigitsStay(false, s);
    assert IsDigit(s[0]) && IsDigit(s[|s| - 1]);
    DigitIsNoKeyword(s);
  }

  lemma DecInt(n: nat)
    requires n <= INT_MAX
    ensures IntOf(Dec(n)) == n
  {
    DecIsNumber(n);
  }

  // ---------------------------------------------------------------- printing

  /** A word that is no keyword, number, unit or comment, and that sanitising leaves alone. */
  predicate PlainWord(w: string) {
    Clean(w) && Classify(w) == Some(Token(STRING, w)) && w != "#"
  }

  function Put(t: Token, k: Ahead): (r: Ahead)
    ensures r[0] == t && r[1..] == k && |r| == |k| + 1
  {
    [t] + k
  }

  function Str(w: string): Token { Token(STRING, w) }

  function Num(n: nat): Token { Token(NUMBER, Dec(n)) }

  const Semi: Token := Token(SEMICOLON, ";")
  const Open: Token := Token(LBRACE, "{")
  const Shut: Token := Token(RBRACE, "}")

  function PutStrings(ws: seq<string>, k: Ahead): Ahead
    decreases |ws|
  {
    if ws == [] then k else Put(Str(ws[0]), PutStrings(ws[1..], k))
  }

  function PutSetting(keyword: Token, w: string, k: Ahead): Ahead {
    Put(keyword, Put(Str(w), Put(Semi, k)))
  }

  function PutMethods(l: Location, k: Ahead): Ahead {
    Put(Token(ALLOWED_METHODS, "allowed_methods"), PutStrings(l.allowedMethods, Put(Semi, k)))
  }

  function PutRoot(l: Location, k: Ahead): Ahead {
    if l.root == "" then k else PutSetting(Token(ROOT, "root"), l.root, k)
  }

  function OnOff(b: bool): string { if b then "on" else "off" }

  function PutAutoindex(l: Location, k: Ahead): Ahead {
    PutSetting(Token(AUTOINDEX, "autoindex"), OnOff(l.autoindex), k)
  }

  function PutIndex(l: Location, k: Ahead): Ahead {
    PutSetting(Token(INDEX, "index"), l.index, k)
  }

  function PutRedirect(l: Location, k: Ahead): Ahead {
    if !l.isRedirect || l.redirectCode < 0 then k
    else Put(Token(REDIRECT, "redirect"), Put(Num(l.redirectCode), Put(Str(l.redirectUrl), Put(Semi, k))))
  }

  function PutCgi(l: Location, k: Ahead): Ahead {
    PutSetting(Token(CGI, "cgi"), OnOff(l.useCgi),
               if l.cgiPath == "" then k else PutSetting(Token(CGI_PATH, "cgi_path"), l.cgiPath, k))
  }

  function PutUpload(l: Location, k: Ahead): Ahead {
    if l.uploadStore == "" then k else PutSetting(Token(UPLOAD_STORE, "upload_store"), l.uploadStore, k)
  }

  function PutReturn(l: Location, k: Ahead): Ahead {
    if !l.hasReturn || l.returnCode < 0 then k
    else Put(Token(RETURN, "return"), Put(Num(l.returnCode), PutStrings(Split(l.returnMessage, ' '), Put(Semi, k))))
  }

  function PutLocation(l: Location, k: Ahead): Ahead {
    Put(Token(LOCATION, "location"), Put(Str(l.location), Put(Open, PutSettings(l, Put(Shut, k)))))
  }

  function PutSettings(l: Location, k: Ahead): Ahead {
    PutMethods(l, PutRoot(l, PutAutoindex(l, PutIndex(l, PutRedirect(l, PutCgi(l, PutUpload(l, PutReturn(l, k))))))))
  }

  function PutLocations(ls: seq<Location>, k: Ahead): Ahead
    decreases |ls|
  {
    if ls == [] then k else PutLocation(ls[0], PutLocations(ls[1..], k))
  }

  /** Some key of a map that has one: the pages are printed in any order. */
  ghost function SomeKey(m: map<int, string>): (c: int)
    requires m != map[]
    ensures c in m
  {
    assert m.Items != {};
    var page :| page in m.Items; page.0
  }

  function PutPage(c: nat, file: string, k: Ahead): Ahead {
    Put(Token(ERROR_PAGE, "error_page"), Put(Num(c), Put(Str(file), Put(Semi, k))))
  }

  ghost function PutPages(m: map<int, string>, k: Ahead): Ahead
    decreases |m|
  {
    if m == map[] then k
    else
      var c := SomeKey(m);
      if c < 0 then k else PutPage(c, m[c], PutPages(m - {c}, k))
  }

  /** The largest unit that divides the size. */
  function UnitOf(size: nat): (string, nat) {
    if size % SIZE_GB == 0 then ("g", SIZE_GB) else if size % SIZE_MB == 0 then ("m", SIZE_MB) else ("k", SIZE_KB)
  }

  function PutSize(size: nat, k: Ahead): Ahead {
    var (unit, factor) := UnitOf(size);
    Put(Token(CLIENT_MAX_BODY_SIZE, "client_max_body_size"),
        Put(Num(size / factor), Put(Token(CLIENT_MAX_BODY_SIZE_MUL, unit), Put(Semi, k))))
  }

  ghost function PutServer(s: ServerConfig, k: Ahead): Ahead {
    Put(Token(SERVER, "server"), Put(Open,
      PutListen(s.port, PutNames(s.serverNames, PutSize(s.clientMaxBodySize,
      PutPages(s.errorPages, PutLocations(s.locations, Put(Shut, k))))))))
  }

  ghost function PutServers(ss: seq<ServerConfig>): Ahead
    decreases |ss|
  {
    if ss == [] then [EndToken] else PutServer(ss[0], PutServers(ss[1..]))
  }

  // ---------------------------------------------------------------- what can be written down

  /** The location is one that some location block describes. */
  predicate GoodLocation(l: Location) {
    && PlainWord(l.location) && (forall i :: 0 <= i < |l.allowedMethods| ==> PlainWord(l.allowedMethods[i]))
    && (l.root == "" || PlainWord(l.root)) && PlainWord(l.index)
    && (l.cgiPath == "" || PlainWord(l.cgiPath)) && (l.uploadStore == "" || PlainWord(l.uploadStore))
    && (if l.isRedirect then PlainWord(l.redirectUrl) && 0 <= l.redirectCode <= INT_MAX &&
          l.isRedirectPermanent == (l.redirectCode == 301)
        else l.redirectUrl == "" && l.redirectCode == 0 && !l.isRedirectPermanent)
    && (if l.hasReturn then 0 <= l.returnCode <= INT_MAX && GoodMessage(l.returnMessage)
        else l.returnCode == 0 && l.returnMessage == "")
  }

  /** Words with one space between them. */
  predicate GoodMessage(m: string) {
    && (m != "" ==> m[|m| - 1] != ' ')
    && forall i :: 0 <= i < |Split(m, ' ')| ==> PlainWord(Split(m, ' ')[i])
  }

  predicate GoodServer(s: ServerConfig) {
    && s.host == "0.0.0.0" && s.port <= 65535
    && s.serverNames != [] && (forall i :: 0 <= i < |s.serverNames| ==> PlainWord(s.serverNames[i]))
    && s.clientMaxBodySize % SIZE_KB == 0 && s.clientMaxBodySize / UnitOf(s.clientMaxBodySize).1 <= INT_MAX
    && (forall c :: c in s.errorPages ==> 0 <= c < 32768 && PlainWord(s.errorPages[c]))
    && (forall i :: 0 <= i < |s.locations| ==> GoodLocation(s.locations[i]))
  }

  // ---------------------------------------------------------------- parsing what was printed

  lemma StringsBack(ws: seq<string>, k: Ahead)
    requires k[0].kind != STRING
    ensures Strings(PutStrings(ws, k)) == (ws, k)
    decreases |ws|
  {
    if ws != [] {
      StringsBack(ws[1..], k);
      assert ws == [ws[0]] + ws[1..];
    }
  }

  lemma SettingBack(keyword: Token, w: string, k: Ahead)
    requires keyword.kind != END
    ensures OneString(keyword.kind, PutSetting(keyword, w, k)) == Okay(w, k)
  {
    hide Put;
    hide Take;
    Taken(keyword, Put(Str(w), Put(Semi, k)));
    Taken(Str(w), Put(Semi, k));
    Taken(Semi, k);
  }

  lemma PutSettingKind(keyword: Token, w: string, k: Ahead)
    ensures PutSetting(keyword, w, k)[0] == keyword
  {
  }

  lemma Taken(t: Token, k: Ahead)
    requires t.kind != END
    ensures Take(t.kind, Put(t, k)) == Okay(t.value, k)
  {
  }

  lemma LastCut(lead: string, w: string, t: string)
    requires t != ""
    ensures lead + (w + [' '] + t)[..|w + [' '] + t| - 1] == lead + w + " " + t[..|t| - 1]
  {
    assert (w + [' '] + t)[..|w| + |t|] == w + [' '] + t[..|t| - 1];
  }

  lemma {:induction false} MessageBack(message: string, words: seq<string>)
    requires forall i :: 0 <= i < |words| ==> words[i] != ""
    ensures JoinMessage(message, words) == if words == [] then message
            else (if message == "" then "" else message + " ") + Terminated(words, ' ')[..|Terminated(words, ' ')| - 1]
    decreases |words|
  {
    if words != [] {
      var w, rest := words[0], words[1..];
      var m := if message == "" then w else message + (" " + w);
      var t := Terminated(rest, ' ');
      MessageBack(m, rest);
      assert Terminated(words, ' ') == w + [' '] + t;
      var lead := if message == "" then "" else message + " ";
      assert m == lead + w;
      if rest == [] {
        assert (w + [' '] + t)[..|w|] == w;
      } else {
        LastCut(lead, w, t);
      }
    }
  }

  lemma GoodMessageBack(m: string)
    requires GoodMessage(m)
    ensures JoinMessage("", Split(m, ' ')) == m
  {
    var words := Split(m, ' ');
    MessageBack("", words);
    TerminatedSplit(m, ' ');
    if m != "" {
      assert Terminated(words, ' ') == m + [' '];
      assert "" + (m + [' '])[..|m|] == m;
    }
  }

  // What one directive does; LocationBody and ServerBody then go on with the rest.

  lemma LocationStep(l: Location, ts: Ahead, next: Location, k: Ahead)
    requires ts[0].kind != RBRACE && LocationDirective(l, ts) == Okay(next, k)
    ensures LocationBody(l, ts) == LocationBody(next, k)
  {
    hide LocationDirective;
  }

  lemma ServerStep(s: ServerConfig, ts: Ahead, next: ServerConfig, k: Ahead)
    requires ts[0].kind != RBRACE && ServerDirective(s, ts) == Okay(next, k)
    ensures ServerBody(s, ts) == ServerBody(next, k)
  {
    hide ServerDirective;
  }

  lemma MethodsBack(l: Location, x: Location, k: Ahead)
    ensures LocationBody(l, PutMethods(x, k)) == LocationBody(l.(allowedMethods := x.allowedMethods), k)
  {
    hide LocationBody;
    hide Strings;
    hide PutStrings;
    StringsBack(x.allowedMethods, Put(Semi, k));
    LocationStep(l, PutMethods(x, k), l.(allowedMethods := x.allowedMethods), k);
  }

  lemma RootBack(l: Location, x: Location, k: Ahead)
    ensures LocationBody(l, PutRoot(x, k)) == LocationBody(if x.root == "" then l else l.(root := x.root), k)
  {
    hide LocationBody;
    if x.root != "" {
      SettingBack(Token(ROOT, "root"), x.root, k);
      LocationStep(l, PutRoot(x, k), l.(root := x.root), k);
    }
  }

  lemma OnOffBack(b: bool)
    ensures (OnOff(b) == "on") == b && (OnOff(b) == "on" || OnOff(b) == "off")
  {
    assert "off"[1] != "on"[1];
  }

  lemma AutoindexBack(l: Location, x: Location, k: Ahead)
    ensures LocationBody(l, PutAutoindex(x, k)) == LocationBody(l.(autoindex := x.autoindex), k)
  {
    hide LocationBody;
    hide OneString;
    hide OnOff;
    OnOffBack(x.autoindex);
    SettingBack(Token(AUTOINDEX, "autoindex"), OnOff(x.autoindex), k);
    LocationStep(l, PutAutoindex(x, k), l.(autoindex := x.autoindex), k);
  }

  lemma IndexBack(l: Location, x: Location, k: Ahead)
    ensures LocationBody(l, PutIndex(x, k)) == LocationBody(l.(index := x.index), k)
  {
    hide LocationBody;
    hide OneString;
    SettingBack(Token(INDEX, "index"), x.index, k);
    LocationStep(l, PutIndex(x, k), l.(index := x.index), k);
  }

  lemma RedirectDirectiveBack(l: Location, x: Location, k: Ahead)
    requires x.isRedirect && 0 <= x.redirectCode <= INT_MAX && x.isRedirectPermanent == (x.redirectCode == 301)
    ensures RedirectDirective(l, PutRedirect(x, k)) ==
            Okay(l.(isRedirect := true, redirectUrl := x.redirectUrl, redirectCode := x.redirectCode,
                    isRedirectPermanent := x.isRedirectPermanent), k)
    ensures PutRedirect(x, k)[0].kind == REDIRECT
  {
    hide Dec;
    hide IntOf;
    DecInt(x.redirectCode);
  }

  lemma RedirectBack(l: Location, x: Location, k: Ahead)
    requires x.isRedirect ==> 0 <= x.redirectCode <= INT_MAX && x.isRedirectPermanent == (x.redirectCode == 301)
    ensures LocationBody(l, PutRedirect(x, k)) ==
            LocationBody(if x.isRedirect then
                           l.(isRedirect := true, redirectUrl := x.redirectUrl, redirectCode := x.redirectCode,
                              isRedirectPermanent := x.isRedirectPermanent)
                         else l, k)
  {
    hide LocationBody;
    hide LocationDirective;
    if x.isRedirect { RedirectStep(l, x, k); }
  }

  lemma RedirectStep(l: Location, x: Location, k: Ahead)
    requires x.isRedirect && 0 <= x.redirectCode <= INT_MAX && x.isRedirectPermanent == (x.redirectCode == 301)
    ensures LocationBody(l, PutRedirect(x, k)) ==
            LocationBody(l.(isRedirect := true, redirectUrl := x.redirectUrl, redirectCode := x.redirectCode,
                            isRedirectPermanent := x.isRedirectPermanent), k)
  {
    hide LocationBody;
    hide RedirectDirective;
    hide PutRedirect;
    RedirectDirectiveBack(l, x, k);
    LocationStep(l, PutRedirect(x, k),
                 l.(isRedirect := true, redirectUrl := x.redirectUrl, redirectCode := x.redirectCode,
                    isRedirectPermanent := x.isRedirectPermanent), k);
  }

  lemma CgiPathsBack(l: Location, x: Location, k: Ahead)
    requires k[0].kind != CGI_PATH
    ensures CgiPaths(l, if x.cgiPath == "" then k else PutSetting(Token(CGI_PATH, "cgi_path"), x.cgiPath, k)) ==
            Okay(l.(cgiPath := if x.cgiPath == "" then l.cgiPath else x.cgiPath), k)
  {
  }

  lemma CgiLine(l: Location, on: bool, k: Ahead)
    ensures CgiDirective(l, PutSetting(Token(CGI, "cgi"), OnOff(on), k)) == CgiPaths(l.(useCgi := on), k)
  {
    hide CgiPaths;
    hide OnOff;
    hide Put;
    hide Take;
    OnOffBack(on);
    Taken(Token(CGI, "cgi"), Put(Str(OnOff(on)), Put(Semi, k)));
    Taken(Str(OnOff(on)), Put(Semi, k));
    Taken(Semi, k);
  }

  lemma CgiDirectiveBack(l: Location, x: Location, k: Ahead)
    requires k[0].kind != CGI_PATH
    ensures CgiDirective(l, PutCgi(x, k)) ==
            Okay(l.(useCgi := x.useCgi, cgiPath := if x.cgiPath == "" then l.cgiPath else x.cgiPath), k)
  {
    hide CgiPaths;
    hide CgiDirective;
    hide PutSetting;
    hide OnOff;
    CgiLine(l, x.useCgi, if x.cgiPath == "" then k else PutSetting(Token(CGI_PATH, "cgi_path"), x.cgiPath, k));
    CgiPathsBack(l.(useCgi := x.useCgi), x, k);
  }

  lemma CgiBack(l: Location, x: Location, k: Ahead)
    requires k[0].kind != CGI_PATH
    ensures LocationBody(l, PutCgi(x, k)) ==
            LocationBody(l.(useCgi := x.useCgi, cgiPath := if x.cgiPath == "" then l.cgiPath else x.cgiPath), k)
  {
    hide LocationBody;
    hide CgiDirective;
    hide OneString;
    hide MethodsDirective;
    hide RedirectDirective;
    hide ReturnDirective;
    hide LocalErrorPage;
    hide PutSetting;
    hide OnOff;
    CgiDirectiveBack(l, x, k);
    PutSettingKind(Token(CGI, "cgi"), OnOff(x.useCgi),
                   if x.cgiPath == "" then k else PutSetting(Token(CGI_PATH, "cgi_path"), x.cgiPath, k));
    LocationStep(l, PutCgi(x, k),
                 l.(useCgi := x.useCgi, cgiPath := if x.cgiPath == "" then l.cgiPath else x.cgiPath), k);
  }

  lemma UploadBack(l: Location, x: Location, k: Ahead)
    ensures LocationBody(l, PutUpload(x, k)) ==
            LocationBody(if x.uploadStore == "" then l else l.(uploadStore := x.uploadStore), k)
  {
    hide LocationBody;
    hide LocationDirective;
    if x.uploadStore != "" { UploadStep(l, x.uploadStore, k); }
  }

  lemma UploadStep(l: Location, store: string, k: Ahead)
    ensures LocationBody(l, PutSetting(Token(UPLOAD_STORE, "upload_store"), store, k)) ==
            LocationBody(l.(uploadStore := store), k)
  {
    hide LocationBody;
    hide OneString;
    hide MethodsDirective;
    hide RedirectDirective;
    hide CgiDirective;
    hide ReturnDirective;
    hide LocalErrorPage;
    hide PutSetting;
    SettingBack(Token(UPLOAD_STORE, "upload_store"), store, k);
    PutSettingKind(Token(UPLOAD_STORE, "upload_store"), store, k);
    LocationStep(l, PutSetting(Token(UPLOAD_STORE, "upload_store"), store, k), l.(uploadStore := store), k);
  }

  lemma ReturnDirectiveBack(l: Location, x: Location, k: Ahead)
    requires l.returnMessage == "" && x.hasReturn && 0 <= x.returnCode <= INT_MAX && GoodMessage(x.returnMessage)
    ensures ReturnDirective(l, PutReturn(x, k)) ==
            Okay(l.(hasReturn := true, returnCode := x.returnCode, returnMessage := x.returnMessage), k)
    ensures PutReturn(x, k)[0].kind == RETURN
  {
    hide Dec;
    hide IntOf;
    hide Split;
    hide GoodMessage;
    hide Strings;
    hide PutStrings;
    hide JoinMessage;
    hide Put;
    hide Take;
    DecInt(x.returnCode);
    GoodMessageBack(x.returnMessage);
    var words := Split(x.returnMessage, ' ');
    StringsBack(words, Put(Semi, k));
    Taken(Token(RETURN, "return"), Put(Num(x.returnCode), PutStrings(words, Put(Semi, k))));
    Taken(Num(x.returnCode), PutStrings(words, Put(Semi, k)));
    Taken(Semi, k);
  }

  lemma ReturnBack(l: Location, x: Location, k: Ahead)
    requires l.returnMessage == ""
    requires x.hasReturn ==> 0 <= x.returnCode <= INT_MAX && GoodMessage(x.returnMessage)
    ensures LocationBody(l, PutReturn(x, k)) ==
            LocationBody(if x.hasReturn then
                l.(hasReturn := true, returnCode := x.returnCode, returnMessage := x.returnMessage) else l, k)
  {
    hide LocationBody;
    hide LocationDirective;
    hide GoodMessage;
    if x.hasReturn { ReturnStep(l, x, k); }
  }

  lemma ReturnStep(l: Location, x: Location, k: Ahead)
    requires l.returnMessage == "" && x.hasReturn && 0 <= x.returnCode <= INT_MAX && GoodMessage(x.returnMessage)
    ensures LocationBody(l, PutReturn(x, k)) ==
            LocationBody(l.(hasReturn := true, returnCode := x.returnCode, returnMessage := x.returnMessage), k)
  {
    hide LocationBody;
    hide GoodMessage;
    hide ReturnDirective;
    hide PutReturn;
    ReturnDirectiveBack(l, x, k);
    LocationStep(l, PutReturn(x, k), l.(hasReturn := true, returnCode := x.returnCode,
        returnMessage := x.returnMessage), k);
  }

  lemma NotCgiPath(x: Location, k: Ahead)
    requires k[0].kind != CGI_PATH
    ensures PutUpload(x, PutReturn(x, k))[0].kind != CGI_PATH
  {
  }

  /** A printed location body sets a new location to the printed one. */
  lemma SettingsBack(x: Location, k: Ahead)
    requires GoodLocation(x)
    ensures LocationBody(NewLocation(x.location), PutSettings(x, Put(Shut, k))) == Okay(x, k)
  {
    hide LocationDirective;
    hide PlainWord;
    hide GoodMessage;
    hide PutMethods;
    hide PutRoot;
    hide PutAutoindex;
    hide PutIndex;
    hide PutRedirect;
    hide PutCgi;
    hide PutUpload;
    hide PutReturn;
    var k0 := Put(Shut, k);
    var k1 := PutReturn(x, k0);
    var k2 := PutUpload(x, k1);
    var k3 := PutCgi(x, k2);
    var k4 := PutRedirect(x, k3);
    var k5 := PutIndex(x, k4);
    var k6 := PutAutoindex(x, k5);
    var k7 := PutRoot(x, k6);
    var l0 := NewLocation(x.location);
    var l1 := l0.(allowedMethods := x.allowedMethods);
    var l2 := l1.(root := x.root);
    var l3 := l2.(autoindex := x.autoindex);
    var l4 := l3.(index := x.index);
    var l5 := l4.(isRedirect := x.isRedirect, redirectUrl := x.redirectUrl, redirectCode := x.redirectCode,
                  isRedirectPermanent := x.isRedirectPermanent);
    var l6 := l5.(useCgi := x.useCgi, cgiPath := x.cgiPath);
    var l7 := l6.(uploadStore := x.uploadStore);
    MethodsBack(l0, x, k7);
    RootBack(l1, x, k6);
    AutoindexBack(l2, x, k5);
    IndexBack(l3, x, k4);
    RedirectBack(l4, x, k3);
    NotCgiPath(x, k0);
    CgiBack(l5, x, k2);
    UploadBack(l6, x, k1);
    ReturnBack(l7, x, k0);
    assert LocationBody(x, k0) == Okay(x, k);
  }

  lemma LocationBack(s: ServerConfig, l: Location, k: Ahead)
    requires GoodLocation(l)
    ensures ServerBody(s, PutLocation(l, k)) == ServerBody(s.(locations := s.locations + [l]), k)
  {
    hide GoodLocation;
    hide PutSettings;
    hide LocationBody;
    hide ServerBody;
    SettingsBack(l, k);
    ServerStep(s, PutLocation(l, k), s.(locations := s.locations + [l]), k);
  }

  lemma {:induction false} LocationsBack(s: ServerConfig, ls: seq<Location>, k: Ahead)
    requires forall i :: 0 <= i < |ls| ==> GoodLocation(ls[i])
    ensures ServerBody(s, PutLocations(ls, k)) == ServerBody(s.(locations := s.locations + ls), k)
    decreases |ls|
  {
    hide GoodLocation;
    hide PutLocation;
    hide ServerBody;
    if ls == [] {
      assert s.locations + [] == s.locations;
    } else {
      assert GoodLocation(ls[0]);
      LocationBack(s, ls[0], PutLocations(ls[1..], k));
      LocationsBack(s.(locations := s.locations + [ls[0]]), ls[1..], k);
      assert s.locations + [ls[0]] + ls[1..] == s.locations + ls;
    }
  }

  lemma OneNumber(c: nat, k: Ahead)
    requires k[0].kind != NUMBER
    ensures Numbers(Put(Num(c), k)) == ([Dec(c)], k)
  {
    hide Dec;
    assert Numbers(k) == ([], k);
    assert [Dec(c)] + [] == [Dec(c)];
  }

  lemma OnePage(pages: map<int, string>, c: nat, file: string)
    requires c < 32768
    ensures AddPages(pages, [Dec(c)], file) == pages[c := file]
  {
    hide Dec;
    hide IntOf;
    DecInt(c);
    assert ShortOf(c) == c;
    assert [Dec(c)][1..] == [];
  }

  lemma PageDirectiveBack(s: ServerConfig, c: nat, file: string, k: Ahead)
    requires c < 32768
    ensures ErrorPageDirective(s, PutPage(c, file, k)) == Okay(s.(errorPages := s.errorPages[c := file]), k)
  {
    hide Dec;
    hide Numbers;
    hide AddPages;
    hide Put;
    hide Take;
    Taken(Token(ERROR_PAGE, "error_page"), Put(Num(c), Put(Str(file), Put(Semi, k))));
    Taken(Str(file), Put(Semi, k));
    Taken(Semi, k);
    OneNumber(c, Put(Str(file), Put(Semi, k)));
    OnePage(s.errorPages, c, file);
  }

  lemma PageStarts(c: nat, file: string, k: Ahead)
    ensures PutPage(c, file, k)[0].kind == ERROR_PAGE
  {
  }

  lemma PageBack(s: ServerConfig, c: nat, file: string, k: Ahead)
    requires c < 32768
    ensures ServerBody(s, PutPage(c, file, k)) == ServerBody(s.(errorPages := s.errorPages[c := file]), k)
  {
    hide ServerBody;
    hide ErrorPageDirective;
    hide PutPage;
    PageDirectiveBack(s, c, file, k);
    PageStarts(c, file, k);
    ServerStep(s, PutPage(c, file, k), s.(errorPages := s.errorPages[c := file]), k);
  }

  lemma TakeKey(pages: map<int, string>, m: map<int, string>, c: int)
    requires c in m
    ensures pages[c := m[c]] + (m - {c}) == pages + m && |m - {c}| < |m|
  {
    FewerKeys(m, c);
    assert (pages[c := m[c]] + (m - {c})).Keys == (pages + m).Keys;
  }

  lemma FewerKeys(m: map<int, string>, c: int)
    requires c in m
    ensures |m - {c}| < |m|
  {
    var rest := m - {c};
    assert rest.Keys == m.Keys - {c};
    assert |rest.Keys| == |m.Keys| - 1;
  }

  lemma {:induction false} PagesBack(s: ServerConfig, m: map<int, string>, k: Ahead)
    requires forall c :: c in m ==> 0 <= c < 32768
    ensures ServerBody(s, PutPages(m, k)) == ServerBody(s.(errorPages := s.errorPages + m), k)
    decreases |m|
  {
    hide ServerBody;
    hide PutPage;
    if m == map[] {
      assert s.errorPages + m == s.errorPages;
    } else {
      var c := SomeKey(m);
      var next := s.(errorPages := s.errorPages[c := m[c]]);
      TakeKey(s.errorPages, m, c);
      PageBack(s, c, m[c], PutPages(m - {c}, k));
      PagesBack(next, m - {c}, k);
      assert next.(errorPages := next.errorPages + (m - {c})) == s.(errorPages := s.errorPages + m);
    }
  }

  lemma SizeOfUnit(size: nat)
    requires size % SIZE_KB == 0 && size / UnitOf(size).1 <= INT_MAX
    ensures SizeOf(Dec(size / UnitOf(size).1), UnitOf(size).0) == size
    ensures size < 0x2000_0000_0000_0000
  {
    hide Dec;
    hide IntOf;
    hide ParseInt;
    hide Clean;
    var (unit, factor) := UnitOf(size);
    var n := size / factor;
    assert size == n * factor;
    DecInt(n);
  }

  /** The size is number times unit, and stays below 2^61 since the number fits an int. */
  lemma SizeBack(s: ServerConfig, size: nat, k: Ahead)
    requires size % SIZE_KB == 0 && size / UnitOf(size).1 <= INT_MAX
    ensures ServerBody(s, PutSize(size, k)) == ServerBody(s.(clientMaxBodySize := size), k)
    ensures size < 0x2000_0000_0000_0000
  {
    hide ServerBody;
    hide Dec;
    hide SizeOf;
    hide UnitOf;
    SizeOfUnit(size);
    ServerStep(s, PutSize(size, k), s.(clientMaxBodySize := size), k);
  }

  function PutListen(port: nat, k: Ahead): Ahead {
    Put(Token(LISTEN, "listen"), Put(Num(port), Put(Semi, k)))
  }

  lemma ListenDirectiveBack(s: ServerConfig, port: nat, k: Ahead)
    requires port <= 65535
    ensures ListenDirective(s, PutListen(port, k)) == Okay(s.(host := "0.0.0.0", port := port), k)
    ensures PutListen(port, k)[0].kind == LISTEN
  {
    hide Dec;
    hide PortOf;
    hide Put;
    hide Take;
    DecPort(port);
    Taken(Token(LISTEN, "listen"), Put(Num(port), Put(Semi, k)));
    Taken(Num(port), Put(Semi, k));
    Taken(Semi, k);
  }

  /** A port beyond 16 bits becomes the largest one. */
  lemma DecPort(port: nat)
    requires port <= INT_MAX
    ensures PortOf(Dec(port)) == if port <= 65535 then port else 65535
  {
    hide Dec;
    hide IntOf;
    DecInt(port);
  }

  lemma ListenBack(s: ServerConfig, port: nat, k: Ahead)
    requires port <= 65535
    ensures ServerBody(s, PutListen(port, k)) == ServerBody(s.(host := "0.0.0.0", port := port), k)
  {
    hide ServerBody;
    hide ListenDirective;
    hide PutListen;
    ListenDirectiveBack(s, port, k);
    ServerStep(s, PutListen(port, k), s.(host := "0.0.0.0", port := port), k);
  }

  function PutNames(names: seq<string>, k: Ahead): Ahead {
    Put(Token(SERVER_NAME, "server_name"), PutStrings(names, Put(Semi, k)))
  }

  lemma PutStringsStep(ws: seq<string>, k: Ahead)
    requires ws != []
    ensures PutStrings(ws, k) == Put(Str(ws[0]), PutStrings(ws[1..], k))
  {
  }

  lemma NamesDirectiveBack(s: ServerConfig, names: seq<string>, k: Ahead)
    requires names != []
    ensures ServerNameDirective(s, PutNames(names, k)) == Okay(s.(serverNames := names), k)
    ensures PutNames(names, k)[0].kind == SERVER_NAME
  {
    hide Strings;
    hide PutStrings;
    hide Put;
    hide Take;
    PutStringsStep(names, Put(Semi, k));
    Taken(Token(SERVER_NAME, "server_name"), PutStrings(names, Put(Semi, k)));
    Taken(Str(names[0]), PutStrings(names[1..], Put(Semi, k)));
    StringsBack(names[1..], Put(Semi, k));
    Taken(Semi, k);
    HeadTail(names);
  }

  lemma NamesBack(s: ServerConfig, names: seq<string>, k: Ahead)
    requires names != []
    ensures ServerBody(s, PutNames(names, k)) == ServerBody(s.(serverNames := names), k)
  {
    hide ServerBody;
    hide ServerNameDirective;
    hide PutNames;
    NamesDirectiveBack(s, names, k);
    ServerStep(s, PutNames(names, k), s.(serverNames := names), k);
  }

  lemma ServerBack(s: ServerConfig, k: Ahead)
    requires GoodServer(s)
    ensures ServerBlock(PutServer(s, k)) == Okay(s, k)
  {
    hide ServerDirective;
    hide PlainWord;
    hide PutSize;
    hide PutPages;
    hide PutLocations;
    hide PutListen;
    hide PutNames;
    hide GoodLocation;
    hide UnitOf;
    var k0 := Put(Shut, k);
    var k1 := PutLocations(s.locations, k0);
    var k2 := PutPages(s.errorPages, k1);
    var k3 := PutSize(s.clientMaxBodySize, k2);
    var k4 := PutNames(s.serverNames, k3);
    var s1 := NewServer.(port := s.port);
    var s2 := s1.(serverNames := s.serverNames);
    var s3 := s2.(clientMaxBodySize := s.clientMaxBodySize);
    var s4 := s3.(errorPages := s.errorPages);
    ListenBack(NewServer, s.port, k4);
    NamesBack(s1, s.serverNames, k3);
    SizeBack(s2, s.clientMaxBodySize, k2);
    PagesBack(s3, s.errorPages, k1);
    assert s3.errorPages + s.errorPages == s.errorPages;
    LocationsBack(s4, s.locations, k0);
    assert s4.locations + s.locations == s.locations;
    assert s4.(locations := s.locations) == s;
    assert ServerBody(s, k0) == Okay(s, k);
  }

  lemma ServerStarts(s: ServerConfig, k: Ahead)
    ensures PutServer(s, k)[0].kind == SERVER
  {
  }

  /** Parsing inverts printing. */
  lemma {:induction false} ConfigBack(ss: seq<ServerConfig>)
    requires forall i :: 0 <= i < |ss| ==> GoodServer(ss[i])
    ensures Config(PutServers(ss)) == Some(ss)
    decreases |ss|
  {
    hide GoodServer;
    hide ServerBlock;
    hide PutServer;
    if ss != [] {
      assert GoodServer(ss[0]);
      ServerStarts(ss[0], PutServers(ss[1..]));
      ServerBack(ss[0], PutServers(ss[1..]));
      ConfigBack(ss[1..]);
      assert ss == [ss[0]] + ss[1..];
    }
  }

  // ---------------------------------------------------------------- the printed text can be read

  /** The tokens without the END. */
  function Front(k: Ahead): seq<Token> { k[..|k| - 1] }

  predicate Fine(k: Ahead) { Printable(Front(k), false) }

  /** A token that may stand after a space. */
  predicate Sound(t: Token) {
    Stands(t, false) && Classify(t.value) == Some(t) && t.value != "#"
  }

  lemma FinePut(t: Token, k: Ahead)
    requires Sound(t) && Fine(k)
    ensures Fine(Put(t, k))
  {
    hide Classify;
    hide Clean;
    var f := Front(k);
    assert Front(Put(t, k)) == [t] + f;
    assert ([t] + f)[1..] == f;
    if f != [] && Glued(f[0]) {
      assert f[0].kind == SEMICOLON;
      assert Printable(f, true) == Printable(f, false);
    }
  }

  lemma PunctuationSound()
    ensures Sound(Semi) && Sound(Open) && Sound(Shut)
  {
  }

  lemma {:induction false} LettersStay(s: string)
    requires forall i :: 0 <= i < |s| ==> !IsDigit(s[i]) && !IsDelimiter(s[i])
    ensures Rewrite(false, s) == s
    decreases |s|
  {
    if s != "" {
      LettersStay(s[1..]);
      assert s == [s[0]] + s[1..];
    }
  }

  /** Letters and underscores. */
  predicate Letters(w: string) {
    forall i :: 0 <= i < |w| ==> 'a' <= w[i] <= 'z' || w[i] == '_'
  }

  lemma KeywordSound(t: Token)
    requires Keyword(t.value) == Some(t.kind) && t.value != "" && Letters(t.value)
    requires !IsDelimiterKind(t.kind) && t.kind != CLIENT_MAX_BODY_SIZE_MUL
    ensures Sound(t)
  {
    hide Keyword;
    LettersStay(t.value);
    assert t.value[0] != '#';
  }

  lemma WordSound(w: string)
    ensures PlainWord(w) ==> Sound(Str(w))
  {
    hide Clean;
    hide Classify;
  }

  lemma NumSound(n: nat)
    requires n <= INT_MAX
    ensures Sound(Num(n))
  {
    hide Dec;
    hide Clean;
    DecIsNumber(n);
  }

  lemma FineWord(w: string, k: Ahead)
    requires PlainWord(w) && Fine(k)
    ensures Fine(Put(Str(w), k))
  {
    hide PlainWord;
    hide Fine;
    WordSound(w);
    FinePut(Str(w), k);
  }

  lemma FineNum(n: nat, k: Ahead)
    requires n <= INT_MAX && Fine(k)
    ensures Fine(Put(Num(n), k))
  {
    hide Fine;
    hide Sound;
    NumSound(n);
    FinePut(Num(n), k);
  }

  lemma FineKeyword(t: Token, k: Ahead)
    requires Keyword(t.value) == Some(t.kind) && t.value != "" && Letters(t.value)
    requires !IsDelimiterKind(t.kind) && t.kind != CLIENT_MAX_BODY_SIZE_MUL
    requires Fine(k)
    ensures Fine(Put(t, k))
  {
    hide Fine;
    hide Sound;
    hide Letters;
    KeywordSound(t);
    FinePut(t, k);
  }

  lemma FineMark(t: Token, k: Ahead)
    requires t in {Semi, Open, Shut} && Fine(k)
    ensures Fine(Put(t, k))
  {
    hide Fine;
    hide Sound;
    PunctuationSound();
    FinePut(t, k);
  }

  lemma {:induction false} FineStrings(ws: seq<string>, k: Ahead)
    requires (forall i :: 0 <= i < |ws| ==> PlainWord(ws[i])) && Fine(k)
    ensures Fine(PutStrings(ws, k))
    decreases |ws|
  {
    hide PlainWord;
    hide Fine;
    if ws != [] {
      FineStrings(ws[1..], k);
      FineWord(ws[0], PutStrings(ws[1..], k));
    }
  }

  lemma FineSetting(t: Token, w: string, k: Ahead)
    requires Keyword(t.value) == Some(t.kind) && t.value != "" && Letters(t.value)
    requires !IsDelimiterKind(t.kind) && t.kind != CLIENT_MAX_BODY_SIZE_MUL
    requires PlainWord(w) && Fine(k)
    ensures Fine(PutSetting(t, w, k))
  {
    hide Fine;
    hide PlainWord;
    hide Letters;
    hide Keyword;
    FineMark(Semi, k);
    FineWord(w, Put(Semi, k));
    FineKeyword(t, Put(Str(w), Put(Semi, k)));
  }

  lemma OnOffPlain(b: bool)
    ensures PlainWord(OnOff(b))
  {
    hide PlainWord;
    OnPlain();
    OffPlain();
  }

  lemma OnPlain()
    ensures PlainWord("on")
  {
    LettersStay("on");
  }

  lemma OffPlain()
    ensures PlainWord("off")
  {
    LettersStay("off");
  }

  lemma FineMethods(l: Location, k: Ahead)
    requires GoodLocation(l) && Fine(k)
    ensures Fine(PutMethods(l, k))
  {
    hide Fine;
    hide PlainWord;
    FineMark(Semi, k);
    FineStrings(l.allowedMethods, Put(Semi, k));
    FineKeyword(Token(ALLOWED_METHODS, "allowed_methods"), PutStrings(l.allowedMethods, Put(Semi, k)));
  }

  lemma FineRoot(l: Location, k: Ahead)
    requires GoodLocation(l) && Fine(k)
    ensures Fine(PutRoot(l, k))
  {
    hide Fine;
    hide PlainWord;
    if l.root != "" { FineSetting(Token(ROOT, "root"), l.root, k); }
  }

  lemma FineAutoindex(l: Location, k: Ahead)
    requires Fine(k)
    ensures Fine(PutAutoindex(l, k))
  {
    hide Fine;
    hide PlainWord;
    OnOffPlain(l.autoindex);
    FineSetting(Token(AUTOINDEX, "autoindex"), OnOff(l.autoindex), k);
  }

  lemma FineIndex(l: Location, k: Ahead)
    requires GoodLocation(l) && Fine(k)
    ensures Fine(PutIndex(l, k))
  {
    hide Fine;
    hide PlainWord;
    FineSetting(Token(INDEX, "index"), l.index, k);
  }

  lemma FineRedirect(l: Location, k: Ahead)
    requires GoodLocation(l) && Fine(k)
    ensures Fine(PutRedirect(l, k))
  {
    hide Fine;
    hide PlainWord;
    hide Dec;
    if l.isRedirect {
      var k1 := Put(Semi, k);
      var k2 := Put(Str(l.redirectUrl), k1);
      FineMark(Semi, k);
      FineWord(l.redirectUrl, k1);
      FineNum(l.redirectCode, k2);
      FineKeyword(Token(REDIRECT, "redirect"), Put(Num(l.redirectCode), k2));
    }
  }

  lemma FineCgi(l: Location, k: Ahead)
    requires GoodLocation(l) && Fine(k)
    ensures Fine(PutCgi(l, k))
  {
    hide Fine;
    hide PlainWord;
    OnOffPlain(l.useCgi);
    if l.cgiPath != "" { FineSetting(Token(CGI_PATH, "cgi_path"), l.cgiPath, k); }
    FineSetting(Token(CGI, "cgi"), OnOff(l.useCgi),
                if l.cgiPath == "" then k else PutSetting(Token(CGI_PATH, "cgi_path"), l.cgiPath, k));
  }

  lemma FineUpload(l: Location, k: Ahead)
    requires GoodLocation(l) && Fine(k)
    ensures Fine(PutUpload(l, k))
  {
    hide Fine;
    hide PlainWord;
    if l.uploadStore != "" { FineSetting(Token(UPLOAD_STORE, "upload_store"), l.uploadStore, k); }
  }

  lemma FineReturn(l: Location, k: Ahead)
    requires GoodLocation(l) && Fine(k)
    ensures Fine(PutReturn(l, k))
  {
    hide Fine;
    hide PlainWord;
    hide Dec;
    hide Split;
    hide PutStrings;
    hide JoinMessage;
    if l.hasReturn {
      var words := Split(l.returnMessage, ' ');
      var k1 := PutStrings(words, Put(Semi, k));
      FineMark(Semi, k);
      FineStrings(words, Put(Semi, k));
      FineNum(l.returnCode, k1);
      FineKeyword(Token(RETURN, "return"), Put(Num(l.returnCode), k1));
    }
  }

  lemma FineLocation(l: Location, k: Ahead)
    requires GoodLocation(l) && Fine(k)
    ensures Fine(PutLocation(l, k))
  {
    hide Fine;
    hide PlainWord;
    hide PutMethods;
    hide PutRoot;
    hide PutAutoindex;
    hide PutIndex;
    hide PutRedirect;
    hide PutCgi;
    hide PutUpload;
    hide PutReturn;
    hide GoodMessage;
    var k0 := Put(Shut, k);
    var k1 := PutReturn(l, k0);
    var k2 := PutUpload(l, k1);
    var k3 := PutCgi(l, k2);
    var k4 := PutRedirect(l, k3);
    var k5 := PutIndex(l, k4);
    var k6 := PutAutoindex(l, k5);
    var k7 := PutRoot(l, k6);
    var k8 := PutMethods(l, k7);
    FineMark(Shut, k);
    FineReturn(l, k0);
    FineUpload(l, k1);
    FineCgi(l, k2);
    FineRedirect(l, k3);
    FineIndex(l, k4);
    FineAutoindex(l, k5);
    FineRoot(l, k6);
    FineMethods(l, k7);
    FineMark(Open, k8);
    FineWord(l.location, Put(Open, k8));
    FineKeyword(Token(LOCATION, "location"), Put(Str(l.location), Put(Open, k8)));
  }

  lemma {:induction false} FineLocations(ls: seq<Location>, k: Ahead)
    requires (forall i :: 0 <= i < |ls| ==> GoodLocation(ls[i])) && Fine(k)
    ensures Fine(PutLocations(ls, k))
    decreases |ls|
  {
    hide GoodLocation;
    hide PutLocation;
    hide Fine;
    if ls != [] {
      FineLocations(ls[1..], k);
      FineLocation(ls[0], PutLocations(ls[1..], k));
    }
  }

  lemma FinePage(c: nat, file: string, k: Ahead)
    requires c < 32768 && PlainWord(file) && Fine(k)
    ensures Fine(PutPage(c, file, k))
  {
    hide Fine;
    hide PlainWord;
    hide Dec;
    var k1 := Put(Semi, k);
    var k2 := Put(Str(file), k1);
    FineMark(Semi, k);
    FineWord(file, k1);
    FineNum(c, k2);
    FineKeyword(Token(ERROR_PAGE, "error_page"), Put(Num(c), k2));
  }

  lemma {:induction false} FinePages(m: map<int, string>, k: Ahead)
    requires (forall c :: c in m ==> 0 <= c < 32768 && PlainWord(m[c])) && Fine(k)
    ensures Fine(PutPages(m, k))
    decreases |m|
  {
    hide PlainWord;
    hide PutPage;
    hide Fine;
    if m != map[] {
      var c := SomeKey(m);
      TakeKey(map[], m, c);
      FinePages(m - {c}, k);
      FinePage(c, m[c], PutPages(m - {c}, k));
    }
  }

  lemma UnitStands(t: Token)
    requires t.kind == CLIENT_MAX_BODY_SIZE_MUL && t.value in {"k", "m", "g"}
    ensures Stands(t, true) && Classify(t.value) == Some(t) && t.value != "#" && !EndsInDigit(t.value)
  {
  }

  lemma PrintableMul(t: Token, k: Ahead)
    requires t.kind == CLIENT_MAX_BODY_SIZE_MUL && t.value in {"k", "m", "g"} && Fine(Put(Semi, k))
    ensures Printable(Front(Put(t, Put(Semi, k))), true)
  {
    hide Classify;
    hide Stands;
    UnitStands(t);
    var f := Front(Put(Semi, k));
    assert Front(Put(t, Put(Semi, k))) == [t] + f;
    assert ([t] + f)[1..] == f;
  }

  /** The one place where a unit is written: right behind its number. */
  lemma FineUnit(n: nat, t: Token, k: Ahead)
    requires n <= INT_MAX && t.kind == CLIENT_MAX_BODY_SIZE_MUL && t.value in {"k", "m", "g"} && Fine(k)
    ensures Fine(Put(Num(n), Put(t, Put(Semi, k))))
  {
    hide Dec;
    hide Clean;
    hide Classify;
    hide Stands;
    hide Printable;
    FineMark(Semi, k);
    PrintableMul(t, k);
    NumSound(n);
    DecIsNumber(n);
    PrintableUnit(Num(n), Put(t, Put(Semi, k)));
  }

  lemma PrintableUnit(number: Token, k: Ahead)
    requires Sound(number) && EndsInDigit(number.value) && k[0].kind == CLIENT_MAX_BODY_SIZE_MUL
    requires |k| > 1 && Printable(Front(k), true)
    ensures Fine(Put(number, k))
  {
    hide Classify;
    hide Stands;
    hide EndsInDigit;
    var f := Front(k);
    assert f[0] == k[0];
    assert Front(Put(number, k)) == [number] + f;
    assert ([number] + f)[1..] == f;
  }

  lemma SizeKeywordSound()
    ensures Sound(Token(CLIENT_MAX_BODY_SIZE, "client_max_body_size"))
  {
    KeywordSound(Token(CLIENT_MAX_BODY_SIZE, "client_max_body_size"));
  }

  lemma FineSizeLine(n: nat, unit: string, k: Ahead)
    requires n <= INT_MAX && unit in {"k", "m", "g"} && Fine(k)
    ensures Fine(Put(Token(CLIENT_MAX_BODY_SIZE, "client_max_body_size"),
                     Put(Num(n), Put(Token(CLIENT_MAX_BODY_SIZE_MUL, unit), Put(Semi, k)))))
  {
    hide Num;
    hide Fine;
    hide Sound;
    hide Put;
    var t := Token(CLIENT_MAX_BODY_SIZE_MUL, unit);
    FineUnit(n, t, k);
    SizeKeywordSound();
    FinePut(Token(CLIENT_MAX_BODY_SIZE, "client_max_body_size"), Put(Num(n), Put(t, Put(Semi, k))));
  }

  lemma FineSize(size: nat, k: Ahead)
    requires size / UnitOf(size).1 <= INT_MAX && Fine(k)
    ensures Fine(PutSize(size, k))
  {
    hide Num;
    hide Fine;
    hide Put;
    FineSizeLine(size / UnitOf(size).1, UnitOf(size).0, k);
  }

  lemma FineNames(names: seq<string>, k: Ahead)
    requires (forall i :: 0 <= i < |names| ==> PlainWord(names[i])) && Fine(k)
    ensures Fine(PutNames(names, k))
  {
    hide Fine;
    hide PlainWord;
    FineMark(Semi, k);
    FineStrings(names, Put(Semi, k));
    FineKeyword(Token(SERVER_NAME, "server_name"), PutStrings(names, Put(Semi, k)));
  }

  lemma FineListen(port: nat, k: Ahead)
    requires port <= 65535 && Fine(k)
    ensures Fine(PutListen(port, k))
  {
    hide Fine;
    hide Dec;
    FineMark(Semi, k);
    FineNum(port, Put(Semi, k));
    FineKeyword(Token(LISTEN, "listen"), Put(Num(port), Put(Semi, k)));
  }

  lemma FineServer(s: ServerConfig, k: Ahead)
    requires GoodServer(s) && Fine(k)
    ensures Fine(PutServer(s, k))
  {
    hide Fine;
    hide PlainWord;
    hide PutSize;
    hide PutPages;
    hide PutLocations;
    hide PutNames;
    hide PutListen;
    hide GoodLocation;
    hide UnitOf;
    var k0 := Put(Shut, k);
    var k1 := PutLocations(s.locations, k0);
    var k2 := PutPages(s.errorPages, k1);
    var k3 := PutSize(s.clientMaxBodySize, k2);
    var k4 := PutNames(s.serverNames, k3);
    var k5 := PutListen(s.port, k4);
    FineMark(Shut, k);
    FineLocations(s.locations, k0);
    FinePages(s.errorPages, k1);
    FineSize(s.clientMaxBodySize, k2);
    FineNames(s.serverNames, k3);
    FineListen(s.port, k4);
    FineMark(Open, k5);
    FineKeyword(Token(SERVER, "server"), Put(Open, k5));
  }

  lemma {:induction false} FineServers(ss: seq<ServerConfig>)
    requires forall i :: 0 <= i < |ss| ==> GoodServer(ss[i])
    ensures Fine(PutServers(ss))
    decreases |ss|
  {
    hide GoodServer;
    hide PutServer;
    if ss != [] {
      FineServers(ss[1..]);
      FineServer(ss[0], PutServers(ss[1..]));
    }
  }

  lemma FrontAndEnd(k: Ahead)
    ensures Front(k) + [EndToken] == k
  {
  }

  // ---------------------------------------------------------------- the round trip

  /** The text of a configuration. */
  ghost function Write(ss: seq<ServerConfig>): string {
    Render(Front(PutServers(ss)))
  }

  /** loadConfig after the file is read: sanitise, tokenise, parse. */
  function Read(text: string): Option<seq<ServerConfig>> {
    match Tokens(Rewrite(false, text))
    case None => None
    case Some(ts) => if ts != [] && ts[|ts| - 1] == EndToken then Config(ts) else None
  }

  /** Main result: reading the text of any list of servers that can be written down gives back exactly that list. */
  lemma ConfigRoundTrips(ss: seq<ServerConfig>)
    requires forall i :: 0 <= i < |ss| ==> GoodServer(ss[i])
    ensures Read(Write(ss)) == Some(ss)
  {
    hide GoodServer;
    hide Printable;
    hide PutServers;
    hide Config;
    hide Tokens;
    FineServers(ss);
    TokensOfRender(Front(PutServers(ss)));
    FrontAndEnd(PutServers(ss));
    ConfigBack(ss);
  }
}
