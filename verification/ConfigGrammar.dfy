/** The language of configurations: which token lists the recursive-descent parser accepts
    (srcs/ParseConf/Parser.cpp). */
module ConfigGrammar {
  import opened Text
  import opened ConfigTypes
  import opened ConfigText
  import opened ConfigParser
  import ConfigRoundTrip

  // ---------------------------------------------------------------- the grammar

  /** A line of a location block, by what may vary in it: a keyword, or how many words or lines it has. */
  datatype LocationLine = Setting(keyword: Kind) | LocalPage | Methods(names: nat) | Redirect(coded: bool)
    | CgiLines(paths: nat) | Return(words: nat)

  datatype ServerLine = Listen | ServerNames(more: nat) | ErrorPages(codes: nat) | BodySize
    | LocationLines(lines: seq<LocationLine>)

  function Times(ks: seq<Kind>, n: nat): (r: seq<Kind>)
    ensures |r| == n * |ks|
  {
    if n == 0 then [] else ks + Times(ks, n - 1)
  }

  function LineKinds(l: LocationLine): seq<Kind> {
    match l
    case Setting(keyword) => [keyword, STRING, SEMICOLON]
    case LocalPage => [ERROR_PAGE, NUMBER, STRING, SEMICOLON]
    case Methods(n) => [ALLOWED_METHODS] + (Times([STRING], n) + [SEMICOLON])
    case Redirect(coded) => if coded then [REDIRECT, NUMBER, STRING, SEMICOLON] else [REDIRECT, STRING, SEMICOLON]
    case CgiLines(n) => [CGI, STRING, SEMICOLON] + Times([CGI_PATH, STRING, SEMICOLON], n)
    case Return(n) => [RETURN, NUMBER] + (Times([STRING], n) + [SEMICOLON])
  }

  predicate LineKnown(l: LocationLine) {
    l.Setting? ==> l.keyword in {ROOT, AUTOINDEX, INDEX, UPLOAD_STORE}
  }

  function BodyKinds(ls: seq<LocationLine>): seq<Kind>
    decreases |ls|
  {
    if ls == [] then [RBRACE] else LineKinds(ls[0]) + BodyKinds(ls[1..])
  }

  function ServerLineKinds(l: ServerLine): seq<Kind> {
    match l
    case Listen => [LISTEN, NUMBER, SEMICOLON]
    case ServerNames(n) => [SERVER_NAME, STRING] + (Times([STRING], n) + [SEMICOLON])
    case ErrorPages(n) => [ERROR_PAGE] + (Times([NUMBER], n) + [STRING, SEMICOLON])
    case BodySize => [CLIENT_MAX_BODY_SIZE, NUMBER, CLIENT_MAX_BODY_SIZE_MUL, SEMICOLON]
    case LocationLines(ls) => [LOCATION, STRING, LBRACE] + BodyKinds(ls)
  }

  ghost predicate ServerLineKnown(l: ServerLine) {
    l.LocationLines? ==> forall i :: 0 <= i < |l.lines| ==> LineKnown(l.lines[i])
  }

  function ServerKinds(ls: seq<ServerLine>): seq<Kind>
    decreases |ls|
  {
    if ls == [] then [RBRACE] else ServerLineKinds(ls[0]) + ServerKinds(ls[1..])
  }

  function ConfigKinds(ss: seq<seq<ServerLine>>): seq<Kind>
    decreases |ss|
  {
    if ss == [] then [END] else [SERVER, LBRACE] + (ServerKinds(ss[0]) + ConfigKinds(ss[1..]))
  }

  function KindsOf(ts: seq<Token>): (ks: seq<Kind>)
    ensures |ks| == |ts| && forall i :: 0 <= i < |ts| ==> ks[i] == ts[i].kind
  {
    seq(|ts|, i requires 0 <= i < |ts| => ts[i].kind)
  }

  /** The token behind a `cgi` says on or off. */
  predicate CgiSaysOnOff(ts: seq<Token>) {
    forall i :: 0 <= i < |ts| - 1 && ts[i].kind == CGI ==> ts[i + 1].value == "on" || ts[i + 1].value == "off"
  }

  // ---------------------------------------------------------------- reading a list of kinds

  /** The tokens start with these kinds, and `rest` is what is behind them. */
  predicate Reads(ts: Ahead, ks: seq<Kind>, rest: Ahead) {
    |ks| < |ts| && rest == ts[|ks|..] && KindsOf(ts[..|ks|]) == ks
  }

  /** consume, kind by kind. */
  function Expect(ks: seq<Kind>, ts: Ahead): (r: Option<Ahead>)
    decreases |ks|
  {
    if ks == [] then Some(ts)
    else if ks[0] == END then None
    else
      match Take(ks[0], ts)
      case Fail => None
      case Okay(_, rest) => Expect(ks[1..], rest)
  }

  lemma {:induction false} ExpectReads(ks: seq<Kind>, ts: Ahead, rest: Ahead)
    requires END !in ks
    ensures Expect(ks, ts) == Some(rest) <==> Reads(ts, ks, rest)
    decreases |ks|
  {
    if ks != [] {
      HeadTail(ks);
      TakeReads(ks[0], ts);
      if ts[0].kind == ks[0] {
        ExpectReads(ks[1..], ts[1..], rest);
        if Reads(ts[1..], ks[1..], rest) { ReadsBoth(ts, [ks[0]], ts[1..], ks[1..], rest); }
      }
      if Reads(ts, ks, rest) { ReadsParts(ts, [ks[0]], ks[1..], rest); ReadsOne(ts, ks[0], ts[1..]); }
    }
  }

  lemma {:induction false} ExpectMore(a: seq<Kind>, b: seq<Kind>, ts: Ahead)
    ensures Expect(a + b, ts) == if Expect(a, ts).None? then None else Expect(b, Expect(a, ts).value)
    decreases |a|
  {
    if a == [] {
      assert a + b == b;
    } else {
      assert (a + b)[1..] == a[1..] + b;
      if a[0] != END && Take(a[0], ts).Okay? { ExpectMore(a[1..], b, Take(a[0], ts).rest); }
    }
  }

  lemma ReadsBoth(ts: Ahead, a: seq<Kind>, mid: Ahead, b: seq<Kind>, rest: Ahead)
    requires Reads(ts, a, mid) && Reads(mid, b, rest)
    ensures Reads(ts, a + b, rest)
  {
    var n := |a| + |b|;
    DropDrop(ts, |a|, |b|);
    forall i | 0 <= i < n ensures ts[i].kind == (a + b)[i] {
      if i < |a| { assert ts[..|a|][i] == ts[i]; } else { assert mid[..|b|][i - |a|] == ts[i]; }
    }
    assert KindsOf(ts[..n]) == a + b;
  }

  lemma ReadsParts(ts: Ahead, a: seq<Kind>, b: seq<Kind>, rest: Ahead)
    requires Reads(ts, a + b, rest)
    ensures |a| < |ts| && Reads(ts, a, ts[|a|..]) && Reads(ts[|a|..], b, rest)
  {
    var n := |a| + |b|;
    DropDrop(ts, |a|, |b|);
    forall i | 0 <= i < n ensures ts[i].kind == (a + b)[i] {
      assert ts[..n][i] == ts[i];
    }
    assert ts[|a|..][|ts| - |a| - 1] == EndToken;
    assert KindsOf(ts[..|a|]) == a;
    assert KindsOf(ts[|a|..][..|b|]) == b;
  }

  /** consume reads one kind. */
  lemma TakeReads(kind: Kind, ts: Ahead)
    requires kind != END
    ensures Take(kind, ts).Okay? <==> ts[0].kind == kind
    ensures ts[0].kind == kind ==> |ts| > 1 && Reads(ts, [kind], Take(kind, ts).rest)
  {
    if ts[0].kind == kind {
      assert ts[..1] == [ts[0]];
      assert KindsOf(ts[..1]) == [kind];
    }
  }

  lemma ReadsOne(ts: Ahead, kind: Kind, rest: Ahead)
    requires kind != END && Reads(ts, [kind], rest)
    ensures Take(kind, ts) == Okay(ts[0].value, rest)
  {
    assert ts[..1][0] == ts[0];
  }

  // ---------------------------------------------------------------- the directives

  /** The reply goes on at the same place, or both fail. */
  predicate SameRest<T>(reply: Reply<T>, rest: Option<Ahead>) {
    if reply.Okay? then rest == Some(reply.rest) else rest.None?
  }

  lemma Expect1(a: Kind, ts: Ahead)
    requires a != END
    ensures SameRest(Take(a, ts), Expect([a], ts))
  {
    if Take(a, ts).Okay? { assert [a][1..] == [] && Expect([], Take(a, ts).rest) == Some(Take(a, ts).rest); }
  }

  lemma ExpectNext(a: Kind, ks: seq<Kind>, ts: Ahead)
    requires a != END
    ensures Expect([a] + ks, ts) == if Take(a, ts).Okay? then Expect(ks, Take(a, ts).rest) else None
  {
    assert ([a] + ks)[1..] == ks;
  }

  lemma OneStringReads(k: Kind, ts: Ahead)
    requires k != END
    ensures SameRest(OneString(k, ts), Expect([k, STRING, SEMICOLON], ts))
  {
    hide Take;
    hide Expect;
    assert [k, STRING, SEMICOLON] == [k] + ([STRING] + [SEMICOLON]);
    ExpectNext(k, [STRING] + [SEMICOLON], ts);
    if Take(k, ts).Okay? {
      var t1 := Take(k, ts).rest;
      ExpectNext(STRING, [SEMICOLON], t1);
      if Take(STRING, t1).Okay? { Expect1(SEMICOLON, Take(STRING, t1).rest); }
    }
  }

  /** The words of a list are read greedily. */
  lemma {:induction false} StringsRead(ts: Ahead)
    ensures var (ws, rest) := Strings(ts);
            Expect(Times([STRING], |ws|), ts) == Some(rest) && rest[0].kind != STRING
    decreases |ts|
  {
    if ts[0].kind == STRING {
      StringsRead(ts[1..]);
      ExpectNext(STRING, Times([STRING], |Strings(ts[1..]).0|), ts);
    }
  }

  lemma {:induction false} StringsOnly(ts: Ahead, n: nat, rest: Ahead)
    requires Expect(Times([STRING], n), ts) == Some(rest) && rest[0].kind != STRING
    ensures Strings(ts).1 == rest && |Strings(ts).0| == n
    decreases n
  {
    if n > 0 {
      ExpectNext(STRING, Times([STRING], n - 1), ts);
      StringsOnly(ts[1..], n - 1, rest);
    }
  }

  lemma {:induction false} NumbersRead(ts: Ahead)
    ensures var (ws, rest) := Numbers(ts);
            Expect(Times([NUMBER], |ws|), ts) == Some(rest) && rest[0].kind != NUMBER
    decreases |ts|
  {
    if ts[0].kind == NUMBER {
      NumbersRead(ts[1..]);
      ExpectNext(NUMBER, Times([NUMBER], |Numbers(ts[1..]).0|), ts);
    }
  }

  lemma {:induction false} NumbersOnly(ts: Ahead, n: nat, rest: Ahead)
    requires Expect(Times([NUMBER], n), ts) == Some(rest) && rest[0].kind != NUMBER
    ensures Numbers(ts).1 == rest && |Numbers(ts).0| == n
    decreases n
  {
    if n > 0 {
      ExpectNext(NUMBER, Times([NUMBER], n - 1), ts);
      NumbersOnly(ts[1..], n - 1, rest);
    }
  }

  /** Words up to a semicolon. */
  lemma WordsGiven(ts: Ahead)
    requires Take(SEMICOLON, Strings(ts).1).Okay?
    ensures Expect(Times([STRING], |Strings(ts).0|) + [SEMICOLON], ts) == Some(Take(SEMICOLON, Strings(ts).1).rest)
  {
    hide Take;
    hide Expect;
    var (ws, rest) := Strings(ts);
    StringsRead(ts);
    ExpectMore(Times([STRING], |ws|), [SEMICOLON], ts);
    Expect1(SEMICOLON, rest);
  }

  lemma WordsTaken(ts: Ahead, n: nat, rest: Ahead)
    requires Expect(Times([STRING], n) + [SEMICOLON], ts) == Some(rest)
    ensures SameRest(Take(SEMICOLON, Strings(ts).1), Some(rest)) && |Strings(ts).0| == n
  {
    hide Expect;
    ExpectMore(Times([STRING], n), [SEMICOLON], ts);
    var mid := Expect(Times([STRING], n), ts).value;
    Expect1(SEMICOLON, mid);
    StringsOnly(ts, n, mid);
  }

  lemma LocalErrorPageReads(l: Location, ts: Ahead)
    ensures SameRest(LocalErrorPage(l, ts), Expect([ERROR_PAGE, NUMBER, STRING, SEMICOLON], ts))
  {
    hide Take;
    hide Expect;
    assert [ERROR_PAGE, NUMBER, STRING, SEMICOLON] == [ERROR_PAGE] + [NUMBER, STRING, SEMICOLON];
    ExpectNext(ERROR_PAGE, [NUMBER, STRING, SEMICOLON], ts);
    if Take(ERROR_PAGE, ts).Okay? { OneStringReads(NUMBER, Take(ERROR_PAGE, ts).rest); }
  }

  lemma RedirectIs(l: Location, ts: Ahead)
    requires ts[0].kind == REDIRECT
    ensures var t1 := Take(REDIRECT, ts).rest;
            var t2 := if t1[0].kind == NUMBER then Take(NUMBER, t1).rest else t1;
            SameRest(RedirectDirective(l, ts),
              if Take(STRING, t2).Okay? && Take(SEMICOLON, Take(STRING, t2).rest).Okay?
              then Some(Take(SEMICOLON, Take(STRING, t2).rest).rest) else None)
  {
  }

  lemma {:induction false} RedirectReads(l: Location, ts: Ahead, coded: bool)
    requires ts[0].kind == REDIRECT && coded == (ts[1].kind == NUMBER)
    ensures SameRest(RedirectDirective(l, ts), Expect(LineKinds(Redirect(coded)), ts))
  {
    RedirectIs(l, ts);
    var t1 := Take(REDIRECT, ts).rest;
    if coded {
      assert [REDIRECT, NUMBER, STRING, SEMICOLON] == [REDIRECT] + ([NUMBER] + ([STRING] + [SEMICOLON]));
      ExpectNext(REDIRECT, [NUMBER] + ([STRING] + [SEMICOLON]), ts);
      ExpectNext(NUMBER, [STRING] + [SEMICOLON], t1);
      UrlReads(Take(NUMBER, t1).rest);
    } else {
      assert [REDIRECT, STRING, SEMICOLON] == [REDIRECT] + ([STRING] + [SEMICOLON]);
      ExpectNext(REDIRECT, [STRING] + [SEMICOLON], ts);
      UrlReads(t1);
    }
  }

  lemma UrlReads(ts: Ahead)
    ensures Expect([STRING] + [SEMICOLON], ts) ==
            if Take(STRING, ts).Okay? && Take(SEMICOLON, Take(STRING, ts).rest).Okay?
            then Some(Take(SEMICOLON, Take(STRING, ts).rest).rest) else None
  {
    hide Expect;
    ExpectNext(STRING, [SEMICOLON], ts);
    if Take(STRING, ts).Okay? { Expect1(SEMICOLON, Take(STRING, ts).rest); }
  }

  // ---------------------------------------------------------------- cgi lines

  lemma PathLine(ts: Ahead, n: nat)
    requires n > 0
    ensures Expect(Times([CGI_PATH, STRING, SEMICOLON], n), ts) ==
            if OneString(CGI_PATH, ts).Fail? then None
            else Expect(Times([CGI_PATH, STRING, SEMICOLON], n - 1), OneString(CGI_PATH, ts).rest)
  {
    hide Expect;
    hide OneString;
    OneStringReads(CGI_PATH, ts);
    ExpectMore([CGI_PATH, STRING, SEMICOLON], Times([CGI_PATH, STRING, SEMICOLON], n - 1), ts);
  }

  lemma PathsTurn(l: Location, ts: Ahead)
    requires ts[0].kind == CGI_PATH
    ensures CgiPaths(l, ts) ==
            if OneString(CGI_PATH, ts).Fail? then Fail
            else CgiPaths(l.(cgiPath := OneString(CGI_PATH, ts).value), OneString(CGI_PATH, ts).rest)
  {
  }

  lemma {:induction false} PathsGiven(l: Location, ts: Ahead) returns (n: nat)
    requires CgiPaths(l, ts).Okay?
    ensures Expect(Times([CGI_PATH, STRING, SEMICOLON], n), ts) == Some(CgiPaths(l, ts).rest)
    decreases |ts|
  {
    if ts[0].kind != CGI_PATH {
      n := 0;
    } else {
      hide OneString;
      hide CgiPaths;
      hide Expect;
      PathsTurn(l, ts);
      n := PathsGiven(l.(cgiPath := OneString(CGI_PATH, ts).value), OneString(CGI_PATH, ts).rest);
      n := n + 1;
      PathLine(ts, n);
    }
  }

  lemma {:induction false} PathsTaken(l: Location, ts: Ahead, n: nat, rest: Ahead)
    requires Expect(Times([CGI_PATH, STRING, SEMICOLON], n), ts) == Some(rest) && rest[0].kind != CGI_PATH
    ensures SameRest(CgiPaths(l, ts), Some(rest))
    decreases n
  {
    if n > 0 {
      hide OneString;
      hide CgiPaths;
      hide Expect;
      hide Times;
      PathLine(ts, n);
      PathHead(ts);
      PathsTurn(l, ts);
      PathsTaken(l.(cgiPath := OneString(CGI_PATH, ts).value), OneString(CGI_PATH, ts).rest, n - 1, rest);
    }
  }

  lemma PathHead(ts: Ahead)
    ensures OneString(CGI_PATH, ts).Okay? ==> ts[0].kind == CGI_PATH
  {
  }

  /** The switch is on or off. */
  predicate SaysOnOff(ts: Ahead) {
    ts[0].kind == CGI ==> |ts| > 1 && (ts[1].value == "on" || ts[1].value == "off")
  }

  lemma CgiLineReads(l: Location, ts: Ahead)
    ensures CgiDirective(l, ts).Okay? ==> ts[0].kind == CGI && SaysOnOff(ts) && OneString(CGI, ts).Okay?
    ensures OneString(CGI, ts).Okay? && SaysOnOff(ts) ==>
              CgiDirective(l, ts) ==
              CgiPaths(l.(useCgi := OneString(CGI, ts).value == "on"), OneString(CGI, ts).rest)
  {
    hide CgiPaths;
  }

  lemma CgiGiven(l: Location, ts: Ahead) returns (line: LocationLine)
    requires CgiDirective(l, ts).Okay?
    ensures line.CgiLines? && SaysOnOff(ts) && Expect(LineKinds(line), ts) == Some(CgiDirective(l, ts).rest)
  {
    hide OneString;
    hide CgiPaths;
    hide CgiDirective;
    hide Expect;
    hide SaysOnOff;
    CgiLineReads(l, ts);
    var one := OneString(CGI, ts);
    OneStringReads(CGI, ts);
    var n := PathsGiven(l.(useCgi := one.value == "on"), one.rest);
    line := CgiLines(n);
    ExpectMore([CGI, STRING, SEMICOLON], Times([CGI_PATH, STRING, SEMICOLON], n), ts);
  }

  lemma CgiTaken(l: Location, ts: Ahead, n: nat, rest: Ahead)
    requires SaysOnOff(ts) && Expect(LineKinds(CgiLines(n)), ts) == Some(rest) && rest[0].kind != CGI_PATH
    ensures SameRest(CgiDirective(l, ts), Some(rest)) && ts[0].kind == CGI
  {
    hide OneString;
    hide CgiPaths;
    hide CgiDirective;
    hide Expect;
    hide SaysOnOff;
    CgiLineReads(l, ts);
    ExpectMore([CGI, STRING, SEMICOLON], Times([CGI_PATH, STRING, SEMICOLON], n), ts);
    OneStringReads(CGI, ts);
    var one := OneString(CGI, ts);
    PathsTaken(l.(useCgi := one.value == "on"), one.rest, n, rest);
  }

  // ---------------------------------------------------------------- one line of a location block

  lemma {:induction false} SettingReads(l: Location, ts: Ahead)
    requires ts[0].kind in {ROOT, AUTOINDEX, INDEX, UPLOAD_STORE}
    ensures SameRest(LocationDirective(l, ts), Expect(LineKinds(Setting(ts[0].kind)), ts))
  {
    hide OneString;
    hide Expect;
    OneStringReads(ts[0].kind, ts);
  }

  lemma {:induction false} MethodsGiven(l: Location, ts: Ahead) returns (line: LocationLine)
    requires MethodsDirective(l, ts).Okay?
    ensures line.Methods? && Expect(LineKinds(line), ts) == Some(MethodsDirective(l, ts).rest)
  {
    hide Expect;
    hide Strings;
    var t1 := Take(ALLOWED_METHODS, ts).rest;
    WordsGiven(t1);
    line := Methods(|Strings(t1).0|);
    ExpectNext(ALLOWED_METHODS, Times([STRING], line.names) + [SEMICOLON], ts);
  }

  lemma {:induction false} MethodsTaken(l: Location, ts: Ahead, n: nat, rest: Ahead)
    requires Expect(LineKinds(Methods(n)), ts) == Some(rest)
    ensures SameRest(MethodsDirective(l, ts), Some(rest)) && ts[0].kind == ALLOWED_METHODS
  {
    hide Expect;
    hide Strings;
    ExpectNext(ALLOWED_METHODS, Times([STRING], n) + [SEMICOLON], ts);
    WordsTaken(Take(ALLOWED_METHODS, ts).rest, n, rest);
  }

  lemma {:induction false} ReturnGiven(l: Location, ts: Ahead) returns (line: LocationLine)
    requires ReturnDirective(l, ts).Okay?
    ensures line.Return? && Expect(LineKinds(line), ts) == Some(ReturnDirective(l, ts).rest)
  {
    hide Expect;
    hide Strings;
    hide JoinMessage;
    var t1 := Take(RETURN, ts).rest;
    var t2 := Take(NUMBER, t1).rest;
    WordsGiven(t2);
    line := Return(|Strings(t2).0|);
    var words := Times([STRING], line.words) + [SEMICOLON];
    assert [RETURN, NUMBER] + words == [RETURN] + ([NUMBER] + words);
    ExpectNext(RETURN, [NUMBER] + words, ts);
    ExpectNext(NUMBER, words, t1);
  }

  lemma {:induction false} ReturnTaken(l: Location, ts: Ahead, n: nat, rest: Ahead)
    requires Expect(LineKinds(Return(n)), ts) == Some(rest)
    ensures SameRest(ReturnDirective(l, ts), Some(rest)) && ts[0].kind == RETURN
  {
    hide Expect;
    hide Strings;
    hide JoinMessage;
    var words := Times([STRING], n) + [SEMICOLON];
    assert [RETURN, NUMBER] + words == [RETURN] + ([NUMBER] + words);
    ExpectNext(RETURN, [NUMBER] + words, ts);
    var t1 := Take(RETURN, ts).rest;
    ExpectNext(NUMBER, words, t1);
    WordsTaken(Take(NUMBER, t1).rest, n, rest);
  }

  /** What a turn of the loop of parseLocationBlock accepts is a line. */
  lemma {:induction false} LineGiven(l: Location, ts: Ahead) returns (line: LocationLine)
    requires LocationDirective(l, ts).Okay?
    ensures LineKnown(line) && SaysOnOff(ts) && Expect(LineKinds(line), ts) == Some(LocationDirective(l, ts).rest)
  {
    hide Expect;
    hide LocalErrorPage;
    hide RedirectDirective;
    hide CgiDirective;
    hide MethodsDirective;
    hide ReturnDirective;
    var kind := ts[0].kind;
    line := Setting(kind);
    if kind == ERROR_PAGE {
      LocalErrorPageReads(l, ts);
      line := LocalPage;
    } else if kind == ALLOWED_METHODS {
      line := MethodsGiven(l, ts);
    } else if kind == REDIRECT {
      line := Redirect(ts[1].kind == NUMBER);
      RedirectReads(l, ts, line.coded);
    } else if kind == CGI {
      line := CgiGiven(l, ts);
    } else if kind == RETURN {
      line := ReturnGiven(l, ts);
    } else {
      SettingReads(l, ts);
    }
  }

  lemma {:induction false} ExpectHead(ks: seq<Kind>, ts: Ahead)
    requires ks != [] && Expect(ks, ts).Some?
    ensures ts[0].kind == ks[0] && ts[0].kind != END
  {
  }

  lemma {:induction false} CodedSeen(ts: Ahead, coded: bool)
    requires Expect(LineKinds(Redirect(coded)), ts).Some?
    ensures ts[0].kind == REDIRECT && coded == (ts[1].kind == NUMBER)
  {
    if coded {
      assert [REDIRECT, NUMBER, STRING, SEMICOLON] == [REDIRECT] + [NUMBER, STRING, SEMICOLON];
      ExpectNext(REDIRECT, [NUMBER, STRING, SEMICOLON], ts);
      ExpectHead([NUMBER, STRING, SEMICOLON], ts[1..]);
    } else {
      assert [REDIRECT, STRING, SEMICOLON] == [REDIRECT] + [STRING, SEMICOLON];
      ExpectNext(REDIRECT, [STRING, SEMICOLON], ts);
      ExpectHead([STRING, SEMICOLON], ts[1..]);
    }
  }

  /** And every line is accepted. */
  lemma {:induction false} LineTaken(l: Location, ts: Ahead, line: LocationLine, rest: Ahead)
    requires LineKnown(line) && SaysOnOff(ts) && Expect(LineKinds(line), ts) == Some(rest) && rest[0].kind != CGI_PATH
    ensures SameRest(LocationDirective(l, ts), Some(rest)) && ts[0].kind != RBRACE
  {
    hide Expect;
    hide LocalErrorPage;
    hide RedirectDirective;
    hide CgiDirective;
    hide MethodsDirective;
    hide ReturnDirective;
    ExpectHead(LineKinds(line), ts);
    match line
    case Setting(_) => SettingReads(l, ts);
    case LocalPage => LocalErrorPageReads(l, ts);
    case Methods(n) => MethodsTaken(l, ts, n, rest);
    case Redirect(coded) =>
      CodedSeen(ts, coded);
      RedirectReads(l, ts, coded);
    case CgiLines(n) => CgiTaken(l, ts, n, rest);
    case Return(n) => ReturnTaken(l, ts, n, rest);
  }

  // ---------------------------------------------------------------- the whole location block

  ghost predicate LinesKnown(ls: seq<LocationLine>) {
    forall i :: 0 <= i < |ls| ==> LineKnown(ls[i])
  }

  /** Every `cgi` in the tokens up to `rest` says on or off. */
  predicate OnOffUpTo(ts: Ahead, rest: Ahead) {
    |rest| <= |ts| && forall i :: 0 <= i < |ts| - |rest| ==> SaysOnOff(ts[i..])
  }

  lemma {:induction false} OnOffBoth(ts: Ahead, mid: Ahead, rest: Ahead)
    requires |rest| <= |mid| <= |ts| && mid == ts[|ts| - |mid|..]
    ensures OnOffUpTo(ts, rest) <==> OnOffUpTo(ts, mid) && OnOffUpTo(mid, rest)
  {
    hide SaysOnOff;
    var n := |ts| - |mid|;
    forall i | 0 <= i < |mid| - |rest| ensures mid[i..] == ts[n + i..] {
      DropDrop(ts, n, i);
    }
    if OnOffUpTo(ts, mid) && OnOffUpTo(mid, rest) {
      forall i | 0 <= i < |ts| - |rest| ensures SaysOnOff(ts[i..]) {
        if i >= n { assert mid[i - n..] == ts[i..]; }
      }
    }
    if OnOffUpTo(ts, rest) {
      forall i | 0 <= i < |mid| - |rest| ensures SaysOnOff(mid[i..]) {
        assert SaysOnOff(ts[n + i..]);
      }
    }
  }

  /** Within a line only its first token can be a `cgi`. */
  lemma {:induction false} OnOffInLine(ts: Ahead, ks: seq<Kind>, rest: Ahead)
    requires ks != [] && END !in ks && CGI !in ks[1..] && Expect(ks, ts) == Some(rest)
    ensures OnOffUpTo(ts, rest) <==> SaysOnOff(ts)
    ensures |rest| < |ts| && rest == ts[|ts| - |rest|..]
  {
    ExpectReads(ks, ts, rest);
    forall i | 0 < i < |ks| ensures ts[i..][0].kind != CGI {
      assert ts[..|ks|][i] == ts[i];
      assert ks[1..][i - 1] == ks[i];
    }
    assert ts[0..] == ts;
  }

  lemma {:induction false} TimesHas(ks: seq<Kind>, n: nat, k: Kind)
    requires k !in ks
    ensures k !in Times(ks, n)
    decreases n
  {
    if n > 0 { TimesHas(ks, n - 1, k); }
  }

  lemma {:induction false} LineShape(line: LocationLine)
    requires LineKnown(line)
    ensures var ks := LineKinds(line);
            ks != [] && END !in ks && CGI !in ks[1..] && ks[0] !in {RBRACE, CGI_PATH}
  {
    match line
    case Methods(n) =>
      TimesHas([STRING], n, END);
      TimesHas([STRING], n, CGI);
    case CgiLines(n) =>
      TimesHas([CGI_PATH, STRING, SEMICOLON], n, END);
      TimesHas([CGI_PATH, STRING, SEMICOLON], n, CGI);
    case Return(n) =>
      TimesHas([STRING], n, END);
      TimesHas([STRING], n, CGI);
    case _ =>
  }

  lemma {:induction false} BodyTurn(l: Location, ts: Ahead)
    ensures ts[0].kind == RBRACE ==> LocationBody(l, ts).Okay? && LocationBody(l, ts).rest == ts[1..]
    ensures ts[0].kind != RBRACE ==>
              var next := LocationDirective(l, ts);
              if next.Fail? then LocationBody(l, ts).Fail?
              else LocationBody(l, ts) == LocationBody(next.value, next.rest)
  {
    hide LocationDirective;
  }

  lemma {:induction false} BraceCloses(ts: Ahead)
    requires ts[0].kind == RBRACE
    ensures Expect([RBRACE], ts) == Some(ts[1..]) && OnOffUpTo(ts, ts[1..])
  {
    Expect1(RBRACE, ts);
    OnOffInLine(ts, [RBRACE], ts[1..]);
  }

  lemma {:induction false} LinesJoin(ts: Ahead, line: LocationLine, mid: Ahead, more: seq<LocationLine>, rest: Ahead)
    requires LineKnown(line) && SaysOnOff(ts) && Expect(LineKinds(line), ts) == Some(mid)
    requires LinesKnown(more) && Expect(BodyKinds(more), mid) == Some(rest)
    requires OnOffUpTo(mid, rest) && |rest| <= |mid| && rest == mid[|mid| - |rest|..]
    ensures LinesKnown([line] + more) && Expect(BodyKinds([line] + more), ts) == Some(rest)
    ensures OnOffUpTo(ts, rest) && |rest| <= |ts| && rest == ts[|ts| - |rest|..]
  {
    hide Expect;
    hide OnOffUpTo;
    hide LineKinds;
    hide LineKnown;
    hide SaysOnOff;
    LineShape(line);
    OnOffInLine(ts, LineKinds(line), mid);
    OnOffBoth(ts, mid, rest);
    ExpectMore(LineKinds(line), BodyKinds(more), ts);
    assert ([line] + more)[1..] == more;
    DropDropEnd(ts, mid, rest);
  }

  lemma {:induction false} BodyGiven(l: Location, ts: Ahead) returns (lines: seq<LocationLine>)
    requires LocationBody(l, ts).Okay?
    ensures LinesKnown(lines) && Expect(BodyKinds(lines), ts) == Some(LocationBody(l, ts).rest)
    ensures OnOffUpTo(ts, LocationBody(l, ts).rest)
    ensures var rest := LocationBody(l, ts).rest; |rest| <= |ts| && rest == ts[|ts| - |rest|..]
    decreases |ts|
  {
    hide LocationDirective;
    hide LocationBody;
    hide Expect;
    hide OnOffUpTo;
    hide LineKinds;
    hide LineKnown;
    hide SaysOnOff;
    BodyTurn(l, ts);
    if ts[0].kind == RBRACE {
      lines := [];
      BraceCloses(ts);
    } else {
      var line := LineGiven(l, ts);
      var next := LocationDirective(l, ts);
      var more := BodyGiven(next.value, next.rest);
      lines := [line] + more;
      LinesJoin(ts, line, next.rest, more, LocationBody(l, ts).rest);
    }
  }

  lemma {:induction false} DropDropEnd(ts: Ahead, mid: Ahead, rest: Ahead)
    requires |rest| <= |mid| <= |ts| && mid == ts[|ts| - |mid|..] && rest == mid[|mid| - |rest|..]
    ensures rest == ts[|ts| - |rest|..]
  {
    DropDrop(ts, |ts| - |mid|, |mid| - |rest|);
  }

  lemma {:induction false} BodyTaken(l: Location, ts: Ahead, lines: seq<LocationLine>, rest: Ahead)
    requires LinesKnown(lines) && Expect(BodyKinds(lines), ts) == Some(rest) && OnOffUpTo(ts, rest)
    ensures SameRest(LocationBody(l, ts), Some(rest))
    decreases |lines|
  {
    hide LocationDirective;
    hide Expect;
    hide OnOffUpTo;
    if lines == [] {
      Expect1(RBRACE, ts);
    } else {
      ExpectMore(LineKinds(lines[0]), BodyKinds(lines[1..]), ts);
      var mid := Expect(LineKinds(lines[0]), ts).value;
      LineShape(lines[0]);
      OnOffInLine(ts, LineKinds(lines[0]), mid);
      NextStarts(lines[1..], mid);
      ExpectShrinks(BodyKinds(lines[1..]), mid);
      OnOffBoth(ts, mid, rest);
      LineTaken(l, ts, lines[0], mid);
      BodyTaken(LocationDirective(l, ts).value, mid, lines[1..], rest);
    }
  }

  lemma {:induction false} NextStarts(lines: seq<LocationLine>, ts: Ahead)
    requires LinesKnown(lines) && Expect(BodyKinds(lines), ts).Some?
    ensures ts[0].kind != CGI_PATH
  {
    if lines != [] { LineShape(lines[0]); }
    ExpectHead(BodyKinds(lines), ts);
  }

  lemma {:induction false} ExpectShrinks(ks: seq<Kind>, ts: Ahead)
    requires Expect(ks, ts).Some?
    ensures var rest := Expect(ks, ts).value; |rest| == |ts| - |ks| && rest == ts[|ks|..]
    decreases |ks|
  {
    if ks != [] { ExpectShrinks(ks[1..], Take(ks[0], ts).rest); }
  }

  // ---------------------------------------------------------------- one line of a server block

  /** The opening of a location block. */
  lemma {:induction false} OpeningReads(ts: Ahead)
    ensures Expect([LOCATION, STRING, LBRACE], ts) ==
            if Take(LOCATION, ts).Fail? then None
            else if Take(STRING, Take(LOCATION, ts).rest).Fail? then None
            else
              var t3 := Take(LBRACE, Take(STRING, Take(LOCATION, ts).rest).rest);
              if t3.Fail? then None else Some(t3.rest)
  {
    hide Take;
    hide Expect;
    assert [LOCATION, STRING, LBRACE] == [LOCATION] + ([STRING] + [LBRACE]);
    ExpectNext(LOCATION, [STRING] + [LBRACE], ts);
    if Take(LOCATION, ts).Okay? {
      var t1 := Take(LOCATION, ts).rest;
      ExpectNext(STRING, [LBRACE], t1);
      if Take(STRING, t1).Okay? { Expect1(LBRACE, Take(STRING, t1).rest); }
    }
  }

  lemma {:induction false} BlockIs(s: ServerConfig, ts: Ahead)
    ensures var open := Expect([LOCATION, STRING, LBRACE], ts);
            if open.None? then LocationBlock(s, ts).Fail?
            else
              && |ts| > 1
              && var body := LocationBody(NewLocation(ts[1].value), open.value);
                 SameRest(LocationBlock(s, ts), if body.Okay? then Some(body.rest) else None)
  {
    hide Expect;
    hide LocationBody;
    OpeningReads(ts);
  }

  lemma {:induction false} OpeningOnOff(ts: Ahead, mid: Ahead)
    requires Expect([LOCATION, STRING, LBRACE], ts) == Some(mid)
    ensures OnOffUpTo(ts, mid) && |mid| < |ts| && mid == ts[|ts| - |mid|..]
  {
    hide Expect;
    OnOffInLine(ts, [LOCATION, STRING, LBRACE], mid);
    ExpectHead([LOCATION, STRING, LBRACE], ts);
  }

  lemma {:induction false} BlockGiven(s: ServerConfig, ts: Ahead) returns (line: ServerLine)
    requires LocationBlock(s, ts).Okay?
    ensures ServerLineKnown(line) && Expect(ServerLineKinds(line), ts) == Some(LocationBlock(s, ts).rest)
    ensures OnOffUpTo(ts, LocationBlock(s, ts).rest)
    ensures var rest := LocationBlock(s, ts).rest; |rest| < |ts| && rest == ts[|ts| - |rest|..]
  {
    hide Expect;
    hide LocationBody;
    hide LocationBlock;
    hide OnOffUpTo;
    BlockIs(s, ts);
    var mid := Expect([LOCATION, STRING, LBRACE], ts).value;
    var lines := BodyGiven(NewLocation(ts[1].value), mid);
    line := LocationLines(lines);
    OpeningOnOff(ts, mid);
    ExpectMore([LOCATION, STRING, LBRACE], BodyKinds(lines), ts);
    OnOffBoth(ts, mid, LocationBlock(s, ts).rest);
    DropDropEnd(ts, mid, LocationBlock(s, ts).rest);
  }

  lemma {:induction false} BlockTaken(s: ServerConfig, ts: Ahead, lines: seq<LocationLine>, rest: Ahead)
    requires LinesKnown(lines) && Expect(ServerLineKinds(LocationLines(lines)), ts) == Some(rest) && OnOffUpTo(ts, rest)
    ensures SameRest(LocationBlock(s, ts), Some(rest)) && ts[0].kind == LOCATION
  {
    hide Expect;
    hide LocationBody;
    hide LocationBlock;
    hide OnOffUpTo;
    ExpectMore([LOCATION, STRING, LBRACE], BodyKinds(lines), ts);
    ExpectHead([LOCATION, STRING, LBRACE] + BodyKinds(lines), ts);
    var mid := Expect([LOCATION, STRING, LBRACE], ts).value;
    BlockIs(s, ts);
    OpeningOnOff(ts, mid);
    ExpectShrinks(BodyKinds(lines), mid);
    OnOffBoth(ts, mid, rest);
    BodyTaken(NewLocation(ts[1].value), mid, lines, rest);
  }

  lemma {:induction false} ListenReads(s: ServerConfig, ts: Ahead)
    ensures SameRest(ListenDirective(s, ts), Expect([LISTEN, NUMBER, SEMICOLON], ts))
  {
    hide Take;
    hide Expect;
    hide PortOf;
    assert [LISTEN, NUMBER, SEMICOLON] == [LISTEN] + ([NUMBER] + [SEMICOLON]);
    ExpectNext(LISTEN, [NUMBER] + [SEMICOLON], ts);
    if Take(LISTEN, ts).Okay? {
      var t1 := Take(LISTEN, ts).rest;
      ExpectNext(NUMBER, [SEMICOLON], t1);
      if Take(NUMBER, t1).Okay? { Expect1(SEMICOLON, Take(NUMBER, t1).rest); }
    }
  }

  lemma {:induction false} BodySizeReads(s: ServerConfig, ts: Ahead)
    ensures SameRest(BodySizeDirective(s, ts), Expect(ServerLineKinds(BodySize), ts))
  {
    hide Take;
    hide Expect;
    hide SizeOf;
    var k, u := CLIENT_MAX_BODY_SIZE, CLIENT_MAX_BODY_SIZE_MUL;
    assert [k, NUMBER, u, SEMICOLON] == [k] + ([NUMBER] + ([u] + [SEMICOLON]));
    ExpectNext(k, [NUMBER] + ([u] + [SEMICOLON]), ts);
    if Take(k, ts).Okay? {
      var t1 := Take(k, ts).rest;
      ExpectNext(NUMBER, [u] + [SEMICOLON], t1);
      if Take(NUMBER, t1).Okay? {
        var t2 := Take(NUMBER, t1).rest;
        ExpectNext(u, [SEMICOLON], t2);
        if Take(u, t2).Okay? { Expect1(SEMICOLON, Take(u, t2).rest); }
      }
    }
  }

  lemma {:induction false} NamesGiven(s: ServerConfig, ts: Ahead) returns (line: ServerLine)
    requires ServerNameDirective(s, ts).Okay?
    ensures line.ServerNames? && Expect(ServerLineKinds(line), ts) == Some(ServerNameDirective(s, ts).rest)
  {
    hide Expect;
    hide Strings;
    var t1 := Take(SERVER_NAME, ts).rest;
    var t2 := Take(STRING, t1).rest;
    WordsGiven(t2);
    line := ServerNames(|Strings(t2).0|);
    var words := Times([STRING], line.more) + [SEMICOLON];
    assert [SERVER_NAME, STRING] + words == [SERVER_NAME] + ([STRING] + words);
    ExpectNext(SERVER_NAME, [STRING] + words, ts);
    ExpectNext(STRING, words, t1);
  }

  lemma {:induction false} NamesTaken(s: ServerConfig, ts: Ahead, n: nat, rest: Ahead)
    requires Expect(ServerLineKinds(ServerNames(n)), ts) == Some(rest)
    ensures SameRest(ServerNameDirective(s, ts), Some(rest)) && ts[0].kind == SERVER_NAME
  {
    hide Expect;
    hide Strings;
    var words := Times([STRING], n) + [SEMICOLON];
    assert [SERVER_NAME, STRING] + words == [SERVER_NAME] + ([STRING] + words);
    ExpectNext(SERVER_NAME, [STRING] + words, ts);
    var t1 := Take(SERVER_NAME, ts).rest;
    ExpectNext(STRING, words, t1);
    WordsTaken(Take(STRING, t1).rest, n, rest);
  }

  lemma {:induction false} PagesGiven(s: ServerConfig, ts: Ahead) returns (line: ServerLine)
    requires ErrorPageDirective(s, ts).Okay?
    ensures line.ErrorPages? && Expect(ServerLineKinds(line), ts) == Some(ErrorPageDirective(s, ts).rest)
  {
    hide Expect;
    hide Numbers;
    hide AddPages;
    var t1 := Take(ERROR_PAGE, ts).rest;
    var (codes, t2) := Numbers(t1);
    NumbersRead(t1);
    UrlReads(t2);
    line := ErrorPages(|codes|);
    assert [STRING, SEMICOLON] == [STRING] + [SEMICOLON];
    ExpectNext(ERROR_PAGE, Times([NUMBER], |codes|) + [STRING, SEMICOLON], ts);
    ExpectMore(Times([NUMBER], |codes|), [STRING, SEMICOLON], t1);
  }

  lemma {:induction false} PagesTaken(s: ServerConfig, ts: Ahead, n: nat, rest: Ahead)
    requires Expect(ServerLineKinds(ErrorPages(n)), ts) == Some(rest)
    ensures SameRest(ErrorPageDirective(s, ts), Some(rest)) && ts[0].kind == ERROR_PAGE
  {
    hide Expect;
    hide Numbers;
    hide AddPages;
    ExpectNext(ERROR_PAGE, Times([NUMBER], n) + [STRING, SEMICOLON], ts);
    var t1 := Take(ERROR_PAGE, ts).rest;
    ExpectMore(Times([NUMBER], n), [STRING, SEMICOLON], t1);
    var t2 := Expect(Times([NUMBER], n), t1).value;
    ExpectHead([STRING, SEMICOLON], t2);
    NumbersOnly(t1, n, t2);
    assert [STRING, SEMICOLON] == [STRING] + [SEMICOLON];
    UrlReads(t2);
  }

  lemma {:induction false} ServerShape(line: ServerLine)
    requires !line.LocationLines?
    ensures var ks := ServerLineKinds(line);
            ks != [] && END !in ks && CGI !in ks && ks[0] != RBRACE
  {
    match line
    case ServerNames(n) =>
      TimesHas([STRING], n, END);
      TimesHas([STRING], n, CGI);
    case ErrorPages(n) =>
      TimesHas([NUMBER], n, END);
      TimesHas([NUMBER], n, CGI);
    case _ =>
  }

  lemma {:induction false} PlainLineOnOff(line: ServerLine, ts: Ahead, rest: Ahead)
    requires !line.LocationLines? && Expect(ServerLineKinds(line), ts) == Some(rest)
    ensures OnOffUpTo(ts, rest) && |rest| < |ts| && rest == ts[|ts| - |rest|..]
  {
    hide Expect;
    ServerShape(line);
    OnOffInLine(ts, ServerLineKinds(line), rest);
    ExpectHead(ServerLineKinds(line), ts);
  }

  lemma {:induction false} ServerLineGiven(s: ServerConfig, ts: Ahead) returns (line: ServerLine)
    requires ServerDirective(s, ts).Okay?
    ensures ServerLineKnown(line) && Expect(ServerLineKinds(line), ts) == Some(ServerDirective(s, ts).rest)
    ensures OnOffUpTo(ts, ServerDirective(s, ts).rest)
    ensures var rest := ServerDirective(s, ts).rest; |rest| < |ts| && rest == ts[|ts| - |rest|..]
  {
    hide Expect;
    hide OnOffUpTo;
    hide ServerLineKinds;
    hide ListenDirective;
    hide BodySizeDirective;
    hide ServerNameDirective;
    hide ErrorPageDirective;
    hide LocationBlock;
    var kind := ts[0].kind;
    line := Listen;
    if kind == LOCATION {
      line := BlockGiven(s, ts);
    } else {
      line := OtherLineGiven(s, ts);
      PlainLineOnOff(line, ts, ServerDirective(s, ts).rest);
    }
  }

  lemma {:induction false} OtherLineGiven(s: ServerConfig, ts: Ahead) returns (line: ServerLine)
    requires ServerDirective(s, ts).Okay? && ts[0].kind != LOCATION
    ensures !line.LocationLines? && Expect(ServerLineKinds(line), ts) == Some(ServerDirective(s, ts).rest)
  {
    hide Expect;
    hide ListenDirective;
    hide BodySizeDirective;
    hide ServerNameDirective;
    hide ErrorPageDirective;
    hide LocationBlock;
    line := Listen;
    if ts[0].kind == SERVER_NAME {
      line := NamesGiven(s, ts);
    } else if ts[0].kind == ERROR_PAGE {
      line := PagesGiven(s, ts);
    } else if ts[0].kind == LISTEN {
      ListenReads(s, ts);
    } else {
      BodySizeReads(s, ts);
      line := BodySize;
    }
  }

  lemma {:induction false} ServerLineTaken(s: ServerConfig, ts: Ahead, line: ServerLine, rest: Ahead)
    requires ServerLineKnown(line) && Expect(ServerLineKinds(line), ts) == Some(rest) && OnOffUpTo(ts, rest)
    ensures SameRest(ServerDirective(s, ts), Some(rest)) && ts[0].kind != RBRACE
  {
    hide Expect;
    hide OnOffUpTo;
    hide ListenDirective;
    hide BodySizeDirective;
    hide ServerNameDirective;
    hide ErrorPageDirective;
    hide LocationBlock;
    match line
    case Listen =>
      ExpectHead(ServerLineKinds(line), ts);
      ListenReads(s, ts);
    case BodySize =>
      ExpectHead(ServerLineKinds(line), ts);
      BodySizeReads(s, ts);
    case ServerNames(n) => NamesTaken(s, ts, n, rest);
    case ErrorPages(n) => PagesTaken(s, ts, n, rest);
    case LocationLines(lines) => BlockTaken(s, ts, lines, rest);
  }

  // ---------------------------------------------------------------- server blocks and the whole list

  ghost predicate ServerLinesKnown(ls: seq<ServerLine>) {
    forall i :: 0 <= i < |ls| ==> ServerLineKnown(ls[i])
  }

  lemma {:induction false} ServerGiven(s: ServerConfig, ts: Ahead) returns (lines: seq<ServerLine>)
    requires ServerBody(s, ts).Okay?
    ensures ServerLinesKnown(lines) && Expect(ServerKinds(lines), ts) == Some(ServerBody(s, ts).rest)
    ensures OnOffUpTo(ts, ServerBody(s, ts).rest)
    ensures var rest := ServerBody(s, ts).rest; |rest| < |ts| && rest == ts[|ts| - |rest|..]
    decreases |ts|
  {
    hide ServerDirective;
    hide ServerLineKinds;
    hide ServerLineKnown;
    hide Expect;
    hide OnOffUpTo;
    if ts[0].kind == RBRACE {
      lines := [];
      Expect1(RBRACE, ts);
      OnOffInLine(ts, [RBRACE], ts[1..]);
    } else {
      var line := ServerLineGiven(s, ts);
      var next := ServerDirective(s, ts);
      var more := ServerGiven(next.value, next.rest);
      lines := [line] + more;
      OnOffBoth(ts, next.rest, ServerBody(next.value, next.rest).rest);
      ExpectMore(ServerLineKinds(line), ServerKinds(more), ts);
      assert lines[1..] == more;
      DropDropEnd(ts, next.rest, ServerBody(s, ts).rest);
    }
  }

  lemma {:induction false} ServerTaken(s: ServerConfig, ts: Ahead, lines: seq<ServerLine>, rest: Ahead)
    requires ServerLinesKnown(lines) && Expect(ServerKinds(lines), ts) == Some(rest) && OnOffUpTo(ts, rest)
    ensures SameRest(ServerBody(s, ts), Some(rest))
    decreases |lines|
  {
    hide ServerDirective;
    hide ServerLineKinds;
    hide ServerLineKnown;
    hide Expect;
    hide OnOffUpTo;
    if lines == [] {
      Expect1(RBRACE, ts);
    } else {
      ExpectMore(ServerLineKinds(lines[0]), ServerKinds(lines[1..]), ts);
      var mid := Expect(ServerLineKinds(lines[0]), ts).value;
      ExpectShrinks(ServerLineKinds(lines[0]), ts);
      ExpectShrinks(ServerKinds(lines[1..]), mid);
      OnOffBoth(ts, mid, rest);
      ServerLineTaken(s, ts, lines[0], mid);
      ServerTaken(ServerDirective(s, ts).value, mid, lines[1..], rest);
    }
  }

  lemma {:induction false} BlockOpens(ts: Ahead)
    ensures var open := Expect([SERVER, LBRACE], ts);
            if open.None? then ServerBlock(ts).Fail? else ServerBlock(ts) == ServerBody(NewServer, open.value)
    ensures Expect([SERVER, LBRACE], ts).Some? ==>
              var mid := Expect([SERVER, LBRACE], ts).value;
              OnOffUpTo(ts, mid) && |mid| < |ts| && mid == ts[|ts| - |mid|..]
  {
    hide Expect;
    hide ServerBody;
    assert [SERVER, LBRACE] == [SERVER] + [LBRACE];
    ExpectNext(SERVER, [LBRACE], ts);
    if Take(SERVER, ts).Okay? {
      Expect1(LBRACE, Take(SERVER, ts).rest);
      if Expect([SERVER, LBRACE], ts).Some? { OnOffInLine(ts, [SERVER, LBRACE], Expect([SERVER, LBRACE], ts).value); }
    }
  }

  lemma {:induction false} BodyHasNoEnd(ls: seq<LocationLine>)
    requires LinesKnown(ls)
    ensures END !in BodyKinds(ls)
    decreases |ls|
  {
    if ls != [] {
      LineShape(ls[0]);
      BodyHasNoEnd(ls[1..]);
    }
  }

  lemma {:induction false} ServerHasNoEnd(ls: seq<ServerLine>)
    requires ServerLinesKnown(ls)
    ensures END !in ServerKinds(ls)
    decreases |ls|
  {
    if ls != [] {
      if ls[0].LocationLines? { BodyHasNoEnd(ls[0].lines); } else { ServerShape(ls[0]); }
      ServerHasNoEnd(ls[1..]);
    }
  }

  lemma {:induction false} KindsCut(ts: Ahead, ks: seq<Kind>, rest: Ahead)
    requires END !in ks && Expect(ks, ts) == Some(rest)
    ensures KindsOf(ts) == ks + KindsOf(rest)
  {
    ExpectReads(ks, ts, rest);
    forall i | 0 <= i < |ts| ensures KindsOf(ts)[i] == (ks + KindsOf(rest))[i] {
      if i < |ks| { assert ts[..|ks|][i] == ts[i]; } else { assert rest[i - |ks|] == ts[i]; }
    }
  }

  lemma {:induction false} KindsJoin(ts: Ahead, ks: seq<Kind>, more: seq<Kind>)
    requires END !in ks && KindsOf(ts) == ks + more && more != []
    ensures Expect(ks, ts).Some? && KindsOf(Expect(ks, ts).value) == more
  {
    assert |ks| < |ts|;
    var rest: Ahead := ts[|ks|..];
    forall i | 0 <= i < |ks| ensures KindsOf(ts[..|ks|])[i] == ks[i] {
      assert KindsOf(ts)[i] == ks[i];
    }
    ExpectReads(ks, ts, rest);
    forall i | 0 <= i < |more| ensures KindsOf(rest)[i] == more[i] {
      assert KindsOf(ts)[|ks| + i] == more[i];
    }
  }

  /** END stands nowhere but at the end. */
  predicate OneEnd(ts: Ahead) {
    forall i :: 0 <= i < |ts| - 1 ==> ts[i].kind != END
  }

  lemma {:induction false} OnOffAll(ts: Ahead)
    requires OneEnd(ts)
    ensures CgiSaysOnOff(ts) <==> OnOffUpTo(ts, [EndToken])
  {
    forall i | 0 <= i < |ts| - 1
      ensures SaysOnOff(ts[i..]) <==> (ts[i].kind == CGI ==> ts[i + 1].value == "on" || ts[i + 1].value == "off")
    {
      assert ts[i..][0] == ts[i] && ts[i..][1] == ts[i + 1];
    }
    if CgiSaysOnOff(ts) {
      forall i | 0 <= i < |ts| - 1 ensures SaysOnOff(ts[i..]) {
      }
    }
    if OnOffUpTo(ts, [EndToken]) {
      forall i | 0 <= i < |ts| - 1 && ts[i].kind == CGI ensures ts[i + 1].value == "on" || ts[i + 1].value == "off" {
        assert SaysOnOff(ts[i..]);
      }
    }
  }

  ghost predicate TreeKnown(ss: seq<seq<ServerLine>>) {
    forall i :: 0 <= i < |ss| ==> ServerLinesKnown(ss[i])
  }

  lemma {:induction false} ServerBlockGiven(ts: Ahead) returns (lines: seq<ServerLine>)
    requires ServerBlock(ts).Okay?
    ensures var rest := ServerBlock(ts).rest;
            && ServerLinesKnown(lines) && OnOffUpTo(ts, rest) && |rest| < |ts| && rest == ts[|ts| - |rest|..]
            && KindsOf(ts) == [SERVER, LBRACE] + (ServerKinds(lines) + KindsOf(rest))
  {
    hide ServerBlock;
    hide ServerBody;
    hide Expect;
    hide OnOffUpTo;
    hide ServerLinesKnown;
    hide ServerKinds;
    hide KindsOf;
    BlockOpens(ts);
    var mid := Expect([SERVER, LBRACE], ts).value;
    lines := ServerGiven(NewServer, mid);
    BlockJoin(ts, mid, lines, ServerBlock(ts).rest);
  }

  lemma {:induction false} BlockJoin(ts: Ahead, mid: Ahead, lines: seq<ServerLine>, rest: Ahead)
    requires Expect([SERVER, LBRACE], ts) == Some(mid) && OnOffUpTo(ts, mid)
    requires |mid| < |ts| && mid == ts[|ts| - |mid|..] && |rest| < |mid| && rest == mid[|mid| - |rest|..]
    requires ServerLinesKnown(lines) && Expect(ServerKinds(lines), mid) == Some(rest) && OnOffUpTo(mid, rest)
    ensures OnOffUpTo(ts, rest) && rest == ts[|ts| - |rest|..]
    ensures KindsOf(ts) == [SERVER, LBRACE] + (ServerKinds(lines) + KindsOf(rest))
  {
    hide Expect;
    hide OnOffUpTo;
    hide ServerLinesKnown;
    hide ServerKinds;
    hide KindsOf;
    DropDropEnd(ts, mid, rest);
    ServerHasNoEnd(lines);
    KindsCut(ts, [SERVER, LBRACE], mid);
    KindsCut(mid, ServerKinds(lines), rest);
    OnOffBoth(ts, mid, rest);
  }

  /** The tokens of a server block, cut behind its opening and behind its body. */
  lemma {:induction false} BlockCut(ts: Ahead, lines: seq<ServerLine>, more: seq<Kind>)
    returns (mid: Ahead, rest: Ahead)
    requires ServerLinesKnown(lines) && more != [] && KindsOf(ts) == [SERVER, LBRACE] + (ServerKinds(lines) + more)
    ensures Expect([SERVER, LBRACE], ts) == Some(mid) && Expect(ServerKinds(lines), mid) == Some(rest)
    ensures KindsOf(rest) == more && |rest| <= |mid| && rest == mid[|mid| - |rest|..]
  {
    hide Expect;
    hide ServerLinesKnown;
    hide ServerKinds;
    hide KindsOf;
    ServerHasNoEnd(lines);
    KindsJoin(ts, [SERVER, LBRACE], ServerKinds(lines) + more);
    mid := Expect([SERVER, LBRACE], ts).value;
    KindsJoin(mid, ServerKinds(lines), more);
    ExpectShrinks(ServerKinds(lines), mid);
    rest := Expect(ServerKinds(lines), mid).value;
  }

  lemma {:induction false} ServerBlockTaken(ts: Ahead, lines: seq<ServerLine>, more: seq<Kind>)
    requires ServerLinesKnown(lines) && more != [] && KindsOf(ts) == [SERVER, LBRACE] + (ServerKinds(lines) + more)
    requires OnOffUpTo(ts, [EndToken])
    ensures ServerBlock(ts).Okay?
    ensures var rest := ServerBlock(ts).rest;
            KindsOf(rest) == more && OnOffUpTo(rest, [EndToken]) && |rest| < |ts| && rest == ts[|ts| - |rest|..]
  {
    hide ServerBlock;
    hide ServerBody;
    hide Expect;
    hide OnOffUpTo;
    hide ServerLinesKnown;
    hide ServerKinds;
    hide KindsOf;
    var mid, rest := BlockCut(ts, lines, more);
    BlockOpens(ts);
    OnOffBoth(ts, mid, [EndToken]);
    OnOffBoth(mid, rest, [EndToken]);
    ServerTaken(NewServer, mid, lines, rest);
    DropDropEnd(ts, mid, rest);
  }

  lemma {:induction false} ConfigGiven(ts: Ahead) returns (ss: seq<seq<ServerLine>>)
    requires Config(ts).Some? && OneEnd(ts)
    ensures TreeKnown(ss) && KindsOf(ts) == ConfigKinds(ss) && OnOffUpTo(ts, [EndToken])
    decreases |ts|
  {
    hide ServerBlock;
    hide ServerLinesKnown;
    hide ServerKinds;
    if ts[0].kind == END {
      ss := [];
      assert KindsOf(ts) == [END];
    } else {
      var lines := ServerBlockGiven(ts);
      var rest := ServerBlock(ts).rest;
      LaterEnd(ts, rest);
      var more := ConfigGiven(rest);
      ss := [lines] + more;
      OnOffBoth(ts, rest, [EndToken]);
      assert ss[1..] == more;
    }
  }

  lemma {:induction false} LaterEnd(ts: Ahead, rest: Ahead)
    requires OneEnd(ts) && |rest| <= |ts| && rest == ts[|ts| - |rest|..]
    ensures OneEnd(rest)
  {
    forall i | 0 <= i < |rest| - 1 ensures rest[i].kind != END {
      assert rest[i] == ts[|ts| - |rest| + i];
    }
  }

  lemma {:induction false} ConfigTurn(ts: Ahead)
    ensures ts[0].kind == END ==> Config(ts).Some?
    ensures ts[0].kind != END && ServerBlock(ts).Okay? ==> Config(ts).Some? == Config(ServerBlock(ts).rest).Some?
  {
    hide ServerBlock;
  }

  lemma {:induction false} ConfigTaken(ts: Ahead, ss: seq<seq<ServerLine>>)
    requires TreeKnown(ss) && KindsOf(ts) == ConfigKinds(ss) && OnOffUpTo(ts, [EndToken])
    ensures Config(ts).Some?
    decreases |ss|
  {
    hide ServerBlock;
    hide ServerLinesKnown;
    hide ServerKinds;
    hide OnOffUpTo;
    hide Config;
    hide KindsOf;
    assert KindsOf(ts)[0] == ts[0].kind;
    ConfigTurn(ts);
    if ss != [] {
      assert ServerLinesKnown(ss[0]);
      ConfigNotEmpty(ss[1..]);
      ServerBlockTaken(ts, ss[0], ConfigKinds(ss[1..]));
      ConfigTaken(ServerBlock(ts).rest, ss[1..]);
    }
  }

  lemma {:induction false} ConfigNotEmpty(ss: seq<seq<ServerLine>>)
    ensures ConfigKinds(ss) != []
  {
  }

  /** Main result on configurations that are accepted: the parser takes exactly the token lists of the grammar, with
      every `cgi` switched on or off by name. */
  lemma {:induction false} AcceptedExactly(ts: Ahead)
    requires OneEnd(ts)
    ensures Config(ts).Some? <==>
            CgiSaysOnOff(ts) && exists ss :: TreeKnown(ss) && KindsOf(ts) == ConfigKinds(ss)
  {
    hide Config;
    hide ConfigKinds;
    hide TreeKnown;
    OnOffAll(ts);
    if Config(ts).Some? { var ss := ConfigGiven(ts); }
    if CgiSaysOnOff(ts) && exists ss :: TreeKnown(ss) && KindsOf(ts) == ConfigKinds(ss) {
      var ss :| TreeKnown(ss) && KindsOf(ts) == ConfigKinds(ss);
      ConfigTaken(ts, ss);
    }
  }

  lemma {:induction false} NoEndWord(w: string)
    ensures Classify(w).Some? ==> Classify(w).value.kind != END
  {
  }

  /** The tokenizer puts one END, at the end. */
  lemma {:induction false} TokensEnd(s: string)
    requires Tokens(s).Some?
    ensures var ts := Tokens(s).value; ts != [] && ts[|ts| - 1] == EndToken && OneEnd(ts)
    decreases |s|
  {
    hide Classify;
    var t := SkipSpace(s);
    if t != "" {
      var n := WordLength(t);
      if t[..n] == "#" {
        TokensEnd(SkipLine(t[n..]));
      } else {
        NoEndWord(t[..n]);
        TokensEnd(t[n..]);
      }
    }
  }

  /** And so a text is read exactly when its words can be classified and their kinds are in the grammar. */
  lemma {:induction false} ReadExactly(text: string)
    ensures ConfigRoundTrip.Read(text).Some? <==>
            && Tokens(Rewrite(false, text)).Some?
            && var ts := Tokens(Rewrite(false, text)).value;
               CgiSaysOnOff(ts) && exists ss :: TreeKnown(ss) && KindsOf(ts) == ConfigKinds(ss)
  {
    hide Tokens;
    hide Rewrite;
    hide Config;
    hide CgiSaysOnOff;
    hide TreeKnown;
    hide ConfigKinds;
    hide KindsOf;
    if Tokens(Rewrite(false, text)).Some? {
      TokensEnd(Rewrite(false, text));
      AcceptedExactly(Tokens(Rewrite(false, text)).value);
    }
  }
}
