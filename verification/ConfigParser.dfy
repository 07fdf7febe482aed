/** The recursive-descent parser of the configuration (srcs/ParseConf/Parser.cpp): first as functions on the tokens
    still ahead, then as the object with an index into its tokens that the source has. */
module ConfigParser {
  import opened Text
  import opened ConfigTypes
  import opened ConfigText

  /** A list of tokens that ends with END, which nothing ever consumes. */
  type Ahead = ts: seq<Token> | ts != [] && ts[|ts| - 1] == EndToken witness [EndToken]

  /** Fail stands for the thrown exception. */
  datatype Reply<+T> = Fail | Okay(value: T, rest: Ahead) {
    predicate IsFailure() { Fail? }
    function PropagateFailure<U>(): Reply<U> requires Fail? { Fail }
    function Extract(): (T, Ahead) requires Okay? { (value, rest) }
  }

  /** consume. */
  function Take(kind: Kind, ts: Ahead): (r: Reply<string>)
    requires kind != END
    ensures r.Okay? ==> |r.rest| == |ts| - 1
  {
    if ts[0].kind == kind then Okay(ts[0].value, ts[1..]) else Fail
  }

  function Strings(ts: Ahead): (r: (seq<string>, Ahead))
    ensures |r.1| <= |ts|
    decreases |ts|
  {
    if ts[0].kind != STRING then ([], ts)
    else var (ws, rest) := Strings(ts[1..]); ([ts[0].value] + ws, rest)
  }

  function Numbers(ts: Ahead): (r: (seq<string>, Ahead))
    ensures |r.1| <= |ts|
    decreases |ts|
  {
    if ts[0].kind != NUMBER then ([], ts)
    else var (ws, rest) := Numbers(ts[1..]); ([ts[0].value] + ws, rest)
  }

  /** A directive with one STRING value. */
  function OneString(keyword: Kind, ts: Ahead): (r: Reply<string>)
    requires keyword != END
    ensures r.Okay? ==> |r.rest| < |ts|
  {
    var (_, t1) :- Take(keyword, ts);
    var (value, t2) :- Take(STRING, t1);
    var (_, t3) :- Take(SEMICOLON, t2);
    Okay(value, t3)
  }

  // ---------------------------------------------------------------- values

  /** atoi on the text of a NUMBER token. */
  function IntOf(text: string): int {
    var n := ParseInt(text);
    if n.Some? then n.value else 0
  }

  /** operator>> into a uint16_t stops at the largest value. */
  function PortOf(text: string): nat {
    var n := IntOf(text);
    if n < 0 then 0 else if n > 65535 then 65535 else n
  }

  /** int to the short that keys the error pages. */
  function ShortOf(n: int): (k: int)
    ensures -32768 <= k < 32768 && (n - k) % 65536 == 0
  {
    (n + 32768) % 65536 - 32768
  }

  /** parseSize; an upper-case unit standing alone is not recognised and counts as 1. */
  function SizeOf(text: string, unit: string): nat {
    var n := IntOf(text);
    (if n < 0 then 0 else n) *
    (if unit == "" then 1
     else if unit[0] == 'k' then SIZE_KB
     else if unit[0] == 'm' then SIZE_MB
     else if unit[0] == 'g' then SIZE_GB
     else 1)
  }

  function AddPages(pages: map<int, string>, codes: seq<string>, file: string): map<int, string>
    decreases |codes|
  {
    if codes == [] then pages else AddPages(pages[ShortOf(IntOf(codes[0])) := file], codes[1..], file)
  }

  function JoinMessage(message: string, words: seq<string>): string
    decreases |words|
  {
    if words == [] then message
    else JoinMessage(if message == "" then words[0] else message + (" " + words[0]), words[1..])
  }

  // ---------------------------------------------------------------- location blocks

  function RootDirective(l: Location, ts: Ahead): Reply<Location> {
    var (value, rest) :- OneString(ROOT, ts);
    Okay(l.(root := value), rest)
  }

  function LocalErrorPage(l: Location, ts: Ahead): Reply<Location> {
    var (_, t1) :- Take(ERROR_PAGE, ts);
    var (_, t2) :- Take(NUMBER, t1);
    var (_, t3) :- Take(STRING, t2);
    var (_, t4) :- Take(SEMICOLON, t3);
    Okay(l, t4)
  }

  function AutoindexDirective(l: Location, ts: Ahead): Reply<Location> {
    var (value, rest) :- OneString(AUTOINDEX, ts);
    Okay(l.(autoindex := value == "on"), rest)
  }

  function IndexDirective(l: Location, ts: Ahead): Reply<Location> {
    var (value, rest) :- OneString(INDEX, ts);
    Okay(l.(index := value), rest)
  }

  function MethodsDirective(l: Location, ts: Ahead): Reply<Location> {
    var (_, t1) :- Take(ALLOWED_METHODS, ts);
    var (methods, t2) := Strings(t1);
    var (_, t3) :- Take(SEMICOLON, t2);
    Okay(l.(allowedMethods := methods), t3)
  }

  function RedirectDirective(l: Location, ts: Ahead): Reply<Location> {
    var (_, t1) :- Take(REDIRECT, ts);
    var code := if t1[0].kind == NUMBER then IntOf(t1[0].value) else 302;
    var t2: Ahead := if t1[0].kind == NUMBER then t1[1..] else t1;
    var (url, t3) :- Take(STRING, t2);
    var (_, t4) :- Take(SEMICOLON, t3);
    Okay(l.(isRedirect := true, redirectUrl := url, redirectCode := code, isRedirectPermanent := code == 301), t4)
  }

  /** The cgi_path lines behind a cgi line: the last one counts. */
  function CgiPaths(l: Location, ts: Ahead): (r: Reply<Location>)
    ensures r.Okay? ==> |r.rest| <= |ts|
    decreases |ts|
  {
    if ts[0].kind != CGI_PATH then Okay(l, ts)
    else
      var (path, t1) :- Take(STRING, ts[1..]);
      var (_, t2) :- Take(SEMICOLON, t1);
      CgiPaths(l.(cgiPath := path), t2)
  }

  function CgiDirective(l: Location, ts: Ahead): Reply<Location> {
    var (_, t1) :- Take(CGI, ts);
    var (value, t2) :- Take(STRING, t1);
    if value != "on" && value != "off" then Fail
    else
      var (_, t3) :- Take(SEMICOLON, t2);
      CgiPaths(l.(useCgi := value == "on"), t3)
  }

  function UploadDirective(l: Location, ts: Ahead): Reply<Location> {
    var (value, rest) :- OneString(UPLOAD_STORE, ts);
    Okay(l.(uploadStore := value), rest)
  }

  function ReturnDirective(l: Location, ts: Ahead): Reply<Location> {
    var (_, t1) :- Take(RETURN, ts);
    var (code, t2) :- Take(NUMBER, t1);
    var (words, t3) := Strings(t2);
    var (_, t4) :- Take(SEMICOLON, t3);
    Okay(l.(hasReturn := true, returnCode := IntOf(code), returnMessage := JoinMessage(l.returnMessage, words)), t4)
  }

  /** One turn of the loop of parseLocationBlock: it consumes a token or throws. */
  function LocationDirective(l: Location, ts: Ahead): (r: Reply<Location>)
    ensures r.Okay? ==> |r.rest| < |ts|
  {
    match ts[0].kind
    case ROOT => RootDirective(l, ts)
    case ERROR_PAGE => LocalErrorPage(l, ts)
    case AUTOINDEX => AutoindexDirective(l, ts)
    case INDEX => IndexDirective(l, ts)
    case ALLOWED_METHODS => MethodsDirective(l, ts)
    case REDIRECT => RedirectDirective(l, ts)
    case CGI => CgiDirective(l, ts)
    case UPLOAD_STORE => UploadDirective(l, ts)
    case RETURN => ReturnDirective(l, ts)
    case _ => Fail
  }

  function LocationBody(l: Location, ts: Ahead): (r: Reply<Location>)
    ensures r.Okay? ==> |r.rest| < |ts|
    decreases |ts|
  {
    if ts[0].kind == RBRACE then Okay(l, ts[1..])
    else
      var (next, rest) :- LocationDirective(l, ts);
      LocationBody(next, rest)
  }

  // ---------------------------------------------------------------- server blocks

  function ListenDirective(s: ServerConfig, ts: Ahead): Reply<ServerConfig> {
    var (_, t1) :- Take(LISTEN, ts);
    var (port, t2) :- Take(NUMBER, t1);
    var (_, t3) :- Take(SEMICOLON, t2);
    Okay(s.(host := "0.0.0.0", port := PortOf(port)), t3)
  }

  function ServerNameDirective(s: ServerConfig, ts: Ahead): Reply<ServerConfig> {
    var (_, t1) :- Take(SERVER_NAME, ts);
    var (first, t2) :- Take(STRING, t1);
    var (more, t3) := Strings(t2);
    var (_, t4) :- Take(SEMICOLON, t3);
    Okay(s.(serverNames := [first] + more), t4)
  }

  function ErrorPageDirective(s: ServerConfig, ts: Ahead): Reply<ServerConfig> {
    var (_, t1) :- Take(ERROR_PAGE, ts);
    var (codes, t2) := Numbers(t1);
    var (file, t3) :- Take(STRING, t2);
    var (_, t4) :- Take(SEMICOLON, t3);
    Okay(s.(errorPages := AddPages(s.errorPages, codes, file)), t4)
  }

  function SizeTokens(ts: Ahead): (r: Reply<(string, string)>)
    ensures r.Okay? ==> |r.rest| < |ts|
  {
    var (_, t1) :- Take(CLIENT_MAX_BODY_SIZE, ts);
    var (size, t2) :- Take(NUMBER, t1);
    var (unit, t3) :- Take(CLIENT_MAX_BODY_SIZE_MUL, t2);
    var (_, t4) :- Take(SEMICOLON, t3);
    Okay((size, unit), t4)
  }

  function BodySizeDirective(s: ServerConfig, ts: Ahead): Reply<ServerConfig> {
    var (size, rest) :- SizeTokens(ts);
    Okay(s.(clientMaxBodySize := SizeOf(size.0, size.1)), rest)
  }

  function LocationBlock(s: ServerConfig, ts: Ahead): Reply<ServerConfig> {
    var (_, t1) :- Take(LOCATION, ts);
    var (path, t2) :- Take(STRING, t1);
    var (_, t3) :- Take(LBRACE, t2);
    var (l, t4) :- LocationBody(NewLocation(path), t3);
    Okay(s.(locations := s.locations + [l]), t4)
  }

  /** parseDirecive. */
  function ServerDirective(s: ServerConfig, ts: Ahead): (r: Reply<ServerConfig>)
    ensures r.Okay? ==> |r.rest| < |ts|
  {
    match ts[0].kind
    case LISTEN => ListenDirective(s, ts)
    case SERVER_NAME => ServerNameDirective(s, ts)
    case ERROR_PAGE => ErrorPageDirective(s, ts)
    case LOCATION => LocationBlock(s, ts)
    case CLIENT_MAX_BODY_SIZE => BodySizeDirective(s, ts)
    case _ => Fail
  }

  function ServerBody(s: ServerConfig, ts: Ahead): (r: Reply<ServerConfig>)
    ensures r.Okay? ==> |r.rest| < |ts|
    decreases |ts|
  {
    if ts[0].kind == RBRACE then Okay(s, ts[1..])
    else
      var (next, rest) :- ServerDirective(s, ts);
      ServerBody(next, rest)
  }

  function ServerBlock(ts: Ahead): (r: Reply<ServerConfig>)
    ensures r.Okay? ==> |r.rest| < |ts|
  {
    var (_, t1) :- Take(SERVER, ts);
    var (_, t2) :- Take(LBRACE, t1);
    ServerBody(NewServer, t2)
  }

  /** parseConfig. */
  function Config(ts: Ahead): Option<seq<ServerConfig>>
    decreases |ts|
  {
    if ts[0].kind == END then Some([])
    else
      match ServerBlock(ts)
      case Fail => None
      case Okay(s, rest) => match Config(rest) case None => None case Some(more) => Some([s] + more)
  }

  // ---------------------------------------------------------------- the object

  class Parser {
    const tokens: Ahead
    var index: nat
    var servers: seq<ServerConfig>
    /** The server being filled in: the last one, or none. */
    var currentServer: Option<nat>

    predicate Valid()
      reads this
    {
      index < |tokens| && (currentServer.Some? ==> currentServer.value < |servers|)
    }

    function Rest(): Ahead
      requires index < |tokens|
      reads this
    {
      tokens[index..]
    }

    constructor (tokens: Ahead)
      ensures Valid() && this.tokens == tokens && index == 0 && servers == [] && currentServer == None
    {
      this.tokens, index, servers, currentServer := tokens, 0, [], None;
    }

    /** consume: the index moves on or the parser throws, and END stays in front of it. */
    method Consume(expected: Kind) returns (ok: bool, value: string)
      requires Valid() && expected != END
      modifies this`index
      ensures Valid()
      ensures match Take(expected, old(Rest()))
              case Fail => !ok && index == old(index)
              case Okay(v, rest) => ok && value == v && Rest() == rest && index == old(index) + 1
    {
      if tokens[index].kind == expected {
        value := tokens[index].value;
        index := index + 1;
        return true, value;
      }
      return false, "";
    }

    method ConsumeStrings() returns (words: seq<string>)
      requires Valid()
      modifies this`index
      ensures Valid() && (words, Rest()) == Strings(old(Rest()))
    {
      words := [];
      assert words + Strings(Rest()).0 == Strings(Rest()).0;
      while tokens[index].kind == STRING
        invariant Valid()
        invariant Strings(old(Rest())) == (words + Strings(Rest()).0, Strings(Rest()).1)
        decreases |tokens| - index
      {
        var ok, word := Consume(STRING);
        assert words + ([word] + Strings(Rest()).0) == words + [word] + Strings(Rest()).0;
        words := words + [word];
      }
      assert words + [] == words;
    }

    method ConsumeNumbers() returns (codes: seq<string>)
      requires Valid()
      modifies this`index
      ensures Valid() && (codes, Rest()) == Numbers(old(Rest()))
    {
      codes := [];
      assert codes + Numbers(Rest()).0 == Numbers(Rest()).0;
      while tokens[index].kind == NUMBER
        invariant Valid()
        invariant Numbers(old(Rest())) == (codes + Numbers(Rest()).0, Numbers(Rest()).1)
        decreases |tokens| - index
      {
        var ok, code := Consume(NUMBER);
        assert codes + ([code] + Numbers(Rest()).0) == codes + [code] + Numbers(Rest()).0;
        codes := codes + [code];
      }
      assert codes + [] == codes;
    }

    ghost predicate Answers<T>(ok: bool, value: T, reply: Reply<T>)
      requires Valid()
      reads this
    {
      match reply case Fail => !ok case Okay(v, rest) => ok && value == v && Rest() == rest
    }

    /** A directive with one STRING value. */
    method ParseStringDirective(keyword: Kind) returns (ok: bool, value: string)
      requires Valid() && keyword != END
      modifies this`index
      ensures Valid()
      ensures Answers(ok, value, OneString(keyword, old(Rest())))
    {
      var text;
      ok, value := Consume(keyword);
      if ok { ok, value := Consume(STRING); }
      if ok { ok, text := Consume(SEMICOLON); }
    }

    method ParseRedirectDirective(l: Location) returns (ok: bool, r: Location)
      requires Valid()
      modifies this`index
      ensures Valid()
      ensures Answers(ok, r, RedirectDirective(l, old(Rest())))
    {
      r := l;
      var text, url;
      ok, text := Consume(REDIRECT);
      if !ok { return; }
      var statusCode := 302;
      if tokens[index].kind == NUMBER {
        ok, text := Consume(NUMBER);
        statusCode := IntOf(text);
      }
      ok, url := Consume(STRING);
      if !ok { return; }
      ok, text := Consume(SEMICOLON);
      r := l.(isRedirect := true, redirectUrl := url, redirectCode := statusCode,
          isRedirectPermanent := statusCode == 301);
    }

    method ParseCgiPaths(l: Location) returns (ok: bool, r: Location)
      requires Valid()
      modifies this`index
      ensures Valid()
      ensures Answers(ok, r, CgiPaths(l, old(Rest())))
    {
      ok, r := true, l;
      while tokens[index].kind == CGI_PATH
        invariant Valid() && ok
        invariant CgiPaths(r, Rest()) == CgiPaths(l, old(Rest()))
        decreases |tokens| - index
      {
        var text, path;
        ok, text := Consume(CGI_PATH);
        ok, path := Consume(STRING);
        if !ok { return; }
        ok, text := Consume(SEMICOLON);
        if !ok { return; }
        r := r.(cgiPath := path);
      }
    }

    method ParseCgiDirective(l: Location) returns (ok: bool, r: Location)
      requires Valid()
      modifies this`index
      ensures Valid()
      ensures Answers(ok, r, CgiDirective(l, old(Rest())))
    {
      hide CgiPaths;
      r := l;
      var text, value;
      ok, text := Consume(CGI);
      if !ok { return; }
      ok, value := Consume(STRING);
      if !ok { return; }
      if value != "on" && value != "off" {
        return false, l;
      }
      ok, text := Consume(SEMICOLON);
      if !ok { return; }
      ok, r := ParseCgiPaths(l.(useCgi := value == "on"));
    }

    method ParseReturnDirective(l: Location) returns (ok: bool, r: Location)
      requires Valid()
      modifies this`index
      ensures Valid()
      ensures Answers(ok, r, ReturnDirective(l, old(Rest())))
    {
      r := l;
      var code, text;
      ok, text := Consume(RETURN);
      if !ok { return; }
      ok, code := Consume(NUMBER);
      if !ok { return; }
      var words := ConsumeStrings();
      var message := l.returnMessage;
      for i := 0 to |words|
        invariant JoinMessage(l.returnMessage, words) == JoinMessage(message, words[i..])
      {
        assert words[i..][1..] == words[i + 1..];
        message := if message == "" then words[i] else message + (" " + words[i]);
      }
      r := l.(hasReturn := true, returnCode := IntOf(code), returnMessage := message);
      ok, text := Consume(SEMICOLON);
    }

    method ParseLocalErrorPage() returns (ok: bool)
      requires Valid()
      modifies this`index
      ensures Valid()
      ensures forall l :: Answers(ok, l, LocalErrorPage(l, old(Rest())))
    {
      var text;
      ok, text := Consume(ERROR_PAGE);
      if ok { ok, text := Consume(NUMBER); }
      if ok { ok, text := Consume(STRING); }
      if ok { ok, text := Consume(SEMICOLON); }
    }

    method ParseAllowedMethods(l: Location) returns (ok: bool, r: Location)
      requires Valid()
      modifies this`index
      ensures Valid()
      ensures Answers(ok, r, MethodsDirective(l, old(Rest())))
    {
      r := l;
      var text;
      ok, text := Consume(ALLOWED_METHODS);
      if !ok { return; }
      var methods := ConsumeStrings();
      ok, text := Consume(SEMICOLON);
      r := l.(allowedMethods := methods);
    }

    method ParseLocationDirective(l: Location) returns (ok: bool, r: Location)
      requires Valid()
      modifies this`index
      ensures Valid()
      ensures Answers(ok, r, LocationDirective(l, old(Rest())))
    {
      hide OneString;
      hide Take;
      hide LocalErrorPage;
      hide MethodsDirective;
      hide RedirectDirective;
      hide CgiDirective;
      hide ReturnDirective;
      r := l;
      var text;
      match tokens[index].kind {
        case ROOT =>
          ok, text := ParseStringDirective(ROOT);
          r := l.(root := text);
        case ERROR_PAGE => ok := ParseLocalErrorPage();
        case AUTOINDEX =>
          ok, text := ParseStringDirective(AUTOINDEX);
          r := l.(autoindex := text == "on");
        case INDEX =>
          ok, text := ParseStringDirective(INDEX);
          r := l.(index := text);
        case ALLOWED_METHODS => ok, r := ParseAllowedMethods(l);
        case REDIRECT => ok, r := ParseRedirectDirective(l);
        case CGI => ok, r := ParseCgiDirective(l);
        case UPLOAD_STORE =>
          ok, text := ParseStringDirective(UPLOAD_STORE);
          r := l.(uploadStore := text);
        case RETURN => ok, r := ParseReturnDirective(l);
        case _ => ok := false;
      }
    }

    /** The loop of parseLocationBlock. */
    method ParseLocationBody(path: string) returns (ok: bool, l: Location)
      requires Valid()
      modifies this`index
      ensures Valid()
      ensures Answers(ok, l, LocationBody(NewLocation(path), old(Rest())))
    {
      hide LocationDirective;
      l := NewLocation(path);
      while tokens[index].kind != RBRACE
        invariant Valid()
        invariant LocationBody(l, Rest()) == LocationBody(NewLocation(path), old(Rest()))
        decreases |tokens| - index
      {
        ghost var before := Rest();
        ok, l := ParseLocationDirective(l);
        if !ok { return; }
        assert |Rest()| < |before|;
      }
      var text;
      ok, text := Consume(RBRACE);
    }

    /** The server being filled in takes the value `s`. */
    method Update(s: ServerConfig)
      requires Valid() && currentServer.Some?
      modifies this`servers
      ensures Valid() && servers == old(servers)[currentServer.value := s]
    {
      servers := servers[currentServer.value := s];
    }

    /** What a server directive leaves: the reply's server in place of the current one. */
    twostate predicate ServerAnswers(ok: bool, reply: Reply<ServerConfig>)
      requires old(Valid()) && Valid() && old(currentServer).Some?
      reads this
    {
      && currentServer == old(currentServer)
      && match reply
         case Fail => !ok
         case Okay(s, rest) => ok && Rest() == rest && servers == old(servers)[old(currentServer).value := s]
    }

    method ParseListenDirective() returns (ok: bool)
      requires Valid() && currentServer.Some?
      modifies this`index, this`servers
      ensures Valid() && ServerAnswers(ok, ListenDirective(old(servers)[old(currentServer).value], old(Rest())))
    {
      var text, port;
      ok, text := Consume(LISTEN);
      if !ok { return; }
      ok, port := Consume(NUMBER);
      if !ok { return; }
      ok, text := Consume(SEMICOLON);
      if !ok { return; }
      Update(servers[currentServer.value].(host := "0.0.0.0", port := PortOf(port)));
    }

    method ParseServerNameDirective() returns (ok: bool)
      requires Valid() && currentServer.Some?
      modifies this`index, this`servers
      ensures Valid() && ServerAnswers(ok, ServerNameDirective(old(servers)[old(currentServer).value], old(Rest())))
    {
      hide Strings;
      var text, first;
      ok, text := Consume(SERVER_NAME);
      if !ok { return; }
      ok, first := Consume(STRING);
      if !ok { return; }
      var more := ConsumeStrings();
      ok, text := Consume(SEMICOLON);
      if !ok { return; }
      Update(servers[currentServer.value].(serverNames := [first] + more));
    }

    method ParseErrorPageDirective() returns (ok: bool)
      requires Valid() && currentServer.Some?
      modifies this`index, this`servers
      ensures Valid() && ServerAnswers(ok, ErrorPageDirective(old(servers)[old(currentServer).value], old(Rest())))
    {
      hide Numbers;
      hide ShortOf;
      hide IntOf;
      var text, file;
      ok, text := Consume(ERROR_PAGE);
      if !ok { return; }
      var codes := ConsumeNumbers();
      ok, file := Consume(STRING);
      if !ok { return; }
      ok, text := Consume(SEMICOLON);
      if !ok { return; }
      var s := servers[currentServer.value];
      var pages := s.errorPages;
      for i := 0 to |codes|
        invariant AddPages(s.errorPages, codes, file) == AddPages(pages, codes[i..], file)
      {
        assert codes[i..][1..] == codes[i + 1..];
        pages := pages[ShortOf(IntOf(codes[i])) := file];
      }
      Update(s.(errorPages := pages));
    }

    method ParseSizeTokens() returns (ok: bool, size: string, unit: string)
      requires Valid()
      modifies this`index
      ensures Valid()
      ensures Answers(ok, (size, unit), SizeTokens(old(Rest())))
    {
      var text;
      size, unit := "", "";
      ok, text := Consume(CLIENT_MAX_BODY_SIZE);
      if ok { ok, size := Consume(NUMBER); }
      if ok { ok, unit := Consume(CLIENT_MAX_BODY_SIZE_MUL); }
      if ok { ok, text := Consume(SEMICOLON); }
    }

    method ParseClientMaxBodySizeDirective() returns (ok: bool)
      requires Valid() && currentServer.Some?
      modifies this`index, this`servers
      ensures Valid() && ServerAnswers(ok, BodySizeDirective(old(servers)[old(currentServer).value], old(Rest())))
    {
      hide SizeTokens;
      hide SizeOf;
      var size, unit;
      ok, size, unit := ParseSizeTokens();
      if !ok { return; }
      Update(servers[currentServer.value].(clientMaxBodySize := SizeOf(size, unit)));
    }

    method ParseLocationBlock() returns (ok: bool)
      requires Valid() && currentServer.Some?
      modifies this`index, this`servers
      ensures Valid() && ServerAnswers(ok, LocationBlock(old(servers)[old(currentServer).value], old(Rest())))
    {
      hide LocationBody;
      var text, path, l;
      ok, text := Consume(LOCATION);
      if !ok { return; }
      ok, path := Consume(STRING);
      if !ok { return; }
      ok, text := Consume(LBRACE);
      if !ok { return; }
      ok, l := ParseLocationBody(path);
      if !ok { return; }
      var s := servers[currentServer.value];
      Update(s.(locations := s.locations + [l]));
    }

    method ParseDirective() returns (ok: bool)
      requires Valid() && currentServer.Some?
      modifies this`index, this`servers
      ensures Valid() && ServerAnswers(ok, ServerDirective(old(servers)[old(currentServer).value], old(Rest())))
    {
      match tokens[index].kind {
        case LISTEN => ok := ParseListenDirective();
        case SERVER_NAME => ok := ParseServerNameDirective();
        case ERROR_PAGE => ok := ParseErrorPageDirective();
        case LOCATION => ok := ParseLocationBlock();
        case CLIENT_MAX_BODY_SIZE => ok := ParseClientMaxBodySizeDirective();
        case _ => ok := false;
      }
    }

    method ParseServerBlock() returns (ok: bool)
      requires Valid() && currentServer.None?
      modifies this
      ensures Valid()
      ensures match ServerBlock(old(Rest()))
              case Fail => !ok
              case Okay(s, rest) => ok && Rest() == rest && servers == old(servers) + [s] && currentServer.None?
    {
      var text;
      ok, text := Consume(SERVER);
      if !ok { return; }
      ok, text := Consume(LBRACE);
      if !ok { return; }
      servers := servers + [NewServer];
      currentServer := Some(|servers| - 1);
      ok := ParseServerBody();
      currentServer := None;
    }

    /** The loop of parseServerBlock. */
    method ParseServerBody() returns (ok: bool)
      requires Valid() && currentServer.Some? && currentServer.value == |servers| - 1
      modifies this`index, this`servers
      ensures Valid() && currentServer == old(currentServer)
      ensures match ServerBody(old(servers)[old(currentServer).value], old(Rest()))
              case Fail => !ok
              case Okay(s, rest) => ok && Rest() == rest && servers == old(servers)[..|old(servers)| - 1] + [s]
    {
      hide ServerDirective;
      ghost var base, s := servers[..|servers| - 1], servers[|servers| - 1];
      assert servers == base + [s];
      while tokens[index].kind != RBRACE
        invariant Valid() && currentServer == Some(|base|) && servers == base + [s]
        invariant ServerBody(s, Rest()) == ServerBody(old(servers)[|base|], old(Rest()))
        decreases |tokens| - index
      {
        ghost var before := Rest();
        ok := ParseCurrent();
        if !ok { return; }
        s := servers[|base|];
        assert |Rest()| < |before|;
      }
      var text;
      ok, text := Consume(RBRACE);
    }

    /** One directive, for the last server. */
    method ParseCurrent() returns (ok: bool)
      requires Valid() && currentServer.Some? && currentServer.value == |servers| - 1
      modifies this`index, this`servers
      ensures Valid() && currentServer == old(currentServer)
      ensures match ServerDirective(old(servers)[old(currentServer).value], old(Rest()))
              case Fail => !ok
              case Okay(s, rest) => ok && Rest() == rest && servers == old(servers)[..|old(servers)| - 1] + [s]
    {
      hide ServerDirective;
      ok := ParseDirective();
    }

    /** parseConfig: every block consumes tokens or the parser throws. */
    method ParseConfig() returns (ok: bool)
      requires Valid() && currentServer.None?
      modifies this
      ensures Valid()
      ensures match Config(old(Rest())) case None => !ok case Some(more) => ok && servers == old(servers) + more
    {
      hide Config;
      ghost var done: seq<ServerConfig> := [];
      assert Config(Rest()).Some? ==> [] + Config(Rest()).value == Config(Rest()).value;
      while tokens[index].kind != END
        invariant Valid() && currentServer.None? && servers == old(servers) + done
        invariant Config(old(Rest())) == Prefixed(done, Config(Rest()))
        decreases |tokens| - index
      {
        ghost var before := Rest();
        ConfigStep(done, before);
        ok := ParseServerBlock();
        if !ok { return; }
        assert |Rest()| < |before|;
        done := done + [servers[|servers| - 1]];
      }
      ConfigStep(done, Rest());
      return true;
    }
  }

  function Prefixed(done: seq<ServerConfig>, more: Option<seq<ServerConfig>>): Option<seq<ServerConfig>> {
    match more case None => None case Some(ss) => Some(done + ss)
  }

  lemma ConfigStep(done: seq<ServerConfig>, ts: Ahead)
    ensures ts[0].kind == END ==> Prefixed(done, Config(ts)) == Some(done)
    ensures ts[0].kind != END ==>
              Prefixed(done, Config(ts)) ==
              if ServerBlock(ts).Fail? then None
              else Prefixed(done + [ServerBlock(ts).value], Config(ServerBlock(ts).rest))
  {
    hide ServerBlock;
    if ts[0].kind == END {
      assert done + [] == done;
    } else if ServerBlock(ts).Okay? && Config(ServerBlock(ts).rest).Some? {
      var more := Config(ServerBlock(ts).rest).value;
      assert done + ([ServerBlock(ts).value] + more) == done + [ServerBlock(ts).value] + more;
    }
  }
}
