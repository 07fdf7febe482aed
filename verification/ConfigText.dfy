/** From configuration text to tokens: the in-place rewriting of the text, its words, and their classification
    (srcs/ParseConf/Tokenize.cpp). */
module ConfigText {
  import opened Text
  import opened Numerals

  predicate IsSizeMultiplier(c: char) { ToLower(c) in "kmg" }

  predicate IsDelimiter(c: char) { c in ";{}" }

  // ---------------------------------------------------------------- SanitizeInput

  /** What one character of the original text becomes; only the original character before it matters. */
  function Piece(afterDigit: bool, c: char): string {
    if IsDelimiter(c) then [' ', c, ' ']
    else if IsSizeMultiplier(c) && afterDigit then [' ', ToLower(c), ' ']
    else [c]
  }

  /** The per-character rewrite. */
  function Rewrite(afterDigit: bool, s: string): string
    decreases |s|
  {
    if s == "" then "" else Piece(afterDigit, s[0]) + Rewrite(IsDigit(s[0]), s[1..])
  }

  function InsertSpace(s: string, i: nat): string
    requires i <= |s|
  {
    s[..i] + " " + s[i..]
  }

  lemma RewriteStep(done: string, afterDigit: bool, s: string)
    requires s != ""
    ensures done + Rewrite(afterDigit, s) == done + Piece(afterDigit, s[0]) + Rewrite(IsDigit(s[0]), s[1..])
  {
  }

  /** The two insertions around the character at `i`. */
  method SpaceOut(input: string, i: nat) returns (r: string)
    requires i < |input|
    ensures r == input[..i] + [' ', input[i], ' '] + input[i + 1..]
  {
    r := InsertSpace(input, i);
    assert r[..i + 2] == input[..i] + [' ', input[i]] && r[i + 2..] == input[i + 1..];
    r := InsertSpace(r, i + 2);
  }

  /** SanitizeInput: spaces are inserted into the string being scanned. The text before `i` is finished,
      the text from `i` on is still the original; what is left shrinks by one character a turn. */
  method SanitizeInput(text: string) returns (input: string)
    ensures input == Rewrite(false, text)
  {
    input := text;
    var i := 0;
    ghost var afterDigit := false;
    assert input[0..] == text;
    while i < |input|
      invariant i <= |input|
      invariant afterDigit == (i > 0 && IsDigit(input[i - 1]))
      invariant Rewrite(false, text) == input[..i] + Rewrite(afterDigit, input[i..])
      decreases |input| - i
    {
      var c := input[i];
      ghost var done, rest := input[..i], input[i..];
      RewriteStep(done, afterDigit, rest);
      ghost var piece := Piece(afterDigit, c);
      if IsDelimiter(c) {
        input := SpaceOut(input, i);
        i := i + 2;
      } else if IsSizeMultiplier(c) && i > 0 && IsDigit(input[i - 1]) {
        input := SpaceOut(input[i := ToLower(c)], i);
        i := i + 2;
      }
      i := i + 1;
      afterDigit := IsDigit(c);
      assert input[..i] == done + piece && input[i..] == rest[1..];
      assert input[i - 1] == piece[|piece| - 1];
    }
  }

  // ---------------------------------------------------------------- words

  /** The words of a text, with `word` already read. */
  function WordsFrom(word: string, s: string): seq<string>
    decreases |s|
  {
    if s == "" then (if word == "" then [] else [word])
    else if IsSpace(s[0]) then (if word == "" then [] else [word]) + WordsFrom("", s[1..])
    else WordsFrom(word + [s[0]], s[1..])
  }

  function Words(s: string): seq<string> { WordsFrom("", s) }

  /** Rewriting twice gives the same words as rewriting once. */
  lemma {:induction false} RewriteTwice(word: string, afterDigit: bool, s: string)
    ensures WordsFrom(word, Rewrite(afterDigit, Rewrite(afterDigit, s))) == WordsFrom(word, Rewrite(afterDigit, s))
    decreases |s|
  {
    if s != "" {
      var c, r := s[0], Rewrite(IsDigit(s[0]), s[1..]);
      if |Piece(afterDigit, c)| == 3 {
        var d := Piece(afterDigit, c)[1];
        assert Rewrite(afterDigit, s) == [' '] + ([d] + ([' '] + r));
        RewriteSpaced(afterDigit, d, r);
        RewriteTwice("", false, s[1..]);
        if IsDelimiter(d) { SpacesDoNotMatter(word, d, Rewrite(false, r)); }
        WordsSpaced(word, d, Rewrite(false, r));
        WordsSpaced(word, d, r);
      } else {
        assert Rewrite(afterDigit, s) == [c] + r;
        assert ([c] + r)[1..] == r;
        assert Rewrite(afterDigit, [c] + r) == [c] + Rewrite(IsDigit(c), r);
        var rr := Rewrite(IsDigit(c), r);
        assert ([c] + rr)[1..] == rr;
        RewriteTwice(if IsSpace(c) then "" else word + [c], IsDigit(c), s[1..]);
      }
    }
  }

  function Spaced(d: char, rest: string): string { [' '] + ([d] + ([' '] + rest)) }

  lemma RewriteSpaced(afterDigit: bool, d: char, r: string)
    requires IsDelimiter(d) || IsSizeMultiplier(d)
    ensures Rewrite(afterDigit, Spaced(d, r)) ==
            if IsDelimiter(d) then [' '] + Spaced(d, [' '] + Rewrite(false, r)) else Spaced(d, Rewrite(false, r))
  {
    var s := Spaced(d, r);
    assert s[1..] == [d] + ([' '] + r);
    assert s[1..][1..] == [' '] + r;
    assert s[1..][1..][1..] == r;
    assert Rewrite(false, [' '] + r) == [' '] + Rewrite(false, r);
    var x := [' '] + Rewrite(false, r);
    assert [' ', d, ' '] + x == Spaced(d, x);
    assert [d] + x == ([d] + x);
  }

  lemma WordsSpaced(word: string, d: char, rest: string)
    requires !IsSpace(d)
    ensures WordsFrom(word, Spaced(d, rest)) == (if word == "" then [] else [word]) + ([[d]] + Words(rest))
  {
    var t := [' '] + rest;
    assert t[1..] == rest;
    assert WordsFrom([d], t) == [[d]] + Words(rest);
    assert ([d] + t)[1..] == t && "" + [d] == [d];
    assert WordsFrom("", [d] + t) == WordsFrom([d], t);
    assert Spaced(d, rest)[1..] == [d] + t;
  }

  lemma SpacesDoNotMatter(word: string, d: char, rest: string)
    requires !IsSpace(d)
    ensures WordsFrom(word, [' '] + Spaced(d, [' '] + rest)) == WordsFrom(word, Spaced(d, rest))
  {
    var s := [' '] + Spaced(d, [' '] + rest);
    assert s[1..] == Spaced(d, [' '] + rest);
    WordsSpaced("", d, [' '] + rest);
    WordsSpaced(word, d, rest);
    assert ([' '] + rest)[1..] == rest;
  }

  // ---------------------------------------------------------------- tokens

  datatype Kind = SERVER | LISTEN | SERVER_NAME | ROOT | ERROR_PAGE | LOCATION | LBRACE | RBRACE | SEMICOLON | NUMBER
    | STRING | END | AUTOINDEX | INDEX | CLIENT_MAX_BODY_SIZE | CLIENT_MAX_BODY_SIZE_MUL | ALLOWED_METHODS | REDIRECT
    | RETURN | CGI | CGI_PATH | UPLOAD_STORE

  datatype Token = Token(kind: Kind, value: string)

  function Keyword(word: string): Option<Kind> {
    if word == "server" then Some(SERVER)
    else if word == "listen" then Some(LISTEN)
    else if word == "root" then Some(ROOT)
    else if word == "error_page" then Some(ERROR_PAGE)
    else if word == "location" then Some(LOCATION)
    else if word == "autoindex" then Some(AUTOINDEX)
    else if word == "index" then Some(INDEX)
    else if word == "client_max_body_size" then Some(CLIENT_MAX_BODY_SIZE)
    else if word == "allowed_methods" then Some(ALLOWED_METHODS)
    else if word == "redirect" then Some(REDIRECT)
    else if word == "cgi" then Some(CGI)
    else if word == "cgi_path" then Some(CGI_PATH)
    else if word == "upload_store" then Some(UPLOAD_STORE)
    else if word == "server_name" then Some(SERVER_NAME)
    else if word == "{" then Some(LBRACE)
    else if word == "}" then Some(RBRACE)
    else if word == ";" then Some(SEMICOLON)
    else if word == "return" then Some(RETURN)
    else None
  }

  const INT_MAX: int := 0x7FFF_FFFF

  /** string_to_size_t: the whole word is a decimal number, with a sign or without, that fits an int. */
  function ParseInt(word: string): Option<int> {
    var signed := word != "" && (word[0] == '-' || word[0] == '+');
    var digits := if signed then word[1..] else word;
    var v: int := ValueOf(digits, 10);
    if digits == "" || !IsNumeric(digits) then None
    else if signed && word[0] == '-' then (if v <= INT_MAX + 1 then Some(-v) else None)
    else if v <= INT_MAX then Some(v) else None
  }

  /** The token of a word; None for a negative number, which is refused. */
  function Classify(word: string): Option<Token> {
    match Keyword(word)
    case Some(kind) => Some(Token(kind, word))
    case None =>
      if |word| == 1 && IsSizeMultiplier(word[0]) then Some(Token(CLIENT_MAX_BODY_SIZE_MUL, word))
      else
        match ParseInt(word)
        case Some(n) => if n < 0 then None else Some(Token(NUMBER, word))
        case None => Some(Token(STRING, word))
  }

  const EndToken: Token := Token(END, "")

  function SkipSpace(s: string): (r: string)
    ensures |r| <= |s| && (r != "" ==> !IsSpace(r[0]))
  {
    if s != "" && IsSpace(s[0]) then SkipSpace(s[1..]) else s
  }

  function WordLength(s: string): (n: nat)
    ensures n <= |s| && (forall i :: 0 <= i < n ==> !IsSpace(s[i])) && (n < |s| ==> IsSpace(s[n]))
    ensures s != "" && !IsSpace(s[0]) ==> n > 0
  {
    if s == "" || IsSpace(s[0]) then 0 else 1 + WordLength(s[1..])
  }

  /** stream.ignore up to and including the end of the line. */
  function SkipLine(s: string): (r: string)
    ensures |r| <= |s|
  {
    if s == "" then "" else if s[0] == '\n' then s[1..] else SkipLine(s[1..])
  }

  /** The loop of tokenize on sanitized text. */
  function Tokens(s: string): Option<seq<Token>>
    decreases |s|
  {
    var t := SkipSpace(s);
    if t == "" then Some([EndToken])
    else
      var n := WordLength(t);
      if t[..n] == "#" then Tokens(SkipLine(t[n..]))
      else
        match Classify(t[..n])
        case None => None
        case Some(token) =>
          match Tokens(t[n..]) case None => None case Some(rest) => Some([token] + rest)
  }

  /** tokenize. */
  method Tokenize(input: string) returns (r: Option<seq<Token>>)
    ensures r == Tokens(Rewrite(false, input))
  {
    var s := SanitizeInput(input);
    var tokens: seq<Token> := [];
    var rest := SkipSpace(s);
    SkipTwice(s);
    assert Tokens(rest).Some? ==> tokens + Tokens(rest).value == Tokens(rest).value;
    while rest != ""
      invariant rest == "" || !IsSpace(rest[0])
      invariant Tokens(s) == match Tokens(rest) case None => None case Some(more) => Some(tokens + more)
      decreases |rest|
    {
      var n := WordLength(rest);
      var word := rest[..n];
      assert SkipSpace(rest) == rest;
      ghost var before := rest;
      if word == "#" {
        rest := SkipSpace(SkipLine(rest[n..]));
        SkipTwice(SkipLine(before[n..]));
        continue;
      }
      var token := Classify(word);
      if token.None? {
        return None;
      }
      rest := SkipSpace(rest[n..]);
      SkipTwice(before[n..]);
      assert Tokens(rest) == Tokens(before[n..]);
      if Tokens(rest).Some? {
        assert tokens + ([token.value] + Tokens(rest).value) == tokens + [token.value] + Tokens(rest).value;
      }
      tokens := tokens + [token.value];
    }
    return Some(tokens + [EndToken]);
  }

  lemma SkipTwice(s: string)
    ensures SkipSpace(SkipSpace(s)) == SkipSpace(s)
    ensures Tokens(SkipSpace(s)) == Tokens(s)
  {
  }

  /** The tokens of a list of words. */
  function ClassifyAll(words: seq<string>): Option<seq<Token>> {
    if words == [] then Some([EndToken])
    else
      match Classify(words[0])
      case None => None
      case Some(token) =>
        match ClassifyAll(words[1..]) case None => None case Some(rest) => Some([token] + rest)
  }

  lemma {:induction false} WordsSkip(s: string)
    ensures Words(s) == Words(SkipSpace(s))
  {
    if s != "" && IsSpace(s[0]) { WordsSkip(s[1..]); }
  }

  lemma {:induction false} WordsRun(word: string, s: string)
    ensures var n := WordLength(s);
            WordsFrom(word, s) == (if word + s[..n] == "" then [] else [word + s[..n]]) + Words(s[n..])
    decreases |s|
  {
    var n := WordLength(s);
    if n == 0 {
      assert word + s[..0] == word && s[0..] == s;
      if s != "" { assert Words(s) == [] + WordsFrom("", s[1..]); }
    } else {
      WordsRun(word + [s[0]], s[1..]);
      assert s[1..][..n - 1] == s[1..n] && s[1..][n - 1..] == s[n..];
      assert word + [s[0]] + s[1..n] == word + s[..n];
    }
  }

  /** Without comments, the tokens are the classified words. */
  lemma {:induction false} TokensAreWords(s: string)
    requires "#" !in Words(s)
    ensures Tokens(s) == ClassifyAll(Words(s))
    decreases |s|
  {
    var t := SkipSpace(s);
    WordsSkip(s);
    if t != "" {
      var n := WordLength(t);
      WordsRun("", t);
      assert "" + t[..n] == t[..n];
      assert Words(t) == [t[..n]] + Words(t[n..]);
      assert t[..n] in Words(t);
      assert forall w :: w in Words(t[n..]) ==> w in Words(t);
      TokensAreWords(t[n..]);
    }
  }
}
