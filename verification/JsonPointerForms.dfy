/** JSON pointers have one spelling each, and so do array indices (sections 3 and 4 of RFC 6901). */
module JsonPointerForms {
  import opened Wrappers
  import opened JsonValue
  import opened JsonPointer

  /** Escaping, one character after the other. */
  lemma EscapeCons(c: char, s: string)
    ensures Escape([c] + s) == (if c == '~' then "~0" else if c == '/' then "~1" else [c]) + Escape(s)
  {
    EscapeIsEscaped([c] + s);
    EscapeIsEscaped(s);
    assert ([c] + s)[1..] == s;
  }

  lemma UnescapeCons(c: char, s: string)
    requires c != '~'
    ensures Unescape([c] + s) == [c] + Unescape(s)
  {
    ReplacedSkip1(c, s, "~1", "/");
    ReplacedSkip1(c, Replaced(s, "~1", "/"), "~0", "~");
  }

  lemma UnescapeEscaped(s: string)
    ensures Unescape("~0" + s) == "~" + Unescape(s) && Unescape("~1" + s) == "/" + Unescape(s)
  {
    var u := Replaced(s, "~1", "/");
    assert ("~0" + s)[..2] == "~0" && "~0" + s == ['~'] + (['0'] + s);
    assert "~0"[1] != "~1"[1];
    assert (['~'] + (['0'] + s))[1..] == ['0'] + s;
    assert Replaced("~0" + s, "~1", "/") == ['~'] + Replaced(['0'] + s, "~1", "/");
    ReplacedSkip1('0', s, "~1", "/");
    assert ['~'] + (['0'] + u) == ['~', '0'] + u;
    Replaced2('~', '0', u, "~");
    Replaced2('~', '1', s, "/");
    assert ['~', '1'] + s == "~1" + s;
    ReplacedSkip1('/', u, "~0", "~");
  }

  lemma WellEscapedRest(s: string, n: nat)
    requires WellEscaped(s) && n <= |s|
    ensures WellEscaped(s[n..])
  {
    var rest := s[n..];
    forall i | 0 <= i < |rest| && rest[i] == '~'
      ensures i + 1 < |rest| && (rest[i + 1] == '0' || rest[i + 1] == '1')
    {
      assert s[i + n] == '~';
    }
  }

  /** A well-formed token is the escaped form of what it stands for: there is no second spelling. */
  lemma {:induction false} EscapeUnescape(s: string)
    requires WellEscaped(s) && '/' !in s
    ensures Escape(Unescape(s)) == s
    decreases |s|
  {
    if s == "" {
      return;
    }
    hide Escape, Unescape;
    if s[0] == '~' {
      var rest := s[2..];
      WellEscapedRest(s, 2);
      EscapeUnescape(rest);
      UnescapeEscaped(rest);
      EscapeCons(if s[1] == '0' then '~' else '/', Unescape(rest));
      assert s == [s[0], s[1]] + rest;
    } else {
      var rest := s[1..];
      WellEscapedRest(s, 1);
      EscapeUnescape(rest);
      UnescapeCons(s[0], rest);
      EscapeCons(s[0], Unescape(rest));
      assert s == [s[0]] + rest;
    }
  }

  /** What split accepts is what to_string() writes. */
  lemma {:induction false} SplitTokensInverse(s: string)
    requires SplitTokens(s).Ok?
    ensures PointerString(SplitTokens(s).value) == "/" + s
    decreases |s|
  {
    hide Escape, DecodeToken, SplitTokens, PointerString;
    var n := SlashIn(s);
    var first, last := s[..n], s[n..];
    assert s == first + last;
    SplitTokensStep(first, last);
    TokenInverse(first);
    var token := DecodeToken(first).value;
    if last == "" {
      PointerCons(token, []);
    } else {
      var rest := SplitTokens(last[1..]).value;
      SplitTokensInverse(last[1..]);
      PointerCons(token, rest);
      assert last == "/" + last[1..];
    }
  }

  lemma PointerCons(token: string, rest: seq<string>)
    ensures PointerString([token] + rest) == "/" + Escape(token) + PointerString(rest)
    ensures PointerString([token]) == "/" + Escape(token)
  {
    assert ([token] + rest)[1..] == rest && [token][1..] == [];
  }

  lemma TokenInverse(s: string)
    requires '/' !in s && DecodeToken(s).Ok?
    ensures Escape(DecodeToken(s).value) == s
  {
    EscapeUnescape(s);
  }

  /** A string is read as a list of tokens exactly if it is how the list is written. */
  lemma SplitInverse(s: string, tokens: seq<string>)
    ensures Split(s) == Ok(tokens) <==> PointerString(tokens) == s
  {
    hide SplitTokens, PointerString;
    PointerRoundTrip(tokens);
    EmptyPointer();
    if Split(s) == Ok(tokens) && s != "" {
      SplitTokensInverse(s[1..]);
      assert s == "/" + s[1..];
    }
  }

  lemma EmptyPointer()
    ensures PointerString([]) == ""
  {}

  /** The examples of section 5 of RFC 6901 that need escaping, and how numbers are written. */
  lemma Examples()
    ensures PointerString(["a/b"]) == "/a~1b" && PointerString(["m~n"]) == "/m~0n" &&
      PointerString(["", "~1"]) == "//~01"
    ensures Decimal(0) == "0" && Decimal(7) == "7" && Decimal(10) == "10" && Decimal(1203) == "1203"
  {
    hide Escape;
    EscapeNothing();
    EscapeCons('b', "");
    EscapeCons('/', "b");
    EscapeCons('a', "/b");
    EscapeCons('n', "");
    EscapeCons('~', "n");
    EscapeCons('m', "~n");
    EscapeCons('1', "");
    EscapeCons('~', "1");
    assert ['a'] + "/b" == "a/b" && ['m'] + "~n" == "m~n" && ['~'] + "1" == "~1";
    assert ['/'] + "b" == "/b" && ['~'] + "n" == "~n" && ['b'] + "" == "b" && ['n'] + "" == "n" && ['1'] + "" == "1";
    PointerCons("a/b", []);
    PointerCons("m~n", []);
    PointerCons("", ["~1"]);
    PointerCons("~1", []);
  }

  lemma EscapeNothing()
    ensures Escape("") == ""
  {}

  /** An index is written without leading zeros, and is less than the greatest size. */
  lemma IndexIsDecimal(s: string, n: nat)
    ensures ArrayIndex(s) == Ok(n) <==> s == Decimal(n) && n < 18446744073709551615
  {
    if ArrayIndex(s) == Ok(n) {
      DigitsDecimal(s);
    }
    IndexRoundTrip(n);
  }

  /** The errors for what is no index. */
  lemma NoIndex(n: nat)
    ensures ArrayIndex("01") == Err(ParseError(106)) && ArrayIndex("a1") == Err(ParseError(109))
    ensures ArrayIndex("1a") == Err(OutOfRange(404)) && ArrayIndex("") == ArrayIndex("a") == Err(InvalidArgument)
    ensures n >= SIZE_MAX ==> ArrayIndex(Decimal(n)) == Err(OutOfRange(if n == SIZE_MAX then 410 else 404))
  {
    assert "1a"[1] in "1a";
    DecimalDigits(n);
    assert IsDigit(Decimal(n)[0]);
  }

  /** The errors for what is no pointer. */
  lemma NoPointer(s: string)
    ensures s != "" && s[0] != '/' ==> Split(s) == Err(ParseError(107))
    ensures s != "" && s[0] == '/' && Split(s).Err? ==> Split(s) == Err(ParseError(108))
  {
    if s != "" {
      NoToken(s[1..]);
    }
  }

  lemma {:induction false} NoToken(s: string)
    ensures SplitTokens(s).Err? ==> SplitTokens(s) == Err(ParseError(108))
    decreases |s|
  {
    var n := SlashIn(s);
    if n < |s| {
      NoToken(s[n + 1..]);
    }
  }
}
