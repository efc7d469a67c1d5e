/** JSON pointers: escaping, splitting and array indices (json_pointer.hpp). */
module JsonPointer {
  import opened Wrappers
  import opened JsonValue

  datatype Error =
    | ParseError(id: nat)
    | OutOfRange(id: nat)
    | OtherError(id: nat)
    | InvalidArgument   // std::invalid_argument of std::stoull, which nothing catches
    | AssertionFailed   // JSON_ASSERT(false)

  // ----- replace_substring -----

  /** Every occurrence of f, found from left to right without overlap, becomes t. */
  function Replaced(s: string, f: string, t: string): string
    requires f != ""
  {
    if |s| < |f| then s
    else if s[..|f|] == f then t + Replaced(s[|f|..], f, t)
    else [s[0]] + Replaced(s[1..], f, t)
  }

  predicate OccursAt(s: string, f: string, i: nat) {
    i + |f| <= |s| && s[i..i + |f|] == f
  }

  /** The position of the first occurrence of f at or after start, or |s| for std::string::npos. */
  method Find(s: string, f: string, start: nat) returns (pos: nat)
    requires f != "" && start <= |s|
    ensures start <= pos <= |s|
    ensures forall i :: start <= i < pos ==> !OccursAt(s, f, i)
    ensures pos < |s| ==> OccursAt(s, f, pos)
  {
    pos := start;
    while pos + |f| <= |s| && !OccursAt(s, f, pos)
      invariant start <= pos <= |s|
      invariant forall i :: start <= i < pos ==> !OccursAt(s, f, i)
    {
      pos := pos + 1;
    }
    if pos + |f| > |s| {
      pos := |s|;
    }
  }

  lemma ReplacedMiss(s: string, f: string, t: string)
    requires f != "" && s != "" && !OccursAt(s, f, 0)
    ensures Replaced(s, f, t) == [s[0]] + Replaced(s[1..], f, t)
  {
    if |f| <= |s| {
      assert s[..|f|] == s[0..0 + |f|];
    } else {
      assert s == [s[0]] + s[1..];
    }
  }

  lemma NoneShifted(s: string, f: string, at: nat, pos: nat)
    requires at <= pos <= |s|
    requires forall i :: at <= i < pos ==> !OccursAt(s, f, i)
    ensures forall i :: 0 <= i < pos - at ==> !OccursAt(s[at..], f, i)
  {
    forall i | 0 <= i < pos - at ensures !OccursAt(s[at..], f, i) {
      assert !OccursAt(s, f, at + i);
      if i + |f| <= |s[at..]| { assert s[at..][i..i + |f|] == s[at + i..at + i + |f|]; }
    }
  }

  lemma {:induction false} ReplacedSkip(s: string, f: string, t: string, n: nat)
    requires f != "" && n <= |s|
    requires forall i :: 0 <= i < n ==> !OccursAt(s, f, i)
    ensures Replaced(s, f, t) == s[..n] + Replaced(s[n..], f, t)
  {
    if n == 0 {
      assert s[0..] == s && s[..0] == "";
    } else {
      var u := s[1..];
      NoneShifted(s, f, 1, n);
      ReplacedSkip(u, f, t, n - 1);
      ReplacedMiss(s, f, t);
      assert u[n - 1..] == s[n..] && s[..n] == [s[0]] + u[..n - 1];
    }
  }

  lemma ReplacedHere(s: string, f: string, t: string, pos: nat)
    requires f != "" && OccursAt(s, f, pos)
    ensures var n := s[..pos] + t + s[pos + |f|..];
            s[..pos] + Replaced(s[pos..], f, t) == n[..pos + |t|] + Replaced(n[pos + |t|..], f, t)
  {
    var rest := s[pos + |f|..];
    var n := s[..pos] + t + rest;
    assert s[pos..][..|f|] == f && s[pos..][|f|..] == rest;
    assert n[pos + |t|..] == rest && n[..pos + |t|] == s[..pos] + t;
    assert s[..pos] + (t + Replaced(rest, f, t)) == s[..pos] + t + Replaced(rest, f, t);
  }

  lemma ReplacedNext(s: string, f: string, t: string, at: nat, pos: nat)
    requires f != "" && at <= pos <= |s|
    requires forall i :: at <= i < pos ==> !OccursAt(s, f, i)
    ensures s[..at] + Replaced(s[at..], f, t) == s[..pos] + Replaced(s[pos..], f, t)
  {
    var u := s[at..];
    NoneShifted(s, f, at, pos);
    ReplacedSkip(u, f, t, pos - at);
    assert u[pos - at..] == s[pos..] && s[..pos] == s[..at] + u[..pos - at];
  }

  method ReplaceSubstring(original: string, f: string, t: string) returns (s: string)
    requires f != ""
    ensures s == Replaced(original, f, t)
  {
    s := original;
    var pos: nat := Find(s, f, 0);
    ReplacedNext(s, f, t, 0, pos);
    assert s[0..] == s;
    while pos < |s|
      invariant pos <= |s|
      invariant pos < |s| ==> OccursAt(s, f, pos)
      invariant Replaced(original, f, t) == s[..pos] + Replaced(s[pos..], f, t)
      decreases |s| - pos
    {
      ReplacedHere(s, f, t, pos);
      var at := pos + |t|;
      s := s[..pos] + t + s[pos + |f|..];
      pos := Find(s, f, at);
      ReplacedNext(s, f, t, at, pos);
    }
    assert s[..pos] + s[pos..] == s;
  }

  /** find_first_of a single character. */
  method FindChar(s: string, c: char, start: nat) returns (pos: nat)
    requires start <= |s|
    ensures start <= pos <= |s| && c !in s[start..pos] && (pos < |s| ==> s[pos] == c)
  {
    pos := Find(s, [c], start);
    forall i | start <= i < pos ensures s[i] != c {
      assert !OccursAt(s, [c], i);
      assert s[i..i + 1] == [s[i]];
    }
    assert pos < |s| ==> s[pos..pos + 1] == [s[pos]];
  }

  // ----- escape and unescape -----

  function Escape(s: string): string {
    Replaced(Replaced(s, "~", "~0"), "/", "~1")
  }

  function Unescape(s: string): string {
    Replaced(Replaced(s, "~1", "/"), "~0", "~")
  }

  /** The escaped form, character by character. */
  function EscapedChar(c: char): string {
    if c == '~' then "~0" else if c == '/' then "~1" else [c]
  }

  function Escaped(s: string): string {
    if s == "" then "" else EscapedChar(s[0]) + Escaped(s[1..])
  }

  lemma ReplacedCons(c: char, s: string, f: string, t: string)
    requires |f| == 1
    ensures Replaced([c] + s, f, t) == (if [c] == f then t else [c]) + Replaced(s, f, t)
  {
    var u := [c] + s;
    assert u[1..] == s && u[..1] == [c];
  }

  lemma {:induction false} EscapeIsEscaped(s: string)
    ensures Escape(s) == Escaped(s)
  {
    if s != "" {
      var c, u := s[0], Replaced(s[1..], "~", "~0");
      assert s == [c] + s[1..];
      ReplacedCons(c, s[1..], "~", "~0");
      EscapeIsEscaped(s[1..]);
      if c == '~' {
        assert "~0" + u == ['~'] + (['0'] + u);
        ReplacedCons('~', ['0'] + u, "/", "~1");
        ReplacedCons('0', u, "/", "~1");
      } else {
        ReplacedCons(c, u, "/", "~1");
      }
    }
  }

  /** What is left to undo after "~1" has become "/": the tildes. */
  function TildesEscaped(s: string): string {
    if s == "" then "" else (if s[0] == '~' then "~0" else [s[0]]) + TildesEscaped(s[1..])
  }

  lemma Replaced2(c: char, d: char, s: string, t: string)
    ensures Replaced([c, d] + s, [c, d], t) == t + Replaced(s, [c, d], t)
  {
    var u := [c, d] + s;
    assert u[..2] == [c, d] && u[2..] == s;
  }

  lemma ReplacedSkip1(c: char, s: string, f: string, t: string)
    requires |f| == 2 && c != f[0]
    ensures Replaced([c] + s, f, t) == [c] + Replaced(s, f, t)
  {
    var u := [c] + s;
    assert u[1..] == s;
    if |u| >= 2 { assert u[..2][0] == c; }
  }

  lemma {:induction false} UnescapeFirst(s: string)
    ensures Replaced(Escaped(s), "~1", "/") == TildesEscaped(s)
  {
    if s != "" {
      var c, e := s[0], Escaped(s[1..]);
      UnescapeFirst(s[1..]);
      if c == '~' {
        var u := "~0" + e;
        assert u[..2] != "~1" by { assert u[..2][1] == '0'; }
        assert u[1..] == ['0'] + e;
        ReplacedSkip1('0', e, "~1", "/");
        assert ['~'] + (['0'] + TildesEscaped(s[1..])) == "~0" + TildesEscaped(s[1..]);
      } else if c == '/' {
        Replaced2('~', '1', e, "/");
      } else {
        ReplacedSkip1(c, e, "~1", "/");
      }
    }
  }

  lemma {:induction false} UnescapeSecond(s: string)
    ensures Replaced(TildesEscaped(s), "~0", "~") == s
  {
    if s != "" {
      var c, e := s[0], TildesEscaped(s[1..]);
      UnescapeSecond(s[1..]);
      if c == '~' {
        Replaced2('~', '0', e, "~");
      } else {
        ReplacedSkip1(c, e, "~0", "~");
      }
      assert [c] + s[1..] == s;
    }
  }

  lemma UnescapeEscape(s: string)
    ensures Unescape(Escape(s)) == s
  {
    EscapeIsEscaped(s);
    UnescapeFirst(s);
    UnescapeSecond(s);
  }

  // ----- pointers -----

  /** Every '~' is followed by '0' or '1'. */
  predicate WellEscaped(s: string) {
    forall i :: 0 <= i < |s| && s[i] == '~' ==> i + 1 < |s| && (s[i + 1] == '0' || s[i + 1] == '1')
  }

  /** The position of the first '/', or |s|. */
  function SlashIn(s: string): (n: nat)
    ensures n <= |s| && '/' !in s[..n] && (n < |s| ==> s[n] == '/')
  {
    if s == "" || s[0] == '/' then 0 else
      var n := 1 + SlashIn(s[1..]);
      assert s[..n] == [s[0]] + s[1..][..n - 1];
      n
  }

  function DecodeToken(s: string): Result<string, Error> {
    if WellEscaped(s) then Ok(Unescape(s)) else Err(ParseError(108))
  }

  /** What follows the tokens read so far. */
  function Prefixed(read: seq<string>, rest: Result<seq<string>, Error>): Result<seq<string>, Error> {
    if rest.Ok? then Ok(read + rest.value) else rest
  }

  /** The reference tokens of a pointer string; s is what follows a slash. */
  function SplitTokens(s: string): Result<seq<string>, Error>
    decreases |s|
  {
    var n := SlashIn(s);
    var token :- DecodeToken(s[..n]);
    if n == |s| then Ok([token]) else Prefixed([token], SplitTokens(s[n + 1..]))
  }

  function Split(s: string): Result<seq<string>, Error> {
    if s == "" then Ok([])
    else if s[0] != '/' then Err(ParseError(107))
    else SplitTokens(s[1..])
  }

  /** to_string(): each token escaped and led in by a slash. */
  function PointerString(tokens: seq<string>): string {
    if tokens == [] then "" else "/" + Escape(tokens[0]) + PointerString(tokens[1..])
  }

  lemma {:induction false} PointerStringConcat(p: seq<string>, q: seq<string>)
    ensures PointerString(p + q) == PointerString(p) + PointerString(q)
  {
    if p == [] {
      assert p + q == q;
    } else {
      assert (p + q)[1..] == p[1..] + q;
      PointerStringConcat(p[1..], q);
    }
  }

  lemma {:induction false} EscapedIsClean(s: string)
    ensures '/' !in Escaped(s) && WellEscaped(Escaped(s))
  {
    if s != "" {
      EscapedIsClean(s[1..]);
      var e, r := EscapedChar(s[0]), Escaped(s[1..]);
      forall i | 0 <= i < |e + r| && (e + r)[i] == '~'
        ensures i + 1 < |e + r| && ((e + r)[i + 1] == '0' || (e + r)[i + 1] == '1')
      {
        if i >= |e| { assert r[i - |e|] == '~'; }
      }
    }
  }

  lemma {:induction false} SlashAfter(a: string, b: string)
    requires '/' !in a && (b == "" || b[0] == '/')
    ensures SlashIn(a + b) == |a|
  {
    if a == "" {
      assert a + b == b;
    } else {
      assert (a + b)[1..] == a[1..] + b;
      SlashAfter(a[1..], b);
    }
  }

  lemma SplitTokensStep(e: string, r: string)
    requires '/' !in e && (r == "" || r[0] == '/')
    ensures SplitTokens(e + r) ==
      if DecodeToken(e).Err? then Err(DecodeToken(e).error)
      else if r == "" then Ok([DecodeToken(e).value])
      else Prefixed([DecodeToken(e).value], SplitTokens(r[1..]))
  {
    SlashAfter(e, r);
    assert (e + r)[..|e|] == e;
    if r != "" {
      assert (e + r)[|e| + 1..] == r[1..];
    }
  }

  lemma DecodeEscaped(token: string)
    ensures '/' !in Escape(token) && DecodeToken(Escape(token)) == Ok(token)
  {
    EscapeIsEscaped(token);
    EscapedIsClean(token);
    UnescapeEscape(token);
  }

  lemma SplitTokensJoin(e: string, token: string, r: string, rest: seq<string>)
    requires '/' !in e && DecodeToken(e) == Ok(token)
    requires if rest == [] then r == "" else r != "" && r[0] == '/' && SplitTokens(r[1..]) == Ok(rest)
    ensures SplitTokens(("/" + e + r)[1..]) == Ok([token] + rest)
  {
    assert ("/" + e + r)[1..] == e + r;
    SplitTokensStep(e, r);
    assert [token] + [] == [token];
  }

  lemma {:induction false} SplitTokensPointer(tokens: seq<string>)
    requires tokens != []
    ensures SplitTokens(PointerString(tokens)[1..]) == Ok(tokens)
  {
    var token, rest := tokens[0], tokens[1..];
    assert tokens == [token] + rest;
    DecodeEscaped(token);
    if rest != [] {
      SplitTokensPointer(rest);
    }
    SplitTokensJoin(Escape(token), token, PointerString(rest), rest);
  }

  /** Parsing the string form of a pointer gives back the pointer. */
  lemma PointerRoundTrip(tokens: seq<string>)
    ensures Split(PointerString(tokens)) == Ok(tokens)
  {
    if tokens != [] {
      SplitTokensPointer(tokens);
    }
  }

  /** The check of one reference token inside split. */
  method CheckEscapes(token: string) returns (ok: bool)
    ensures ok == WellEscaped(token)
  {
    var pos := FindChar(token, '~', 0);
    while pos < |token|
      invariant pos <= |token|
      invariant pos < |token| ==> token[pos] == '~'
      invariant forall i :: 0 <= i < pos && token[i] == '~' ==>
        i + 1 < |token| && (token[i + 1] == '0' || token[i + 1] == '1')
      decreases |token| - pos
    {
      if pos == |token| - 1 || (token[pos + 1] != '0' && token[pos + 1] != '1') {
        return false;
      }
      var here := pos;
      pos := FindChar(token, '~', here + 1);
      assert forall i :: here + 1 <= i < pos ==> token[here + 1..pos][i - here - 1] == token[i];
    }
    return true;
  }

  lemma SplitLoopStep(s: string, start: nat, slash: nat, read: seq<string>)
    requires start <= slash <= |s|
    requires '/' !in s[start..slash] && (slash < |s| ==> s[slash] == '/')
    ensures var token := DecodeToken(s[start..slash]);
      Prefixed(read, SplitTokens(s[start..])) ==
      if token.Err? then Err(token.error)
      else if slash == |s| then Ok(read + [token.value])
      else Prefixed(read + [token.value], SplitTokens(s[slash + 1..]))
  {
    assert s[start..] == s[start..slash] + s[slash..];
    SplitTokensStep(s[start..slash], s[slash..]);
    var token := DecodeToken(s[start..slash]);
    if slash < |s| {
      assert s[slash..][1..] == s[slash + 1..];
      if token.Ok? && SplitTokens(s[slash + 1..]).Ok? {
        var rest := SplitTokens(s[slash + 1..]).value;
        assert read + ([token.value] + rest) == (read + [token.value]) + rest;
      }
    }
  }

  /** The check and the unescaping of one token inside split. */
  method ReadToken(s: string) returns (r: Result<string, Error>)
    ensures r == DecodeToken(s)
  {
    var ok := CheckEscapes(s);
    if !ok { return Err(ParseError(108)); }
    var token := ReplaceSubstring(s, "~1", "/");
    token := ReplaceSubstring(token, "~0", "~");
    return Ok(token);
  }

  /** json_pointer::split as it runs: two moving positions and a list that grows. */
  method SplitString(s: string) returns (r: Result<seq<string>, Error>)
    ensures r == Split(s)
  {
    if s == "" { return Ok([]); }
    if s[0] != '/' { return Err(ParseError(107)); }
    var result: seq<string>, start := [], 1;
    var slash := FindChar(s, '/', 1);
    ghost var expected := SplitTokens(s[1..]);
    assert expected.Ok? ==> [] + expected.value == expected.value;
    while true
      invariant 1 <= start <= slash <= |s|
      invariant '/' !in s[start..slash] && (slash < |s| ==> s[slash] == '/')
      invariant expected == Prefixed(result, SplitTokens(s[start..]))
      decreases |s| - start
    {
      SplitLoopStep(s, start, slash, result);
      var token := ReadToken(s[start..slash]);
      if token.Err? { return Err(token.error); }
      result := result + [token.value];
      if slash == |s| {
        return Ok(result);
      }
      start := slash + 1;
      slash := FindChar(s, '/', start);
    }
  }

  // ----- array indices -----

  predicate IsDigit(c: char) {
    '0' <= c <= '9'
  }

  function Digits(s: string): nat
    requires forall c :: c in s ==> IsDigit(c)
  {
    if s == "" then 0 else
      assert IsDigit(s[|s| - 1]) by { assert s[|s| - 1] in s; }
      10 * Digits(s[..|s| - 1]) + (s[|s| - 1] as int - '0' as int)
  }

  /** std::to_string of a size_t. */
  function Decimal(n: nat): (s: string)
    ensures s != "" && (forall c :: c in s ==> IsDigit(c))
  {
    var digit := [('0' as int + n % 10) as char];
    if n < 10 then digit else Decimal(n / 10) + digit
  }

  function ArrayIndex(s: string): Result<nat, Error> {
    if |s| > 1 && s[0] == '0' then Err(ParseError(106))
    else if |s| > 1 && !('1' <= s[0] <= '9') then Err(ParseError(109))
    else if s == "" || !IsDigit(s[0]) then Err(InvalidArgument)
    else if exists c :: c in s && !IsDigit(c) then Err(OutOfRange(404))
    else
      var n := Digits(s);
      if n > SIZE_MAX then Err(OutOfRange(404))
      else if n >= SIZE_MAX then Err(OutOfRange(410))
      else Ok(n)
  }

  lemma {:induction false} DecimalDigits(n: nat)
    ensures Digits(Decimal(n)) == n
    ensures |Decimal(n)| > 1 ==> '1' <= Decimal(n)[0] <= '9'
    ensures n > 0 ==> Decimal(n)[0] != '0'
  {
    var s := Decimal(n);
    if n < 10 {
      assert s[..|s| - 1] == "";
    } else {
      DecimalDigits(n / 10);
      assert s[..|s| - 1] == Decimal(n / 10);
      assert s[0] == Decimal(n / 10)[0];
      assert IsDigit(s[0]);
    }
  }

  /** An index written by std::to_string is read back, unless it is too big for a container. */
  lemma IndexRoundTrip(n: nat)
    ensures n < SIZE_MAX <==> ArrayIndex(Decimal(n)) == Ok(n)
  {
    DecimalDigits(n);
    assert IsDigit(Decimal(n)[0]);
  }

  lemma {:induction false} EscapeClean(s: string)
    requires '~' !in s && '/' !in s
    ensures Escaped(s) == s
  {
    if s != "" { EscapeClean(s[1..]); }
  }

  lemma EscapeDecimal(n: nat)
    ensures Escape(Decimal(n)) == Decimal(n)
  {
    EscapeIsEscaped(Decimal(n));
    EscapeClean(Decimal(n));
  }

  lemma {:induction false} DigitsDecimal(s: string)
    requires s != "" && (forall c :: c in s ==> IsDigit(c))
    requires |s| > 1 ==> s[0] != '0'
    ensures Decimal(Digits(s)) == s
  {
    var last := s[|s| - 1];
    assert IsDigit(last) && last in s;
    var d := last as int - '0' as int;
    assert s == s[..|s| - 1] + [last];
    if |s| == 1 {
      assert Digits(s[..0]) == 0;
    } else {
      var init := s[..|s| - 1];
      assert init[0] == s[0];
      DigitsDecimal(init);
      DecimalDigits(Digits(init));
      assert IsDigit(init[0]) by { assert init[0] in s; }
      assert Decimal(0)[0] == '0';
      assert Digits(s) / 10 == Digits(init) && Digits(s) % 10 == d;
    }
  }

  /** Different tokens never name the same index. */
  lemma IndexInjective(s: string, t: string)
    requires ArrayIndex(s).Ok? && ArrayIndex(s) == ArrayIndex(t)
    ensures s == t
  {
    DigitsDecimal(s);
    DigitsDecimal(t);
  }
}
