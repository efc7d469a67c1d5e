/** Quoting a string for the shell (helpers.cpp), and how the shell reads it back. */
module ShellQuote {
  import opened Wrappers

  const QUOTE: char := '\''
  const BACKSLASH: char := '\\'
  const NUL: char := '\0'

  // ----- quoting -----

  function QuotedChar(c: char): string {
    if c == QUOTE then [QUOTE, BACKSLASH, QUOTE, QUOTE] else [c]
  }

  function Inner(s: string): string {
    if s == "" then "" else Inner(s[..|s| - 1]) + QuotedChar(s[|s| - 1])
  }

  function Quoted(s: string): string {
    [QUOTE] + Inner(s) + [QUOTE]
  }

  function Quotes(s: string): nat {
    multiset(s)[QUOTE]
  }

  // ----- section 2.2 of the POSIX Shell Command Language -----

  datatype Quoting = Bare | Escaped | Single | Double | DoubleEscaped

  /** Characters that mean something to the shell, or can, unless they are quoted. */
  predicate Special(c: char) {
    c in "|&;<>()$`*?[#~=%\n"
  }

  /** What stays special between double quotes. */
  predicate SpecialInDouble(c: char) {
    c in "$`"
  }

  /**
    The words the shell takes the input for, if it consists of words only: no operators, expansions,
    patterns or comments, and no quotation without an end. The word being read, if any, is given.
   */
  function Words(mode: Quoting, word: Option<string>, input: string): Option<seq<string>>
    decreases |input|
  {
    if input == "" then
      if mode.Bare? then Some(if word.Some? then [word.value] else []) else None
    else
      var c, rest := input[0], input[1..];
      var sofar := if word.Some? then word.value else "";
      match mode
      case Bare =>
        if c == QUOTE then Words(Single, Some(sofar), rest)
        else if c == '"' then Words(Double, Some(sofar), rest)
        else if c == BACKSLASH then Words(Escaped, word, rest)
        else if c == ' ' || c == '\t' then
          if word.None? then Words(Bare, None, rest)
          else
            var more := Words(Bare, None, rest);
            if more.Some? then Some([sofar] + more.value) else None
        else if Special(c) then None
        else Words(Bare, Some(sofar + [c]), rest)
      case Escaped =>
        if c == '\n' then Words(Bare, word, rest) else Words(Bare, Some(sofar + [c]), rest)
      case Single =>
        if c == QUOTE then Words(Bare, word, rest) else Words(Single, Some(sofar + [c]), rest)
      case Double =>
        if c == '"' then Words(Bare, word, rest)
        else if c == BACKSLASH then Words(DoubleEscaped, word, rest)
        else if SpecialInDouble(c) then None
        else Words(Double, Some(sofar + [c]), rest)
      case DoubleEscaped =>
        if c == '\n' then Words(Double, word, rest)
        else if c in "$`\"\\" then Words(Double, Some(sofar + [c]), rest)
        else Words(Double, Some(sofar + [BACKSLASH, c]), rest)
  }

  lemma ReadChar(word: string, c: char, rest: string)
    ensures Words(Single, Some(word), QuotedChar(c) + rest) == Words(Single, Some(word + [c]), rest)
  {
    if c == QUOTE {
      var first := QuotedChar(c) + rest;
      var second, third, fourth := [BACKSLASH, QUOTE, QUOTE] + rest, [QUOTE, QUOTE] + rest, [QUOTE] + rest;
      assert first[1..] == second && second[1..] == third && third[1..] == fourth && fourth[1..] == rest;
      assert Words(Single, Some(word), first) == Words(Bare, Some(word), second);
      assert Words(Bare, Some(word), second) == Words(Escaped, Some(word), third);
      assert Words(Escaped, Some(word), third) == Words(Bare, Some(word + [c]), fourth);
    } else {
      assert (QuotedChar(c) + rest)[1..] == rest;
    }
  }

  lemma {:induction false} ReadInner(word: string, s: string, rest: string)
    ensures Words(Single, Some(word), Inner(s) + rest) == Words(Single, Some(word + s), rest)
  {
    hide Words;
    if s == "" {
      assert Inner(s) + rest == rest && word + s == word;
    } else {
      var init, c := s[..|s| - 1], s[|s| - 1];
      assert Inner(s) + rest == Inner(init) + (QuotedChar(c) + rest);
      ReadInner(word, init, QuotedChar(c) + rest);
      ReadChar(word + init, c, rest);
      assert word + init + [c] == word + s;
    }
  }

  /** Whatever follows, the shell reads the quoted string as just that string. */
  lemma ReadQuoted(s: string, rest: string)
    ensures Words(Bare, None, Quoted(s) + rest) == Words(Bare, Some(s), rest)
  {
    var input := Quoted(s) + rest;
    assert input[0] == QUOTE && input[1..] == Inner(s) + ([QUOTE] + rest);
    ReadInner("", s, [QUOTE] + rest);
    assert "" + s == s && ([QUOTE] + rest)[1..] == rest;
  }

  /** The output is exactly one word, equal to the input. */
  lemma OneWord(s: string)
    ensures Words(Bare, None, Quoted(s)) == Some([s])
  {
    ReadQuoted(s, "");
    assert Quoted(s) + "" == Quoted(s);
  }

  /** A command line made of quoted arguments. */
  function CommandLine(args: seq<string>): string {
    if args == [] then "" else Quoted(args[0]) + if |args| == 1 then "" else " " + CommandLine(args[1..])
  }

  /** The shell gets back all arguments of a command line, in order. */
  lemma {:induction false} ArgumentsRoundTrip(args: seq<string>)
    ensures Words(Bare, None, CommandLine(args)) == Some(args)
  {
    if args != [] {
      var rest := if |args| == 1 then "" else " " + CommandLine(args[1..]);
      ReadQuoted(args[0], rest);
      if |args| == 1 {
        assert args == [args[0]];
      } else {
        assert rest[1..] == CommandLine(args[1..]);
        ArgumentsRoundTrip(args[1..]);
        assert args == [args[0]] + args[1..];
      }
    }
  }

  // ----- length -----

  lemma {:induction false} InnerLength(s: string)
    ensures |Inner(s)| == |s| + 3 * Quotes(s)
  {
    if s != "" {
      InnerLength(s[..|s| - 1]);
      assert s == s[..|s| - 1] + [s[|s| - 1]];
    }
  }

  lemma QuotedLength(s: string)
    ensures |Quoted(s)| == |s| + 3 * Quotes(s) + 2
  {
    InnerLength(s);
  }

  lemma {:induction false} QuotesAtMost(s: string)
    ensures Quotes(s) <= |s| && (Quotes(s) == |s| <==> forall i :: 0 <= i < |s| ==> s[i] == QUOTE)
  {
    if s != "" {
      var init, c := s[..|s| - 1], s[|s| - 1];
      QuotesAtMost(init);
      assert s == init + [c];
      assert Quotes(s) == Quotes(init) + if c == QUOTE then 1 else 0;
      if forall i :: 0 <= i < |s| ==> s[i] == QUOTE {
        assert forall i :: 0 <= i < |init| ==> init[i] == s[i];
      }
    }
  }

  /** Four times the length and one is room for the output and its end exactly if some character is not a quote. */
  lemma WorstCase(s: string)
    ensures |Quoted(s)| + 1 <= 4 * |s| + 1 <==> exists i :: 0 <= i < |s| && s[i] != QUOTE
  {
    QuotedLength(s);
    QuotesAtMost(s);
  }

  // ----- escapeshellarg -----

  /** The length of the string that starts there. */
  function StrLen(s: seq<char>): (n: nat)
    requires NUL in s
    ensures n < |s| && s[n] == NUL && NUL !in s[..n]
  {
    if s[0] == NUL then 0 else 1 + StrLen(s[1..])
  }

  /** The argument: so many characters, or up to the end of the string if no number is given. */
  function Argument(str: seq<char>, len: nat): string
    requires if len > 0 then len <= |str| else NUL in str
  {
    str[..if len > 0 then len else StrLen(str)]
  }

  method EscapeShellArg(alloc: array?<char>, str: seq<char>, len: nat) returns (cmd: array<char>, resLen: nat)
    requires if len > 0 then len <= |str| else NUL in str
    requires alloc != null ==> alloc.Length > |Quoted(Argument(str, len))|
    requires alloc == null ==> exists i :: 0 <= i < |Argument(str, len)| && Argument(str, len)[i] != QUOTE
    modifies if alloc == null then {} else {alloc}
    ensures if alloc == null then fresh(cmd) else cmd == alloc
    ensures resLen == |Quoted(Argument(str, len))| < cmd.Length
    ensures cmd[..resLen] == Quoted(Argument(str, len)) && cmd[resLen] == NUL
    ensures forall i :: resLen < i < cmd.Length && alloc != null ==> cmd[i] == old(alloc[i])
  {
    hide Quoted, StrLen;
    var l := if len > 0 then len else StrLen(str);
    WorstCase(Argument(str, len));
    if alloc == null {
      cmd := new char[l * 4 + 1];
    } else {
      cmd := alloc;
    }
    resLen := PutQuoted(cmd, str[..l]);
  }

  method PutQuoted(cmd: array<char>, str: string) returns (y: nat)
    requires |Quoted(str)| < cmd.Length
    modifies cmd
    ensures y == |Quoted(str)| && cmd[..y] == Quoted(str) && cmd[y] == NUL
    ensures forall i :: y < i < cmd.Length ==> cmd[i] == old(cmd[i])
  {
    hide Quoted, Inner, QuotedChar;
    y := 0;
    cmd[y], y := QUOTE, y + 1;
    PrefixFits(str, 0);
    for x := 0 to |str|
      invariant y == 1 + |Inner(str[..x])| && y < cmd.Length
      invariant cmd[..y] == [QUOTE] + Inner(str[..x])
      invariant forall i :: y <= i < cmd.Length ==> cmd[i] == old(cmd[i])
    {
      PrefixFits(str, x + 1);
      InnerNext(str, x);
      y := PutChar(cmd, y, str[x]);
    }
    assert str[..|str|] == str;
    QuotedIs(str);
    cmd[y], y := QUOTE, y + 1;
    cmd[y] := NUL;
  }

  /** One character of the argument; a quote ends the quotation, comes escaped, and begins a new one. */
  method PutChar(cmd: array<char>, y: nat, c: char) returns (after: nat)
    requires y + |QuotedChar(c)| <= cmd.Length
    modifies cmd
    ensures after == y + |QuotedChar(c)|
    ensures cmd[..after] == old(cmd[..y]) + QuotedChar(c)
    ensures forall i :: after <= i < cmd.Length ==> cmd[i] == old(cmd[i])
  {
    after := y;
    if c == QUOTE {
      cmd[after], after := QUOTE, after + 1;
      cmd[after], after := BACKSLASH, after + 1;
      cmd[after], after := QUOTE, after + 1;
    }
    cmd[after], after := c, after + 1;
  }

  lemma QuotedIs(s: string)
    ensures Quoted(s) == [QUOTE] + Inner(s) + [QUOTE]
  {}

  lemma InnerNext(s: string, x: nat)
    requires x < |s|
    ensures Inner(s[..x + 1]) == Inner(s[..x]) + QuotedChar(s[x])
  {
    assert s[..x + 1][..x] == s[..x];
  }

  /** What is written for the first characters leaves room for the rest. */
  lemma {:induction false} PrefixFits(s: string, x: nat)
    requires x <= |s|
    ensures 1 + |Inner(s[..x])| < |Quoted(s)| && Inner(s[..0]) == ""
    decreases |s| - x
  {
    if x == |s| {
      assert s[..x] == s;
    } else {
      PrefixFits(s, x + 1);
      InnerNext(s, x);
    }
  }
}
