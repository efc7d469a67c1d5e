/** The INI parser, which works on its line buffer in place (ini.c). */
module Ini {
  import opened Wrappers
  import opened IniSpec

  // ----- strings in memory -----

  /** At this position of the memory there is this string. */
  ghost predicate IsStr(a: seq<char>, p: nat, s: string) {
    p + |s| < |a| && a[p..p + |s|] == s && a[p + |s|] == NUL && NUL !in s
  }

  lemma StrAt(a: seq<char>, p: nat, s: string, k: nat)
    requires IsStr(a, p, s) && k <= |s|
    ensures p + k < |a| && a[p + k] == if k < |s| then s[k] else NUL
    ensures k < |s| ==> s[k] != NUL
  {
    if k < |s| {
      assert a[p..p + |s|][k] == s[k];
    }
  }

  lemma StrFrom(a: seq<char>, p: nat, s: string, k: nat)
    requires IsStr(a, p, s) && k <= |s|
    ensures IsStr(a, p + k, s[k..])
  {
    assert a[p + k..p + |s|] == a[p..p + |s|][k..];
  }

  /** An end put into a string leaves the part before it, and the part after it. */
  lemma StrCut(a: seq<char>, b: seq<char>, p: nat, s: string, k: nat)
    requires IsStr(a, p, s) && k < |s| && |b| == |a| && b == a[p + k := NUL]
    ensures IsStr(b, p, s[..k]) && IsStr(b, p + k + 1, s[k + 1..])
  {
    assert b[p..p + k] == a[p..p + |s|][..k];
    assert b[p + k + 1..p + |s|] == a[p..p + |s|][k + 1..];
  }

  lemma StrKept(a: seq<char>, b: seq<char>, p: nat, s: string)
    requires IsStr(a, p, s) && |b| == |a| && forall i :: p <= i <= p + |s| ==> b[i] == a[i]
    ensures IsStr(b, p, s)
  {
    assert b[p..p + |s|] == a[p..p + |s|];
  }

  method StrLen(a: array<char>, p: nat, ghost s: string) returns (n: nat)
    requires IsStr(a[..], p, s)
    ensures n == |s|
  {
    n := 0;
    StrAt(a[..], p, s, 0);
    while a[p + n] != NUL
      invariant n <= |s| && p + n < a.Length
      decreases |s| - n
    {
      StrAt(a[..], p, s, n);
      n := n + 1;
      StrAt(a[..], p, s, n);
    }
    StrAt(a[..], p, s, n);
  }

  method StringAt(a: array<char>, p: nat, ghost s: string) returns (t: string)
    requires IsStr(a[..], p, s)
    ensures t == s
  {
    var n := StrLen(a, p, s);
    t := a[p..p + n];
  }

  /** Strip space off the end of a string, in place. */
  method RStrip(a: array<char>, p: nat, ghost s: string)
    requires IsStr(a[..], p, s)
    modifies a
    ensures IsStr(a[..], p, RStripped(s))
    ensures forall i :: 0 <= i < a.Length && !(p <= i < p + |s|) ==> a[i] == old(a[i])
  {
    var n := StrLen(a, p, s);
    var q := p + n;
    ghost var t := s;
    while q > p && IsSpace(a[q - 1])
      invariant p <= q && q == p + |t| <= p + |s| && IsStr(a[..], p, t) && RStripped(t) == RStripped(s)
      invariant forall i :: 0 <= i < a.Length && !(p <= i < p + |s|) ==> a[i] == old(a[i])
      decreases q
    {
      q := q - 1;
      StrAt(a[..], p, t, |t| - 1);
      StrCut(a[..], a[..][q := NUL], p, t, |t| - 1);
      a[q] := NUL;
      t := t[..|t| - 1];
    }
    if t != "" {
      StrAt(a[..], p, t, |t| - 1);
    }
  }

  /** The position of the first character that is not space. */
  method LSkip(a: array<char>, p: nat, ghost s: string) returns (q: nat)
    requires IsStr(a[..], p, s)
    ensures q == p + |s| - |LSkipped(s)| && IsStr(a[..], q, LSkipped(s))
  {
    q := p;
    ghost var t := s;
    StrAt(a[..], q, t, 0);
    while a[q] != NUL && IsSpace(a[q])
      invariant q + |t| == p + |s| && IsStr(a[..], q, t) && LSkipped(t) == LSkipped(s) && q < a.Length
      decreases |t|
    {
      StrAt(a[..], q, t, 0);
      StrFrom(a[..], q, t, 1);
      q, t := q + 1, t[1..];
      StrAt(a[..], q, t, 0);
    }
    StrAt(a[..], q, t, 0);
  }

  /** The position of the first of these characters or of an inline comment, or of the end of the string. */
  method FindCharsOrComment(a: array<char>, p: nat, chars: string, ghost s: string) returns (q: nat)
    requires IsStr(a[..], p, s)
    ensures q == p + Find(s, 0, chars)
  {
    q := p;
    var wasSpace := false;
    StrAt(a[..], p, s, 0);
    while a[q] != NUL && a[q] !in chars && !(wasSpace && a[q] == INLINE_COMMENT)
      invariant p <= q <= p + |s| && q < a.Length
      invariant Find(s, 0, chars) == Find(s, q - p, chars)
      invariant wasSpace == (q > p && IsSpace(s[q - p - 1]))
      decreases p + |s| - q
    {
      StrAt(a[..], p, s, q - p);
      wasSpace := IsSpace(a[q]);
      q := q + 1;
      StrAt(a[..], p, s, q - p);
    }
    StrAt(a[..], p, s, q - p);
  }

  /** Copy as much of a string as fits, always with an end. */
  method StrNCpy0(dest: array<char>, src: array<char>, p: nat, size: nat, ghost s: string)
    requires dest != src && IsStr(src[..], p, s) && 0 < size <= dest.Length
    modifies dest
    ensures IsStr(dest[..], 0, Take(s, size - 1))
  {
    var i := 0;
    StrAt(src[..], p, s, 0);
    while i < size - 1 && src[p + i] != NUL
      invariant i <= |s| && i <= size - 1 && p + i < src.Length
      invariant dest[..i] == s[..i]
      decreases size - i
    {
      StrAt(src[..], p, s, i);
      dest[i] := src[p + i];
      i := i + 1;
      StrAt(src[..], p, s, i);
    }
    StrAt(src[..], p, s, i);
    dest[i] := NUL;
    assert dest[..i] == s[..i];
  }

  // ----- the reader -----

  lemma LineLengthNone(input: string)
    ensures input[0..] == input
  {}

  lemma LineLengthEnd(input: string, k: nat, room: nat)
    requires k <= |input| && (room <= 1 || k == |input|)
    ensures LineLength(input[k..], room) == 0
  {}

  lemma LineLengthNext(input: string, k: nat, room: nat)
    requires k < |input| && room > 1
    ensures LineLength(input[k..], room) == if input[k] == '\n' then 1 else 1 + LineLength(input[k + 1..], room - 1)
  {
    assert input[k..][0] == input[k] && input[k..][1..] == input[k + 1..];
  }

  /** Copy a line that begins there, as far as it fits. */
  method CopyLine(str: array<char>, text: string, start: nat, num: nat) returns (k: nat)
    requires start <= |text| && 2 <= num <= str.Length
    modifies str
    ensures k == LineLength(text[start..], num) < num && start + k <= |text|
    ensures str[..k] == text[start..start + k] && str[k] == NUL
  {
    hide LineLength;
    ghost var input := text[start..];
    LineLengthNone(input);
    k := 0;
    var room: nat := num;
    var done := false;
    while room > 1 && start + k < |text| && !done
      invariant start + k <= |text| && k + room == num && 0 < room
      invariant str[..k] == text[start..start + k]
      invariant if done then k == LineLength(input, num) else LineLength(input, num) == k + LineLength(input[k..], room)
      decreases room
    {
      LineLengthNext(input, k, room);
      str[k] := text[start + k];
      done := text[start + k] == '\n';
      k := k + 1;
      room := room - 1;
    }
    if !done {
      LineLengthEnd(input, k, room);
    }
    str[k] := NUL;
  }

  class StringContext {
    const text: string
    var numLeft: nat

    constructor (text: string)
      ensures this.text == text && numLeft == |text|
    {
      this.text, numLeft := text, |text|;
    }

    ghost predicate Valid()
      reads this
    {
      numLeft <= |text|
    }

    function Rest(): string
      reads this
      requires Valid()
    {
      text[|text| - numLeft..]
    }

    /** Read the next line, or as much of it as fits; the answer is no at the end of the input. */
    method ReaderString(str: array<char>, num: nat) returns (ok: bool)
      requires Valid() && NUL !in text && num <= str.Length
      modifies this, str
      ensures Valid()
      ensures ok <==> old(numLeft) > 0 && num >= 2
      ensures ok ==> IsStr(str[..], 0, old(Rest())[..LineLength(old(Rest()), num)])
      ensures ok ==> Rest() == old(Rest())[LineLength(old(Rest()), num)..]
      ensures !ok ==> Rest() == old(Rest())
    {
      if numLeft == 0 || num < 2 {
        return false;
      }
      hide LineLength;
      ghost var input := Rest();
      var n := CopyLine(str, text, |text| - numLeft, num);
      numLeft := numLeft - n;
      assert str[0..n] == input[..n] && text[|text| - numLeft..] == input[n..];
      ok := true;
    }
  }

  // ----- the parser -----

  ghost predicate Carries(section: array<char>, prevName: array<char>, c: Carry)
    reads section, prevName
  {
    && section.Length == MAX_SECTION && prevName.Length == MAX_NAME
    && IsStr(section[..], 0, c.section) && IsStr(prevName[..], 0, c.prevName)
  }

  lemma BomIs(a: seq<char>, s: string)
    requires IsStr(a, 0, s) && |a| >= 3
    ensures BOM <= s <==> a[0] == BOM[0] && a[1] == BOM[1] && a[2] == BOM[2]
  {
    assert |BOM| == 3 && BOM[0] != NUL && BOM[1] != NUL && BOM[2] != NUL;
    assert a[0..|s|] == s && a[|s|] == NUL;
    if BOM <= s {
      assert s[0] == BOM[0] && s[1] == BOM[1] && s[2] == BOM[2];
    }
    if a[0] == BOM[0] && a[1] == BOM[1] && a[2] == BOM[2] {
      assert |s| >= 3;
      assert s[..3] == BOM;
    }
  }

  lemma IndentedIs(line: string, first: bool, start: nat)
    requires first && BOM <= line ==> start >= 3
    requires !(first && BOM <= line) ==> start == |RStripped(line)| - |LSkipped(RStripped(line))|
    requires Start(line, first) != ""
    ensures start > 0 <==> Indented(line, first)
  {
    if !(first && BOM <= line) {
      StripKeepsStart(line);
      var t := RStripped(line);
      assert IsSpace(t[0]) ==> LSkipped(t) == LSkipped(t[1..]);
    }
  }

  /** Strip the line, and find where it starts. */
  method Locate(line: array<char>, lineno: nat, ghost s: string) returns (start: nat)
    requires line.Length >= 3 && IsStr(line[..], 0, s)
    modifies line
    ensures IsStr(line[..], start, Start(s, lineno == 1))
    ensures Start(s, lineno == 1) != "" ==> (start > 0 <==> Indented(s, lineno == 1))
  {
    hide RStripped, LSkipped, IsStr;
    start := 0;
    BomIs(line[..], s);
    assert |BOM| == 3;
    if lineno == 1 && line[0] == BOM[0] && line[1] == BOM[1] && line[2] == BOM[2] {
      StrFrom(line[..], 0, s, 3);
      start := start + 3;
    }
    ghost var marked := Unmarked(s, lineno == 1);
    RStrip(line, start, marked);
    start := LSkip(line, start, RStripped(marked));
    if Start(s, lineno == 1) != "" {
      IndentedIs(s, lineno == 1, start);
    }
  }

  /** A line that begins with a bracket; the answer is no if there is no closing one. */
  method SetSection(line: array<char>, start: nat, section: array<char>, prevName: array<char>, ghost s: string,
      ghost c: Carry)
      returns (ok: bool)
    requires IsStr(line[..], start, s) && Carries(section, prevName, c)
    requires line != section && line != prevName && section != prevName
    modifies line, section, prevName
    ensures ok <==> SectionLine(s, c).Silent?
    ensures Carries(section, prevName, SectionLine(s, c).next)
  {
    hide Find;
    var end := FindCharsOrComment(line, start, "]", s);
    StrAt(line[..], start, s, end - start);
    ok := line[end] == ']';
    if ok {
      StrCut(line[..], line[..][end := NUL], start, s, end - start);
      line[end] := NUL;
      StrNCpy0(section, line, start, MAX_SECTION, s[..end - start]);
      prevName[0] := NUL;
    }
  }

  /** A line with a name and a value. */
  method ReadPair(line: array<char>, start: nat, section: array<char>, prevName: array<char>, ghost s: string,
      ghost c: Carry)
      returns (call: Option<Call>)
    requires IsStr(line[..], start, s) && Carries(section, prevName, c)
    requires line != section && line != prevName && section != prevName
    modifies line, prevName
    ensures PairLine(s, c) == if call.Some? then Report(call.value, PairLine(s, c).next) else Malformed(c)
    ensures Carries(section, prevName, PairLine(s, c).next)
  {
    hide Find, RStripped, LSkipped, IsStr;
    var end := FindCharsOrComment(line, start, "=:", s);
    ghost var k := end - start;
    StrAt(line[..], start, s, k);
    if !(line[end] == '=' || line[end] == ':') {
      return None;
    }
    StrCut(line[..], line[..][end := NUL], start, s, k);
    line[end] := NUL;
    ghost var cut := line[..];
    RStrip(line, start, s[..k]);
    StrKept(cut, line[..], end + 1, s[k + 1..]);
    var name := StringAt(line, start, RStripped(s[..k]));
    var value := ReadValue(line, start, end + 1, RStripped(s[..k]), s[k + 1..]);
    StrNCpy0(prevName, line, start, MAX_NAME, name);
    var inSection := StringAt(section, 0, c.section);
    call := Some(Call(inSection, name, value));
  }

  /** The value that begins there, without comment and space; a name before it stays what it is. */
  method ReadValue(line: array<char>, start: nat, p: nat, ghost name: string, ghost s: string) returns (value: string)
    requires IsStr(line[..], p, s) && IsStr(line[..], start, name) && start + |name| < p
    modifies line
    ensures value == RStripped(LSkipped(s[..Find(s, 0, "")])) && IsStr(line[..], start, name)
  {
    hide Find, RStripped, LSkipped, IsStr;
    ghost var before := line[..];
    ghost var plain := s[..Find(s, 0, "")];
    var end := FindCharsOrComment(line, p, "", s);
    StrAt(line[..], p, s, end - p);
    if line[end] != NUL {
      StrCut(line[..], line[..][end := NUL], p, s, end - p);
      line[end] := NUL;
    } else {
      assert plain == s;
    }
    var q := LSkip(line, p, plain);
    RStrip(line, q, LSkipped(plain));
    StrKept(before, line[..], start, name);
    value := StringAt(line, q, RStripped(LSkipped(plain)));
  }

  /** Whatever the line is, its name and value if it has them, and whether it is malformed. */
  method ReadLine(line: array<char>, section: array<char>, prevName: array<char>, lineno: nat, ghost s: string,
      ghost c: Carry)
      returns (call: Option<Call>, malformed: bool)
    requires line.Length >= 3 && IsStr(line[..], 0, s) && Carries(section, prevName, c)
    requires line != section && line != prevName && section != prevName
    modifies line, section, prevName
    ensures Carries(section, prevName, ParseLine(s, lineno == 1, c).next)
    ensures malformed <==> ParseLine(s, lineno == 1, c).Malformed?
    ensures if call.Some? then ParseLine(s, lineno == 1, c).Report? && ParseLine(s, lineno == 1, c).call == call.value
      else !ParseLine(s, lineno == 1, c).Report?
  {
    hide Start, Indented, SectionLine, PairLine, IsStr;
    call, malformed := None, false;
    ghost var t := Start(s, lineno == 1);
    var start := Locate(line, lineno, s);
    StrAt(line[..], start, t, 0);
    StrAt(prevName[..], 0, c.prevName, 0);
    NotReported(t, c);
    if line[start] == NUL || line[start] in START_COMMENTS {
      return;
    }
    if prevName[0] != NUL && line[start] != NUL && start > 0 {
      var inSection := StringAt(section, 0, c.section);
      var name := StringAt(prevName, 0, c.prevName);
      var value := StringAt(line, start, t);
      call := Some(Call(inSection, name, value));
    } else if line[start] == '[' {
      StrFrom(line[..], start, t, 1);
      var ok := SetSection(line, start + 1, section, prevName, t[1..], c);
      malformed := !ok;
    } else {
      call := ReadPair(line, start, section, prevName, t, c);
      malformed := call.None?;
    }
  }

  lemma NotReported(s: string, c: Carry)
    ensures s != "" ==> !SectionLine(s[1..], c).Report?
  {}

  /** One line of the input, and the handler's opinion of it. */
  method HandleLine(line: array<char>, section: array<char>, prevName: array<char>, handler: Handler,
                    lineno: nat, calls: seq<Call>, error: nat, ghost s: string, ghost c: Carry)
      returns (newCalls: seq<Call>, newError: nat)
    requires line.Length >= 3 && IsStr(line[..], 0, s) && Carries(section, prevName, c) && lineno > 0
    requires line != section && line != prevName && section != prevName
    modifies line, section, prevName
    ensures var p := Step(Progress(c, calls, lineno - 1, error), s, handler);
      Carries(section, prevName, p.carry) && newCalls == p.calls && newError == p.error
  {
    hide ParseLine, IsStr;
    newCalls := calls;
    var call, malformed := ReadLine(line, section, prevName, lineno, s, c);
    newError := Note(error, malformed, lineno);
    if call.Some? {
      newCalls := calls + [call.value];
      newError := Note(error, !handler(calls, call.value), lineno);
    }
  }

  lemma Empty(a: seq<char>)
    requires a != [] && a[0] == NUL
    ensures IsStr(a, 0, "")
  {}

  lemma NoLines(p: Progress, handler: Handler)
    ensures Fold(p, Lines("", MAX_LINE), handler) == p
  {}

  lemma FoldNext(p: Progress, input: string, handler: Handler)
    requires input != ""
    ensures var n := LineLength(input, MAX_LINE);
      0 < n <= |input| && Step(p, input[..n], handler).lineno == p.lineno + 1 &&
      Fold(p, Lines(input, MAX_LINE), handler) ==
        Fold(Step(p, input[..n], handler), Lines(input[n..], MAX_LINE), handler)
  {
    var n := LineLength(input, MAX_LINE);
    assert Lines(input, MAX_LINE)[0] == input[..n] && Lines(input, MAX_LINE)[1..] == Lines(input[n..], MAX_LINE);
  }

  /** Read and handle one line after the other; the result is the number of the first bad line, or zero. */
  method ParseStream(ctx: StringContext, handler: Handler) returns (error: nat, calls: seq<Call>)
    requires ctx.Valid() && NUL !in ctx.text
    modifies ctx
    ensures var p := Fold(BEGINNING, Lines(old(ctx.Rest()), MAX_LINE), handler); error == p.error && calls == p.calls
  {
    hide Fold, Lines, Step, LineLength, IsStr;
    var line, section, prevName := new char[MAX_LINE], new char[MAX_SECTION], new char[MAX_NAME];
    section[0], prevName[0] := NUL, NUL;
    Empty(section[..]);
    Empty(prevName[..]);
    var lineno: nat := 0;
    calls, error := [], 0;
    ghost var p := BEGINNING;
    ghost var all := Lines(ctx.Rest(), MAX_LINE);
    ghost var input := ctx.Rest();
    assert |input| == ctx.numLeft;
    var more := ctx.ReaderString(line, MAX_LINE);
    while more
      invariant ctx.Valid() && Carries(section, prevName, p.carry)
      invariant p.calls == calls && p.error == error && p.lineno == lineno
      invariant Fold(p, Lines(input, MAX_LINE), handler) == Fold(BEGINNING, all, handler)
      invariant more <==> input != ""
      invariant more ==> IsStr(line[..], 0, input[..LineLength(input, MAX_LINE)])
      invariant more ==> ctx.Rest() == input[LineLength(input, MAX_LINE)..]
      decreases |input|
    {
      ghost var s := input[..LineLength(input, MAX_LINE)];
      lineno := lineno + 1;
      calls, error := HandleLine(line, section, prevName, handler, lineno, calls, error, s, p.carry);
      FoldNext(p, input, handler);
      p := Step(p, s, handler);
      input := ctx.Rest();
      assert |input| == ctx.numLeft;
      more := ctx.ReaderString(line, MAX_LINE);
    }
    NoLines(p, handler);
  }

  /** Parse the string that is in memory up to its end. */
  method ParseString(text: string, handler: Handler) returns (error: nat, calls: seq<Call>)
    requires NUL !in text
    ensures var p := Fold(BEGINNING, Lines(text, MAX_LINE), handler); error == p.error && calls == p.calls
    ensures IsFirstBad(Lines(text, MAX_LINE), error, handler)
  {
    var ctx := new StringContext(text);
    assert ctx.Rest() == text;
    FirstBadLine(Lines(text, MAX_LINE), handler);
    error, calls := ParseStream(ctx, handler);
  }
}
