/**
  What the INI parser makes of its input, line by line, with the options ini.h sets: continuation
  lines, a byte order mark, comments after ';' or '#', and inline comments after ';' (ini.c, ini.h).
 */
module IniSpec {
  import opened Sequences

  const MAX_LINE: nat := 200
  const MAX_SECTION: nat := 50
  const MAX_NAME: nat := 50

  const NUL: char := '\0'
  const BOM: string := "\U{EF}\U{BB}\U{BF}"
  const START_COMMENTS: string := ";#"
  const INLINE_COMMENT: char := ';'

  /** isspace() in the C locale. */
  predicate IsSpace(c: char) {
    c == ' ' || '\t' <= c <= '\r'
  }

  // ----- strings -----

  function RStripped(s: string): (t: string)
    ensures t <= s && (t != "" ==> !IsSpace(t[|t| - 1]))
  {
    if s != "" && IsSpace(s[|s| - 1]) then RStripped(s[..|s| - 1]) else s
  }

  function LSkipped(s: string): (t: string)
    ensures |t| <= |s| && t == s[|s| - |t|..] && (t != "" ==> !IsSpace(t[0]))
  {
    if s != "" && IsSpace(s[0]) then LSkipped(s[1..]) else s
  }

  /** A comment begins here, if a space comes before it. */
  predicate StopsAt(s: string, i: nat, chars: string)
    requires i < |s|
  {
    s[i] in chars || (i > 0 && IsSpace(s[i - 1]) && s[i] == INLINE_COMMENT)
  }

  /** The first position from i on where one of the characters or an inline comment is found, or else the end. */
  function Find(s: string, i: nat, chars: string): (k: nat)
    requires i <= |s|
    ensures i <= k <= |s| && (k < |s| ==> StopsAt(s, k, chars))
    ensures forall j :: i <= j < k ==> !StopsAt(s, j, chars)
    decreases |s| - i
  {
    if i == |s| || StopsAt(s, i, chars) then i else Find(s, i + 1, chars)
  }

  function Take(s: string, n: nat): string {
    if |s| <= n then s else s[..n]
  }

  // ----- lines -----

  /** How much of the input makes a line that fits into so many characters, including the end of the string. */
  function LineLength(input: string, num: nat): (n: nat)
    ensures n <= |input| && (num > 1 && input != "" ==> n > 0)
    ensures num > 0 ==> n < num
    ensures forall i :: 0 <= i < n - 1 ==> input[i] != '\n'
    ensures n < |input| && n + 1 < num ==> n > 0 && input[n - 1] == '\n'
  {
    if num <= 1 || input == "" then 0
    else if input[0] == '\n' then 1
    else 1 + LineLength(input[1..], num - 1)
  }

  /** The lines of the input; a long line comes in pieces. */
  function Lines(input: string, num: nat): seq<string>
    requires num > 1
    decreases |input|
  {
    if input == "" then []
    else
      var n := LineLength(input, num);
      [input[..n]] + Lines(input[n..], num)
  }

  /** No character of the input is lost between lines. */
  lemma {:induction false} LinesJoin(input: string, num: nat)
    requires num > 1
    ensures Joined(Lines(input, num)) == input
    decreases |input|
  {
    if input != "" {
      var n := LineLength(input, num);
      LinesJoin(input[n..], num);
      JoinedFront(input[..n], Lines(input[n..], num));
      assert input[..n] + input[n..] == input;
    }
  }

  // ----- one line -----

  datatype Call = Call(section: string, name: string, value: string)

  /** What is carried from one line to the next; the name is that of the last value, for continuations. */
  datatype Carry = Carry(section: string, prevName: string)

  datatype Line = Silent(next: Carry) | Report(call: Call, next: Carry) | Malformed(next: Carry)

  /** The first line without a byte order mark. */
  function Unmarked(line: string, first: bool): string {
    if first && BOM <= line then line[3..] else line
  }

  function Start(line: string, first: bool): string {
    LSkipped(RStripped(Unmarked(line, first)))
  }

  /** There is something before the first character of interest. */
  predicate Indented(line: string, first: bool) {
    (first && BOM <= line) || (line != "" && IsSpace(line[0]))
  }

  function ParseLine(line: string, first: bool, c: Carry): Line {
    var start := Start(line, first);
    if start == "" || start[0] in START_COMMENTS then Silent(c)
    else if c.prevName != "" && Indented(line, first) then Report(Call(c.section, c.prevName, start), c)
    else if start[0] == '[' then SectionLine(start[1..], c)
    else PairLine(start, c)
  }

  function SectionLine(s: string, c: Carry): Line {
    var end := Find(s, 0, "]");
    if end < |s| && s[end] == ']' then Silent(Carry(Take(s[..end], MAX_SECTION - 1), "")) else Malformed(c)
  }

  function PairLine(s: string, c: Carry): Line {
    var end := Find(s, 0, "=:");
    if end < |s| && s[end] in "=:" then
      var name, value := RStripped(s[..end]), s[end + 1..];
      var plain := RStripped(LSkipped(value[..Find(value, 0, "")]));
      Report(Call(c.section, name, plain), Carry(c.section, Take(name, MAX_NAME - 1)))
    else Malformed(c)
  }

  // ----- all lines -----

  /** A handler may remember the calls it got before. */
  type Handler = (seq<Call>, Call) -> bool

  datatype Progress = Progress(carry: Carry, calls: seq<Call>, lineno: nat, error: nat)

  const BEGINNING := Progress(Carry("", ""), [], 0, 0)

  function Note(error: nat, bad: bool, lineno: nat): nat {
    if bad && error == 0 then lineno else error
  }

  function Step(p: Progress, line: string, handler: Handler): Progress {
    var lineno := p.lineno + 1;
    match ParseLine(line, lineno == 1, p.carry)
    case Silent(next) => Progress(next, p.calls, lineno, p.error)
    case Report(call, next) => Progress(next, p.calls + [call], lineno, Note(p.error, !handler(p.calls, call), lineno))
    case Malformed(next) => Progress(next, p.calls, lineno, Note(p.error, true, lineno))
  }

  function Fold(p: Progress, lines: seq<string>, handler: Handler): Progress
    decreases |lines|
  {
    if lines == [] then p else Fold(Step(p, lines[0], handler), lines[1..], handler)
  }

  /** A line that is malformed or that the handler rejects. */
  predicate Bad(p: Progress, line: string, handler: Handler) {
    var parsed := ParseLine(line, p.lineno == 0, p.carry);
    parsed.Malformed? || (parsed.Report? && !handler(p.calls, parsed.call))
  }

  lemma {:induction false} FoldOn(p: Progress, first: seq<string>, second: seq<string>, handler: Handler)
    ensures Fold(p, first + second, handler) == Fold(Fold(p, first, handler), second, handler)
    decreases |first|
  {
    hide Step;
    if first == [] {
      assert first + second == second;
    } else {
      assert (first + second)[0] == first[0] && (first + second)[1..] == first[1..] + second;
      FoldOn(Step(p, first[0], handler), first[1..], second, handler);
    }
  }

  lemma {:induction false} FoldCounts(p: Progress, lines: seq<string>, handler: Handler)
    ensures Fold(p, lines, handler).lineno == p.lineno + |lines|
    decreases |lines|
  {
    if lines != [] {
      FoldCounts(Step(p, lines[0], handler), lines[1..], handler);
    }
  }

  /** The k-th line is bad, counting from one. */
  predicate BadAt(lines: seq<string>, k: nat, handler: Handler) {
    1 <= k <= |lines| && Bad(Fold(BEGINNING, lines[..k - 1], handler), lines[k - 1], handler)
  }

  lemma FoldLast(lines: seq<string>, handler: Handler)
    requires lines != []
    ensures Fold(BEGINNING, lines, handler) ==
      Step(Fold(BEGINNING, lines[..|lines| - 1], handler), lines[|lines| - 1], handler)
  {
    hide Step;
    var init, last := lines[..|lines| - 1], lines[|lines| - 1];
    assert lines == init + [last];
    FoldOn(BEGINNING, init, [last], handler);
    var p := Fold(BEGINNING, init, handler);
    assert Fold(p, [last], handler) == Fold(Step(p, last, handler), [], handler);
  }

  ghost predicate NoneBad(lines: seq<string>, n: nat, handler: Handler) {
    forall k: nat :: k <= n ==> !BadAt(lines, k, handler)
  }

  ghost predicate IsFirstBad(lines: seq<string>, error: nat, handler: Handler) {
    if error == 0 then NoneBad(lines, |lines|, handler)
    else BadAt(lines, error, handler) && NoneBad(lines, error - 1, handler)
  }

  lemma BadBefore(lines: seq<string>, k: nat, handler: Handler)
    requires lines != [] && k < |lines|
    ensures BadAt(lines, k, handler) <==> BadAt(lines[..|lines| - 1], k, handler)
  {
    hide Fold, Bad;
    if k > 0 {
      assert lines[..|lines| - 1][..k - 1] == lines[..k - 1];
    }
  }

  lemma NothingBad(handler: Handler)
    ensures IsFirstBad([], Fold(BEGINNING, [], handler).error, handler)
  {}

  lemma StepError(p: Progress, line: string, handler: Handler)
    ensures Step(p, line, handler).error == Note(p.error, Bad(p, line, handler), p.lineno + 1)
  {
    hide ParseLine;
  }

  /** One more line leaves the first bad line what it is, or is the first one itself. */
  lemma OneMoreLine(lines: seq<string>, error: nat, handler: Handler)
    requires lines != [] && IsFirstBad(lines[..|lines| - 1], error, handler)
    ensures IsFirstBad(lines, Note(error, BadAt(lines, |lines|, handler), |lines|), handler)
  {
    hide BadAt;
    var init := lines[..|lines| - 1];
    forall k: nat | k < |lines|
      ensures BadAt(lines, k, handler) <==> BadAt(init, k, handler)
    {
      BadBefore(lines, k, handler);
    }
    if error != 0 {
      BadIsLine(init, error, handler);
    }
  }

  /** The result is the number of the first bad line, or zero if there is none. */
  lemma {:induction false} FirstBadLine(lines: seq<string>, handler: Handler)
    ensures IsFirstBad(lines, Fold(BEGINNING, lines, handler).error, handler)
    decreases |lines|
  {
    hide ParseLine, Fold, BadAt, Step, Bad, IsFirstBad, NoneBad;
    if lines == [] {
      NothingBad(handler);
      return;
    }
    var init, last := lines[..|lines| - 1], lines[|lines| - 1];
    var p := Fold(BEGINNING, init, handler);
    FirstBadLine(init, handler);
    FoldLast(lines, handler);
    FoldCounts(BEGINNING, init, handler);
    StepError(p, last, handler);
    LastBad(lines, handler);
    OneMoreLine(lines, p.error, handler);
  }

  lemma LastBad(lines: seq<string>, handler: Handler)
    requires lines != []
    ensures BadAt(lines, |lines|, handler) <==>
      Bad(Fold(BEGINNING, lines[..|lines| - 1], handler), lines[|lines| - 1], handler)
  {}

  lemma BadIsLine(lines: seq<string>, k: nat, handler: Handler)
    requires BadAt(lines, k, handler)
    ensures 1 <= k <= |lines|
  {}

  // ----- what is reported -----

  predicate Trimmed(s: string) {
    s != "" ==> !IsSpace(s[0]) && !IsSpace(s[|s| - 1])
  }

  lemma {:induction false} StripKeepsStart(s: string)
    ensures RStripped(s) == "" || RStripped(s)[0] == s[0]
  {}

  lemma {:induction false} SkipKeepsEnd(s: string)
    ensures LSkipped(s) == "" || LSkipped(s)[|LSkipped(s)| - 1] == s[|s| - 1]
  {}

  /** The name a continuation goes with fits into its buffer, and so does the section. */
  predicate Fits(c: Carry) {
    |c.section| < MAX_SECTION && |c.prevName| < MAX_NAME
  }

  lemma PairTrimmed(s: string, c: Carry)
    requires s != "" && !IsSpace(s[0])
    ensures PairLine(s, c).Report? ==> Trimmed(PairLine(s, c).call.name) && Trimmed(PairLine(s, c).call.value)
  {
    if PairLine(s, c).Report? {
      var end := Find(s, 0, "=:");
      var value := s[end + 1..];
      StripKeepsStart(s[..end]);
      StripKeepsStart(LSkipped(value[..Find(value, 0, "")]));
    }
  }

  /** Sections and continued names are at most 49 characters long; names and values have no space around them. */
  lemma ReportsAreTrimmed(line: string, first: bool, c: Carry)
    requires Fits(c)
    ensures Fits(ParseLine(line, first, c).next)
    ensures ParseLine(line, first, c).Report? ==> var call := ParseLine(line, first, c).call;
      call.section == c.section && Trimmed(call.value) && (Trimmed(call.name) || call.name == c.prevName)
  {
    hide PairLine, SectionLine, RStripped, LSkipped, Unmarked, Indented;
    SkipKeepsEnd(RStripped(Unmarked(line, first)));
    if Start(line, first) != "" {
      PairTrimmed(Start(line, first), c);
    }
    NextFits(Start(line, first), c);
  }

  lemma NextFits(s: string, c: Carry)
    requires Fits(c)
    ensures Fits(PairLine(s, c).next) && (s != "" ==> Fits(SectionLine(s[1..], c).next))
    ensures PairLine(s, c).Report? ==> PairLine(s, c).call.section == c.section
    ensures s != "" ==> !SectionLine(s[1..], c).Report?
  {
    hide RStripped, LSkipped, Find;
  }
}
