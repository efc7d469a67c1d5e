/** What is written as an INI text is reported as it was, whatever precedes it. */
module IniRoundTrip {
  import opened Wrappers
  import opened IniSpec
  import Ini

  const SPACES: string := " \t\U{0B}\U{0C}\r\n"

  predicate OneLine(s: string) {
    '\n' !in s && NUL !in s
  }

  predicate Blank(s: string) {
    OneLine(s) && forall c :: c in s ==> c in SPACES
  }

  /** No semicolon comes after space. */
  predicate NoRemark(s: string) {
    forall i :: 0 < i < |s| && s[i] == ';' ==> s[i - 1] !in SPACES
  }

  predicate Avoids(s: string, chars: string) {
    forall c :: c in s ==> c !in chars
  }

  predicate Tight(s: string) {
    s != "" ==> s[0] !in SPACES && s[|s| - 1] !in SPACES
  }

  /** What may stand on a line. */
  datatype Item =
    | Section(name: string, rest: string)
    | Pair(name: string, before: string, sep: char, after: string, value: string, gap: string, remark: Option<string>)
    | Continuation(indent: string, text: string, gap: string)
    | Comment(indent: string, mark: char, text: string)
    | Empty(indent: string)
    | Unclosed(text: string)  // a section without a closing bracket
    | Unpaired(text: string)  // neither '=' nor ':'

  function RemarkText(remark: Option<string>): string {
    if remark.Some? then ";" + remark.value else ""
  }

  function Content(item: Item): string {
    match item
    case Section(name, rest) => "[" + name + "]" + rest
    case Pair(name, before, sep, after, value, gap, remark) =>
      name + before + [sep] + (after + value + gap + RemarkText(remark))
    case Continuation(indent, text, gap) => indent + text + gap
    case Comment(indent, mark, text) => indent + [mark] + text
    case Empty(indent) => indent
    case Unclosed(text) => "[" + text
    case Unpaired(text) => text
  }

  predicate WellFormed(item: Item) {
    && OneLine(Content(item)) && |Content(item)| < 199
    && match item
       case Section(name, rest) => Avoids(name, "]") && NoRemark(name)
       case Pair(name, before, sep, after, value, gap, remark) =>
         && name != "" && Tight(name) && Avoids(name, "=:") && NoRemark(name) && name[0] !in ";#["
         && Blank(before) && sep in "=:" && Blank(after) && Tight(value) && NoRemark(after + value)
         && Blank(gap) && (remark.Some? ==> gap != "")
       case Continuation(indent, text, gap) =>
         indent != "" && Blank(indent) && text != "" && Tight(text) && text[0] !in ";#" && Blank(gap)
       case Comment(indent, mark, text) => Blank(indent) && mark in ";#"
       case Empty(indent) => Blank(indent)
       case Unclosed(text) => Avoids(text, "]")
       case Unpaired(text) => text != "" && Tight(text) && Avoids(text, "=:") && text[0] !in ";#["
  }

  function Text(items: seq<Item>): string {
    if items == [] then "" else Content(items[0]) + "\n" + Text(items[1..])
  }

  /** Section names and continued names are cut off after 49 characters. */
  function Cut(s: string): string {
    if |s| <= 49 then s else s[..49]
  }

  /** What is to be reported. */
  function Meaning(items: seq<Item>, section: string, name: string): seq<Call> {
    if items == [] then []
    else
      match items[0]
      case Section(s, _) => Meaning(items[1..], Cut(s), "")
      case Pair(n, _, _, _, value, _, _) => [Call(section, n, value)] + Meaning(items[1..], section, Cut(n))
      case Continuation(_, text, _) => [Call(section, name, text)] + Meaning(items[1..], section, name)
      case _ => Meaning(items[1..], section, name)
  }

  /** A continuation comes after a pair, perhaps not immediately, and in the same section. */
  predicate Coherent(items: seq<Item>, named: bool) {
    items == [] ||
    match items[0]
    case Section(_, _) => Coherent(items[1..], false)
    case Pair(_, _, _, _, _, _, _) => Coherent(items[1..], true)
    case Continuation(_, _, _) => named && Coherent(items[1..], true)
    case _ => Coherent(items[1..], named)
  }

  predicate Malformed(item: Item) {
    item.Unclosed? || item.Unpaired?
  }

  /** The number of the first malformed line after so many lines, or zero. */
  function FirstMalformed(items: seq<Item>, lineno: nat): nat {
    if items == [] then 0
    else if Malformed(items[0]) then lineno + 1
    else FirstMalformed(items[1..], lineno + 1)
  }

  // ----- spaces -----

  lemma SpaceIs(c: char)
    ensures IsSpace(c) <==> c in SPACES
  {}

  lemma {:induction false} StripsSpaces(s: string, spaces: string)
    requires (s == "" || s[|s| - 1] !in SPACES) && forall c :: c in spaces ==> c in SPACES
    ensures RStripped(s + spaces) == s
    decreases |spaces|
  {
    if spaces == "" {
      assert s + spaces == s;
      if s != "" { SpaceIs(s[|s| - 1]); }
    } else {
      SpaceIs(spaces[|spaces| - 1]);
      assert (s + spaces)[..|s + spaces| - 1] == s + spaces[..|spaces| - 1];
      StripsSpaces(s, spaces[..|spaces| - 1]);
    }
  }

  lemma {:induction false} SkipsSpaces(spaces: string, s: string)
    requires (s == "" || s[0] !in SPACES) && forall c :: c in spaces ==> c in SPACES
    ensures LSkipped(spaces + s) == s
    decreases |spaces|
  {
    if spaces == "" {
      assert spaces + s == s;
      if s != "" { SpaceIs(s[0]); }
    } else {
      SpaceIs(spaces[0]);
      assert (spaces + s)[1..] == spaces[1..] + s;
      SkipsSpaces(spaces[1..], s);
    }
  }

  /** Stripping stops at a character that is no space. */
  lemma {:induction false} StripsRest(s: string, rest: string)
    requires s != "" && s[|s| - 1] !in SPACES
    ensures RStripped(s + rest) == s + RStripped(rest)
    decreases |rest|
  {
    if rest == "" {
      StripsSpaces(s, "");
      assert s + rest == s && RStripped(rest) == "";
    } else {
      var t := s + rest;
      assert t[|t| - 1] == rest[|rest| - 1] && t[..|t| - 1] == s + rest[..|rest| - 1];
      if IsSpace(rest[|rest| - 1]) {
        StripsRest(s, rest[..|rest| - 1]);
      }
    }
  }

  lemma StripsEnd(s: string)
    ensures RStripped(s + "\n") == RStripped(s)
  {
    assert (s + "\n")[..|s|] == s;
  }

  lemma StartOf(line: string, first: bool)
    requires !(first && BOM <= line)
    ensures Start(line + "\n", first) == LSkipped(RStripped(line))
    ensures Indented(line + "\n", first) <==> line == "" || line[0] in SPACES
  {
    StripsEnd(line);
    if !(BOM <= line) {
      Unmarks(line);
    }
    if line != "" { SpaceIs(line[0]); }
  }

  // ----- finding -----

  /** Nothing in this string ends it early. */
  predicate Plain(s: string, chars: string) {
    forall i :: 0 <= i < |s| ==> !StopsAt(s, i, chars)
  }

  lemma PlainIs(s: string, chars: string)
    requires Avoids(s, chars) && NoRemark(s)
    ensures Plain(s, chars)
  {
    forall i | 0 <= i < |s|
      ensures !StopsAt(s, i, chars)
    {
      assert s[i] in s;
      if i > 0 { SpaceIs(s[i - 1]); }
    }
  }

  lemma {:induction false} FindPlain(s: string, i: nat, c: char, rest: string, chars: string)
    requires Plain(s, chars) && i <= |s| && (c in chars || (s != "" && s[|s| - 1] in SPACES && c == ';'))
    ensures Find(s + [c] + rest, i, chars) == |s|
    decreases |s| - i
  {
    var t := s + [c] + rest;
    if i < |s| {
      assert t[i] == s[i] && (i > 0 ==> t[i - 1] == s[i - 1]) && !StopsAt(s, i, chars);
      FindPlain(s, i + 1, c, rest, chars);
    } else {
      assert t[|s|] == c;
      if s != "" {
        assert t[|s| - 1] == s[|s| - 1];
        SpaceIs(s[|s| - 1]);
      }
    }
  }

  lemma {:induction false} FindNothing(s: string, i: nat, chars: string)
    requires Plain(s, chars) && i <= |s|
    ensures Find(s, i, chars) == |s|
    decreases |s| - i
  {
    if i < |s| {
      assert !StopsAt(s, i, chars);
      FindNothing(s, i + 1, chars);
    }
  }

  // ----- one line -----

  /** What is to become of a line. */
  function Expected(item: Item, c: Carry): Line {
    match item
    case Section(name, _) => Silent(Carry(Cut(name), ""))
    case Pair(name, _, _, _, value, _, _) => Report(Call(c.section, name, value), Carry(c.section, Cut(name)))
    case Continuation(_, text, _) => Report(Call(c.section, c.prevName, text), c)
    case Comment(_, _, _) => Silent(c)
    case Empty(_) => Silent(c)
    case Unclosed(_) => Line.Malformed(c)
    case Unpaired(_) => Line.Malformed(c)
  }

  lemma CutIsTake(s: string)
    ensures Take(s, MAX_SECTION - 1) == Take(s, MAX_NAME - 1) == Cut(s)
  {}

  lemma Separators()
    ensures '[' !in SPACES && ']' !in SPACES && '=' !in SPACES && ':' !in SPACES && ';' !in SPACES && '#' !in SPACES
  {}

  /** A line that begins without space. */
  lemma FlushStart(line: string, stripped: string, first: bool)
    requires !(first && BOM <= line) && line != "" && line[0] !in SPACES
    requires RStripped(line) == stripped && stripped != "" && stripped[0] == line[0]
    ensures Start(line + "\n", first) == stripped && !Indented(line + "\n", first)
  {
    hide RStripped, LSkipped, Start, Indented, BOM, SPACES;
    StartOf(line, first);
    assert "" + stripped == stripped;
    SkipsSpaces("", stripped);
  }

  lemma SectionStart(item: Item, first: bool)
    requires item.Section? && !(first && BOM <= Content(item))
    ensures Start(Content(item) + "\n", first) == "[" + item.name + "]" + RStripped(item.rest)
    ensures !Indented(Content(item) + "\n", first)
  {
    hide RStripped, Start, Indented, BOM;
    Separators();
    var head := "[" + item.name + "]";
    assert Content(item) == head + item.rest && head[|head| - 1] == ']' && head[0] == '[';
    StripsRest(head, item.rest);
    FlushStart(Content(item), head + RStripped(item.rest), first);
  }

  lemma SectionFound(name: string, rest: string, c: Carry)
    requires Avoids(name, "]") && NoRemark(name)
    ensures SectionLine(name + "]" + rest, c) == Silent(Carry(Cut(name), ""))
  {
    hide Find, Avoids, NoRemark;
    PlainIs(name, "]");
    FindPlain(name, 0, ']', rest, "]");
    assert name + [']'] + rest == name + "]" + rest && (name + "]" + rest)[..|name|] == name;
    CutIsTake(name);
  }

  lemma SectionParsed(item: Item, first: bool, c: Carry)
    requires item.Section? && WellFormed(item) && !(first && BOM <= Content(item))
    ensures ParseLine(Content(item) + "\n", first, c) == Expected(item, c)
  {
    hide RStripped, Start, Indented, BOM, SectionLine, PairLine;
    SectionStart(item, first);
    var rest := RStripped(item.rest);
    assert ("[" + item.name + "]" + rest)[1..] == item.name + "]" + rest;
    SectionFound(item.name, rest, c);
  }

  lemma ContinuationParsed(item: Item, first: bool, c: Carry)
    requires item.Continuation? && WellFormed(item) && c.prevName != ""
    requires !(first && BOM <= Content(item))
    ensures ParseLine(Content(item) + "\n", first, c) == Expected(item, c)
  {
    hide RStripped, LSkipped, Start, Indented, BOM, SPACES, SectionLine, PairLine;
    var line, text := Content(item), item.text;
    assert line == (item.indent + text) + item.gap;
    assert (item.indent + text)[|item.indent + text| - 1] == text[|text| - 1];
    StartOf(line, first);
    StripsSpaces(item.indent + text, item.gap);
    SkipsSpaces(item.indent, text);
    assert line[0] == item.indent[0] && item.indent[0] in item.indent;
  }

  lemma EmptyStart(indent: string, first: bool)
    requires Blank(indent) && !(first && BOM <= indent)
    ensures Start(indent + "\n", first) == ""
  {
    hide RStripped, LSkipped, Start, Indented, BOM, SPACES;
    StartOf(indent, first);
    StripsSpaces("", indent);
    assert "" + indent == indent && "" + "" == "";
    SkipsSpaces("", "");
  }

  lemma CommentStart(indent: string, mark: char, text: string, first: bool)
    requires Blank(indent) && mark in ";#" && !(first && BOM <= indent + [mark] + text)
    ensures Start(indent + [mark] + text + "\n", first) == [mark] + RStripped(text)
  {
    hide RStripped, LSkipped, Start, Indented, BOM;
    Separators();
    var head := indent + [mark];
    StartOf(head + text, first);
    StripsRest(head, text);
    var s := [mark] + RStripped(text);
    assert head + RStripped(text) == indent + s;
    SkipsSpaces(indent, s);
  }

  lemma SilentParsed(item: Item, first: bool, c: Carry)
    requires (item.Comment? || item.Empty?) && WellFormed(item)
    requires !(first && BOM <= Content(item))
    ensures ParseLine(Content(item) + "\n", first, c) == Expected(item, c)
  {
    hide RStripped, Start, Indented, BOM, SectionLine, PairLine;
    if item.Empty? {
      EmptyStart(item.indent, first);
    } else {
      CommentStart(item.indent, item.mark, item.text, first);
    }
  }

  lemma UnclosedFound(s: string, c: Carry)
    requires Avoids(s, "]")
    ensures SectionLine(s, c) == Line.Malformed(c)
  {
    hide Find;
    assert forall i :: 0 <= i < |s| ==> s[i] in s;
  }

  lemma UnpairedFound(s: string, c: Carry)
    requires Avoids(s, "=:")
    ensures PairLine(s, c) == Line.Malformed(c)
  {
    hide Find;
    assert forall i :: 0 <= i < |s| ==> s[i] in s;
  }

  lemma UnclosedStart(text: string, first: bool)
    requires !(first && BOM <= "[" + text)
    ensures Start("[" + text + "\n", first) == "[" + RStripped(text) && !Indented("[" + text + "\n", first)
  {
    hide RStripped, Start, Indented, BOM;
    Separators();
    StripsRest("[", text);
    FlushStart("[" + text, "[" + RStripped(text), first);
  }

  lemma UnpairedStart(text: string, first: bool)
    requires text != "" && Tight(text) && !(first && BOM <= text)
    ensures Start(text + "\n", first) == text && !Indented(text + "\n", first)
  {
    hide RStripped, Start, Indented, BOM, SPACES;
    StripsSpaces(text, "");
    assert text + "" == text;
    FlushStart(text, text, first);
  }

  lemma MalformedParsed(item: Item, first: bool, c: Carry)
    requires Malformed(item) && WellFormed(item)
    requires !(first && BOM <= Content(item))
    ensures ParseLine(Content(item) + "\n", first, c) == Expected(item, c)
  {
    hide RStripped, Start, Indented, BOM, SPACES, SectionLine, PairLine;
    if item.Unclosed? {
      UnclosedStart(item.text, first);
      var rest := RStripped(item.text);
      assert ("[" + rest)[1..] == rest && rest <= item.text;
      UnclosedFound(rest, c);
    } else {
      UnpairedStart(item.text, first);
      UnpairedFound(item.text, c);
    }
  }

  function ValueText(item: Item): string
    requires item.Pair?
  {
    item.after + item.value + item.gap + RemarkText(item.remark)
  }

  lemma PairStart(item: Item, first: bool)
    requires item.Pair? && WellFormed(item) && !(first && BOM <= Content(item))
    ensures Start(Content(item) + "\n", first) == item.name + item.before + [item.sep] + RStripped(ValueText(item))
    ensures !Indented(Content(item) + "\n", first)
  {
    hide RStripped, Start, Indented, BOM;
    Separators();
    var head := item.name + item.before + [item.sep];
    assert Content(item) == head + ValueText(item) && head[0] == item.name[0] && head[|head| - 1] == item.sep;
    StripsRest(head, ValueText(item));
    FlushStart(Content(item), head + RStripped(ValueText(item)), first);
  }

  lemma PairFound(item: Item, c: Carry)
    requires item.Pair? && WellFormed(item)
    ensures PairLine(item.name + item.before + [item.sep] + RStripped(ValueText(item)), c) == Expected(item, c)
  {
    hide RStripped, LSkipped, Find, WellFormed;
    var head, rest := item.name + item.before, RStripped(ValueText(item));
    var s := head + [item.sep] + rest;
    HeadFound(item, rest);
    assert s[|head| + 1..] == rest && s[..|head|] == head && s[|head|] == item.sep;
    SepIsOne(item);
    ValueFound(item);
    CutIsTake(item.name);
  }

  lemma SepIsOne(item: Item)
    requires item.Pair? && WellFormed(item)
    ensures item.sep in "=:" && item.name != "" && item.name[0] !in ";#["
  {}

  lemma PairParsed(item: Item, first: bool, c: Carry)
    requires item.Pair? && WellFormed(item)
    requires !(first && BOM <= Content(item))
    ensures ParseLine(Content(item) + "\n", first, c) == Expected(item, c)
  {
    hide RStripped, Start, Indented, BOM, SectionLine, PairLine, WellFormed;
    PairStart(item, first);
    PairFound(item, c);
    SepIsOne(item);
    assert (item.name + item.before + [item.sep] + RStripped(ValueText(item)))[0] == item.name[0];
  }

  lemma HeadFound(item: Item, rest: string)
    requires item.Pair? && WellFormed(item)
    ensures var head := item.name + item.before;
      Find(head + [item.sep] + rest, 0, "=:") == |head| && RStripped(head) == item.name
  {
    hide Find, RStripped, NoRemark;
    Separators();
    var head := item.name + item.before;
    StripsSpaces(item.name, item.before);
    NoRemarkBefore(item.name, item.before);
    assert forall c :: c in head ==> c in item.name || c in item.before;
    PlainIs(head, "=:");
    FindPlain(head, 0, item.sep, rest, "=:");
  }

  lemma ValueFound(item: Item)
    requires item.Pair? && WellFormed(item)
    ensures var v := RStripped(ValueText(item)); RStripped(LSkipped(v[..Find(v, 0, "")])) == item.value
  {
    hide Find, RStripped, LSkipped;
    var head := item.after + item.value;
    if item.remark.Some? {
      RemarkFound(item, head + item.gap);
      ValueTrimmed(item.after, item.value, item.gap);
    } else {
      assert ValueText(item) == head + item.gap;
      if item.value != "" {
        assert head[|head| - 1] == item.value[|item.value| - 1];
        StripsSpaces(head, item.gap);
        PlainIs(head, "");
        FindNothing(head, 0, "");
        assert head[..|head|] == head;
        ValueTrimmed(item.after, item.value, "");
        assert head + "" == head;
      } else {
        assert ValueText(item) == "" + (item.after + item.gap);
        StripsSpaces("", item.after + item.gap);
        PlainIs("", "");
        FindNothing("", 0, "");
        ValueTrimmed("", "", "");
        assert ""[..0] == "" && "" + "" + "" == "";
      }
    }
  }

  lemma RemarkFound(item: Item, full: string)
    requires item.Pair? && WellFormed(item) && item.remark.Some? && full == item.after + item.value + item.gap
    ensures var v := RStripped(ValueText(item)); v[..Find(v, 0, "")] == full
  {
    hide Find, RStripped;
    Separators();
    var tail := RStripped(item.remark.value);
    assert ValueText(item) == (full + ";") + item.remark.value;
    StripsRest(full + ";", item.remark.value);
    var v := full + [';'] + tail;
    assert v == full + ";" + tail;
    NoRemarkBefore(item.after + item.value, item.gap);
    PlainIs(full, "");
    assert full[|full| - 1] == item.gap[|item.gap| - 1] && item.gap[|item.gap| - 1] in item.gap;
    FindPlain(full, 0, ';', tail, "");
    assert v[..|full|] == full;
  }

  lemma NoRemarkBefore(s: string, gap: string)
    requires NoRemark(s) && Blank(gap)
    ensures NoRemark(s + gap)
  {
    Separators();
    assert forall i :: 0 <= i < |gap| ==> gap[i] in gap;
  }

  lemma ValueTrimmed(after: string, value: string, gap: string)
    requires Blank(after) && Blank(gap) && Tight(value)
    ensures RStripped(LSkipped(after + value + gap)) == value
  {
    hide RStripped, LSkipped;
    if value == "" {
      assert after + value + gap == (after + gap) + "";
      SkipsSpaces(after + gap, "");
      StripsSpaces("", "");
      assert "" + "" == "";
    } else {
      assert after + value + gap == after + (value + gap);
      SkipsSpaces(after, value + gap);
      StripsSpaces(value, gap);
    }
  }

  lemma ItemParsed(item: Item, first: bool, c: Carry)
    requires WellFormed(item) && (item.Continuation? ==> c.prevName != "") && !(first && BOM <= Content(item))
    ensures ParseLine(Content(item) + "\n", first, c) == Expected(item, c)
  {
    hide ParseLine, WellFormed, Content, Expected;
    match item
    case Section(_, _) => SectionParsed(item, first, c);
    case Pair(_, _, _, _, _, _, _) => PairParsed(item, first, c);
    case Continuation(_, _, _) => ContinuationParsed(item, first, c);
    case Comment(_, _, _) => SilentParsed(item, first, c);
    case Empty(_) => SilentParsed(item, first, c);
    case _ => MalformedParsed(item, first, c);
  }

  lemma Associates(a: string, b: string, c: string)
    ensures a + (b + c) == a + b + c
  {}

  /** What a line is without the space around it. */
  lemma StrippedStart(indent: string, line: string)
    requires Blank(indent) && line != "" && line[0] !in SPACES
    ensures Start(indent + line + "\n", false) == [line[0]] + RStripped(line[1..])
  {
    hide RStripped, LSkipped, Start, Indented, BOM, SPACES;
    var head, rest := [line[0]], line[1..];
    assert line == head + rest;
    Associates(indent, head, rest);
    StartOf(indent + line, false);
    StripsRest(indent + head, rest);
    Associates(indent, head, RStripped(rest));
    SkipsSpaces(indent, head + RStripped(rest));
  }

  /** Where nothing can be continued, space in front of a line changes nothing. */
  lemma IndentedAlike(indent: string, line: string, c: Carry)
    requires Blank(indent) && line != "" && line[0] !in SPACES && c.prevName == ""
    ensures ParseLine(indent + line + "\n", false, c) == ParseLine(line + "\n", false, c)
  {
    hide Start, Indented, SectionLine, PairLine, SPACES;
    StrippedStart(indent, line);
    StrippedStart("", line);
    assert "" + line + "\n" == line + "\n";
  }

  // ----- lines -----

  lemma {:induction false} LineLengthIs(line: string, rest: string, num: nat)
    requires |line| + 1 < num && '\n' !in line
    ensures LineLength(line + "\n" + rest, num) == |line| + 1
    decreases |line|
  {
    var t := line + "\n" + rest;
    if line != "" {
      assert t[0] == line[0] && t[1..] == line[1..] + "\n" + rest;
      LineLengthIs(line[1..], rest, num - 1);
    }
  }

  lemma LinesOf(line: string, rest: string)
    requires |line| < 199 && '\n' !in line
    ensures Lines(line + "\n" + rest, 200) == [line + "\n"] + Lines(rest, 200)
  {
    var t := line + "\n" + rest;
    LineLengthIs(line, rest, 200);
    assert t[..|line| + 1] == line + "\n" && t[|line| + 1..] == rest;
  }

  lemma {:induction false} LongLength(piece: string, rest: string, num: nat)
    requires |piece| + 1 == num && '\n' !in piece
    ensures LineLength(piece + rest, num) == |piece|
    decreases |piece|
  {
    if piece != "" {
      assert (piece + rest)[0] == piece[0] && (piece + rest)[1..] == piece[1..] + rest;
      LongLength(piece[1..], rest, num - 1);
    }
  }

  /** A line of more than 199 characters comes in pieces of 199. */
  lemma LongLine(piece: string, rest: string)
    requires |piece| == 199 && '\n' !in piece
    ensures Lines(piece + rest, MAX_LINE) == [piece] + Lines(rest, MAX_LINE)
  {
    LongLength(piece, rest, MAX_LINE);
    assert (piece + rest)[..199] == piece && (piece + rest)[199..] == rest;
  }

  // ----- the whole text -----

  ghost predicate Accepting(handler: Handler) {
    forall log: seq<Call>, call: Call :: handler(log, call)
  }

  /** What a text of such lines is reported as, and the number of the first malformed one. */
  lemma {:induction false} TextParsed(p: Progress, items: seq<Item>, handler: Handler)
    requires forall item :: item in items ==> WellFormed(item)
    requires Coherent(items, p.carry.prevName != "") && !(p.lineno == 0 && BOM <= Text(items))
    ensures var q := Fold(p, Lines(Text(items), MAX_LINE), handler);
      && q.calls == p.calls + Meaning(items, p.carry.section, p.carry.prevName)
      && (Accepting(handler) ==> q.error == if p.error != 0 then p.error else FirstMalformed(items, p.lineno))
    decreases |items|
  {
    hide ParseLine, Lines, WellFormed, Content, BOM;
    if items == [] {
      NoLines();
      assert p.calls + [] == p.calls;
      return;
    }
    var item, rest := items[0], items[1..];
    var line := Content(item) + "\n";
    NoMarkInLine(item, rest);
    ItemParsed(item, p.lineno == 0, p.carry);
    ItemFits(item);
    LinesOf(Content(item), Text(rest));
    var next := Step(p, line, handler);
    FoldOne(p, line, Lines(Text(rest), MAX_LINE), handler);
    PairsAreNamed(item);
    ItemStep(p, item, rest, handler);
    TextParsed(next, rest, handler);
  }

  lemma PairsAreNamed(item: Item)
    requires WellFormed(item)
    ensures item.Pair? ==> item.name != ""
  {}

  lemma ItemFits(item: Item)
    requires WellFormed(item)
    ensures |Content(item)| < 199 && '\n' !in Content(item)
  {}

  lemma NoMarkInLine(item: Item, rest: seq<Item>)
    ensures BOM <= Content(item) ==> BOM <= Text([item] + rest)
    ensures Text([item] + rest) == Content(item) + "\n" + Text(rest)
  {
    assert ([item] + rest)[1..] == rest;
  }

  lemma NoLines()
    ensures Lines("", MAX_LINE) == []
  {}

  lemma FoldOne(p: Progress, line: string, rest: seq<string>, handler: Handler)
    ensures Fold(p, [line] + rest, handler) == Fold(Step(p, line, handler), rest, handler)
  {
    hide Step;
    assert ([line] + rest)[1..] == rest;
  }

  function Reported(line: Line): seq<Call> {
    if line.Report? then [line.call] else []
  }

  lemma MeaningStep(item: Item, rest: seq<Item>, c: Carry)
    ensures var line := Expected(item, c);
      Meaning([item] + rest, c.section, c.prevName) ==
      Reported(line) + Meaning(rest, line.next.section, line.next.prevName)
  {
    assert ([item] + rest)[1..] == rest;
  }

  lemma CoherentStep(item: Item, rest: seq<Item>, c: Carry)
    requires Coherent([item] + rest, c.prevName != "") && (item.Pair? ==> item.name != "")
    ensures Coherent(rest, Expected(item, c).next.prevName != "") && (item.Continuation? ==> c.prevName != "")
  {
    assert ([item] + rest)[1..] == rest;
  }

  lemma MalformedStep(item: Item, rest: seq<Item>, lineno: nat, c: Carry)
    ensures FirstMalformed([item] + rest, lineno) ==
      if Expected(item, c).Malformed? then lineno + 1 else FirstMalformed(rest, lineno + 1)
  {
    assert ([item] + rest)[1..] == rest;
  }

  lemma ItemStep(p: Progress, item: Item, rest: seq<Item>, handler: Handler)
    requires ParseLine(Content(item) + "\n", p.lineno == 0, p.carry) == Expected(item, p.carry)
    requires Coherent([item] + rest, p.carry.prevName != "") && (item.Pair? ==> item.name != "")
    ensures var next := Step(p, Content(item) + "\n", handler);
      && next.lineno == p.lineno + 1 && Coherent(rest, next.carry.prevName != "")
      && next.calls + Meaning(rest, next.carry.section, next.carry.prevName) ==
        p.calls + Meaning([item] + rest, p.carry.section, p.carry.prevName)
      && (Accepting(handler) ==>
        (if next.error != 0 then next.error else FirstMalformed(rest, next.lineno)) ==
        if p.error != 0 then p.error else FirstMalformed([item] + rest, p.lineno))
  {
    hide ParseLine, Content, Expected, Coherent, Meaning, FirstMalformed;
    var line := Expected(item, p.carry);
    CoherentStep(item, rest, p.carry);
    MeaningStep(item, rest, p.carry);
    MalformedStep(item, rest, p.lineno, p.carry);
    var later := Meaning(rest, line.next.section, line.next.prevName);
    assert p.calls + (Reported(line) + later) == p.calls + Reported(line) + later;
    assert p.calls + [] == p.calls;
  }

  lemma {:induction false} TextHasNoEnd(items: seq<Item>)
    requires forall item :: item in items ==> WellFormed(item)
    ensures NUL !in Text(items)
  {
    hide Content;
    if items != [] {
      TextHasNoEnd(items[1..]);
      assert WellFormed(items[0]);
    }
  }

  /** Parsing the text calls the handler with what the lines mean; the result tells the first malformed line. */
  method ParseText(items: seq<Item>, handler: Handler) returns (error: nat, calls: seq<Call>)
    requires forall item :: item in items ==> WellFormed(item)
    requires Coherent(items, false) && !(BOM <= Text(items))
    ensures calls == Meaning(items, "", "")
    ensures Accepting(handler) ==> error == FirstMalformed(items, 0)
  {
    hide Fold, Lines, Text, WellFormed, Meaning, FirstMalformed, IsFirstBad, BOM;
    TextHasNoEnd(items);
    TextParsed(BEGINNING, items, handler);
    error, calls := Ini.ParseString(Text(items), handler);
  }

  /** A byte order mark in front changes nothing. */
  lemma MarkIgnored(line: string, rest: string, handler: Handler)
    requires |line| < 196 && '\n' !in line && !(BOM <= line)
    ensures Fold(BEGINNING, Lines(BOM + (line + "\n" + rest), MAX_LINE), handler) ==
      Fold(BEGINNING, Lines(line + "\n" + rest, MAX_LINE), handler)
  {
    hide Lines, ParseLine;
    assert |BOM| == 3 && BOM[0] == '\U{EF}' && BOM[1] == '\U{BB}' && BOM[2] == '\U{BF}';
    assert BOM + (line + "\n" + rest) == (BOM + line) + "\n" + rest;
    LinesOf(BOM + line, rest);
    LinesOf(line, rest);
    FoldOne(BEGINNING, BOM + line + "\n", Lines(rest, MAX_LINE), handler);
    FoldOne(BEGINNING, line + "\n", Lines(rest, MAX_LINE), handler);
    MarkedLine(line);
  }

  lemma MarkedLine(line: string)
    requires !(BOM <= line)
    ensures ParseLine(BOM + line + "\n", true, Carry("", "")) == ParseLine(line + "\n", true, Carry("", ""))
  {
    hide SectionLine, PairLine, RStripped, LSkipped;
    var marked := BOM + line + "\n";
    assert marked == BOM + (line + "\n");
    assert BOM <= marked && marked[3..] == line + "\n" by {
      assert |BOM| == 3;
    }
    assert Unmarked(marked, true) == line + "\n";
    Unmarks(line);
  }

  lemma Unmarks(line: string)
    requires !(BOM <= line)
    ensures Unmarked(line + "\n", true) == line + "\n"
  {
    assert |BOM| == 3 && BOM[0] == '\U{EF}' && BOM[1] == '\U{BB}' && BOM[2] == '\U{BF}';
  }
}
