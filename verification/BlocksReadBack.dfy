/**
 Blocks as they are written (app/ui/core/markdown.js): each kind of block, whatever comes after it, is read back
 as what was written in it, and ends where it was written to.
 */
module BlocksReadBack {
  import opened Prelude
  import opened Characters
  import opened Parts
  import opened TableCells
  import opened MarkdownBlocks
  import opened LinePatterns

  // ---------------------------------------------------------------------------------------
  // What is left of a document reads as by itself
  // ---------------------------------------------------------------------------------------

  /** `rest` is what is left of `lines` from `from` on. */
  predicate Rest(lines: seq<string>, rest: seq<string>, from: nat) {
    from <= |lines| && rest == lines[from..]
  }

  lemma RestIsStretch(lines: seq<string>, rest: seq<string>, from: nat)
    requires Rest(lines, rest, from)
    ensures Stretch(lines, rest, from) && from + |rest| == |lines|
    ensures forall i :: 0 <= i < |rest| ==> rest[i] == lines[from + i]
  {
  }

  lemma {:induction false} ParagraphEndOfRest(lines: seq<string>, rest: seq<string>, from: nat, at: nat)
    requires Rest(lines, rest, from) && at <= |rest|
    ensures ParagraphEnd(rest, at) + from == ParagraphEnd(lines, from + at)
    decreases |rest| - at
  {
    hide Blank, StartsBlock;
    RestIsStretch(lines, rest, from);
    if at < |rest| {
      StartsInRest(lines, rest, from, at);
      ParagraphEndOfRest(lines, rest, from, at + 1);
    }
  }

  lemma StartsInRest(lines: seq<string>, rest: seq<string>, from: nat, at: nat)
    requires Rest(lines, rest, from) && at < |rest|
    ensures StartsBlock(rest, at) == StartsBlock(lines, from + at)
    ensures StartsTable(rest, at) == StartsTable(lines, from + at)
  {
    hide FenceOf, HeadingOf, QuotedOf, IsRule, ItemOf, Cells, AreRuleCells, Has;
    RestIsStretch(lines, rest, from);
  }

  lemma KindInRest(lines: seq<string>, rest: seq<string>, from: nat, at: nat, nests: bool)
    requires Rest(lines, rest, from) && at < |rest|
    ensures KindAt(rest, at, nests) == KindAt(lines, from + at, nests)
  {
    StartsInRest(lines, rest, from, at);
    RestIsStretch(lines, rest, from);
    hide FenceOf, HeadingOf, QuotedOf, IsRule, ItemOf, StartsTable, Rest;
  }

  lemma EndInRest(lines: seq<string>, rest: seq<string>, from: nat, at: nat, kind: Kind)
    requires Rest(lines, rest, from) && at < |rest| && (kind.AFence? ==> kind.marks != "")
    requires kind.ATable? ==> at + 1 < |rest|
    requires kind.AQuote? ==> QuotedOf(rest[at]).Some?
    ensures kind.AQuote? ==> QuotedOf(lines[from + at]).Some?
    ensures BlockEnd(rest, at, kind) + from == BlockEnd(lines, from + at, kind)
  {
    hide FenceEnd, QuoteEnd, QuotedOf, ListEnd, TableEnd, ParagraphEnd, Blank, StartsBlock, Ordered, Rest;
    RestIsStretch(lines, rest, from);
    match kind {
      case AFence(marks, _) => FenceEndWithin(lines, rest, from, at + 1, marks);
      case AQuote => QuoteEndWithin(lines, rest, from, at);
      case AList(m) => ListEndWithin(lines, rest, from, at, m.indent, Ordered(m));
      case ATable => TableEndWithin(lines, rest, from, at + 2);
      case AParagraph => ParagraphEndOfRest(lines, rest, from, at + 1);
      case _ =>
    }
  }

  lemma BlockInRest(lines: seq<string>, rest: seq<string>, from: nat, at: nat, depth: nat)
    requires Rest(lines, rest, from) && at < |rest| && depth <= MAX_NESTING
    ensures BlockAt(lines, from + at, depth) == (BlockAt(rest, at, depth).0, BlockAt(rest, at, depth).1 + from)
  {
    hide FenceOf, HeadingOf, QuotedOf, IsRule, ItemOf, StartsTable, BlockOf, FenceEnd, QuoteEnd, Rest;
    hide ListEnd, TableEnd, ParagraphEnd;
    var kind := KindAt(rest, at, depth < MAX_NESTING);
    KindInRest(lines, rest, from, at, depth < MAX_NESTING);
    StartsTableMeans(rest, at);
    EndInRest(lines, rest, from, at, kind);
    RestIsStretch(lines, rest, from);
    BlockOfInRest(lines, rest, from, at, BlockEnd(rest, at, kind), kind, depth);
  }

  lemma StartsTableMeans(lines: seq<string>, at: nat)
    requires at < |lines|
    ensures StartsTable(lines, at) ==> at + 1 < |lines|
  {
  }

  lemma BlockOfInRest(
    lines: seq<string>, rest: seq<string>, from: nat, at: nat, end: nat, kind: Kind, depth: nat)
    requires Rest(lines, rest, from) && at < end <= |rest| + 1 && at < |rest| && depth <= MAX_NESTING
    requires end == |rest| + 1 ==> kind.AFence?
    requires kind.AFence? || kind.ATable? ==> at + 2 <= end
    requires kind.AQuote? || kind.AList? ==> depth < MAX_NESTING
    requires from + |rest| == |lines|
    ensures BlockOf(rest, at, end, kind, depth) == BlockOf(lines, from + at, end + from, kind, depth)
  {
    hide BlocksFrom, Unquoted, Joined, Rows, Cells, ItemsFrom, ListEnd, Ordered, StartOf, Rest;
    RestIsStretch(lines, rest, from);
    match kind {
      case AFence(_, _) => PartWithin(lines, rest, from, at + 1, end - 1);
      case AQuote => PartWithin(lines, rest, from, at, end);
      case AList(m) => ItemsWithin(lines, rest, from, at, m, m.indent, Ordered(m), depth);
      case ATable => PartWithin(lines, rest, from, at + 2, end);
      case AParagraph => PartWithin(lines, rest, from, at, end);
      case _ =>
    }
  }

  /** From any line on, a document reads as what is left of it does by itself. */
  lemma {:induction false} RestReadsTheSame(lines: seq<string>, rest: seq<string>, from: nat, at: nat, depth: nat)
    requires Rest(lines, rest, from) && depth <= MAX_NESTING
    ensures BlocksFrom(rest, at, depth) == BlocksFrom(lines, from + at, depth)
    decreases if at < |rest| then |rest| - at else 0
  {
    hide Blank, BlockAt, Rest;
    RestIsStretch(lines, rest, from);
    if at < |rest| {
      if Blank(rest[at]) {
        RestReadsTheSame(lines, rest, from, at + 1, depth);
      } else {
        BlockInRest(lines, rest, from, at, depth);
        RestReadsTheSame(lines, rest, from, BlockAt(rest, at, depth).1, depth);
      }
    }
  }

  /** A block first, and then whatever comes after it. */
  lemma BlockThenMore(lines: seq<string>, own: seq<string>, more: seq<string>, block: Block, depth: nat)
    requires lines == own + more && own != [] && !Blank(lines[0]) && depth <= MAX_NESTING
    requires BlockAt(lines, 0, depth).0 == block
    requires BlockAt(lines, 0, depth).1 == |own| || (more == [] && BlockAt(lines, 0, depth).1 >= |own|)
    ensures BlocksFrom(lines, 0, depth) == [block] + BlocksFrom(more, 0, depth)
  {
    hide Blank, BlockAt;
    var next := BlockAt(lines, 0, depth).1;
    assert lines[|own|..] == more;
    RestReadsTheSame(lines, more, |own|, 0, depth);
  }

  // ---------------------------------------------------------------------------------------
  // What a line's first character says it may start as
  // ---------------------------------------------------------------------------------------

  lemma MarksOfALine(line: string)
    ensures var at := IndentOf(line);
            && (FenceOf(line).Some? ==> at < |line| && (line[at] == '`' || line[at] == '~'))
            && (HeadingOf(line).Some? ==> at < |line| && line[at] == '#')
            && (QuotedOf(line).Some? ==> at < |line| && line[at] == '>')
            && (ItemOf(line).Some? ==>
                  at < |line| && (line[at] == '-' || line[at] == '*' || line[at] == '+' || IsDigit(line[at])))
  {
    hide IndentOf, IsSpace;
  }

  lemma MarkOfARule(line: string)
    requires IsRule(line)
    ensures var at := IndentOf(line); at < |line| && IsRuleMark(line[at])
  {
    hide *;
    var c, i := RuleParts(line);
    RuleMarkIsNoSpace(c);
    IndentStopsBy(line, i);
    assert line[IndentOf(line)] == c;
  }

  lemma IndentStopsBy(line: string, i: nat)
    requires i < |line| && !IsSpace(line[i])
    ensures IndentOf(line) <= i && !IsSpace(line[IndentOf(line)])
  {
  }

  lemma RuleMarkIsNoSpace(c: char)
    requires IsRuleMark(c)
    ensures !IsSpace(c)
  {
  }

  /** What the first character of a line that is not blank rules out. */
  lemma FirstCharacter(line: string, c: char)
    requires line != "" && line[0] == c && !IsSpace(c)
    ensures IndentOf(line) == 0 && !Blank(line)
    ensures FenceOf(line).Some? ==> c == '`' || c == '~'
    ensures HeadingOf(line).Some? ==> c == '#'
    ensures QuotedOf(line).Some? ==> c == '>'
    ensures IsRule(line) ==> IsRuleMark(c)
    ensures ItemOf(line).Some? ==> c == '-' || c == '*' || c == '+' || IsDigit(c)
  {
    MarksOfALine(line);
    if IsRule(line) {
      MarkOfARule(line);
    }
    assert IndentOf(line) == 0 && !Blank(line);
    hide *;
  }

  // ---------------------------------------------------------------------------------------
  // Headings and rules
  // ---------------------------------------------------------------------------------------

  /** One to six marks, a space and words: a heading of that level and those words, trimmed. */
  lemma HeadingReadsBack(level: nat, words: string, more: seq<string>, depth: nat)
    requires 1 <= level <= 6 && depth <= MAX_NESTING
    ensures BlocksFrom([Times('#', level) + " " + words] + more, 0, depth)
            == [Heading(Trim(words), level)] + BlocksFrom(more, 0, depth)
  {
    var line := Times('#', level) + " " + words;
    var lines := [line] + more;
    assert !IsSpace('#') && IsBlank("") && IsBlank(" ");
    TimesFirst('#', level);
    assert line[0] == '#';
    assert "" + (Times('#', level) + (" " + words)) == line;
    hide *;
    HeadingIsRead("", level, " ", words);
    FirstCharacter(line, '#');
    HeadingBlock(lines, level, Trim(words), depth);
    BlockThenMore(lines, [line], more, Heading(Trim(words), level), depth);
  }

  lemma HeadingBlock(lines: seq<string>, level: nat, words: string, depth: nat)
    requires lines != [] && depth <= MAX_NESTING && FenceOf(lines[0]).None?
    requires HeadingOf(lines[0]) == Some((level, words))
    ensures BlockAt(lines, 0, depth) == (Heading(words, level), 1)
  {
    hide FenceOf, HeadingOf, QuotedOf, IsRule, ItemOf, StartsTable;
  }

  /** Three or more of a rule's marks, whatever spaces stand between them: a rule, and no list. */
  lemma RuleReadsBack(line: string, c: char, i: nat, j: nat, k: nat, more: seq<string>, depth: nat)
    requires IsRuleMark(c) && i < j < k < |line| && line[i] == c == line[j] && line[k] == c
    requires forall at :: 0 <= at < |line| ==> line[at] == c || IsSpace(line[at])
    requires depth <= MAX_NESTING
    ensures BlocksFrom([line] + more, 0, depth) == [Rule] + BlocksFrom(more, 0, depth)
  {
    hide IsSpace, IsRule, FenceOf, HeadingOf, QuotedOf, Blank, IndentOf, BlockAt, BlocksFrom;
    RulePattern(line);
    MarksOfALine(line);
    MarkOfARule(line);
    FilledLine(line);
    RuleBlock([line] + more, depth);
    BlockThenMore([line] + more, [line], more, Rule, depth);
  }

  lemma FilledLine(line: string)
    requires IndentOf(line) < |line|
    ensures !Blank(line)
  {
  }

  lemma RuleBlock(lines: seq<string>, depth: nat)
    requires lines != [] && depth <= MAX_NESTING && IsRule(lines[0])
    requires FenceOf(lines[0]).None? && HeadingOf(lines[0]).None? && QuotedOf(lines[0]).None?
    ensures BlockAt(lines, 0, depth) == (Rule, 1)
  {
    hide FenceOf, HeadingOf, QuotedOf, IsRule, ItemOf, StartsTable;
  }

  // ---------------------------------------------------------------------------------------
  // Fenced code
  // ---------------------------------------------------------------------------------------

  /** Whether a line is a fence's marks, as many or more, between spaces. */
  ghost predicate ClosesIt(line: string, c: char, n: nat) {
    exists before, m: nat, after ::
      m >= n && IsBlank(before) && IsBlank(after) && line == before + (Times(c, m) + after)
  }

  lemma {:induction false} FenceEndIs(lines: seq<string>, at: nat, marks: string, end: nat)
    requires marks != "" && at <= end <= |lines|
    requires forall i :: at <= i < end ==> !ClosesFence(lines[i], marks)
    requires end < |lines| ==> ClosesFence(lines[end], marks)
    ensures FenceEnd(lines, at, marks) == end
    decreases end - at
  {
    hide ClosesFence;
    if at < end {
      FenceEndIs(lines, at + 1, marks, end);
    }
  }

  predicate IsLang(lang: string, c: char) {
    (forall i :: 0 <= i < |lang| ==> lang[i] != '`' && !IsSpace(lang[i])) && (lang != "" ==> lang[0] != c)
  }

  /**
   Lines between fences are code as they are, in the language named after the first; a fence that nothing
   closes runs to the end.
   */
  lemma FencedReadsBack(
    c: char, n: nat, lang: string, ls: seq<string>, closing: seq<string>, more: seq<string>, depth: nat)
    requires (c == '`' || c == '~') && n >= 3 && IsLang(lang, c) && depth <= MAX_NESTING
    requires forall i :: 0 <= i < |ls| ==> !ClosesIt(ls[i], c, n)
    requires (|closing| == 1 && ClosesIt(closing[0], c, n)) || (closing == [] && more == [])
    ensures BlocksFrom([Times(c, n) + lang] + ls + closing + more, 0, depth)
            == [Fenced(Joined(ls, "\n"), Lowered(lang))] + BlocksFrom(more, 0, depth)
  {
    var own := [Times(c, n) + lang] + ls + closing;
    var lines := own + more;
    hide *;
    FenceLineIsRead(c, n, lang);
    FenceCloses(c, n, lang, ls, closing, more, lines);
    FencedBlock(lines, Times(c, n), lang, |ls| + 1, depth);
    CodeLines(Times(c, n) + lang, ls, closing, more);
    assert lines[0] == Times(c, n) + lang;
    BlockThenMore(lines, own, more, Fenced(Joined(ls, "\n"), Lowered(lang)), depth);
  }

  lemma CodeLines(first: string, ls: seq<string>, closing: seq<string>, more: seq<string>)
    ensures ([first] + ls + closing + more)[1..|ls| + 1] == ls
  {
  }

  lemma FenceLineIsRead(c: char, n: nat, lang: string)
    requires (c == '`' || c == '~') && n >= 3 && IsLang(lang, c)
    ensures FenceOf(Times(c, n) + lang) == Some((Times(c, n), lang)) && !Blank(Times(c, n) + lang)
  {
    assert !IsSpace(c) && IsBlank("") && (lang != "" ==> !IsSpace(lang[0]));
    hide IsSpace, IsBlank, FenceOf, Times, Blank, IndentOf, HeadingOf, QuotedOf, IsRule, ItemOf;
    TimesFirst(c, n);
    FirstOf(Times(c, n), lang);
    FenceIsRead("", c, n, "", lang, "");
    WithNothing(Times(c, n), lang);
    FirstCharacter(Times(c, n) + lang, c);
  }

  lemma WithNothing(marks: string, lang: string)
    ensures "" + (marks + ("" + (lang + ""))) == marks + lang && lang + "" == lang
  {
  }

  lemma FenceCloses(
    c: char, n: nat, lang: string, ls: seq<string>, closing: seq<string>, more: seq<string>, lines: seq<string>)
    requires (c == '`' || c == '~') && n >= 1 && lines == [Times(c, n) + lang] + ls + closing + more
    requires forall i :: 0 <= i < |ls| ==> !ClosesIt(ls[i], c, n)
    requires (|closing| == 1 && ClosesIt(closing[0], c, n)) || (closing == [] && more == [])
    ensures FenceEnd(lines, 1, Times(c, n)) == |ls| + 1
  {
    hide ClosesIt, ClosesFence, Times;
    forall i | 1 <= i < |ls| + 1 ensures !ClosesFence(lines[i], Times(c, n)) {
      assert lines[i] == ls[i - 1];
      ClosingMeans(lines[i], c, n);
    }
    if |closing| == 1 {
      assert lines[|ls| + 1] == closing[0];
      ClosingMeans(closing[0], c, n);
    }
    FenceEndIs(lines, 1, Times(c, n), |ls| + 1);
  }

  lemma ClosingMeans(line: string, c: char, n: nat)
    requires (c == '`' || c == '~') && n >= 1
    ensures ClosesFence(line, Times(c, n)) <==> ClosesIt(line, c, n)
  {
    hide ClosesFence;
    if ClosesFence(line, Times(c, n)) {
      FenceIsClosedOnlyBy(line, c, n);
    }
    if ClosesIt(line, c, n) {
      var before, m: nat, after :|
        m >= n && IsBlank(before) && IsBlank(after) && line == before + (Times(c, m) + after);
      FenceIsClosedBy(before, c, m, after, n);
    }
  }

  lemma FencedBlock(lines: seq<string>, marks: string, lang: string, end: nat, depth: nat)
    requires lines != [] && depth <= MAX_NESTING && marks != "" && FenceOf(lines[0]) == Some((marks, lang))
    requires FenceEnd(lines, 1, marks) == end
    ensures 1 <= end <= |lines|
    ensures BlockAt(lines, 0, depth) == (Fenced(Joined(lines[1..end], "\n"), Lowered(lang)), end + 1)
  {
    hide FenceOf, HeadingOf, QuotedOf, IsRule, ItemOf, StartsTable, FenceEnd, Joined, Lowered;
  }

  /** A language is in lower case: its ASCII capitals are small letters, and all else stays. */
  lemma LanguageIsLowered(lang: string, i: nat)
    requires i < |lang|
    ensures |Lowered(lang)| == |lang|
    ensures Lowered(lang)[i] as int == lang[i] as int + if 'A' <= lang[i] <= 'Z' then 32 else 0
  {
  }

  // ---------------------------------------------------------------------------------------
  // Quotes
  // ---------------------------------------------------------------------------------------

  /** Lines as they are quoted. */
  function QuoteLines(ls: seq<string>): (quoted: seq<string>)
    ensures |quoted| == |ls| && forall i :: 0 <= i < |ls| ==> quoted[i] == "> " + ls[i]
  {
    if ls == [] then [] else ["> " + ls[0]] + QuoteLines(ls[1..])
  }

  ghost predicate IsQuoteLine(line: string) {
    exists spaces, words :: IsBlank(spaces) && line == spaces + (">" + words)
  }

  lemma QuoteLineMeans(line: string)
    ensures QuotedOf(line).Some? <==> IsQuoteLine(line)
  {
    hide QuotedOf, IsBlank;
    if QuotedOf(line).Some? {
      QuoteIsWritten(line);
      var spaces, space :| IsBlank(spaces) && line == spaces + (">" + space + QuotedOf(line).value);
      assert line == spaces + (">" + (space + QuotedOf(line).value));
    }
    if IsQuoteLine(line) {
      var spaces, words :| IsBlank(spaces) && line == spaces + (">" + words);
      QuoteIsSome(spaces, words);
    }
  }

  lemma QuoteIsSome(spaces: string, words: string)
    requires IsBlank(spaces)
    ensures QuotedOf(spaces + (">" + words)).Some?
  {
    if StartsSpaced(words) {
      var space, rest := words[..1], words[1..];
      assert ">" + space + rest == ">" + words && IsBlank(space);
      QuoteIsRead(spaces, space, rest);
    } else {
      assert ">" + "" + words == ">" + words && IsBlank("");
      QuoteIsRead(spaces, "", words);
    }
  }

  lemma QuotedLine(words: string)
    ensures QuotedOf("> " + words) == Some(words) && FenceOf("> " + words).None? && HeadingOf("> " + words).None?
    ensures !Blank("> " + words)
  {
    var line := "> " + words;
    assert !IsSpace('>') && IsBlank("") && IsBlank(" ") && line[0] == '>';
    assert "" + (">" + " " + words) == line;
    hide *;
    QuoteIsRead("", " ", words);
    FirstCharacter(line, '>');
  }

  lemma {:induction false} QuoteEndIs(lines: seq<string>, at: nat, end: nat)
    requires at <= end <= |lines| && (forall i :: at <= i < end ==> QuotedOf(lines[i]).Some?)
    requires end < |lines| ==> QuotedOf(lines[end]).None?
    ensures QuoteEnd(lines, at) == end
    decreases end - at
  {
    hide QuotedOf;
    if at < end {
      QuoteEndIs(lines, at + 1, end);
    }
  }

  lemma {:induction false} UnquotedIs(quoted: seq<string>, ls: seq<string>)
    requires |quoted| == |ls| && forall i :: 0 <= i < |ls| ==> QuotedOf(quoted[i]) == Some(ls[i])
    ensures Unquoted(quoted) == ls
  {
    hide QuotedOf;
    if ls != [] {
      UnquotedIs(quoted[1..], ls[1..]);
      assert ls == [ls[0]] + ls[1..];
    }
  }

  lemma QuoteBlock(lines: seq<string>, end: nat, depth: nat)
    requires lines != [] && depth < MAX_NESTING && FenceOf(lines[0]).None? && HeadingOf(lines[0]).None?
    requires QuotedOf(lines[0]).Some? && QuoteEnd(lines, 0) == end
    ensures end <= |lines|
    ensures BlockAt(lines, 0, depth) == (Quote(BlocksFrom(Unquoted(lines[..end]), 0, depth + 1)), end)
  {
    hide FenceOf, HeadingOf, QuotedOf, IsRule, ItemOf, StartsTable, QuoteEnd, Unquoted;
    assert lines[0..end] == lines[..end];
  }

  /** What is quoted is read as blocks of its own, one level deeper, up to a line that is not. */
  lemma QuoteReadsBack(ls: seq<string>, more: seq<string>, depth: nat)
    requires ls != [] && depth < MAX_NESTING && (more != [] ==> !IsQuoteLine(more[0]))
    ensures BlocksFrom(QuoteLines(ls) + more, 0, depth)
            == [Quote(BlocksFrom(ls, 0, depth + 1))] + BlocksFrom(more, 0, depth)
  {
    hide BlockAt, BlocksFrom, QuotedOf, FenceOf, HeadingOf, Blank, IsQuoteLine, QuoteLines;
    var quoted := QuoteLines(ls);
    var lines := quoted + more;
    forall i | 0 <= i < |ls| ensures QuotedOf(lines[i]) == Some(ls[i]) {
      QuotedLine(ls[i]);
    }
    QuotedLine(ls[0]);
    if more != [] {
      assert lines[|ls|] == more[0];
      QuoteLineMeans(more[0]);
    }
    QuoteEndIs(lines, 0, |ls|);
    assert lines[..|ls|] == quoted;
    UnquotedIs(quoted, ls);
    QuoteBlock(lines, |ls|, depth);
    BlockThenMore(lines, quoted, more, Quote(BlocksFrom(ls, 0, depth + 1)), depth);
  }

  // ---------------------------------------------------------------------------------------
  // Paragraphs
  // ---------------------------------------------------------------------------------------

  ghost predicate IsHeadingLine(line: string) {
    exists spaces, level: nat, gap, words ::
      && IsBlank(spaces) && 1 <= level <= 6 && IsBlank(gap) && gap != ""
      && line == spaces + (Times('#', level) + (gap + words))
  }

  ghost predicate IsFenceLine(line: string) {
    exists spaces, c, rest ::
      IsBlank(spaces) && (c == '`' || c == '~') && line == spaces + (Times(c, 3) + rest)
  }

  ghost predicate IsRuleLine(line: string) {
    exists c, i: nat, j: nat, k: nat ::
      && IsRuleMark(c) && i < j < k < |line| && line[i] == c == line[j] && line[k] == c
      && forall at :: 0 <= at < |line| ==> line[at] == c || IsSpace(line[at])
  }

  ghost predicate IsItemLine(line: string) {
    exists indent, mark, gap, words ::
      && IsBlank(indent) && IsItemMark(mark) && IsBlank(gap) && gap != "" && InLine(words)
      && line == indent + (mark + (gap + words))
  }

  /** A line that starts some block other than a paragraph or a table, as it is written. */
  ghost predicate IsBlockLine(line: string) {
    IsFenceLine(line) || IsHeadingLine(line) || IsQuoteLine(line) || IsRuleLine(line) || IsItemLine(line)
  }

  lemma HeadingLineMeans(line: string)
    ensures HeadingOf(line).Some? <==> IsHeadingLine(line)
  {
    hide HeadingOf, IsBlank, Times, Trim;
    if HeadingOf(line).Some? {
      HeadingIsWritten(line);
    }
    if IsHeadingLine(line) {
      var spaces, level: nat, gap, words :|
        && IsBlank(spaces) && 1 <= level <= 6 && IsBlank(gap) && gap != ""
        && line == spaces + (Times('#', level) + (gap + words));
      HeadingIsRead(spaces, level, gap, words);
    }
  }

  lemma FenceLineMeans(line: string)
    ensures FenceOf(line).Some? <==> IsFenceLine(line)
  {
    hide FenceOf, IsBlank, Times;
    if FenceOf(line).Some? {
      FenceIsWritten(line);
      var marks := FenceOf(line).value.0;
      var spaces, rest :| IsBlank(spaces) && line == spaces + (marks + rest);
      var c := if marks == Times('`', |marks|) then '`' else '~';
      TimesSplit(c, |marks|, 3);
      var more := Times(c, |marks| - 3) + rest;
      assert marks + rest == Times(c, 3) + more;
      assert line == spaces + (Times(c, 3) + more);
    }
    if IsFenceLine(line) {
      var spaces, c, rest :|
        IsBlank(spaces) && (c == '`' || c == '~') && line == spaces + (Times(c, 3) + rest);
      FenceIsSome(spaces, c, rest);
    }
  }

  lemma TimesSplit(c: char, n: nat, k: nat)
    requires k <= n
    ensures Times(c, n) == Times(c, k) + Times(c, n - k)
  {
  }

  lemma FenceIsSome(spaces: string, c: char, rest: string)
    requires IsBlank(spaces) && (c == '`' || c == '~')
    ensures FenceOf(spaces + (Times(c, 3) + rest)).Some?
  {
    assert !IsSpace('`') && !IsSpace('~');
    hide *;
    TimesFirst(c, 3);
    FirstOf(Times(c, 3), rest);
    IndentIs(spaces, Times(c, 3) + rest);
    AllOf(spaces, Times(c, 3) + rest);
    ThreeAreAFence(spaces + (Times(c, 3) + rest), |spaces|, c, rest);
  }

  lemma ThreeAreAFence(line: string, at: nat, c: char, rest: string)
    requires IndentOf(line) == at && (c == '`' || c == '~') && Stands(line, at, Times(c, 3) + rest)
    ensures FenceOf(line).Some?
  {
    hide IndentOf, LangEnd, SpacesEnd;
    StandsThen(line, at, Times(c, 3), rest);
    assert line[at..at + 3] == Times(c, 3);
    assert line[at] == line[at..at + 3][0] && line[at + 1] == line[at..at + 3][1] && line[at + 2] == line[at..at + 3][2];
    assert Run(line, at + 2, c) >= at + 3 && Run(line, at + 1, c) >= at + 3;
  }

  lemma RuleLineMeans(line: string)
    ensures IsRule(line) <==> IsRuleLine(line)
  {
    RulePattern(line);
    hide IsRule;
  }

  lemma ItemLineMeans(line: string)
    ensures ItemOf(line).Some? <==> IsItemLine(line)
  {
    hide ItemOf, IsBlank, IsItemMark, InLine;
    if ItemOf(line).Some? {
      ItemIsWritten(line);
    }
    if IsItemLine(line) {
      var indent, mark, gap, words :|
        && IsBlank(indent) && IsItemMark(mark) && IsBlank(gap) && gap != "" && InLine(words)
        && line == indent + (mark + (gap + words));
      ItemIsSome(indent, mark, gap, words);
    }
  }

  lemma ItemIsSome(indent: string, mark: string, gap: string, words: string)
    requires IsBlank(indent) && IsItemMark(mark) && IsBlank(gap) && gap != "" && InLine(words)
    ensures ItemOf(indent + (mark + (gap + words))).Some?
  {
    hide ItemOf, IsItemMark;
    var at := SpacesEnd(words, 0);
    SpacesMean(words, 0);
    var more, rest := gap + words[..at], words[at..];
    assert words[0..at] == words[..at];
    assert gap + words == more + rest;
    hide SpacesEnd, IsSpace;
    ItemIsRead(indent, mark, more, rest);
  }

  lemma BlockLineMeans(lines: seq<string>, at: nat)
    requires at < |lines|
    ensures StartsBlock(lines, at) <==> IsBlockLine(lines[at]) || StartsTable(lines, at)
  {
    var line := lines[at];
    FenceLineMeans(line);
    HeadingLineMeans(line);
    QuoteLineMeans(line);
    RuleLineMeans(line);
    ItemLineMeans(line);
    hide FenceOf, HeadingOf, QuotedOf, IsRule, ItemOf, StartsTable;
    hide IsFenceLine, IsHeadingLine, IsQuoteLine, IsRuleLine, IsItemLine;
  }

  lemma {:induction false} ParagraphEndIs(lines: seq<string>, at: nat, end: nat)
    requires at <= end <= |lines| && (forall i :: at <= i < end ==> !Blank(lines[i]) && !StartsBlock(lines, i))
    requires end < |lines| ==> Blank(lines[end]) || StartsBlock(lines, end)
    ensures ParagraphEnd(lines, at) == end
    decreases end - at
  {
    hide Blank, StartsBlock;
    if at < end {
      ParagraphEndIs(lines, at + 1, end);
    }
  }

  lemma ParagraphBlock(lines: seq<string>, end: nat, depth: nat)
    requires lines != [] && depth <= MAX_NESTING && !StartsBlock(lines, 0) && ParagraphEnd(lines, 1) == end
    ensures end <= |lines| && BlockAt(lines, 0, depth) == (Paragraph(lines[..end]), end)
  {
    hide FenceOf, HeadingOf, QuotedOf, IsRule, ItemOf, StartsTable, ParagraphEnd;
    assert lines[0..end] == lines[..end];
  }

  /** Words with no pipe in them that start no block. */
  ghost predicate IsPlainLine(line: string) {
    !IsBlank(line) && '|' !in line && !IsBlockLine(line)
  }

  lemma PlainLineMeans(lines: seq<string>, at: nat)
    requires at < |lines| && IsPlainLine(lines[at])
    ensures !Blank(lines[at]) && !StartsBlock(lines, at)
  {
    hide IsBlockLine, Blank;
    BlankMeans(lines[at]);
    BlockLineMeans(lines, at);
  }

  /** Lines that start nothing else are one paragraph, up to a blank line or one that does. */
  lemma PlainLinesAreAParagraph(ls: seq<string>, more: seq<string>, depth: nat)
    requires ls != [] && depth <= MAX_NESTING && forall i :: 0 <= i < |ls| ==> IsPlainLine(ls[i])
    requires more != [] ==> IsBlank(more[0]) || IsBlockLine(more[0])
    ensures BlocksFrom(ls + more, 0, depth) == [Paragraph(ls)] + BlocksFrom(more, 0, depth)
  {
    hide *;
    var lines := ls + more;
    forall i | 0 <= i < |ls| ensures !Blank(lines[i]) && !StartsBlock(lines, i) {
      assert lines[i] == ls[i];
      PlainLineMeans(lines, i);
    }
    if more != [] {
      assert lines[|ls|] == more[0];
      BlankMeans(more[0]);
      BlockLineMeans(lines, |ls|);
    }
    ParagraphEndIs(lines, 1, |ls|);
    ParagraphBlock(lines, |ls|, depth);
    assert lines[..|ls|] == ls;
    BlockThenMore(lines, ls, more, Paragraph(ls), depth);
  }

  /** Blank lines are read past. */
  lemma BlankLinesAreNothing(line: string, more: seq<string>, depth: nat)
    requires IsBlank(line) && depth <= MAX_NESTING
    ensures BlocksFrom([line] + more, 0, depth) == BlocksFrom(more, 0, depth)
  {
    hide Blank, BlockAt;
    var lines := [line] + more;
    BlankMeans(line);
    assert lines[1..] == more;
    RestReadsTheSame(lines, more, 1, 0, depth);
  }
}
