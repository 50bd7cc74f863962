/**
 The blocks lines of markdown make (app/ui/core/markdown.js): fenced code, headings, quotes, rules,
 lists, tables and paragraphs, quotes and lists nested up to a bound. Each pattern is a scan of its
 line; the readers are functions, and at the end the page's own loops.
 */
module MarkdownBlocks {
  import opened Prelude
  import opened Characters
  import opened TableCells

  datatype Block =
    | Fenced(code: string, lang: string)
    | Heading(heading: string, level: nat)
    | Quote(quote: seq<Block>)
    | Rule
    | List(items: seq<Item>, ordered: bool, start: Option<nat>)
    | Table(rows: seq<seq<string>>)
    | Paragraph(paragraph: seq<string>)

  /** An item of a list: what is in it, and where it is a task, whether it is done. */
  datatype Item = Item(parts: seq<Block>, done: Option<bool>)

  const MAX_NESTING: nat := 32

  // ---------------------------------------------------------------------------------------
  // What a line starts as
  // ---------------------------------------------------------------------------------------

  predicate Blank(line: string) {
    SpacesEnd(line, 0) == |line|
  }

  function IndentOf(line: string): (indent: nat)
    ensures indent <= |line|
  {
    SpacesEnd(line, 0)
  }

  /** Where a run of `c` from `at` ends. */
  function Run(line: string, at: nat, c: char): (end: nat)
    requires at <= |line|
    ensures at <= end <= |line|
    decreases |line| - at
  {
    if at < |line| && line[at] == c then Run(line, at + 1, c) else at
  }

  function LangEnd(line: string, at: nat): (end: nat)
    requires at <= |line|
    ensures at <= end <= |line|
    decreases |line| - at
  {
    if at < |line| && line[at] != '`' && !IsSpace(line[at]) then LangEnd(line, at + 1) else at
  }

  /** A line that opens code: its marks, and the word after them. */
  function FenceOf(line: string): (fence: Option<(string, string)>)
    ensures fence.Some? ==> fence.value.0 != ""
  {
    var at := IndentOf(line);
    if at == |line| || (line[at] != '`' && line[at] != '~') then None
    else
      var end := Run(line, at, line[at]);
      if end - at < 3 then None
      else
        var word := SpacesEnd(line, end);
        Some((line[at..end], line[word..LangEnd(line, word)]))
  }

  predicate ClosesFence(line: string, marks: string)
    requires marks != ""
  {
    var bare := Trim(line);
    |bare| >= |marks| && forall i :: 0 <= i < |bare| ==> bare[i] == marks[0]
  }

  /** A heading's level and words. */
  function HeadingOf(line: string): Option<(nat, string)> {
    var at := IndentOf(line);
    var end := Run(line, at, '#');
    if 1 <= end - at <= 6 && end < |line| && IsSpace(line[end])
    then Some((end - at, Trim(line[SpacesEnd(line, end)..])))
    else None
  }

  /** A quote's line without its mark. */
  function QuotedOf(line: string): Option<string> {
    var at := IndentOf(line);
    if at == |line| || line[at] != '>' then None
    else if at + 1 < |line| && IsSpace(line[at + 1]) then Some(line[at + 2..])
    else Some(line[at + 1..])
  }

  function CountOf(line: string, c: char): nat {
    if line == "" then 0 else (if line[0] == c then 1 else 0) + CountOf(line[1..], c)
  }

  predicate IsRuleOf(line: string, c: char) {
    CountOf(line, c) >= 3 && forall i :: 0 <= i < |line| ==> line[i] == c || IsSpace(line[i])
  }

  predicate IsRule(line: string) {
    IsRuleOf(line, '-') || IsRuleOf(line, '*') || IsRuleOf(line, '_')
  }

  function DigitsEnd(line: string, at: nat): (end: nat)
    requires at <= |line|
    ensures at <= end <= |line|
    decreases |line| - at
  {
    if at < |line| && IsDigit(line[at]) then DigitsEnd(line, at + 1) else at
  }

  /** Where a list item's mark ends: -, * or +, or a number of at most nine digits and its point. */
  function MarkEnd(line: string, at: nat): (end: nat)
    requires at <= |line|
    ensures at <= end <= |line|
  {
    if at < |line| && (line[at] == '-' || line[at] == '*' || line[at] == '+') then at + 1
    else
      var digits := DigitsEnd(line, at);
      if 1 <= digits - at <= 9 && digits < |line| && (line[digits] == '.' || line[digits] == ')')
      then digits + 1 else at
  }

  predicate HasLineEnd(s: string) {
    exists i :: 0 <= i < |s| &&
      (s[i] == '\n' || s[i] == '\r' || s[i] == '\U{2028}' || s[i] == '\U{2029}')
  }

  /** A list item's line: its indent, its mark and its words. */
  datatype Mark = Mark(indent: nat, mark: string, words: string)

  function ItemOf(line: string): Option<Mark> {
    var at := IndentOf(line);
    var end := MarkEnd(line, at);
    var words := SpacesEnd(line, end);
    if end > at && words > end && !HasLineEnd(line[words..])
    then Some(Mark(at, line[at..end], line[words..])) else None
  }

  predicate Ordered(m: Mark) {
    m.mark != "" && IsDigit(m.mark[0])
  }

  function Number(digits: string): nat {
    if digits == "" || !IsDigit(digits[|digits| - 1]) then 0
    else 10 * Number(digits[..|digits| - 1]) + (digits[|digits| - 1] as int - '0' as int)
  }

  function StartOf(m: Mark): Option<nat> {
    if Ordered(m) then Some(Number(m.mark[..|m.mark| - 1])) else None
  }

  /** A task's box, ticked or not, and the words after it. */
  function TaskOf(words: string): Option<(bool, string)> {
    if |words| >= 3 && words[0] == '[' && words[2] == ']'
       && (words[1] == ' ' || words[1] == 'x' || words[1] == 'X')
       && (|words| == 3 || IsSpace(words[3]))
    then Some((words[1] != ' ', words[SpacesEnd(words, 3)..])) else None
  }

  predicate AreRuleCells(cells: seq<string>) {
    forall i :: 0 <= i < |cells| ==> IsRuleCell(cells[i])
  }

  /** Whether a table starts at `at`: a row with a pipe in it, and a rule under each of its cells. */
  predicate StartsTable(lines: seq<string>, at: nat)
    requires at < |lines|
  {
    && Has(lines[at], '|') && at + 1 < |lines|
    && |Cells(lines[at + 1])| == |Cells(lines[at])|
    && AreRuleCells(Cells(lines[at + 1]))
  }

  /** Whether the line at `at` starts a block other than a paragraph, which ends one. */
  predicate StartsBlock(lines: seq<string>, at: nat)
    requires at < |lines|
  {
    || FenceOf(lines[at]).Some? || HeadingOf(lines[at]).Some? || QuotedOf(lines[at]).Some?
    || IsRule(lines[at]) || ItemOf(lines[at]).Some? || StartsTable(lines, at)
  }

  // ---------------------------------------------------------------------------------------
  // How far each kind goes
  // ---------------------------------------------------------------------------------------

  /** The first line from `at` on that is not blank; past the end when none is. */
  function Filled(lines: seq<string>, at: nat): (next: nat)
    requires at <= |lines|
    ensures at <= next <= |lines|
    ensures next < |lines| ==> !Blank(lines[next])
    ensures forall i :: at <= i < next ==> Blank(lines[i])
    decreases |lines| - at
  {
    if at < |lines| && Blank(lines[at]) then Filled(lines, at + 1) else at
  }

  /** The line that closes a fence of `marks`; past the end when none does. */
  function FenceEnd(lines: seq<string>, at: nat, marks: string): (end: nat)
    requires at <= |lines| && marks != ""
    ensures at <= end <= |lines|
    decreases |lines| - at
  {
    if at < |lines| && !ClosesFence(lines[at], marks) then FenceEnd(lines, at + 1, marks) else at
  }

  function QuoteEnd(lines: seq<string>, at: nat): (end: nat)
    requires at <= |lines|
    ensures at <= end <= |lines|
    decreases |lines| - at
  {
    if at < |lines| && QuotedOf(lines[at]).Some? then QuoteEnd(lines, at + 1) else at
  }

  function TableEnd(lines: seq<string>, at: nat): (end: nat)
    requires at <= |lines|
    ensures at <= end <= |lines|
    decreases |lines| - at
  {
    if at < |lines| && Has(lines[at], '|') then TableEnd(lines, at + 1) else at
  }

  function ParagraphEnd(lines: seq<string>, at: nat): (end: nat)
    requires at <= |lines|
    ensures at <= end <= |lines|
    ensures forall i :: at <= i < end ==> !Blank(lines[i]) && !StartsBlock(lines, i)
    decreases |lines| - at
  {
    if at < |lines| && !Blank(lines[at]) && !StartsBlock(lines, at)
    then ParagraphEnd(lines, at + 1) else at
  }

  /** Where the lines of an item go on to, from after its first: blank ones, and those further in. */
  function ItemEnd(lines: seq<string>, at: nat, indent: nat): (end: nat)
    requires at <= |lines|
    ensures at <= end <= |lines|
    decreases |lines| - at
  {
    var next := Filled(lines, at);
    if next < |lines| && IndentOf(lines[next]) > indent then ItemEnd(lines, next + 1, indent) else at
  }

  function Unquoted(lines: seq<string>): (own: seq<string>)
    ensures |own| == |lines|
  {
    if lines == [] then []
    else [if QuotedOf(lines[0]).Some? then QuotedOf(lines[0]).value else ""] + Unquoted(lines[1..])
  }

  /** Lines that lose as much indent as a mark took. */
  function Outdented(lines: seq<string>, width: nat): (own: seq<string>)
    ensures |own| == |lines|
  {
    if lines == [] then []
    else [lines[0][Min(IndentOf(lines[0]), width)..]] + Outdented(lines[1..], width)
  }

  function Rows(lines: seq<string>): seq<seq<string>> {
    if lines == [] then [] else [Cells(lines[0])] + Rows(lines[1..])
  }

  // ---------------------------------------------------------------------------------------
  // Blocks
  // ---------------------------------------------------------------------------------------

  function ItemWords(m: Mark): (string, Option<bool>) {
    var box := TaskOf(m.words);
    if box.Some? then (box.value.1, Some(box.value.0)) else (m.words, None)
  }

  /** The lines of the item at `at`, without its mark. */
  function ItemLines(lines: seq<string>, at: nat, m: Mark, indent: nat): seq<string>
    requires at < |lines|
  {
    [ItemWords(m).0]
    + Outdented(lines[at + 1..ItemEnd(lines, at + 1, indent)], m.indent + |m.mark| + 1)
  }

  /** Whether the line at `next` is another item of the list. */
  function NextItem(lines: seq<string>, next: nat, indent: nat, ordered: bool): Option<Mark> {
    if next >= |lines| then None
    else
      var m := ItemOf(lines[next]);
      if m.Some? && m.value.indent == indent && Ordered(m.value) == ordered then m else None
  }

  /** The line after the last of the list whose item is at `at`. */
  function ListEnd(lines: seq<string>, at: nat, indent: nat, ordered: bool): (end: nat)
    requires at < |lines|
    ensures at < end <= |lines|
    decreases |lines| - at
  {
    var end := ItemEnd(lines, at + 1, indent);
    var next := Filled(lines, end);
    if NextItem(lines, next, indent, ordered).None? then end
    else ListEnd(lines, next, indent, ordered)
  }

  /** The items of a list from the one at `at` on. */
  function ItemsFrom(lines: seq<string>, at: nat, m: Mark, indent: nat, ordered: bool, depth: nat)
    : seq<Item>
    requires at < |lines| && depth < MAX_NESTING
    decreases MAX_NESTING - depth, |lines| - at, 0
  {
    var item := Item(BlocksFrom(ItemLines(lines, at, m, indent), 0, depth + 1), ItemWords(m).1);
    var next := Filled(lines, ItemEnd(lines, at + 1, indent));
    var following := NextItem(lines, next, indent, ordered);
    if following.None? then [item]
    else [item] + ItemsFrom(lines, next, following.value, indent, ordered, depth)
  }

  datatype Kind =
    | AFence(marks: string, lang: string)
    | AHeading(level: nat, words: string)
    | AQuote
    | ARule
    | AList(first: Mark)
    | ATable
    | AParagraph

  /** What starts at `at`: the first of the kinds that does. Past the bound nothing nests. */
  function KindAt(lines: seq<string>, at: nat, nests: bool): (kind: Kind)
    requires at < |lines|
    ensures kind.AFence? ==> kind.marks != ""
  {
    var line := lines[at];
    if FenceOf(line).Some? then AFence(FenceOf(line).value.0, FenceOf(line).value.1)
    else if HeadingOf(line).Some? then AHeading(HeadingOf(line).value.0, HeadingOf(line).value.1)
    else if nests && QuotedOf(line).Some? then AQuote
    else if IsRule(line) then ARule
    else if nests && ItemOf(line).Some? then AList(ItemOf(line).value)
    else if StartsTable(lines, at) then ATable
    else AParagraph
  }

  /** The line after what starts at `at`: a fence takes the line that closes it along. */
  function BlockEnd(lines: seq<string>, at: nat, kind: Kind): (end: nat)
    requires at < |lines| && (kind.AFence? ==> kind.marks != "")
    requires kind.ATable? ==> at + 1 < |lines|
    requires kind.AQuote? ==> QuotedOf(lines[at]).Some?
    ensures at < end <= |lines| + 1
    ensures end == |lines| + 1 ==> kind.AFence?
    ensures kind.AFence? || kind.ATable? ==> at + 2 <= end
  {
    match kind
    case AFence(marks, _) => FenceEnd(lines, at + 1, marks) + 1
    case AHeading(_, _) => at + 1
    case AQuote => QuoteEnd(lines, at)
    case ARule => at + 1
    case AList(m) => ListEnd(lines, at, m.indent, Ordered(m))
    case ATable => TableEnd(lines, at + 2)
    case AParagraph => ParagraphEnd(lines, at + 1)
  }

  /** What the lines of a block are read as, from its kind and where it ends. */
  function BlockOf(lines: seq<string>, at: nat, end: nat, kind: Kind, depth: nat): Block
    requires at < end <= |lines| + 1 && depth <= MAX_NESTING
    requires end == |lines| + 1 ==> kind.AFence?
    requires kind.AFence? || kind.ATable? ==> at + 2 <= end
    requires kind.AQuote? || kind.AList? ==> depth < MAX_NESTING
    decreases MAX_NESTING - depth, |lines| - at, 1
  {
    match kind
    case AFence(_, lang) => Fenced(Joined(lines[at + 1..end - 1], "\n"), Lowered(lang))
    case AHeading(level, words) => Heading(words, level)
    case AQuote => Quote(BlocksFrom(Unquoted(lines[at..end]), 0, depth + 1))
    case ARule => Rule
    case AList(m) =>
      List(ItemsFrom(lines, at, m, m.indent, Ordered(m), depth), Ordered(m), StartOf(m))
    case ATable => Table([Cells(lines[at])] + Rows(lines[at + 2..end]))
    case AParagraph => Paragraph(lines[at..end])
  }

  /** The block at `at`, and the line after it. */
  function BlockAt(lines: seq<string>, at: nat, depth: nat): (r: (Block, nat))
    requires at < |lines| && depth <= MAX_NESTING
    ensures at < r.1 <= |lines| + 1
    decreases MAX_NESTING - depth, |lines| - at, 2
  {
    var kind := KindAt(lines, at, depth < MAX_NESTING);
    var end := BlockEnd(lines, at, kind);
    (BlockOf(lines, at, end, kind, depth), end)
  }

  function BlocksFrom(lines: seq<string>, at: nat, depth: nat): seq<Block>
    requires depth <= MAX_NESTING
    decreases MAX_NESTING - depth, |lines| - at, 3
  {
    if at >= |lines| then []
    else if Blank(lines[at]) then BlocksFrom(lines, at + 1, depth)
    else
      var (block, next) := BlockAt(lines, at, depth);
      [block] + BlocksFrom(lines, next, depth)
  }

  function Blocks(lines: seq<string>): seq<Block> {
    BlocksFrom(lines, 0, 0)
  }

  // ---------------------------------------------------------------------------------------
  // How deep blocks nest
  // ---------------------------------------------------------------------------------------

  /** How many quotes and lists deep blocks go. */
  function DepthOf(blocks: seq<Block>): nat {
    if blocks == [] then 0 else Max(Depth(blocks[0]), DepthOf(blocks[1..]))
  }

  function Depth(block: Block): nat {
    match block
    case Quote(quote) => 1 + DepthOf(quote)
    case List(items, _, _) => 1 + ItemsDepth(items)
    case _ => 0
  }

  function ItemsDepth(items: seq<Item>): nat {
    if items == [] then 0 else Max(DepthOf(items[0].parts), ItemsDepth(items[1..]))
  }

  lemma {:induction false} ItemsNestLess(
    lines: seq<string>, at: nat, m: Mark, indent: nat, ordered: bool, depth: nat)
    requires at < |lines| && depth < MAX_NESTING
    ensures ItemsDepth(ItemsFrom(lines, at, m, indent, ordered, depth)) < MAX_NESTING - depth
    decreases MAX_NESTING - depth, |lines| - at, 0
  {
    NestingIsBounded(ItemLines(lines, at, m, indent), 0, depth + 1);
    var item := Item(BlocksFrom(ItemLines(lines, at, m, indent), 0, depth + 1), ItemWords(m).1);
    var next := Filled(lines, ItemEnd(lines, at + 1, indent));
    var following := NextItem(lines, next, indent, ordered);
    if following.Some? {
      ItemsNestLess(lines, next, following.value, indent, ordered, depth);
      var rest := ItemsFrom(lines, next, following.value, indent, ordered, depth);
      assert ([item] + rest)[1..] == rest;
    } else {
      assert [item][1..] == [];
    }
  }

  /** Quotes and lists never nest deeper than the bound leaves, however the lines are marked. */
  lemma {:induction false} NestingIsBounded(lines: seq<string>, at: nat, depth: nat)
    requires depth <= MAX_NESTING
    ensures DepthOf(BlocksFrom(lines, at, depth)) <= MAX_NESTING - depth
    decreases MAX_NESTING - depth, |lines| - at, 2
  {
    hide BlockEnd, Blank, Unquoted, ItemsFrom, HeadingOf, FenceOf, IsRule, StartsTable, ItemOf, QuotedOf;
    if at < |lines| {
      if Blank(lines[at]) {
        NestingIsBounded(lines, at + 1, depth);
      } else {
        var (block, next) := BlockAt(lines, at, depth);
        var kind := KindAt(lines, at, depth < MAX_NESTING);
        assert block == BlockOf(lines, at, next, kind, depth);
        if kind.AQuote? {
          NestingIsBounded(Unquoted(lines[at..next]), 0, depth + 1);
        } else if kind.AList? {
          ItemsNestLess(lines, at, kind.first, kind.first.indent, Ordered(kind.first), depth);
        }
        NestingIsBounded(lines, next, depth);
        assert ([block] + BlocksFrom(lines, next, depth))[1..] == BlocksFrom(lines, next, depth);
      }
    }
  }

  // ---------------------------------------------------------------------------------------
  // Every line is in one block, and a block depends on its own lines alone
  // ---------------------------------------------------------------------------------------

  /** The lines each block takes: from its first to before its last. */
  function Extents(lines: seq<string>, at: nat, depth: nat): seq<(nat, nat)>
    requires depth <= MAX_NESTING
    decreases |lines| - at
  {
    if at >= |lines| then []
    else if Blank(lines[at]) then Extents(lines, at + 1, depth)
    else
      var end := BlockAt(lines, at, depth).1;
      [(at, Min(end, |lines|))] + Extents(lines, end, depth)
  }

  ghost predicate InOrder(extents: seq<(nat, nat)>, from: nat, to: nat) {
    && (forall k :: 0 <= k < |extents| ==> from <= extents[k].0 < extents[k].1 <= to)
    && (forall j, k :: 0 <= j < k < |extents| ==> extents[j].1 <= extents[k].0)
  }

  ghost predicate Takes(extents: seq<(nat, nat)>, line: nat) {
    exists k :: 0 <= k < |extents| && extents[k].0 <= line < extents[k].1
  }

  /** The block of each extent, and where it ends. */
  lemma {:induction false} ExtentsAreOfTheBlocks(lines: seq<string>, at: nat, depth: nat)
    requires depth <= MAX_NESTING
    ensures var blocks, extents := BlocksFrom(lines, at, depth), Extents(lines, at, depth);
            |blocks| == |extents| &&
            forall k :: 0 <= k < |extents| ==>
              extents[k].0 < |lines| && !Blank(lines[extents[k].0]) &&
              blocks[k] == BlockAt(lines, extents[k].0, depth).0 &&
              extents[k].1 == Min(BlockAt(lines, extents[k].0, depth).1, |lines|)
    decreases |lines| - at
  {
    hide BlockAt, KindAt, BlockEnd, Blank, Min;
    if at < |lines| {
      if Blank(lines[at]) {
        ExtentsAreOfTheBlocks(lines, at + 1, depth);
      } else {
        ExtentsAreOfTheBlocks(lines, BlockAt(lines, at, depth).1, depth);
      }
    }
  }

  lemma {:induction false} ExtentsAreInOrder(lines: seq<string>, at: nat, depth: nat)
    requires depth <= MAX_NESTING
    ensures InOrder(Extents(lines, at, depth), at, |lines|)
    decreases |lines| - at
  {
    hide BlockAt, KindAt, BlockEnd, Blank;
    if at < |lines| {
      if Blank(lines[at]) {
        ExtentsAreInOrder(lines, at + 1, depth);
      } else {
        ExtentsAreInOrder(lines, BlockAt(lines, at, depth).1, depth);
      }
    }
  }

  lemma {:induction false} LineIsTaken(lines: seq<string>, at: nat, depth: nat, i: nat)
    requires depth <= MAX_NESTING && at <= i < |lines| && !Blank(lines[i])
    ensures Takes(Extents(lines, at, depth), i)
    decreases |lines| - at
  {
    hide BlockAt, KindAt, BlockEnd, Blank;
    var extents := Extents(lines, at, depth);
    if Blank(lines[at]) {
      LineIsTaken(lines, at + 1, depth, i);
    } else {
      var end := BlockAt(lines, at, depth).1;
      if i < end {
        assert extents[0].0 <= i < extents[0].1;
      } else {
        LineIsTaken(lines, end, depth, i);
        var rest := Extents(lines, end, depth);
        var k :| 0 <= k < |rest| && rest[k].0 <= i < rest[k].1;
        assert extents[k + 1] == rest[k];
      }
    }
  }

  /**
   Every line that is not blank is in exactly one block: the blocks take stretches of lines one after
   the other, each starting at a line that is not blank, and only blank lines are between them.
   */
  lemma EveryLineIsInOneBlock(lines: seq<string>, depth: nat)
    requires depth <= MAX_NESTING
    ensures var blocks, extents := BlocksFrom(lines, 0, depth), Extents(lines, 0, depth);
            && |blocks| == |extents| && InOrder(extents, 0, |lines|)
            && (forall k :: 0 <= k < |extents| ==>
                  !Blank(lines[extents[k].0]) && blocks[k] == BlockAt(lines, extents[k].0, depth).0)
            && (forall i :: 0 <= i < |lines| && !Blank(lines[i]) ==> Takes(extents, i))
  {
    hide BlockAt, KindAt, BlockEnd, Blank, BlocksFrom, Extents;
    ExtentsAreOfTheBlocks(lines, 0, depth);
    ExtentsAreInOrder(lines, 0, depth);
    forall i | 0 <= i < |lines| && !Blank(lines[i])
      ensures Takes(Extents(lines, 0, depth), i)
    {
      LineIsTaken(lines, 0, depth, i);
    }
  }

  /** `own` is the stretch of `lines` from `from` on. */
  predicate Stretch(lines: seq<string>, own: seq<string>, from: nat) {
    from + |own| <= |lines| && own == lines[from..from + |own|]
  }

  lemma PartWithin(lines: seq<string>, own: seq<string>, from: nat, first: nat, end: nat)
    requires Stretch(lines, own, from) && first <= end <= |own|
    ensures own[first..end] == lines[from + first..from + end]
  {
    assert forall i :: first <= i < end ==> own[i] == lines[from + i];
  }

  lemma {:induction false} FenceEndWithin(
    lines: seq<string>, own: seq<string>, from: nat, at: nat, marks: string)
    requires Stretch(lines, own, from) && at <= |own| && marks != ""
    ensures FenceEnd(own, at, marks) + from == Min(FenceEnd(lines, from + at, marks), from + |own|)
    decreases |own| - at
  {
    if at < |own| {
      FenceEndWithin(lines, own, from, at + 1, marks);
    }
  }

  lemma {:induction false} QuoteEndWithin(lines: seq<string>, own: seq<string>, from: nat, at: nat)
    requires Stretch(lines, own, from) && at <= |own|
    ensures QuoteEnd(own, at) + from == Min(QuoteEnd(lines, from + at), from + |own|)
    decreases |own| - at
  {
    if at < |own| {
      QuoteEndWithin(lines, own, from, at + 1);
    }
  }

  lemma {:induction false} TableEndWithin(lines: seq<string>, own: seq<string>, from: nat, at: nat)
    requires Stretch(lines, own, from) && at <= |own|
    ensures TableEnd(own, at) + from == Min(TableEnd(lines, from + at), from + |own|)
    decreases |own| - at
  {
    if at < |own| {
      TableEndWithin(lines, own, from, at + 1);
    }
  }

  lemma {:induction false} FilledWithin(lines: seq<string>, own: seq<string>, from: nat, at: nat)
    requires Stretch(lines, own, from) && at <= |own|
    ensures Filled(own, at) + from == Min(Filled(lines, from + at), from + |own|)
    decreases |own| - at
  {
    if at < |own| {
      FilledWithin(lines, own, from, at + 1);
    }
  }

  /** A line of the stretch that starts no block in the whole starts none in the stretch. */
  lemma StartsNoBlockWithin(lines: seq<string>, own: seq<string>, from: nat, at: nat)
    requires Stretch(lines, own, from) && at < |own| && !StartsBlock(lines, from + at)
    ensures !StartsBlock(own, at)
  {
    hide FenceOf, HeadingOf, QuotedOf, IsRule, ItemOf, Cells, AreRuleCells, Has;
    assert own[at] == lines[from + at];
    if at + 1 < |own| {
      assert own[at + 1] == lines[from + at + 1];
    }
  }

  lemma {:induction false} ParagraphWithin(lines: seq<string>, own: seq<string>, from: nat, at: nat)
    requires Stretch(lines, own, from) && at <= |own|
    requires forall i :: from + at <= i < from + |own| ==> !Blank(lines[i]) && !StartsBlock(lines, i)
    ensures ParagraphEnd(own, at) == |own|
    decreases |own| - at
  {
    hide Blank, StartsBlock;
    if at < |own| {
      assert own[at] == lines[from + at];
      StartsNoBlockWithin(lines, own, from, at);
      ParagraphWithin(lines, own, from, at + 1);
    }
  }

  lemma ItemEndSteps(lines: seq<string>, at: nat, indent: nat)
    requires at <= |lines|
    ensures var next := Filled(lines, at);
            ItemEnd(lines, at, indent) ==
            if next < |lines| && IndentOf(lines[next]) > indent then ItemEnd(lines, next + 1, indent) else at
  {
    hide Filled, IndentOf;
  }

  lemma StretchFits(lines: seq<string>, own: seq<string>, from: nat)
    requires Stretch(lines, own, from)
    ensures from + |own| <= |lines|
  {
  }

  /** The next line that is not blank, within the stretch where it is there. */
  lemma FilledLineWithin(lines: seq<string>, own: seq<string>, from: nat, at: nat)
    requires Stretch(lines, own, from) && at <= |own|
    ensures Filled(lines, from + at) < from + |own| ==>
      Filled(own, at) + from == Filled(lines, from + at) && own[Filled(own, at)] == lines[Filled(lines, from + at)]
    ensures Filled(lines, from + at) >= from + |own| ==> Filled(own, at) == |own|
  {
    hide Filled, Blank;
    FilledWithin(lines, own, from, at);
  }

  lemma {:induction false} ItemEndWithin(
    lines: seq<string>, own: seq<string>, from: nat, at: nat, indent: nat)
    requires Stretch(lines, own, from) && at <= |own|
    requires ItemEnd(lines, from + at, indent) <= from + |own|
    ensures ItemEnd(own, at, indent) + from == ItemEnd(lines, from + at, indent)
    decreases |own| - at
  {
    hide *;
    FilledLineWithin(lines, own, from, at);
    ItemEndSteps(lines, from + at, indent);
    ItemEndSteps(own, at, indent);
    StretchFits(lines, own, from);
    var next := Filled(lines, from + at);
    if next < |lines| && IndentOf(lines[next]) > indent {
      ItemEndWithin(lines, own, from, next + 1 - from, indent);
    }
  }

  /** What follows an item in a list, where it is within the stretch the list takes. */
  lemma ItemWithin(
    lines: seq<string>, own: seq<string>, from: nat, at: nat, m: Mark, indent: nat, ordered: bool)
    requires Stretch(lines, own, from) && at < |own|
    requires ListEnd(lines, from + at, indent, ordered) <= from + |own|
    ensures ItemEnd(own, at + 1, indent) + from == ItemEnd(lines, from + at + 1, indent)
    ensures ItemLines(own, at, m, indent) == ItemLines(lines, from + at, m, indent)
    ensures
      var next := Filled(lines, ItemEnd(lines, from + at + 1, indent));
      var mine := Filled(own, ItemEnd(own, at + 1, indent));
      && NextItem(own, mine, indent, ordered) == NextItem(lines, next, indent, ordered)
      && (NextItem(lines, next, indent, ordered).Some? ==> next == mine + from)
  {
    hide Blank, IndentOf, Filled, ItemEnd, ItemOf, Ordered, ItemWords, Outdented;
    var end := ItemEnd(lines, from + at + 1, indent);
    ItemEndWithin(lines, own, from, at + 1, indent);
    FilledWithin(lines, own, from, end - from);
    PartWithin(lines, own, from, at + 1, end - from);
    var next := Filled(lines, end);
    if next < from + |own| {
      assert own[next - from] == lines[next];
    }
  }

  lemma {:induction false} ListEndWithin(
    lines: seq<string>, own: seq<string>, from: nat, at: nat, indent: nat, ordered: bool)
    requires Stretch(lines, own, from) && at < |own|
    requires ListEnd(lines, from + at, indent, ordered) <= from + |own|
    ensures ListEnd(own, at, indent, ordered) + from == ListEnd(lines, from + at, indent, ordered)
    decreases |own| - at
  {
    hide Stretch, Blank, Filled, ItemEnd, NextItem, ItemLines;
    var m := Mark(0, "", "");
    ItemWithin(lines, own, from, at, m, indent, ordered);
    var next := Filled(lines, ItemEnd(lines, from + at + 1, indent));
    if NextItem(lines, next, indent, ordered).Some? {
      ListEndWithin(lines, own, from, next - from, indent, ordered);
    }
  }

  lemma {:induction false} ItemsWithin(
    lines: seq<string>, own: seq<string>, from: nat, at: nat, m: Mark, indent: nat, ordered: bool,
    depth: nat)
    requires Stretch(lines, own, from) && at < |own| && depth < MAX_NESTING
    requires ListEnd(lines, from + at, indent, ordered) <= from + |own|
    ensures ItemsFrom(own, at, m, indent, ordered, depth) ==
            ItemsFrom(lines, from + at, m, indent, ordered, depth)
    decreases |own| - at
  {
    hide Stretch, Blank, Filled, ItemEnd, NextItem, ItemLines, BlocksFrom, ItemWords;
    ItemWithin(lines, own, from, at, m, indent, ordered);
    var next := Filled(lines, ItemEnd(lines, from + at + 1, indent));
    var following := NextItem(lines, next, indent, ordered);
    if following.Some? {
      ItemsWithin(lines, own, from, next - from, following.value, indent, ordered, depth);
    }
  }

  /** A block's own lines, read by themselves, are of its kind. */
  lemma KindAlone(lines: seq<string>, at: nat, own: seq<string>, nests: bool)
    requires at < |lines| && Stretch(lines, own, at) && own != []
    requires KindAt(lines, at, nests).ATable? ==> |own| >= 2
    ensures KindAt(own, 0, nests) == KindAt(lines, at, nests)
  {
    hide FenceOf, HeadingOf, QuotedOf, IsRule, ItemOf, Cells, AreRuleCells, Has;
    assert own[0] == lines[at];
    if |own| >= 2 {
      assert own[1] == lines[at + 1];
    }
  }

  /** A block's own lines, read by themselves, end where it does. */
  lemma EndAlone(lines: seq<string>, at: nat, own: seq<string>, kind: Kind)
    requires at < |lines| && (kind.AFence? ==> kind.marks != "")
    requires kind.ATable? ==> at + 1 < |lines|
    requires kind.AQuote? ==> QuotedOf(lines[at]).Some?
    requires own == lines[at..Min(BlockEnd(lines, at, kind), |lines|)]
    ensures own != [] && Stretch(lines, own, at) && own[0] == lines[at]
    ensures kind.ATable? ==> |own| >= 2
    ensures BlockEnd(own, 0, kind) + at == BlockEnd(lines, at, kind)
  {
    hide FenceEnd, QuoteEnd, QuotedOf, ListEnd, TableEnd, ParagraphEnd, Blank, StartsBlock, Ordered;
    match kind {
      case AFence(marks, _) => FenceEndWithin(lines, own, at, 1, marks);
      case AQuote => QuoteEndWithin(lines, own, at, 0);
      case AList(m) => ListEndWithin(lines, own, at, 0, m.indent, Ordered(m));
      case ATable => TableEndWithin(lines, own, at, 2);
      case AParagraph => ParagraphWithin(lines, own, at, 1);
      case _ =>
    }
  }

  /** A block's own lines, read by themselves, make what they made in the whole. */
  lemma BlockOfAlone(
    lines: seq<string>, at: nat, own: seq<string>, end: nat, kind: Kind, depth: nat)
    requires at < end <= |lines| + 1 && depth <= MAX_NESTING && Stretch(lines, own, at) && own != []
    requires |own| == Min(end, |lines|) - at
    requires end == |lines| + 1 ==> kind.AFence?
    requires kind.AFence? || kind.ATable? ==> at + 2 <= end
    requires kind.AQuote? || kind.AList? ==> depth < MAX_NESTING
    requires kind.AList? ==>
      ListEnd(lines, at, kind.first.indent, Ordered(kind.first)) <= at + |own|
    ensures BlockOf(own, 0, end - at, kind, depth) == BlockOf(lines, at, end, kind, depth)
  {
    hide BlocksFrom, Unquoted, Joined, Rows, Cells, ItemsFrom, ListEnd, Ordered, StartOf;
    match kind {
      case AFence(_, _) => PartWithin(lines, own, at, 1, end - at - 1);
      case AQuote => PartWithin(lines, own, at, 0, end - at);
      case AList(m) => ItemsWithin(lines, own, at, 0, m, m.indent, Ordered(m), depth);
      case ATable => PartWithin(lines, own, at, 2, end - at);
      case AParagraph => PartWithin(lines, own, at, 0, end - at);
      case _ =>
    }
  }

  /** A block's own lines, read by themselves, are one block: it. */
  lemma BlockReadsTheSameAlone(lines: seq<string>, at: nat, depth: nat)
    requires at < |lines| && !Blank(lines[at]) && depth <= MAX_NESTING
    ensures var (block, next) := BlockAt(lines, at, depth);
            BlocksFrom(lines[at..Min(next, |lines|)], 0, depth) == [block]
  {
    hide Blank, FenceOf, HeadingOf, QuotedOf, IsRule, ItemOf, StartsTable, BlockOf, FenceEnd, QuoteEnd;
    hide ListEnd, TableEnd, ParagraphEnd;
    var nests := depth < MAX_NESTING;
    var kind := KindAt(lines, at, nests);
    var (block, next) := BlockAt(lines, at, depth);
    var own := lines[at..Min(next, |lines|)];
    EndAlone(lines, at, own, kind);
    KindAlone(lines, at, own, nests);
    BlockOfAlone(lines, at, own, next, kind, depth);
    assert BlockAt(own, 0, depth) == (block, next - at);
  }

  /** All the blocks of a document, each read again from its own lines at the same depth. */
  lemma BlocksStandAlone(lines: seq<string>, depth: nat, k: nat)
    requires depth <= MAX_NESTING && k < |Extents(lines, 0, depth)|
    ensures |BlocksFrom(lines, 0, depth)| == |Extents(lines, 0, depth)|
    ensures var (from, to) := Extents(lines, 0, depth)[k];
            from < to <= |lines| &&
            BlocksFrom(lines[from..to], 0, depth) == [BlocksFrom(lines, 0, depth)[k]]
  {
    hide BlockAt, BlocksFrom, Extents, Blank;
    EveryLineIsInOneBlock(lines, depth);
    ExtentsAreOfTheBlocks(lines, 0, depth);
    BlockReadsTheSameAlone(lines, Extents(lines, 0, depth)[k].0, depth);
  }

  lemma ParagraphIsItsLines(lines: seq<string>, at: nat, depth: nat)
    requires at < |lines| && depth <= MAX_NESTING && BlockAt(lines, at, depth).0.Paragraph?
    ensures BlockAt(lines, at, depth).1 <= |lines|
    ensures BlockAt(lines, at, depth).0.paragraph == lines[at..BlockAt(lines, at, depth).1]
  {
    hide KindAt, BlockEnd, ItemsFrom, BlocksFrom;
  }

  /** A paragraph's own lines, read again at the same depth, are that same single paragraph. */
  lemma ParagraphReadsBack(lines: seq<string>, depth: nat, k: nat)
    requires depth <= MAX_NESTING && k < |BlocksFrom(lines, 0, depth)|
    requires BlocksFrom(lines, 0, depth)[k].Paragraph?
    ensures BlocksFrom(BlocksFrom(lines, 0, depth)[k].paragraph, 0, depth) ==
            [BlocksFrom(lines, 0, depth)[k]]
  {
    hide BlockAt, BlocksFrom, Extents, Blank;
    ExtentsAreOfTheBlocks(lines, 0, depth);
    var from := Extents(lines, 0, depth)[k].0;
    BlockReadsTheSameAlone(lines, from, depth);
    ParagraphIsItsLines(lines, from, depth);
  }

  // ---------------------------------------------------------------------------------------
  // The page's loops
  // ---------------------------------------------------------------------------------------

  lemma {:induction false} UnquotedAppend(own: seq<string>, line: string)
    requires QuotedOf(line).Some?
    ensures Unquoted(own + [line]) == Unquoted(own) + [QuotedOf(line).value]
  {
    hide QuotedOf;
    if own != [] {
      assert (own + [line])[1..] == own[1..] + [line];
      UnquotedAppend(own[1..], line);
    }
  }

  lemma {:induction false} OutdentedAppend(own: seq<string>, line: string, width: nat)
    ensures Outdented(own + [line], width) ==
            Outdented(own, width) + [line[Min(IndentOf(line), width)..]]
  {
    hide IndentOf;
    if own != [] {
      assert (own + [line])[1..] == own[1..] + [line];
      OutdentedAppend(own[1..], line, width);
    }
  }

  lemma {:induction false} RowsAppend(own: seq<string>, line: string)
    ensures Rows(own + [line]) == Rows(own) + [Cells(line)]
  {
    hide Cells;
    if own != [] {
      assert (own + [line])[1..] == own[1..] + [line];
      RowsAppend(own[1..], line);
    }
  }

  lemma OneLonger(lines: seq<string>, at: nat, next: nat)
    requires at <= next < |lines|
    ensures lines[at..next + 1] == lines[at..next] + [lines[next]]
  {
  }

  method FilledAt(lines: seq<string>, at: nat) returns (next: nat)
    requires at <= |lines|
    ensures next == Filled(lines, at)
  {
    next := at;
    while next < |lines| && Blank(lines[next])
      invariant at <= next <= |lines| && Filled(lines, next) == Filled(lines, at)
    {
      next := next + 1;
    }
  }

  /** Reads what starts at `at` as a block of `kind`. */
  ghost function ReadAs(lines: seq<string>, at: nat, kind: Kind, depth: nat): (Block, nat)
    requires at < |lines| && depth <= MAX_NESTING && (kind.AFence? ==> kind.marks != "")
    requires kind.ATable? ==> at + 1 < |lines|
    requires kind.AQuote? ==> QuotedOf(lines[at]).Some?
    requires kind.AQuote? || kind.AList? ==> depth < MAX_NESTING
  {
    (BlockOf(lines, at, BlockEnd(lines, at, kind), kind, depth), BlockEnd(lines, at, kind))
  }

  method FencedAt(lines: seq<string>, at: nat, depth: nat) returns (r: Option<(Block, nat)>)
    requires at < |lines| && depth <= MAX_NESTING
    ensures var fence := FenceOf(lines[at]);
            if fence.None? then r == None
            else r == Some(ReadAs(lines, at, AFence(fence.value.0, fence.value.1), depth))
  {
    hide ClosesFence, Joined;
    var fence := FenceOf(lines[at]);
    if fence.None? {
      return None;
    }
    hide FenceOf;
    var (marks, lang) := fence.value;
    var end := at + 1;
    while end < |lines| && !ClosesFence(lines[end], marks)
      invariant at < end <= |lines| && FenceEnd(lines, end, marks) == FenceEnd(lines, at + 1, marks)
    {
      end := end + 1;
    }
    r := Some((Fenced(Joined(lines[at + 1..end], "\n"), Lowered(lang)), end + 1));
  }

  method HeadingAt(lines: seq<string>, at: nat, depth: nat) returns (r: Option<(Block, nat)>)
    requires at < |lines| && depth <= MAX_NESTING
    ensures var marks := HeadingOf(lines[at]);
            if marks.None? then r == None
            else r == Some(ReadAs(lines, at, AHeading(marks.value.0, marks.value.1), depth))
  {
    hide HeadingOf;
    var marks := HeadingOf(lines[at]);
    r := if marks.None? then None else Some((Heading(marks.value.1, marks.value.0), at + 1));
  }

  method RuleAt(lines: seq<string>, at: nat, depth: nat) returns (r: Option<(Block, nat)>)
    requires at < |lines| && depth <= MAX_NESTING
    ensures r == if IsRule(lines[at]) then Some(ReadAs(lines, at, ARule, depth)) else None
  {
    hide IsRule;
    r := if IsRule(lines[at]) then Some((Rule, at + 1)) else None;
  }

  method RowsAt(lines: seq<string>, at: nat) returns (rows: seq<seq<string>>, next: nat)
    requires at <= |lines|
    ensures next == TableEnd(lines, at) && rows == Rows(lines[at..next])
  {
    hide Cells, Has;
    rows := [];
    next := at;
    while next < |lines| && Has(lines[next], '|')
      invariant at <= next <= |lines| && TableEnd(lines, next) == TableEnd(lines, at)
      invariant rows == Rows(lines[at..next])
    {
      RowsAppend(lines[at..next], lines[next]);
      OneLonger(lines, at, next);
      rows := rows + [Cells(lines[next])];
      next := next + 1;
    }
  }

  method TableAt(lines: seq<string>, at: nat, depth: nat) returns (r: Option<(Block, nat)>)
    requires at < |lines| && depth <= MAX_NESTING
    ensures if !StartsTable(lines, at) then r == None
            else r == Some(ReadAs(lines, at, ATable, depth))
  {
    hide Cells, Has, AreRuleCells, Rows, TableEnd;
    if !StartsTable(lines, at) {
      return None;
    }
    var rows, next := RowsAt(lines, at + 2);
    r := Some((Table([Cells(lines[at])] + rows), next));
  }

  method ParagraphAt(lines: seq<string>, at: nat, depth: nat) returns (r: (Block, nat))
    requires at < |lines| && depth <= MAX_NESTING
    ensures r == ReadAs(lines, at, AParagraph, depth)
  {
    hide Blank, StartsBlock;
    var own := [lines[at]];
    var next := at + 1;
    while next < |lines| && !Blank(lines[next]) && !StartsBlock(lines, next)
      invariant at < next <= |lines| && ParagraphEnd(lines, next) == ParagraphEnd(lines, at + 1)
      invariant own == lines[at..next]
    {
      own := own + [lines[next]];
      next := next + 1;
    }
    r := (Paragraph(own), next);
  }

  /** The lines of the quote at `at` without their marks, and the line after them. */
  method QuotedAt(lines: seq<string>, at: nat) returns (own: seq<string>, next: nat)
    requires at <= |lines|
    ensures next == QuoteEnd(lines, at) && own == Unquoted(lines[at..next])
  {
    hide QuotedOf;
    own := [];
    next := at;
    while next < |lines| && QuotedOf(lines[next]).Some?
      invariant at <= next <= |lines| && QuoteEnd(lines, next) == QuoteEnd(lines, at)
      invariant own == Unquoted(lines[at..next])
    {
      UnquotedAppend(lines[at..next], lines[next]);
      OneLonger(lines, at, next);
      own := own + [QuotedOf(lines[next]).value];
      next := next + 1;
    }
  }

  method QuoteAt(lines: seq<string>, at: nat, depth: nat) returns (r: Option<(Block, nat)>)
    requires at < |lines| && depth < MAX_NESTING
    ensures if QuotedOf(lines[at]).None? then r == None
            else r == Some(ReadAs(lines, at, AQuote, depth))
    decreases MAX_NESTING - depth, 1
  {
    hide QuotedOf, Unquoted;
    var own, next := QuotedAt(lines, at);
    if own == [] {
      return None;
    }
    var quote := BlocksIn(own, depth + 1);
    r := Some((Quote(quote), next));
  }

  /** Lines that lose their indent, to the one at `last`. */
  method OutdentedTo(lines: seq<string>, at: nat, last: nat, width: nat) returns (own: seq<string>)
    requires at <= last < |lines|
    ensures own == Outdented(lines[at..last + 1], width)
  {
    hide IndentOf, Outdented;
    own := [];
    var end := at;
    assert Outdented([], width) == [];
    while end <= last
      invariant at <= end <= last + 1
      invariant own == Outdented(lines[at..end], width)
    {
      OutdentedAppend(lines[at..end], lines[end], width);
      OneLonger(lines, at, end);
      own := own + [lines[end][Min(IndentOf(lines[end]), width)..]];
      end := end + 1;
    }
  }

  lemma {:induction false} OutdentedJoin(first: seq<string>, rest: seq<string>, width: nat)
    ensures Outdented(first + rest, width) == Outdented(first, width) + Outdented(rest, width)
  {
    hide IndentOf;
    if first == [] {
      assert first + rest == rest;
    } else {
      assert (first + rest)[1..] == first[1..] + rest;
      OutdentedJoin(first[1..], rest, width);
    }
  }

  /** The lines under an item, from `at` on: where they end, and the next line that is not blank. */
  method LinesUnder(lines: seq<string>, at: nat, indent: nat, width: nat)
    returns (own: seq<string>, end: nat, next: nat)
    requires at <= |lines|
    ensures end == ItemEnd(lines, at, indent) && next == Filled(lines, end)
    ensures own == Outdented(lines[at..end], width)
  {
    hide Blank, IndentOf, Filled, Outdented;
    own := [];
    assert Outdented([], width) == [];
    end := at;
    next := FilledAt(lines, end);
    while next < |lines| && IndentOf(lines[next]) > indent
      invariant at <= end <= |lines| && next == Filled(lines, end)
      invariant ItemEnd(lines, end, indent) == ItemEnd(lines, at, indent)
      invariant own == Outdented(lines[at..end], width)
      decreases |lines| - end
    {
      var more := OutdentedTo(lines, end, next, width);
      OutdentedJoin(lines[at..end], lines[end..next + 1], width);
      assert lines[at..next + 1] == lines[at..end] + lines[end..next + 1];
      own := own + more;
      end := next + 1;
      next := FilledAt(lines, end);
    }
  }

  /** A list is its first item, and the list from the next one where there is one. */
  lemma ListSteps(
    lines: seq<string>, at: nat, m: Mark, indent: nat, ordered: bool, depth: nat)
    requires at < |lines| && depth < MAX_NESTING
    ensures
      var end := ItemEnd(lines, at + 1, indent);
      var next := Filled(lines, end);
      var following := NextItem(lines, next, indent, ordered);
      var item := Item(BlocksFrom(ItemLines(lines, at, m, indent), 0, depth + 1), ItemWords(m).1);
      && ListEnd(lines, at, indent, ordered) ==
         (if following.None? then end else ListEnd(lines, next, indent, ordered))
      && ItemsFrom(lines, at, m, indent, ordered, depth) ==
         [item] + if following.None? then []
                  else ItemsFrom(lines, next, following.value, indent, ordered, depth)
  {
    hide ItemEnd, Filled, NextItem, ItemLines, ItemWords, BlocksFrom;
  }

  /** The items of the list whose first is at `at`, and the line after the list. */
  method ItemsAt(
    lines: seq<string>, at: nat, first: Mark, indent: nat, ordered: bool, depth: nat)
    returns (items: seq<Item>, end: nat)
    requires at < |lines| && depth < MAX_NESTING
    ensures items == ItemsFrom(lines, at, first, indent, ordered, depth)
    ensures end == ListEnd(lines, at, indent, ordered)
    decreases MAX_NESTING - depth, 0
  {
    hide NextItem, Filled, ItemEnd, Outdented, ItemWords, BlocksFrom, ItemsFrom, ListEnd;
    items := [];
    var here, item, going := at, first, true;
    while going
      invariant at <= here <= |lines| && (going ==> here < |lines|)
      invariant going ==>
        items + ItemsFrom(lines, here, item, indent, ordered, depth)
        == ItemsFrom(lines, at, first, indent, ordered, depth)
      invariant !going ==> items == ItemsFrom(lines, at, first, indent, ordered, depth)
      invariant ListEnd(lines, at, indent, ordered) ==
                if going then ListEnd(lines, here, indent, ordered) else here
      decreases going, |lines| - here
    {
      ListSteps(lines, here, item, indent, ordered, depth);
      var own, after, next := LinesUnder(lines, here + 1, indent, item.indent + |item.mark| + 1);
      var parts := BlocksIn([ItemWords(item).0] + own, depth + 1);
      items := items + [Item(parts, ItemWords(item).1)];
      var following := NextItem(lines, next, indent, ordered);
      if following.None? {
        here, going := after, false;
      } else {
        here, item := next, following.value;
      }
    }
    end := here;
  }

  method ListAt(lines: seq<string>, at: nat, depth: nat) returns (r: Option<(Block, nat)>)
    requires at < |lines| && depth < MAX_NESTING
    ensures var first := ItemOf(lines[at]);
            if first.None? then r == None
            else r == Some(ReadAs(lines, at, AList(first.value), depth))
    decreases MAX_NESTING - depth, 1
  {
    hide ItemOf, Ordered, StartOf, ListEnd, ItemsFrom;
    var mark := ItemOf(lines[at]);
    if mark.None? {
      return None;
    }
    var first := mark.value;
    var items, end := ItemsAt(lines, at, first, first.indent, Ordered(first), depth);
    r := Some((List(items, Ordered(first), StartOf(first)), end));
  }

  method BlocksIn(lines: seq<string>, depth: nat) returns (found: seq<Block>)
    requires depth <= MAX_NESTING
    ensures found == BlocksFrom(lines, 0, depth)
    decreases MAX_NESTING - depth, 3
  {
    hide BlockAt, Blank;
    found := [];
    var at := 0;
    while at < |lines|
      invariant found + BlocksFrom(lines, at, depth) == BlocksFrom(lines, 0, depth)
    {
      if Blank(lines[at]) {
        at := at + 1;
        continue;
      }
      var read := ReadAt(lines, at, depth);
      assert BlocksFrom(lines, at, depth) == [read.0] + BlocksFrom(lines, read.1, depth);
      found := found + [read.0];
      at := read.1;
    }
  }

  /** Each kind of block tried in turn at a line that is not blank. */
  method ReadAt(lines: seq<string>, at: nat, depth: nat) returns (r: (Block, nat))
    requires at < |lines| && depth <= MAX_NESTING
    ensures r == BlockAt(lines, at, depth)
    decreases MAX_NESTING - depth, 2
  {
    hide FenceOf, HeadingOf, QuotedOf, IsRule, ItemOf, StartsTable, Blank, BlockOf, BlockEnd;
    var read := FencedAt(lines, at, depth);
    if read.None? {
      read := HeadingAt(lines, at, depth);
    }
    if read.None? && depth < MAX_NESTING {
      read := QuoteAt(lines, at, depth);
    }
    if read.None? {
      read := RuleAt(lines, at, depth);
    }
    if read.None? && depth < MAX_NESTING {
      read := ListAt(lines, at, depth);
    }
    if read.None? {
      read := TableAt(lines, at, depth);
    }
    if read.Some? {
      return read.value;
    }
    r := ParagraphAt(lines, at, depth);
  }
}
