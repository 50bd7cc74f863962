/**
 Lists as they are written (app/ui/core/markdown.js): each item is read back with its box and with what is
 written in it and under it, indented past its mark; and the list ends where it was written to.
 */
module ListsReadBack {
  import opened Prelude
  import opened Characters
  import opened Parts
  import opened MarkdownBlocks
  import opened LinePatterns
  import opened BlocksReadBack

  /** An item: its mark, the box of a task, its words, the lines under it, and blank lines after those. */
  datatype Written = Written(mark: string, box: Option<char>, words: string, under: seq<string>, after: seq<string>)

  function BoxAndWords(w: Written): string {
    if w.box.None? then w.words else "[" + [w.box.value] + "]" + (" " + w.words)
  }

  /** The first line of an item of a list indented by `indent`. */
  function FirstLine(w: Written, indent: nat): string {
    Times(' ', indent) + (w.mark + (" " + BoxAndWords(w)))
  }

  function Indented(ls: seq<string>, width: nat): (indented: seq<string>)
    ensures |indented| == |ls| && forall i :: 0 <= i < |ls| ==> indented[i] == Times(' ', width) + ls[i]
  {
    if ls == [] then [] else [Times(' ', width) + ls[0]] + Indented(ls[1..], width)
  }

  /** The lines of an item: those under it are indented past its mark. */
  function LinesOf(w: Written, indent: nat): seq<string> {
    [FirstLine(w, indent)] + Indented(w.under, indent + |w.mark| + 1) + w.after
  }

  function ListLines(items: seq<Written>, indent: nat): seq<string> {
    if items == [] then [] else LinesOf(items[0], indent) + ListLines(items[1..], indent)
  }

  /** What an item is read as: its words and the lines under it, as blocks of their own. */
  function ItemOfWritten(w: Written, depth: nat): Item
    requires depth < MAX_NESTING
  {
    Item(BlocksFrom([w.words] + w.under, 0, depth + 1), if w.box.None? then None else Some(w.box.value != ' '))
  }

  function ItemsOfWritten(items: seq<Written>, depth: nat): seq<Item>
    requires depth < MAX_NESTING
  {
    if items == [] then [] else [ItemOfWritten(items[0], depth)] + ItemsOfWritten(items[1..], depth)
  }

  predicate IsBoxed(words: string, box: char, rest: string) {
    && (box == ' ' || box == 'x' || box == 'X') && words == "[" + [box] + "]" + rest
    && (rest != "" ==> IsSpace(rest[0]))
  }

  /** Words that start with a box. */
  ghost predicate IsTask(words: string) {
    exists box, rest :: IsBoxed(words, box, rest)
  }

  predicate AllBlank(ls: seq<string>) {
    forall i :: 0 <= i < |ls| ==> IsBlank(ls[i])
  }

  ghost predicate IsWritten(w: Written, indent: nat, ordered: bool) {
    && IsItemMark(w.mark) && (|w.mark| >= 2 <==> ordered)
    && InLine(w.words) && (w.words != "" ==> !IsSpace(w.words[0]))
    && (w.box.Some? ==> w.box.value == ' ' || w.box.value == 'x' || w.box.value == 'X')
    && (w.box.None? ==> !IsTask(w.words))
    && (w.under != [] ==> !IsBlank(w.under[|w.under| - 1])) && AllBlank(w.after)
    && !IsRuleLine(FirstLine(w, indent))
  }

  ghost predicate AreWritten(items: seq<Written>, indent: nat, ordered: bool) {
    forall i :: 0 <= i < |items| ==> IsWritten(items[i], indent, ordered)
  }

  // ---------------------------------------------------------------------------------------
  // The first line of an item
  // ---------------------------------------------------------------------------------------

  lemma SpacesAreBlank(n: nat)
    ensures IsBlank(Times(' ', n))
  {
  }

  lemma TaskMeans(words: string)
    ensures TaskOf(words).Some? <==> IsTask(words)
  {
    hide IsSpace;
    if TaskOf(words).Some? {
      var box, rest := words[1], words[3..];
      assert words == "[" + [box] + "]" + rest && (rest != "" ==> rest[0] == words[3]);
      assert IsBoxed(words, box, rest);
    }
    if IsTask(words) {
      var box, rest :| IsBoxed(words, box, rest);
      assert words[0] == '[' && words[1] == box && words[2] == ']' && (rest != "" ==> words[3] == rest[0]);
    }
  }

  /** The box of an item and its words are read apart. */
  lemma WordsOfItem(w: Written, indent: nat, ordered: bool)
    requires IsWritten(w, indent, ordered)
    ensures ItemWords(Mark(indent, w.mark, BoxAndWords(w))) ==
            (w.words, if w.box.None? then None else Some(w.box.value != ' '))
    ensures InLine(BoxAndWords(w)) && (BoxAndWords(w) != "" ==> !IsSpace(BoxAndWords(w)[0]))
  {
    hide IsItemMark, IsRuleLine, IsSpace, TaskOf, IsTask, FirstLine;
    if w.box.None? {
      TaskMeans(w.words);
    } else {
      BoxIsRead(w.box.value, w.words);
    }
  }

  lemma BoxIsRead(box: char, words: string)
    requires (box == ' ' || box == 'x' || box == 'X') && InLine(words) && (words != "" ==> !IsSpace(words[0]))
    ensures var all := "[" + [box] + "]" + (" " + words);
            TaskOf(all) == Some((box != ' ', words)) && InLine(all) && all != "" && !IsSpace(all[0])
  {
    assert IsBlank(" ");
    TaskIsRead(box, " ", words);
    var all := "[" + [box] + "]" + (" " + words);
    assert forall i :: 4 <= i < |all| ==> all[i] == words[i - 4];
    hide TaskOf;
  }

  lemma ItemIsFound(w: Written, indent: nat, ordered: bool)
    requires IsWritten(w, indent, ordered)
    ensures ItemOf(FirstLine(w, indent)) == Some(Mark(indent, w.mark, BoxAndWords(w)))
  {
    WordsOfItem(w, indent, ordered);
    SpacesAreBlank(indent);
    assert IsBlank(" ");
    hide IsBlank, IsItemMark, InLine, BoxAndWords, IsRuleLine, Times;
    ItemIsRead(Times(' ', indent), w.mark, " ", BoxAndWords(w));
  }

  /** An item's line starts no fence, heading or quote, is no rule and is not blank. */
  lemma ItemIsNothingElse(w: Written, indent: nat, ordered: bool)
    requires IsWritten(w, indent, ordered)
    ensures var line := FirstLine(w, indent);
            && FenceOf(line).None? && HeadingOf(line).None? && QuotedOf(line).None? && !IsRule(line)
            && !Blank(line) && IndentOf(line) == indent
  {
    var line := FirstLine(w, indent);
    ItemIsFound(w, indent, ordered);
    MarksOfALine(line);
    RuleLineMeans(line);
    IndentOfItem(line);
    hide FenceOf, HeadingOf, QuotedOf, IsRule, IsRuleLine, FirstLine, BoxAndWords, IsItemMark, IsTask;
  }

  lemma IndentOfItem(line: string)
    requires ItemOf(line).Some?
    ensures IndentOf(line) == ItemOf(line).value.indent && !Blank(line)
  {
    hide IsSpace, HasLineEnd;
  }

  // ---------------------------------------------------------------------------------------
  // The lines of an item
  // ---------------------------------------------------------------------------------------

  lemma {:induction false} FilledIs(lines: seq<string>, at: nat, end: nat)
    requires at <= end <= |lines| && (forall i :: at <= i < end ==> Blank(lines[i]))
    requires end < |lines| ==> !Blank(lines[end])
    ensures Filled(lines, at) == end
    decreases end - at
  {
    hide Blank;
    if at < end {
      FilledIs(lines, at + 1, end);
    }
  }

  /**
   The lines of an item end with the last that is indented past its mark; after blank ones comes one that is
   not, or nothing.
   */
  lemma {:induction false} ItemEndIs(lines: seq<string>, at: nat, indent: nat, end: nat, next: nat)
    requires at <= end <= next <= |lines|
    requires forall i :: at <= i < end ==> Blank(lines[i]) || IndentOf(lines[i]) > indent
    requires at < end ==> !Blank(lines[end - 1])
    requires (forall i :: end <= i < next ==> Blank(lines[i]))
    requires next < |lines| ==> !Blank(lines[next]) && IndentOf(lines[next]) <= indent
    ensures ItemEnd(lines, at, indent) == end && Filled(lines, end) == next
    decreases end - at
  {
    hide Blank, IndentOf;
    FilledIs(lines, end, next);
    ItemEndSteps(lines, at, indent);
    if at < end {
      var first := Filled(lines, at);
      FilledBy(lines, at, end - 1);
      ItemEndIs(lines, first + 1, indent, end, next);
    }
  }

  lemma FilledBy(lines: seq<string>, at: nat, last: nat)
    requires at <= last < |lines| && !Blank(lines[last])
    ensures at <= Filled(lines, at) <= last
  {
    hide Blank;
  }

  /** Lines that were indented lose just that. */
  lemma {:induction false} OutdentedIs(lines: seq<string>, ls: seq<string>, width: nat)
    requires |lines| == |ls| && forall i :: 0 <= i < |ls| ==> lines[i] == Times(' ', width) + ls[i]
    ensures Outdented(lines, width) == ls
  {
    hide IndentOf, Times;
    if ls != [] {
      IndentAtLeast(ls[0], width);
      assert (Times(' ', width) + ls[0])[width..] == ls[0];
      OutdentedIs(lines[1..], ls[1..], width);
      assert ls == [ls[0]] + ls[1..];
    }
  }

  lemma IndentAtLeast(line: string, width: nat)
    ensures IndentOf(Times(' ', width) + line) >= width
    ensures Blank(Times(' ', width) + line) <==> IsBlank(line)
  {
    var all := Times(' ', width) + line;
    assert IsSpace(' ');
    IndentMeans(all);
    BlankMeans(all);
    assert forall i :: 0 <= i < width ==> all[i] == ' ';
    assert forall i :: 0 <= i < |line| ==> all[width + i] == line[i];
    hide IsSpace, IndentOf, Blank;
  }

  /** What stands after an item: blank lines, and then nothing or a line that is no deeper. */
  predicate EndsItem(tail: seq<string>, blanks: nat, indent: nat) {
    && blanks <= |tail| && (forall i :: 0 <= i < blanks ==> IsBlank(tail[i]))
    && (blanks < |tail| ==> !Blank(tail[blanks]) && IndentOf(tail[blanks]) <= indent)
  }

  /** The parts of a document from an item on. */
  lemma PartsOfItem(lines: seq<string>, at: nat, w: Written, indent: nat, tail: seq<string>)
    requires at <= |lines| && lines[at..] == LinesOf(w, indent) + tail
    ensures var width := indent + |w.mark| + 1;
            var end := at + 1 + |w.under|;
            && end + |w.after| + |tail| == |lines| && lines[at] == FirstLine(w, indent)
            && (forall i :: 0 <= i < |w.under| ==> lines[at + 1 + i] == Times(' ', width) + w.under[i])
            && (forall i :: 0 <= i < |w.after| ==> lines[end + i] == w.after[i])
            && (forall i :: 0 <= i < |tail| ==> lines[end + |w.after| + i] == tail[i])
            && lines[end + |w.after|..] == tail
  {
    hide FirstLine, Times;
    var width, own := indent + |w.mark| + 1, lines[at..];
    var under, end := Indented(w.under, width), at + 1 + |w.under|;
    assert own == [FirstLine(w, indent)] + under + w.after + tail;
    assert lines[at] == own[0];
    forall i | 0 <= i < |w.under| ensures lines[at + 1 + i] == Times(' ', width) + w.under[i] {
      assert lines[at + 1 + i] == own[1 + i] == under[i];
    }
    forall i | 0 <= i < |w.after| ensures lines[end + i] == w.after[i] {
      assert lines[end + i] == own[1 + |w.under| + i];
    }
    forall i | 0 <= i < |tail| ensures lines[end + |w.after| + i] == tail[i] {
      assert lines[end + |w.after| + i] == own[1 + |w.under| + |w.after| + i];
    }
  }

  lemma ItemEnds(lines: seq<string>, at: nat, w: Written, indent: nat, ordered: bool, tail: seq<string>, blanks: nat)
    requires at < |lines| && lines[at..] == LinesOf(w, indent) + tail
    requires IsWritten(w, indent, ordered) && EndsItem(tail, blanks, indent)
    ensures var end := at + 1 + |w.under|;
            && end + |w.after| + |tail| == |lines|
            && ItemEnd(lines, at + 1, indent) == end && Filled(lines, end) == end + |w.after| + blanks
  {
    hide Blank, IndentOf, IsBlank, Times, FirstLine, LinesOf, IsItemMark, IsTask, IsRuleLine, BoxAndWords;
    PartsOfItem(lines, at, w, indent, tail);
    var end, next, width := at + 1 + |w.under|, at + 1 + |w.under| + |w.after| + blanks, indent + |w.mark| + 1;
    forall i | at + 1 <= i < end ensures IndentOf(lines[i]) > indent {
      assert lines[i] == lines[at + 1 + (i - at - 1)];
      IndentAtLeast(w.under[i - at - 1], width);
    }
    if w.under != [] {
      assert lines[end - 1] == lines[at + 1 + (|w.under| - 1)];
      IndentAtLeast(w.under[|w.under| - 1], width);
    }
    forall i | end <= i < next ensures Blank(lines[i]) {
      BlankAfter(lines, end, w.after, tail, blanks, i);
    }
    assert next < |lines| ==> lines[next] == tail[blanks];
    ItemEndIs(lines, at + 1, indent, end, next);
  }

  lemma BlankAfter(lines: seq<string>, end: nat, after: seq<string>, tail: seq<string>, blanks: nat, i: nat)
    requires end + |after| + |tail| == |lines| && AllBlank(after) && blanks <= |tail|
    requires forall i :: 0 <= i < |after| ==> lines[end + i] == after[i]
    requires forall i :: 0 <= i < |tail| ==> lines[end + |after| + i] == tail[i]
    requires (forall i :: 0 <= i < blanks ==> IsBlank(tail[i])) && end <= i < end + |after| + blanks
    ensures Blank(lines[i])
  {
    hide IsBlank, Blank;
    var k := i - end;
    if k < |after| {
      assert lines[i] == lines[end + k] == after[k];
    } else {
      assert lines[i] == lines[end + |after| + (k - |after|)] == tail[k - |after|];
    }
    BlankMeans(lines[i]);
  }

  /** The lines of an item, its mark and indent taken off. */
  lemma LinesOfItem(lines: seq<string>, at: nat, w: Written, indent: nat, ordered: bool, tail: seq<string>, blanks: nat)
    requires at < |lines| && lines[at..] == LinesOf(w, indent) + tail
    requires IsWritten(w, indent, ordered) && EndsItem(tail, blanks, indent)
    ensures ItemLines(lines, at, Mark(indent, w.mark, BoxAndWords(w)), indent) == [w.words] + w.under
  {
    hide Times, FirstLine, LinesOf, IsWritten, EndsItem, ItemWords, ItemEnd, BoxAndWords, Filled;
    ItemEnds(lines, at, w, indent, ordered, tail, blanks);
    WordsOfItem(w, indent, ordered);
    PartsOfItem(lines, at, w, indent, tail);
    var end, width := at + 1 + |w.under|, indent + |w.mark| + 1;
    var own := lines[at + 1..end];
    forall i | 0 <= i < |w.under| ensures own[i] == Times(' ', width) + w.under[i] {
      assert own[i] == lines[at + 1 + i];
    }
    OutdentedIs(own, w.under, width);
  }

  // ---------------------------------------------------------------------------------------
  // The items of a list
  // ---------------------------------------------------------------------------------------

  /** An item's line of the same kind of list. */
  ghost predicate IsItemOf(line: string, ordered: bool) {
    exists indent, mark, gap, words ::
      && IsBlank(indent) && IsItemMark(mark) && (|mark| >= 2 <==> ordered) && IsBlank(gap) && gap != ""
      && InLine(words) && line == indent + (mark + (gap + words))
  }

  /**
   What ends a list: blank lines, and then nothing or a line no deeper that is no item of its kind, or stands
   further out.
   */
  ghost predicate EndsList(more: seq<string>, blanks: nat, indent: nat, ordered: bool) {
    && EndsItem(more, blanks, indent)
    && (blanks < |more| ==> IndentOf(more[blanks]) < indent || !IsItemOf(more[blanks], ordered))
  }

  lemma NoItemOf(line: string, ordered: bool)
    requires !IsItemOf(line, ordered) && ItemOf(line).Some?
    ensures Ordered(ItemOf(line).value) != ordered
  {
    hide ItemOf, Ordered, IsBlank, IsItemMark, InLine;
    ItemIsWritten(line);
    OrderedMeans(ItemOf(line).value);
  }

  lemma NothingFollows(lines: seq<string>, next: nat, indent: nat, ordered: bool)
    requires next < |lines| ==> IndentOf(lines[next]) < indent || !IsItemOf(lines[next], ordered)
    ensures NextItem(lines, next, indent, ordered).None?
  {
    hide ItemOf, Ordered, IsItemOf;
    if next < |lines| && ItemOf(lines[next]).Some? {
      IndentOfItem(lines[next]);
      if IndentOf(lines[next]) >= indent {
        NoItemOf(lines[next], ordered);
      }
    }
  }

  lemma OneFollows(lines: seq<string>, next: nat, w: Written, indent: nat, ordered: bool)
    requires next < |lines| && lines[next] == FirstLine(w, indent) && IsWritten(w, indent, ordered)
    ensures NextItem(lines, next, indent, ordered) == Some(Mark(indent, w.mark, BoxAndWords(w)))
  {
    hide ItemOf, Ordered, IsItemMark, IsTask, IsRuleLine, FirstLine, BoxAndWords;
    ItemIsFound(w, indent, ordered);
    OrderedMeans(Mark(indent, w.mark, BoxAndWords(w)));
  }

  lemma ItemsStep(lines: seq<string>, at: nat, m: Mark, indent: nat, ordered: bool, depth: nat, next: nat)
    requires at < |lines| && depth < MAX_NESTING && Filled(lines, ItemEnd(lines, at + 1, indent)) == next
    ensures var item := Item(BlocksFrom(ItemLines(lines, at, m, indent), 0, depth + 1), ItemWords(m).1);
            var following := NextItem(lines, next, indent, ordered);
            && (following.None? ==>
                  && ItemsFrom(lines, at, m, indent, ordered, depth) == [item]
                  && ListEnd(lines, at, indent, ordered) == ItemEnd(lines, at + 1, indent))
            && (following.Some? ==>
                  && next < |lines|
                  && ItemsFrom(lines, at, m, indent, ordered, depth)
                     == [item] + ItemsFrom(lines, next, following.value, indent, ordered, depth)
                  && ListEnd(lines, at, indent, ordered) == ListEnd(lines, next, indent, ordered))
  {
    hide Filled, ItemEnd, NextItem, ItemLines, ItemWords, BlocksFrom;
    if NextItem(lines, next, indent, ordered).Some? {
      NextIsThere(lines, next, indent, ordered);
    }
  }

  lemma NextIsThere(lines: seq<string>, next: nat, indent: nat, ordered: bool)
    requires NextItem(lines, next, indent, ordered).Some?
    ensures next < |lines|
  {
  }

  lemma FirstOfList(items: seq<Written>, indent: nat, ordered: bool, more: seq<string>)
    requires items != [] && AreWritten(items, indent, ordered)
    ensures EndsItem(ListLines(items, indent) + more, 0, indent)
    ensures (ListLines(items, indent) + more)[0] == FirstLine(items[0], indent)
  {
    ItemIsNothingElse(items[0], indent, ordered);
    hide FirstLine, Blank, IndentOf, IsWritten, IsBlank;
    var tail := ListLines(items, indent) + more;
    assert tail[0] == LinesOf(items[0], indent)[0] == FirstLine(items[0], indent);
  }

  lemma RestOfList(items: seq<Written>, indent: nat, more: seq<string>)
    requires items != []
    ensures ListLines(items, indent) + more ==
            LinesOf(items[0], indent) + (ListLines(items[1..], indent) + more)
  {
    hide LinesOf;
  }

  lemma AreWrittenRest(items: seq<Written>, indent: nat, ordered: bool)
    requires items != [] && AreWritten(items, indent, ordered)
    ensures IsWritten(items[0], indent, ordered) && AreWritten(items[1..], indent, ordered)
  {
    hide IsWritten;
  }

  /** The items of a list from one on are read as they are written, and the list ends after the last. */
  lemma {:induction false} ItemsAreRead(
    lines: seq<string>, at: nat, items: seq<Written>, indent: nat, ordered: bool, depth: nat,
    more: seq<string>, blanks: nat)
    requires at < |lines| && depth < MAX_NESTING && items != [] && AreWritten(items, indent, ordered)
    requires lines[at..] == ListLines(items, indent) + more && EndsList(more, blanks, indent, ordered)
    requires items[|items| - 1].after == []
    ensures var m := Mark(indent, items[0].mark, BoxAndWords(items[0]));
            ItemsFrom(lines, at, m, indent, ordered, depth) == ItemsOfWritten(items, depth)
    ensures ListEnd(lines, at, indent, ordered) + |more| == |lines|
    decreases |items|
  {
    hide *;
    var w := items[0];
    var m := Mark(indent, w.mark, BoxAndWords(w));
    RestOfList(items, indent, more);
    AreWrittenRest(items, indent, ordered);
    if |items| == 1 {
      OneItem(items, indent, more, depth);
      LastItemIsRead(lines, at, w, indent, ordered, depth, more, blanks);
    } else {
      var next := FirstItemIsRead(lines, at, items, indent, ordered, depth, more);
      ItemsAreRead(lines, next, items[1..], indent, ordered, depth, more, blanks);
      MoreItems(items, depth);
    }
  }

  lemma OneItem(items: seq<Written>, indent: nat, more: seq<string>, depth: nat)
    requires |items| == 1 && depth < MAX_NESTING
    ensures ListLines(items[1..], indent) + more == more
    ensures ItemsOfWritten(items, depth) == [ItemOfWritten(items[0], depth)]
  {
    assert items[1..] == [];
    hide ItemOfWritten;
  }

  lemma MoreItems(items: seq<Written>, depth: nat)
    requires items != [] && depth < MAX_NESTING
    ensures ItemsOfWritten(items, depth) == [ItemOfWritten(items[0], depth)] + ItemsOfWritten(items[1..], depth)
  {
    hide ItemOfWritten;
  }

  lemma OneItemIsRead(
    lines: seq<string>, at: nat, w: Written, indent: nat, ordered: bool, depth: nat, tail: seq<string>, blanks: nat)
    requires at < |lines| && depth < MAX_NESTING && lines[at..] == LinesOf(w, indent) + tail
    requires IsWritten(w, indent, ordered) && EndsItem(tail, blanks, indent)
    ensures var m := Mark(indent, w.mark, BoxAndWords(w));
            Item(BlocksFrom(ItemLines(lines, at, m, indent), 0, depth + 1), ItemWords(m).1) == ItemOfWritten(w, depth)
  {
    hide ItemLines, ItemWords, BlocksFrom, LinesOf, EndsItem, IsWritten, BoxAndWords;
    LinesOfItem(lines, at, w, indent, ordered, tail, blanks);
    WordsOfItem(w, indent, ordered);
  }

  lemma LastItemIsRead(
    lines: seq<string>, at: nat, w: Written, indent: nat, ordered: bool, depth: nat, more: seq<string>, blanks: nat)
    requires at < |lines| && depth < MAX_NESTING && w.after == [] && lines[at..] == LinesOf(w, indent) + more
    requires IsWritten(w, indent, ordered) && EndsList(more, blanks, indent, ordered)
    ensures ItemsFrom(lines, at, Mark(indent, w.mark, BoxAndWords(w)), indent, ordered, depth) == [ItemOfWritten(w, depth)]
    ensures ListEnd(lines, at, indent, ordered) + |more| == |lines|
  {
    hide *;
    ListEndsItem(more, blanks, indent, ordered);
    var m := Mark(indent, w.mark, BoxAndWords(w));
    ItemEnds(lines, at, w, indent, ordered, more, blanks);
    OneItemIsRead(lines, at, w, indent, ordered, depth, more, blanks);
    var end := at + 1 + |w.under|;
    EndOfItem(lines, at, w, indent, more, blanks);
    NothingFollows(lines, end + blanks, indent, ordered);
    ItemsStep(lines, at, m, indent, ordered, depth, end + blanks);
  }

  lemma ListEndsItem(more: seq<string>, blanks: nat, indent: nat, ordered: bool)
    requires EndsList(more, blanks, indent, ordered)
    ensures EndsItem(more, blanks, indent) && blanks <= |more|
    ensures blanks < |more| ==> IndentOf(more[blanks]) < indent || !IsItemOf(more[blanks], ordered)
  {
    hide IsItemOf;
  }

  lemma EndOfItem(lines: seq<string>, at: nat, w: Written, indent: nat, tail: seq<string>, blanks: nat)
    requires at < |lines| && lines[at..] == LinesOf(w, indent) + tail && blanks <= |tail|
    ensures var next := at + 1 + |w.under| + |w.after| + blanks;
            && next <= |lines| && (next < |lines| <==> blanks < |tail|) && (next < |lines| ==> lines[next] == tail[blanks])
            && lines[at + 1 + |w.under| + |w.after|..] == tail
  {
    hide LinesOf;
    PartsOfItem(lines, at, w, indent, tail);
  }

  lemma FirstItemIsRead(
    lines: seq<string>, at: nat, items: seq<Written>, indent: nat, ordered: bool, depth: nat, more: seq<string>)
    returns (next: nat)
    requires at < |lines| && depth < MAX_NESTING && |items| >= 2 && AreWritten(items, indent, ordered)
    requires lines[at..] == LinesOf(items[0], indent) + (ListLines(items[1..], indent) + more)
    ensures next < |lines| && lines[next..] == ListLines(items[1..], indent) + more
    ensures var (m, n) := (Mark(indent, items[0].mark, BoxAndWords(items[0])),
                           Mark(indent, items[1].mark, BoxAndWords(items[1])));
            ItemsFrom(lines, at, m, indent, ordered, depth) ==
            [ItemOfWritten(items[0], depth)] + ItemsFrom(lines, next, n, indent, ordered, depth)
    ensures ListEnd(lines, at, indent, ordered) == ListEnd(lines, next, indent, ordered)
  {
    hide *;
    var w, tail := items[0], ListLines(items[1..], indent) + more;
    var m := Mark(indent, w.mark, BoxAndWords(w));
    AreWrittenRest(items, indent, ordered);
    AreWrittenRest(items[1..], indent, ordered);
    FirstOfList(items[1..], indent, ordered, more);
    ItemEnds(lines, at, w, indent, ordered, tail, 0);
    OneItemIsRead(lines, at, w, indent, ordered, depth, tail, 0);
    EndOfItem(lines, at, w, indent, tail, 0);
    next := at + 1 + |w.under| + |w.after|;
    TailIsThere(items[1..], indent, more);
    OneFollows(lines, next, items[1], indent, ordered);
    ItemsStep(lines, at, m, indent, ordered, depth, next);
  }

  lemma TailIsThere(items: seq<Written>, indent: nat, more: seq<string>)
    requires items != []
    ensures |ListLines(items, indent) + more| > 0
  {
    hide FirstLine, Times;
  }

  lemma ListBlock(lines: seq<string>, m: Mark, end: nat, depth: nat)
    requires lines != [] && depth < MAX_NESTING && FenceOf(lines[0]).None? && HeadingOf(lines[0]).None?
    requires QuotedOf(lines[0]).None? && !IsRule(lines[0]) && ItemOf(lines[0]) == Some(m)
    requires ListEnd(lines, 0, m.indent, Ordered(m)) == end
    ensures BlockAt(lines, 0, depth) ==
            (List(ItemsFrom(lines, 0, m, m.indent, Ordered(m), depth), Ordered(m), StartOf(m)), end)
  {
    hide FenceOf, HeadingOf, QuotedOf, IsRule, ItemOf, StartsTable, ListEnd, ItemsFrom, Ordered, StartOf;
  }

  /** Where a list starts counting: at its first number, as it is written. */
  function StartOfWritten(mark: string): Option<nat> {
    if |mark| < 2 then None else Some(Number(mark[..|mark| - 1]))
  }

  /**
   A list is read back as its items, in order, each with its box, its words and the lines under it, blank
   lines between them or not; and ends before a line no deeper that is no item of its kind, or before one
   further out.
   */
  lemma ListReadsBack(
    items: seq<Written>, indent: nat, ordered: bool, more: seq<string>, blanks: nat, depth: nat)
    requires items != [] && depth < MAX_NESTING && AreWritten(items, indent, ordered)
    requires items[|items| - 1].after == [] && EndsList(more, blanks, indent, ordered)
    ensures BlocksFrom(ListLines(items, indent) + more, 0, depth)
            == [List(ItemsOfWritten(items, depth), ordered, StartOfWritten(items[0].mark))]
               + BlocksFrom(more, 0, depth)
  {
    hide *;
    var own := ListLines(items, indent);
    var lines, w := own + more, items[0];
    var m := Mark(indent, w.mark, BoxAndWords(w));
    TailIsThere(items, indent, []);
    assert own + [] == own;
    AreWrittenRest(items, indent, ordered);
    FirstOfList(items, indent, ordered, more);
    ItemIsFound(w, indent, ordered);
    ItemIsNothingElse(w, indent, ordered);
    assert lines[0..] == lines;
    ItemsAreRead(lines, 0, items, indent, ordered, depth, more, blanks);
    KindOfList(w, indent, ordered);
    ListBlock(lines, m, |own|, depth);
    BlockThenMore(lines, own, more,
      List(ItemsOfWritten(items, depth), ordered, StartOfWritten(w.mark)), depth);
  }

  lemma KindOfList(w: Written, indent: nat, ordered: bool)
    requires IsWritten(w, indent, ordered)
    ensures var m := Mark(indent, w.mark, BoxAndWords(w)); Ordered(m) == ordered && StartOf(m) == StartOfWritten(w.mark)
  {
    hide IsItemMark, IsTask, IsRuleLine, FirstLine, BoxAndWords, Ordered, Number;
    OrderedMeans(Mark(indent, w.mark, BoxAndWords(w)));
  }
}
