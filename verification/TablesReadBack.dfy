/**
 Tables as they are written (app/ui/core/markdown.js): a row is read back as its cells, pipes after backslashes
 in them and all, and a table as its rows, up to a line with no pipe in it.
 */
module TablesReadBack {
  import opened Prelude
  import opened Characters
  import opened Parts
  import opened TableCells
  import opened MarkdownBlocks
  import opened LinePatterns
  import opened BlocksReadBack

  /** A cell as it may be written: no space at its ends, and no pipe but right after a backslash. */
  predicate IsCell(cell: string) {
    && (cell != "" ==> !IsSpace(cell[0]) && !IsSpace(cell[|cell| - 1]))
    && (forall i :: 0 <= i < |cell| && cell[i] == '|' ==> i > 0 && cell[i - 1] == '\\')
  }

  predicate AreCells(cells: seq<string>) {
    forall i :: 0 <= i < |cells| ==> IsCell(cells[i])
  }

  /** Cells with spaces around them and pipes between. */
  function Between(cells: seq<string>): string
    requires cells != []
  {
    " " + (cells[0] + (" " + if |cells| == 1 then "" else "|" + Between(cells[1..])))
  }

  function RowOf(cells: seq<string>): string
    requires cells != []
  {
    "|" + Between(cells) + "|"
  }

  /** Up to a pipe that is not in a cell, cutting goes on. */
  lemma {:induction false} CutGoesOn(inner: string, from: nat, at: nat, to: nat)
    requires from <= at <= to <= |inner|
    requires forall i :: at <= i < to ==> inner[i] != '|' || Kept(inner, i)
    ensures CutFrom(inner, from, at) == CutFrom(inner, from, to)
    decreases |inner[at..to]|
  {
    hide Trim;
    if at < to {
      CutGoesOn(inner, from, at + 1, to);
    }
  }

  /** One cell between spaces, and then a pipe or the end. */
  lemma CellIsCut(inner: string, from: nat, cell: string, end: nat)
    requires IsCell(cell) && from + |cell| + 2 == end <= |inner| && inner[from..end] == " " + (cell + " ")
    requires end < |inner| ==> inner[end] == '|'
    ensures CutFrom(inner, from, from) ==
            [cell] + if end == |inner| then [] else CutFrom(inner, end + 1, end + 1)
  {
    var part := inner[from..end];
    forall i | from <= i < end ensures inner[i] != '|' || Kept(inner, i) {
      CellAt(inner, from, cell, end, i);
    }
    CutGoesOn(inner, from, from, end);
    assert IsBlank(" ");
    TrimIs(" ", cell, " ");
    hide IsCell, Trim, IsSpace;
    assert inner[end - 1] == part[|part| - 1] == ' ';
    assert end == |inner| ==> inner[from..] == part;
  }

  lemma CellAt(inner: string, from: nat, cell: string, end: nat, i: nat)
    requires IsCell(cell) && from + |cell| + 2 == end <= |inner| && inner[from..end] == " " + (cell + " ")
    requires from <= i < end
    ensures inner[i] != '|' || Kept(inner, i)
  {
    var part := inner[from..end];
    assert inner[i] == part[i - from];
    if from < i < end - 1 {
      assert part[i - from] == cell[i - from - 1];
      if inner[i] == '|' {
        assert inner[i - 1] == part[i - 1 - from] == cell[i - from - 2];
      }
    }
  }

  lemma {:induction false} CellsAreCut(inner: string, from: nat, cells: seq<string>)
    requires cells != [] && AreCells(cells) && from <= |inner| && inner[from..] == Between(cells)
    ensures CutFrom(inner, from, from) == cells
    decreases |cells|
  {
    hide CutFrom, IsCell, Between;
    var end := from + |cells[0]| + 2;
    if |cells| == 1 {
      BetweenIs(cells, "");
      SpacedThen(inner, from, cells[0], "");
      NothingLeft(inner, end);
      CellIsCut(inner, from, cells[0], end);
      assert cells == [cells[0]] + [];
    } else {
      var rest := Between(cells[1..]);
      BetweenIs(cells, "|" + rest);
      SpacedThen(inner, from, cells[0], "|" + rest);
      PipeThen(inner, end, rest);
      CellIsCut(inner, from, cells[0], end);
      CellsAreCut(inner, end + 1, cells[1..]);
      assert cells == [cells[0]] + cells[1..];
    }
  }

  lemma NothingLeft(inner: string, end: nat)
    requires end <= |inner| && inner[end..] == ""
    ensures end == |inner|
  {
  }

  lemma BetweenIs(cells: seq<string>, tail: string)
    requires cells != [] && tail == if |cells| == 1 then "" else "|" + Between(cells[1..])
    ensures Between(cells) == " " + (cells[0] + " ") + tail
  {
    Regrouped(" ", cells[0], " ", tail);
    assert " " + (cells[0] + " ") == " " + cells[0] + " ";
  }

  lemma SpacedThen(inner: string, from: nat, cell: string, tail: string)
    requires from <= |inner| && inner[from..] == " " + (cell + " ") + tail
    ensures var end := from + |cell| + 2;
            end <= |inner| && inner[from..end] == " " + (cell + " ") && inner[end..] == tail
  {
    hide Stands;
    var part := " " + (cell + " ");
    StandsIn(inner, from, part, tail);
    StandsAs(inner, from, part);
    StandsRest(inner, from + |part|, tail);
  }

  lemma PipeThen(inner: string, end: nat, rest: string)
    requires end <= |inner| && inner[end..] == "|" + rest
    ensures end < |inner| && inner[end] == '|' && inner[end + 1..] == rest
  {
    assert inner[end..][0] == inner[end] && inner[end..][1..] == inner[end + 1..];
  }

  lemma InnerOfRow(between: string)
    ensures Inner("|" + between + "|") == between
  {
    var row := "|" + between + "|";
    assert IsBlank("") && !IsSpace('|');
    assert "" + (row + "") == row;
    TrimIs("", row, "");
    hide Trim, IsSpace;
    assert row[1..] == between + "|";
    assert (between + "|")[..|between|] == between;
  }

  /** A written row is read as its cells. */
  lemma RowReadsBack(cells: seq<string>)
    requires cells != [] && AreCells(cells)
    ensures Cells(RowOf(cells)) == cells
  {
    hide IsCell, CutFrom, Inner, Between;
    InnerOfRow(Between(cells));
    assert Between(cells)[0..] == Between(cells);
    CellsAreCut(Between(cells), 0, cells);
  }

  lemma NoPipeBut(cell: string, row: string, at: nat)
    requires IsCell(cell) && Stands(row, at, cell)
    ensures forall i :: at <= i < at + |cell| ==> row[i] != '|' || Kept(row, i)
  {
    forall i | at <= i < at + |cell| ensures row[i] != '|' || Kept(row, i) {
      assert row[i] == row[at..at + |cell|][i - at] == cell[i - at];
      if row[i] == '|' {
        assert row[i - 1] == row[at..at + |cell|][i - 1 - at] == cell[i - 1 - at];
      }
    }
  }

  lemma BareRowParts(a: string, b: string)
    requires a != "" && b != ""
    ensures var (row, at) := (a + (" | " + b), |a| + 1);
            && Stands(row, 0, a) && Stands(row, at + 2, b) && |row| == at + 2 + |b|
            && row[at - 1] == ' ' && row[at] == '|' && row[at + 1] == ' ' && row[0] == a[0] && row[|row| - 1] == b[|b| - 1]
            && row[0..at] == "" + (a + " ") && row[at + 1..] == " " + (b + "")
  {
  }

  /** A row needs no pipes around it. */
  lemma BareRowReadsBack(a: string, b: string)
    requires IsCell(a) && IsCell(b) && a != "" && b != "" && b[|b| - 1] != '|'
    ensures Cells(a + (" | " + b)) == [a, b]
  {
    var row, at := a + (" | " + b), |a| + 1;
    assert a[0] != '|' && !IsSpace(a[0]) && !IsSpace(b[|b| - 1]);
    BareRowParts(a, b);
    NoPipeBut(a, row, 0);
    NoPipeBut(b, row, at + 2);
    hide IsCell, Stands, IsSpace, Trim;
    assert IsBlank("") && IsBlank(" ") by { BlanksAre(); }
    TrimIs("", row, "");
    assert "" + (row + "") == row;
    TrimIs("", a, " ");
    TrimIs(" ", b, "");
    hide IsBlank;
    BareRowIsCut(row, at);
    InnerIsAll(row);
  }

  lemma BlanksAre()
    ensures IsBlank("") && IsBlank(" ")
  {
  }

  lemma InnerIsAll(row: string)
    requires Trim(row) == row && row != "" && row[0] != '|' && row[|row| - 1] != '|'
    ensures Inner(row) == row
  {
    hide Trim;
  }

  lemma BareRowIsCut(row: string, at: nat)
    requires 1 <= at < |row| && row[at] == '|' && row[at - 1] == ' '
    requires forall i :: 0 <= i < at - 1 ==> row[i] != '|' || Kept(row, i)
    requires forall i :: at + 2 <= i < |row| ==> row[i] != '|' || Kept(row, i)
    requires at + 1 < |row| && row[at + 1] == ' '
    ensures CutFrom(row, 0, 0) == [Trim(row[0..at]), Trim(row[at + 1..])]
  {
    hide Trim;
    CutGoesOn(row, 0, 0, at);
    CutGoesOn(row, at + 1, at + 1, |row|);
  }

  // ---------------------------------------------------------------------------------------
  // A table
  // ---------------------------------------------------------------------------------------

  ghost predicate IsRuleUnder(cell: string) {
    exists before, n: nat, after ::
      && n >= 1 && (before == "" || before == ":") && (after == "" || after == ":")
      && cell == before + Times('-', n) + after
  }

  function RowLines(rows: seq<seq<string>>): (lines: seq<string>)
    requires forall i :: 0 <= i < |rows| ==> rows[i] != []
    ensures |lines| == |rows| && forall i :: 0 <= i < |rows| ==> lines[i] == RowOf(rows[i])
  {
    if rows == [] then [] else [RowOf(rows[0])] + RowLines(rows[1..])
  }

  ghost predicate AreRows(rows: seq<seq<string>>) {
    forall i :: 0 <= i < |rows| ==> rows[i] != [] && AreCells(rows[i])
  }

  lemma RowIsNothingElse(cells: seq<string>)
    requires cells != []
    ensures var line := RowOf(cells);
            && FenceOf(line).None? && HeadingOf(line).None? && QuotedOf(line).None?
            && !IsRule(line) && ItemOf(line).None? && !Blank(line) && Has(line, '|')
  {
    var line := RowOf(cells);
    assert line[0] == '|' && !IsSpace('|') && !IsDigit('|');
    hide *;
    FirstCharacter(line, '|');
    HasFirst(line, '|');
    BarIsNoMark();
  }

  lemma HasFirst(line: string, c: char)
    requires line != "" && line[0] == c
    ensures Has(line, c)
  {
  }

  lemma BarIsNoMark()
    ensures !IsRuleMark('|') && !IsDigit('|')
  {
  }

  lemma {:induction false} TableEndIs(lines: seq<string>, at: nat, end: nat)
    requires at <= end <= |lines| && (forall i :: at <= i < end ==> Has(lines[i], '|'))
    requires end < |lines| ==> !Has(lines[end], '|')
    ensures TableEnd(lines, at) == end
    decreases end - at
  {
    hide Has;
    if at < end {
      TableEndIs(lines, at + 1, end);
    }
  }

  lemma {:induction false} RowsAre(lines: seq<string>, rows: seq<seq<string>>)
    requires |lines| == |rows| && forall i :: 0 <= i < |rows| ==> Cells(lines[i]) == rows[i]
    ensures Rows(lines) == rows
  {
    hide Cells;
    if rows != [] {
      RowsAre(lines[1..], rows[1..]);
      assert rows == [rows[0]] + rows[1..];
    }
  }

  lemma TableBlock(lines: seq<string>, end: nat, depth: nat)
    requires lines != [] && depth <= MAX_NESTING && StartsTable(lines, 0)
    requires FenceOf(lines[0]).None? && HeadingOf(lines[0]).None? && QuotedOf(lines[0]).None?
    requires !IsRule(lines[0]) && ItemOf(lines[0]).None?
    requires |lines| >= 2 && TableEnd(lines, 2) == end
    ensures 2 <= end <= |lines|
    ensures BlockAt(lines, 0, depth) == (Table([Cells(lines[0])] + Rows(lines[2..end])), end)
  {
    hide FenceOf, HeadingOf, QuotedOf, IsRule, ItemOf, StartsTable, TableEnd, Rows, Cells;
  }

  lemma TableStarts(lines: seq<string>, head: seq<string>, rules: seq<string>)
    requires head != [] && |rules| == |head| && AreCells(head) && AreCells(rules) && |lines| >= 2
    requires forall i :: 0 <= i < |rules| ==> IsRuleUnder(rules[i])
    requires lines[0] == RowOf(head) && lines[1] == RowOf(rules)
    ensures StartsTable(lines, 0) && Cells(lines[0]) == head
  {
    hide Cells, Has, RowOf, AreCells, IsRuleCell, IsRuleUnder;
    RowReadsBack(head);
    RowReadsBack(rules);
    RowIsNothingElse(head);
    forall i | 0 <= i < |rules| ensures IsRuleCell(rules[i]) {
      RuleCellMeans(rules[i]);
    }
    assert Cells(lines[1]) == rules && Cells(lines[0]) == head && Has(lines[0], '|');
    assert AreRuleCells(rules);
  }

  lemma RuleCellMeans(cell: string)
    requires IsRuleUnder(cell)
    ensures IsRuleCell(cell)
  {
    hide IsRuleCell, Times;
    var before, n: nat, after :|
      && n >= 1 && (before == "" || before == ":") && (after == "" || after == ":")
      && cell == before + Times('-', n) + after;
    RuleCellIs(cell, before, n, after);
  }

  /** A row, a rule under each of its cells, and rows: a table of them, up to a line with no pipe in it. */
  lemma TableReadsBack(
    head: seq<string>, rules: seq<string>, rows: seq<seq<string>>, more: seq<string>, depth: nat)
    requires head != [] && |rules| == |head| && AreCells(head) && AreCells(rules) && AreRows(rows)
    requires forall i :: 0 <= i < |rules| ==> IsRuleUnder(rules[i])
    requires depth <= MAX_NESTING && (more != [] ==> '|' !in more[0])
    ensures BlocksFrom([RowOf(head), RowOf(rules)] + RowLines(rows) + more, 0, depth)
            == [Table([head] + rows)] + BlocksFrom(more, 0, depth)
  {
    hide BlockAt, BlocksFrom, RowOf, Cells, Has, StartsTable, AreCells, IsRuleUnder, FenceOf, HeadingOf, QuotedOf, ItemOf;
    hide IsRule, Blank, TableEnd, Rows;
    var own := [RowOf(head), RowOf(rules)] + RowLines(rows);
    var lines, end := own + more, 2 + |rows|;
    TableStarts(lines, head, rules);
    RowIsNothingElse(head);
    forall i | 2 <= i < end ensures Has(lines[i], '|') {
      assert lines[i] == RowOf(rows[i - 2]);
      RowIsNothingElse(rows[i - 2]);
    }
    if more != [] {
      assert lines[end] == more[0];
      HasNot(more[0]);
    }
    TableEndIs(lines, 2, end);
    forall i | 0 <= i < |rows| ensures Cells(lines[2..end][i]) == rows[i] {
      assert lines[2..end][i] == RowOf(rows[i]);
      RowReadsBack(rows[i]);
    }
    RowsAre(lines[2..end], rows);
    TableBlock(lines, end, depth);
    BlockThenMore(lines, own, more, Table([head] + rows), depth);
  }

  lemma TableStartsOnlyWith(lines: seq<string>, head: seq<string>, rules: seq<string>)
    requires head != [] && rules != [] && AreCells(head) && AreCells(rules) && |lines| == 2
    requires lines[0] == RowOf(head) && lines[1] == RowOf(rules)
    ensures StartsTable(lines, 0) ==> |rules| == |head| && forall i :: 0 <= i < |rules| ==> IsRuleUnder(rules[i])
    ensures !StartsTable(lines, 1)
  {
    hide Cells, Has, RowOf, AreCells, IsRuleCell, IsRuleUnder;
    RowReadsBack(head);
    RowReadsBack(rules);
    if StartsTable(lines, 0) {
      assert AreRuleCells(rules);
      forall i | 0 <= i < |rules| ensures IsRuleUnder(rules[i]) {
        RuleUnderMeans(rules[i]);
      }
    }
  }

  lemma RuleUnderMeans(cell: string)
    requires IsRuleCell(cell)
    ensures IsRuleUnder(cell)
  {
    hide IsRuleCell, Times;
    RuleCellPattern(cell);
  }

  lemma RowStartsOnlyATable(lines: seq<string>, at: nat, cells: seq<string>)
    requires at < |lines| && cells != [] && lines[at] == RowOf(cells) && !StartsTable(lines, at)
    ensures !Blank(lines[at]) && !StartsBlock(lines, at)
  {
    RowIsNothingElse(cells);
    hide RowOf, FenceOf, HeadingOf, QuotedOf, IsRule, ItemOf, StartsTable;
  }

  /** Two rows are a table exactly where the second has one rule under each cell of the first; else two lines. */
  lemma TwoRowsReadAs(head: seq<string>, rules: seq<string>, depth: nat)
    requires head != [] && rules != [] && AreCells(head) && AreCells(rules) && depth <= MAX_NESTING
    ensures BlocksFrom([RowOf(head), RowOf(rules)], 0, depth) ==
            if |rules| == |head| && forall i :: 0 <= i < |rules| ==> IsRuleUnder(rules[i])
            then [Table([head])] else [Paragraph([RowOf(head), RowOf(rules)])]
  {
    var lines := [RowOf(head), RowOf(rules)];
    if |rules| == |head| && forall i :: 0 <= i < |rules| ==> IsRuleUnder(rules[i]) {
      hide BlocksFrom, RowOf, AreCells, IsRuleUnder, Times;
      TableReadsBack(head, rules, [], [], depth);
      assert lines + RowLines([]) + [] == lines && [head] + [] == [head];
      assert BlocksFrom([], 0, depth) == [] by { NoLines(depth); }
    } else {
      TableStartsOnlyWith(lines, head, rules);
      hide RowOf, AreCells, IsRuleUnder, Times, StartsTable, StartsBlock, Blank, BlocksFrom, ParagraphEnd, BlockAt;
      RowStartsOnlyATable(lines, 0, head);
      RowStartsOnlyATable(lines, 1, rules);
      ParagraphEndIs(lines, 1, 2);
      ParagraphBlock(lines, 2, depth);
      assert lines[..2] == lines && lines + [] == lines;
      BlockThenMore(lines, lines, [], Paragraph(lines), depth);
      NoLines(depth);
    }
  }

  lemma NoLines(depth: nat)
    requires depth <= MAX_NESTING
    ensures BlocksFrom([], 0, depth) == []
  {
  }

  lemma HasNot(line: string)
    requires '|' !in line
    ensures !Has(line, '|')
  {
  }
}
