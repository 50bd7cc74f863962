/** A table row cut at its pipes, as the page's reader of markdown cuts it (app/ui/core/markdown.js). */
module TableCells {
  import opened Characters

  predicate Has(s: string, c: char) {
    exists i :: 0 <= i < |s| && s[i] == c
  }

  /** A row without the pipes around it. */
  function Inner(row: string): string {
    var bare := Trim(row);
    var after := if bare != "" && bare[0] == '|' then bare[1..] else bare;
    if after != "" && after[|after| - 1] == '|' then after[..|after| - 1] else after
  }

  /** Whether the pipe at `at` is one in a cell: it stands right after a backslash. */
  predicate Kept(inner: string, at: nat)
    requires at < |inner|
  {
    at > 0 && inner[at - 1] == '\\'
  }

  /** The cells from `from` on, none ending before `at`; a pipe in a cell stays as it is written. */
  function CutFrom(inner: string, from: nat, at: nat): (cells: seq<string>)
    requires from <= at <= |inner|
    ensures |cells| >= 1
    decreases |inner| - at
  {
    if at == |inner| then [Trim(inner[from..])]
    else if inner[at] == '|' && !Kept(inner, at) then
      [Trim(inner[from..at])] + CutFrom(inner, at + 1, at + 1)
    else CutFrom(inner, from, at + 1)
  }

  function Cells(row: string): (cells: seq<string>)
    ensures |cells| >= 1
  {
    CutFrom(Inner(row), 0, 0)
  }

  predicate AreDashes(s: string) {
    s != "" && forall i :: 0 <= i < |s| ==> s[i] == '-'
  }

  /** What sits under each cell of a table's head: dashes, a colon at either end or none. */
  predicate IsRuleCell(cell: string) {
    var after := if cell != "" && cell[0] == ':' then cell[1..] else cell;
    var dashes := if after != "" && after[|after| - 1] == ':' then after[..|after| - 1] else after;
    AreDashes(dashes)
  }
}
