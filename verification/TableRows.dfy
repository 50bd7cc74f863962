/**
 The staff table: its rows as they are written (tools/move_harness_models_goldens.py, cell and table) and
 as the specs viewer reads a row's cells (app/ui/core/specs-folder.js).
 */
module TableRows {
  import opened Prelude
  import opened Characters
  import TableCells

  // ---------------------------------------------------------------------------------------
  // Writing
  // ---------------------------------------------------------------------------------------

  predicate EndsLine(c: char) {
    c == '\r' || c == '\n'
  }

  /** A cell's text on one line: a run of line ends one space. */
  function OneLine(text: string, afterBreak: bool): string {
    if text == "" then ""
    else if EndsLine(text[0]) then (if afterBreak then "" else " ") + OneLine(text[1..], true)
    else [text[0]] + OneLine(text[1..], false)
  }

  function EscapedOne(c: char): string {
    if c == '|' then "\\|" else [c]
  }

  /** A text with each bar in it escaped. */
  function Escaped(text: string): string {
    if text == "" then "" else EscapedOne(text[0]) + Escaped(text[1..])
  }

  function Written(text: string): string {
    Escaped(OneLine(text, false))
  }

  lemma {:induction false} EscapedAppend(a: string, b: string)
    ensures Escaped(a + b) == Escaped(a) + Escaped(b)
  {
    if a == "" {
      assert a + b == b;
    } else {
      assert (a + b)[1..] == a[1..] + b;
      EscapedAppend(a[1..], b);
    }
  }

  lemma {:induction false} OneLineAppend(text: string, c: char, afterBreak: bool)
    ensures OneLine(text + [c], afterBreak) ==
            OneLine(text, afterBreak)
            + if !EndsLine(c) then [c]
              else if (if text == "" then afterBreak else EndsLine(text[|text| - 1])) then "" else " "
  {
    if text != "" {
      assert (text + [c])[1..] == text[1..] + [c];
      OneLineAppend(text[1..], c, EndsLine(text[0]));
    }
  }

  lemma WrittenAppend(text: string, c: char)
    ensures Written(text + [c]) ==
            Written(text)
            + if c == '|' then "\\|"
              else if !EndsLine(c) then [c]
              else if text != "" && EndsLine(text[|text| - 1]) then "" else " "
  {
    var said := OneLine(text, false);
    OneLineAppend(text, c, false);
    hide OneLine;
    EscapedAppend(said, [c]);
    EscapedAppend(said, " ");
    assert said + "" == said;
    assert [c][1..] == "" && " "[1..] == "";
  }

  lemma NothingWritten()
    ensures Written("") == ""
  {
  }

  /** A text with no line end in it stays as it is. */
  lemma {:induction false} OneLineStays(text: string, afterBreak: bool)
    requires forall i :: 0 <= i < |text| ==> text[i] != '\r' && text[i] != '\n'
    ensures OneLine(text, afterBreak) == text
  {
    if text != "" {
      OneLineStays(text[1..], false);
      assert text == [text[0]] + text[1..];
    }
  }

  lemma {:induction false} BreaksAreOneSpace(breaks: string, b: string, afterBreak: bool)
    requires forall i :: 0 <= i < |breaks| ==> EndsLine(breaks[i])
    requires b == "" || !EndsLine(b[0])
    ensures OneLine(breaks + b, afterBreak) ==
            (if afterBreak || breaks == "" then "" else " ") + OneLine(b, false)
  {
    if breaks == "" {
      assert breaks + b == b;
    } else {
      assert (breaks + b)[1..] == breaks[1..] + b;
      BreaksAreOneSpace(breaks[1..], b, true);
    }
  }

  lemma {:induction false} OneLineInTwo(a: string, b: string, afterBreak: bool)
    requires a != ""
    ensures OneLine(a + b, afterBreak) == OneLine(a, afterBreak) + OneLine(b, EndsLine(a[|a| - 1]))
  {
    hide EndsLine;
    assert (a + b)[1..] == a[1..] + b;
    if |a| > 1 {
      OneLineInTwo(a[1..], b, EndsLine(a[0]));
    } else {
      assert a[1..] + b == b;
    }
  }

  /** A run of line ends, however long, is one space. */
  lemma LinesAreJoined(a: string, breaks: string, b: string, afterBreak: bool)
    requires breaks != "" && forall i :: 0 <= i < |breaks| ==> breaks[i] == '\r' || breaks[i] == '\n'
    requires a != "" && !EndsLine(a[|a| - 1]) && (b == "" || !EndsLine(b[0]))
    ensures OneLine(a + breaks + b, afterBreak) == OneLine(a, afterBreak) + " " + OneLine(b, false)
  {
    assert forall i :: 0 <= i < |breaks| ==> EndsLine(breaks[i]);
    hide *;
    assert a + breaks + b == a + (breaks + b);
    OneLineInTwo(a, breaks + b, afterBreak);
    BreaksAreOneSpace(breaks, b, false);
  }

  method WriteCell(text: string) returns (out: string)
    ensures out == Written(text)
  {
    hide Written;
    out := "";
    NothingWritten();
    var afterBreak := false;
    var at := 0;
    while at < |text|
      invariant 0 <= at <= |text| && out == Written(text[..at])
      invariant afterBreak == (at > 0 && EndsLine(text[at - 1]))
    {
      var character := text[at];
      assert text[..at + 1] == text[..at] + [character];
      WrittenAppend(text[..at], character);
      if character == '|' {
        out := out + "\\|";
      } else if EndsLine(character) {
        if !afterBreak {
          out := out + " ";
        }
      } else {
        out := out + [character];
      }
      afterBreak := EndsLine(character);
      at := at + 1;
    }
    assert text[..at] == text;
  }

  /** The cells of a row between its outer bars. */
  function Between(cells: seq<string>): string
    requires cells != []
  {
    " " + Written(cells[0]) + " " + if |cells| == 1 then "" else "|" + Between(cells[1..])
  }

  function Row(cells: seq<string>): string
    requires cells != []
  {
    "|" + Between(cells) + "|"
  }

  // ---------------------------------------------------------------------------------------
  // Reading
  // ---------------------------------------------------------------------------------------

  /** The cells from `from` on, none ending before `at`; `said` is what the cell says before `from`. */
  function ReadFrom(inner: string, from: nat, at: nat, said: string): (cells: seq<string>)
    requires from <= at <= |inner| && (from > 0 ==> inner[from - 1] == '|')
    ensures cells != []
    decreases |inner| - at
  {
    if at == |inner| then [Trim(said + inner[from..])]
    else if inner[at] != '|' then ReadFrom(inner, from, at + 1, said)
    else if TableCells.Kept(inner, at) then
      ReadFrom(inner, at + 1, at + 1, said + inner[from..at - 1] + "|")
    else [Trim(said + inner[from..at])] + ReadFrom(inner, at + 1, at + 1, "")
  }

  function Read(row: string): seq<string> {
    ReadFrom(TableCells.Inner(row), 0, 0, "")
  }

  /** Where the next bar is from `at` on; past the end where none is. */
  method NextBar(inner: string, at: nat) returns (bar: nat)
    requires at <= |inner|
    ensures at <= bar <= |inner| && (bar < |inner| ==> inner[bar] == '|')
    ensures forall i :: at <= i < bar ==> inner[i] != '|'
  {
    bar := at;
    while bar < |inner| && inner[bar] != '|'
      invariant at <= bar <= |inner| && forall i :: at <= i < bar ==> inner[i] != '|'
    {
      bar := bar + 1;
    }
  }

  lemma {:induction false} NoBars(inner: string, from: nat, at: nat, to: nat, said: string)
    requires from <= at <= to <= |inner| && (from > 0 ==> inner[from - 1] == '|')
    requires forall i :: at <= i < to ==> inner[i] != '|'
    ensures ReadFrom(inner, from, at, said) == ReadFrom(inner, from, to, said)
    decreases |inner| - at
  {
    if at < to {
      NoBars(inner, from, at + 1, to, said);
    }
  }

  method Cells(row: string) returns (found: seq<string>)
    ensures found == Read(row)
  {
    hide Trim;
    var inner := TableCells.Inner(row);
    found := [];
    var said, from := "", 0;
    var at := NextBar(inner, 0);
    NoBars(inner, 0, 0, at, "");
    while at < |inner|
      invariant from <= at <= |inner| && (at < |inner| ==> inner[at] == '|')
      invariant from > 0 ==> inner[from - 1] == '|'
      invariant found + ReadFrom(inner, from, at, said) == Read(row)
      decreases |inner| - at
    {
      if TableCells.Kept(inner, at) {
        said := said + inner[from..at - 1] + "|";
      } else {
        found := found + [Trim(said + inner[from..at])];
        said := "";
      }
      from := at + 1;
      at := NextBar(inner, from);
      NoBars(inner, from, from, at, said);
    }
    found := found + [Trim(said + inner[from..])];
  }

  // ---------------------------------------------------------------------------------------
  // A row reads back as it was written
  // ---------------------------------------------------------------------------------------

  /** The cells from `at` on, a character at a time, where `cell` is what the first says so far. */
  function Gather(inner: string, at: nat, cell: string): seq<string>
    requires at <= |inner|
    decreases |inner| - at
  {
    if at == |inner| then [Trim(cell)]
    else if inner[at] != '|' then Gather(inner, at + 1, cell + [inner[at]])
    else if TableCells.Kept(inner, at) && cell != "" then
      Gather(inner, at + 1, cell[..|cell| - 1] + "|")
    else [Trim(cell)] + Gather(inner, at + 1, "")
  }

  lemma OneMore(said: string, inner: string, from: nat, at: nat)
    requires from <= at < |inner|
    ensures said + inner[from..at + 1] == said + inner[from..at] + [inner[at]]
  {
  }

  lemma OneLess(said: string, inner: string, from: nat, at: nat)
    requires from < at <= |inner|
    ensures var cell := said + inner[from..at]; cell[..|cell| - 1] == said + inner[from..at - 1]
  {
  }

  lemma NoMore(said: string, inner: string, at: nat)
    requires at <= |inner|
    ensures said + inner[at..at] == said
  {
  }

  lemma KeptIsInside(inner: string, from: nat, at: nat)
    requires from <= at < |inner| && (from > 0 ==> inner[from - 1] == '|') && TableCells.Kept(inner, at)
    ensures from < at
  {
  }

  lemma ReadEnds(inner: string, from: nat, said: string)
    requires from <= |inner| && (from > 0 ==> inner[from - 1] == '|')
    ensures ReadFrom(inner, from, |inner|, said) == Gather(inner, |inner|, said + inner[from..|inner|])
  {
    hide Trim, TableCells.Kept;
    assert inner[from..|inner|] == inner[from..];
  }

  lemma ReadPast(inner: string, from: nat, at: nat, said: string)
    requires from <= at < |inner| && (from > 0 ==> inner[from - 1] == '|') && inner[at] != '|'
    ensures ReadFrom(inner, from, at, said) == ReadFrom(inner, from, at + 1, said)
    ensures Gather(inner, at, said + inner[from..at]) == Gather(inner, at + 1, said + inner[from..at + 1])
  {
    hide Trim, TableCells.Kept;
    OneMore(said, inner, from, at);
  }

  lemma ReadKept(inner: string, from: nat, at: nat, said: string)
    requires from <= at < |inner| && (from > 0 ==> inner[from - 1] == '|')
    requires inner[at] == '|' && TableCells.Kept(inner, at)
    ensures from < at
    ensures var now := said + inner[from..at - 1] + "|";
            && ReadFrom(inner, from, at, said) == ReadFrom(inner, at + 1, at + 1, now)
            && Gather(inner, at, said + inner[from..at]) == Gather(inner, at + 1, now)
  {
    hide Trim;
    KeptIsInside(inner, from, at);
    hide TableCells.Kept;
    OneLess(said, inner, from, at);
  }

  lemma ReadCut(inner: string, from: nat, at: nat, said: string)
    requires from <= at < |inner| && (from > 0 ==> inner[from - 1] == '|')
    requires inner[at] == '|' && !TableCells.Kept(inner, at)
    ensures var cell := Trim(said + inner[from..at]);
            && ReadFrom(inner, from, at, said) == [cell] + ReadFrom(inner, at + 1, at + 1, "")
            && Gather(inner, at, said + inner[from..at]) == [cell] + Gather(inner, at + 1, "")
  {
    hide Trim, TableCells.Kept;
  }

  /** Reading by the bars gathers what reading by the characters does. */
  lemma {:induction false} ReadGathers(inner: string, from: nat, at: nat, said: string)
    requires from <= at <= |inner| && (from > 0 ==> inner[from - 1] == '|')
    ensures ReadFrom(inner, from, at, said) == Gather(inner, at, said + inner[from..at])
    decreases |inner| - at
  {
    hide Trim, TableCells.Kept, ReadFrom, Gather;
    if at == |inner| {
      ReadEnds(inner, from, said);
    } else if inner[at] != '|' {
      ReadPast(inner, from, at, said);
      ReadGathers(inner, from, at + 1, said);
    } else if TableCells.Kept(inner, at) {
      ReadKept(inner, from, at, said);
      var now := said + inner[from..at - 1] + "|";
      ReadGathers(inner, at + 1, at + 1, now);
      NoMore(now, inner, at + 1);
    } else {
      ReadCut(inner, from, at, said);
      ReadGathers(inner, at + 1, at + 1, "");
      NoMore("", inner, at + 1);
    }
  }

  lemma Part(inner: string, at: nat, head: string, tail: string)
    requires at <= |inner| && inner[at..] == head + tail
    ensures at + |head| <= |inner| && inner[at + |head|..] == tail
    ensures forall i :: 0 <= i < |head| ==> inner[at + i] == head[i]
  {
    assert inner[at..][|head|..] == tail;
    forall i | 0 <= i < |head| ensures inner[at + i] == head[i] {
      assert inner[at..][i] == inner[at + i];
    }
  }

  lemma GatherOne(inner: string, at: nat, cell: string, c: char, rest: string)
    requires at <= |inner| && inner[at..] == EscapedOne(c) + rest
    ensures at + |EscapedOne(c)| <= |inner| && inner[at + |EscapedOne(c)|..] == rest
    ensures Gather(inner, at, cell) == Gather(inner, at + |EscapedOne(c)|, cell + [c])
  {
    hide Trim;
    Part(inner, at, EscapedOne(c), rest);
    assert inner[at + 0] == EscapedOne(c)[0];
    if c == '|' {
      assert inner[at + 1] == '|';
      assert (cell + "\\")[..|cell|] == cell;
    }
  }

  /** Gathering past an escaped text adds what it says to the cell. */
  lemma {:induction false} GatherPast(inner: string, at: nat, cell: string, text: string, rest: string)
    requires at <= |inner| && inner[at..] == Escaped(text) + rest
    ensures at + |Escaped(text)| <= |inner| && inner[at + |Escaped(text)|..] == rest
    ensures Gather(inner, at, cell) == Gather(inner, at + |Escaped(text)|, cell + text)
    decreases |text|
  {
    hide Gather, EscapedOne;
    if text == "" {
      assert cell + text == cell && Escaped(text) + rest == rest;
    } else {
      var c, later := text[0], text[1..];
      assert Escaped(text) + rest == EscapedOne(c) + (Escaped(later) + rest);
      GatherOne(inner, at, cell, c, Escaped(later) + rest);
      GatherPast(inner, at + |EscapedOne(c)|, cell + [c], later, rest);
      assert cell + [c] + later == cell + text;
    }
  }

  lemma {:induction false} TrimStartThenSpace(s: string)
    ensures TrimStart(s + " ") == if TrimStart(s) == "" then "" else TrimStart(s) + " "
  {
    hide IsSpace;
    assert IsSpace(' ') by { SpaceIsSpace(); }
    if s == "" {
      assert s + " " == " " && " "[1..] == "";
    } else if IsSpace(s[0]) {
      assert (s + " ")[1..] == s[1..] + " ";
      TrimStartThenSpace(s[1..]);
    }
  }

  lemma SpaceIsSpace()
    ensures IsSpace(' ')
  {
  }

  /** The spaces around a written cell are none of it. */
  lemma TrimsSpaces(text: string)
    ensures Trim(" " + text + " ") == Trim(text)
  {
    SpaceIsSpace();
    hide IsSpace;
    assert (" " + text + " ")[1..] == text + " ";
    TrimStartThenSpace(text);
    var start := TrimStart(text);
    assert (start + " ")[..|start|] == start;
  }

  function Said(cells: seq<string>): seq<string> {
    if cells == [] then [] else [Trim(OneLine(cells[0], false))] + Said(cells[1..])
  }

  lemma GatherPlain(inner: string, at: nat, cell: string, c: char, tail: string)
    requires at <= |inner| && inner[at..] == [c] + tail && c != '|'
    ensures at < |inner| && inner[at] == c && inner[at + 1..] == tail
    ensures Gather(inner, at, cell) == Gather(inner, at + 1, cell + [c])
  {
    hide Trim;
    Part(inner, at, [c], tail);
    assert inner[at + 0] == [c][0];
  }

  /** A written cell is gathered with the spaces around it. */
  lemma GatherSpaced(inner: string, at: nat, text: string, tail: string)
    requires at <= |inner| && inner[at..] == " " + (Escaped(text) + (" " + tail))
    ensures var end := at + |Escaped(text)| + 2;
            && end <= |inner| && inner[end..] == tail && inner[end - 1] == ' '
            && Gather(inner, at, "") == Gather(inner, end, " " + text + " ")
  {
    hide Escaped, Trim, Gather;
    GatherPlain(inner, at, "", ' ', Escaped(text) + (" " + tail));
    GatherPast(inner, at + 1, " ", text, " " + tail);
    GatherPlain(inner, at + 1 + |Escaped(text)|, " " + text, ' ', tail);
    assert "" + [' '] == " ";
  }

  lemma GatherCell(inner: string, at: nat, text: string, tail: string)
    requires at <= |inner| && inner[at..] == " " + (Escaped(text) + (" " + tail))
    requires tail == "" || tail[0] == '|'
    ensures tail == "" ==> Gather(inner, at, "") == [Trim(text)]
    ensures tail != "" ==>
      var end := at + |Escaped(text)| + 3;
      && end <= |inner| && inner[end..] == tail[1..]
      && Gather(inner, at, "") == [Trim(text)] + Gather(inner, end, "")
  {
    hide Escaped, Trim;
    GatherSpaced(inner, at, text, tail);
    TrimsSpaces(text);
    var end := at + |Escaped(text)| + 2;
    if tail == "" {
      assert |inner| == end;
    } else {
      assert tail == "|" + tail[1..];
      Part(inner, end, "|", tail[1..]);
      assert inner[end + 0] == '|';
    }
  }

  lemma Grouped(a: string, b: string, c: string, d: string)
    ensures a + b + c + d == a + (b + (c + d))
  {
  }

  lemma FirstAndRest(cells: seq<string>)
    requires cells != []
    ensures var tail := if |cells| == 1 then "" else "|" + Between(cells[1..]);
            && Between(cells) == " " + (Escaped(OneLine(cells[0], false)) + (" " + tail))
            && (|cells| > 1 ==> tail[1..] == Between(cells[1..]))
  {
    hide OneLine, Escaped;
    Grouped(" ", Escaped(OneLine(cells[0], false)), " ", if |cells| == 1 then "" else "|" + Between(cells[1..]));
  }

  lemma {:induction false} GathersBack(inner: string, at: nat, cells: seq<string>)
    requires cells != [] && at <= |inner| && inner[at..] == Between(cells)
    ensures Gather(inner, at, "") == Said(cells)
    decreases |cells|
  {
    hide OneLine, Escaped, Trim, Gather, Between;
    var text := OneLine(cells[0], false);
    var tail := if |cells| == 1 then "" else "|" + Between(cells[1..]);
    FirstAndRest(cells);
    GatherCell(inner, at, text, tail);
    if |cells| == 1 {
      assert cells[1..] == [];
    } else {
      GathersBack(inner, at + |Escaped(text)| + 3, cells[1..]);
    }
  }

  lemma BarIsNoSpace()
    ensures !IsSpace('|')
  {
  }

  lemma InnerOfRow(between: string)
    ensures TableCells.Inner("|" + between + "|") == between
  {
    BarIsNoSpace();
    hide IsSpace;
    var row := "|" + between + "|";
    assert Trim(row) == row;
    assert row[1..] == between + "|";
    assert (between + "|")[..|between|] == between;
  }

  /**
   Whatever its cells say, bars and backslashes and both together, a row reads back as its cells: on one
   line each, without the spaces around them.
   */
  lemma RowReadsBack(cells: seq<string>)
    requires cells != []
    ensures Read(Row(cells)) == Said(cells)
  {
    hide TableCells.Inner, Trim;
    InnerOfRow(Between(cells));
    var inner := Between(cells);
    assert inner[0..] == inner && "" + inner[0..0] == "";
    ReadGathers(inner, 0, 0, "");
    GathersBack(inner, 0, cells);
  }

  // ---------------------------------------------------------------------------------------
  // The table
  // ---------------------------------------------------------------------------------------

  datatype Tier = Critical | Complex | Standard | Light

  datatype Member = Member(name: string, model: Option<string>, roles: seq<string>, tier: Option<Tier>)

  const MODEL_SHOWN := "Opus \U{00B7} high"

  function TierSaid(tier: Tier): string {
    match tier
    case Critical => "Critical work"
    case Complex => "Complex work"
    case Standard => "Standard work"
    case Light => "Light work"
  }

  function CellsOf(member: Member, withModel: bool): (cells: seq<string>)
    requires member.tier.Some?
    ensures cells != []
  {
    [member.name]
    + (if withModel then [if member.model.Some? then member.model.value else MODEL_SHOWN] else [])
    + [Joined(member.roles, ", "), TierSaid(member.tier.value)]
  }

  predicate AllHaveTiers(members: seq<Member>) {
    forall i :: 0 <= i < |members| ==> members[i].tier.Some?
  }

  function MemberRows(members: seq<Member>, withModel: bool): (rows: seq<string>)
    requires AllHaveTiers(members)
    ensures |rows| == |members|
  {
    if members == [] then []
    else [Row(CellsOf(members[0], withModel))] + MemberRows(members[1..], withModel)
  }

  function Head(withModel: bool): seq<string> {
    if withModel then ["| Member | Model | Roles | Work tier |", "|---|---|---|---|"]
    else ["| Member | Roles | Work tier |", "|---|---|---|"]
  }

  function Table(members: seq<Member>, withModel: bool): Option<string> {
    if !AllHaveTiers(members) then None
    else Some(Joined(Head(withModel) + MemberRows(members, withModel), "\n"))
  }

  lemma BetweenFrom(cells: seq<string>, at: nat)
    requires at < |cells|
    ensures Between(cells[at..]) ==
            " " + Written(cells[at]) + " "
            + if at + 1 == |cells| then "" else "|" + Between(cells[at + 1..])
  {
    hide Written;
    assert cells[at..][1..] == cells[at + 1..];
  }

  method WriteRow(cells: seq<string>) returns (row: string)
    requires cells != []
    ensures row == Row(cells)
  {
    hide Written, Between;
    BetweenFrom(cells, 0);
    assert cells[0..] == cells;
    var first := WriteCell(cells[0]);
    row := "| " + first;
    var at := 1;
    while at < |cells|
      invariant 1 <= at <= |cells|
      invariant row + " " + (if at == |cells| then "" else "|" + Between(cells[at..])) ==
                "|" + Between(cells)
    {
      var text := WriteCell(cells[at]);
      BetweenFrom(cells, at);
      row := row + " | " + text;
      at := at + 1;
    }
    row := row + " |";
  }

  lemma {:induction false} MemberRowsAppend(members: seq<Member>, member: Member, withModel: bool)
    requires AllHaveTiers(members) && member.tier.Some?
    ensures AllHaveTiers(members + [member])
    ensures MemberRows(members + [member], withModel) ==
            MemberRows(members, withModel) + [Row(CellsOf(member, withModel))]
  {
    hide Row, CellsOf;
    if members != [] {
      assert (members + [member])[1..] == members[1..] + [member];
      MemberRowsAppend(members[1..], member, withModel);
    }
  }

  /** The staff table; none where a member has no tier. */
  method WriteTable(members: seq<Member>, withModel: bool) returns (table: Option<string>)
    ensures table == Table(members, withModel)
    ensures table.None? <==> exists k :: 0 <= k < |members| && members[k].tier == None
  {
    hide Row, CellsOf, Joined, Head;
    var lines := Head(withModel);
    var at := 0;
    while at < |members|
      invariant 0 <= at <= |members| && AllHaveTiers(members[..at])
      invariant lines == Head(withModel) + MemberRows(members[..at], withModel)
    {
      var member := members[at];
      if member.tier.None? {
        return None;
      }
      var row := WriteRow(CellsOf(member, withModel));
      MemberRowsAppend(members[..at], member, withModel);
      assert members[..at + 1] == members[..at] + [member];
      lines := lines + [row];
      at := at + 1;
    }
    assert members[..at] == members;
    table := Some(Joined(lines, "\n"));
  }

  /** A text's lines. */
  function LinesFrom(text: string, from: nat, at: nat): (lines: seq<string>)
    requires from <= at <= |text|
    ensures lines != []
    decreases |text| - at
  {
    if at == |text| then [text[from..]]
    else if text[at] == '\n' then [text[from..at]] + LinesFrom(text, at + 1, at + 1)
    else LinesFrom(text, from, at + 1)
  }

  predicate IsOneLine(line: string) {
    forall i :: 0 <= i < |line| ==> line[i] != '\n'
  }

  lemma {:induction false} LinePassed(text: string, from: nat, at: nat, to: nat)
    requires from <= at <= to <= |text| && IsOneLine(text[at..to])
    ensures LinesFrom(text, from, at) == LinesFrom(text, from, to)
    decreases |text| - at
  {
    if at < to {
      assert text[at..to][0] == text[at] && text[at..to][1..] == text[at + 1..to];
      LinePassed(text, from, at + 1, to);
    }
  }

  lemma {:induction false} LinesReadBack(text: string, at: nat, lines: seq<string>)
    requires lines != [] && at <= |text| && text[at..] == Joined(lines, "\n")
    requires forall line :: line in lines ==> IsOneLine(line)
    ensures LinesFrom(text, at, at) == lines
    decreases |lines|
  {
    hide IsOneLine;
    var end := at + |lines[0]|;
    assert text[at..end] == text[at..][..|lines[0]|] == lines[0];
    assert lines[0] in lines;
    LinePassed(text, at, at, end);
    if |lines| > 1 {
      assert text[end] == text[at..][|lines[0]|] == '\n';
      assert text[end + 1..] == text[at..][|lines[0]| + 1..] == Joined(lines[1..], "\n");
      LinesReadBack(text, end + 1, lines[1..]);
    } else {
      assert text[at..] == lines[0] && lines == [lines[0]];
    }
  }

  lemma {:induction false} WrittenIsOneLine(text: string, afterBreak: bool)
    ensures IsOneLine(Escaped(OneLine(text, afterBreak)))
  {
    if text != "" {
      WrittenIsOneLine(text[1..], EndsLine(text[0]));
      var rest := OneLine(text[1..], EndsLine(text[0]));
      assert (" " + rest)[1..] == rest && ([text[0]] + rest)[1..] == rest && "" + rest == rest;
      hide OneLine;
    }
  }

  lemma {:induction false} RowIsOneLine(cells: seq<string>)
    requires cells != []
    ensures IsOneLine(Row(cells))
  {
    BetweenIsOneLine(cells);
  }

  lemma {:induction false} BetweenIsOneLine(cells: seq<string>)
    requires cells != []
    ensures IsOneLine(Between(cells))
  {
    hide OneLine, Escaped;
    WrittenIsOneLine(cells[0], false);
    if |cells| > 1 {
      BetweenIsOneLine(cells[1..]);
    }
  }

  lemma {:induction false} MemberRowsAre(members: seq<Member>, withModel: bool, k: nat)
    requires AllHaveTiers(members) && k < |members|
    ensures MemberRows(members, withModel)[k] == Row(CellsOf(members[k], withModel))
  {
    hide Row, CellsOf;
    if k > 0 {
      MemberRowsAre(members[1..], withModel, k - 1);
    }
  }

  lemma TableLines(members: seq<Member>, withModel: bool)
    requires AllHaveTiers(members)
    ensures LinesFrom(Table(members, withModel).value, 0, 0) == Head(withModel) + MemberRows(members, withModel)
  {
    hide Row, CellsOf, Joined, IsOneLine;
    var lines := Head(withModel) + MemberRows(members, withModel);
    forall line | line in lines
      ensures IsOneLine(line)
    {
      var k :| 0 <= k < |lines| && lines[k] == line;
      if k < 2 {
        HeadIsLines(withModel);
      } else {
        MemberRowsAre(members, withModel, k - 2);
        RowIsOneLine(CellsOf(members[k - 2], withModel));
      }
    }
    var text := Table(members, withModel).value;
    assert text[0..] == text;
    LinesReadBack(text, 0, lines);
  }

  /** Each member's line of the table reads back as what it says of them, and no line is another's. */
  lemma TableReadsBack(members: seq<Member>, withModel: bool)
    requires AllHaveTiers(members)
    ensures var lines := LinesFrom(Table(members, withModel).value, 0, 0);
            && |lines| == 2 + |members|
            && forall k :: 0 <= k < |members| ==>
                 Read(lines[2 + k]) == Said(CellsOf(members[k], withModel))
  {
    hide Row, CellsOf, Read, Said, Table, LinesFrom;
    TableLines(members, withModel);
    forall k | 0 <= k < |members|
      ensures Read((Head(withModel) + MemberRows(members, withModel))[2 + k]) ==
              Said(CellsOf(members[k], withModel))
    {
      MemberRowsAre(members, withModel, k);
      RowReadsBack(CellsOf(members[k], withModel));
    }
  }

  /** A text of one line, with no space at either end. */
  predicate IsPlain(text: string) {
    && (forall i :: 0 <= i < |text| ==> text[i] != '\r' && text[i] != '\n')
    && (text != "" ==> !IsSpace(text[0]) && !IsSpace(text[|text| - 1]))
  }

  lemma PlainIsSaid(text: string)
    requires IsPlain(text)
    ensures Trim(OneLine(text, false)) == text
  {
    hide IsSpace;
    OneLineStays(text, false);
  }

  /** What a row of plain cells says is just those. */
  lemma {:induction false} PlainAreSaid(cells: seq<string>)
    requires forall i :: 0 <= i < |cells| ==> IsPlain(cells[i])
    ensures Said(cells) == cells
  {
    hide IsPlain, Trim, OneLine;
    if cells != [] {
      PlainIsSaid(cells[0]);
      PlainAreSaid(cells[1..]);
      assert cells == [cells[0]] + cells[1..];
    }
  }

  lemma OwnIsPlain()
    ensures IsPlain("Opus \U{00B7} high")
    ensures IsPlain("Critical work") && IsPlain("Complex work")
    ensures IsPlain("Standard work") && IsPlain("Light work")
  {
  }

  lemma CellsAre(member: Member, withModel: bool)
    requires member.tier.Some?
    ensures CellsOf(member, withModel) ==
            [member.name]
            + (if !withModel then []
               else if member.model == None then ["Opus \U{00B7} high"] else [member.model.value])
            + [Joined(member.roles, ", "),
               match member.tier.value
               case Critical => "Critical work" case Complex => "Complex work"
               case Standard => "Standard work" case Light => "Light work"]
  {
    hide Joined;
  }

  lemma CellsArePlain(member: Member, withModel: bool)
    requires member.tier.Some? && IsPlain(member.name) && IsPlain(Joined(member.roles, ", "))
    requires member.model.Some? ==> IsPlain(member.model.value)
    ensures forall i :: 0 <= i < |CellsOf(member, withModel)| ==> IsPlain(CellsOf(member, withModel)[i])
  {
    OwnIsPlain();
    hide IsPlain, Joined;
  }

  lemma PlainMemberIsSaid(members: seq<Member>, withModel: bool, k: nat)
    requires AllHaveTiers(members) && k < |members|
    requires IsPlain(members[k].name) && IsPlain(Joined(members[k].roles, ", "))
    requires members[k].model.Some? ==> IsPlain(members[k].model.value)
    ensures var lines := LinesFrom(Table(members, withModel).value, 0, 0);
            |lines| == 2 + |members| && Read(lines[2 + k]) == CellsOf(members[k], withModel)
  {
    assert members[k].tier.Some?;
    hide *;
    TableReadsBack(members, withModel);
    CellsArePlain(members[k], withModel);
    PlainAreSaid(CellsOf(members[k], withModel));
  }

  lemma TableHeads(members: seq<Member>, withModel: bool)
    requires AllHaveTiers(members)
    ensures var lines := LinesFrom(Table(members, withModel).value, 0, 0);
            && |lines| == 2 + |members|
            && (withModel ==> lines[0] == "| Member | Model | Roles | Work tier |" && lines[1] == "|---|---|---|---|")
            && (!withModel ==> lines[0] == "| Member | Roles | Work tier |" && lines[1] == "|---|---|---|")
  {
    TableLines(members, withModel);
    hide LinesFrom, Table, MemberRows, AllHaveTiers;
  }

  /** The table names its columns, and its lines say of each member, in order, just what there is to say. */
  lemma MembersAreSaid(members: seq<Member>, withModel: bool, k: nat)
    requires AllHaveTiers(members) && k < |members|
    requires IsPlain(members[k].name) && IsPlain(Joined(members[k].roles, ", "))
    requires members[k].model.Some? ==> IsPlain(members[k].model.value)
    ensures var lines, member := LinesFrom(Table(members, withModel).value, 0, 0), members[k];
            && |lines| == 2 + |members|
            && (withModel ==> lines[0] == "| Member | Model | Roles | Work tier |" && lines[1] == "|---|---|---|---|")
            && (!withModel ==> lines[0] == "| Member | Roles | Work tier |" && lines[1] == "|---|---|---|")
            && Read(lines[2 + k]) ==
               [member.name]
               + (if !withModel then []
                  else if member.model == None then ["Opus \U{00B7} high"] else [member.model.value])
               + [Joined(member.roles, ", "),
                  match member.tier.value
                  case Critical => "Critical work" case Complex => "Complex work"
                  case Standard => "Standard work" case Light => "Light work"]
  {
    TableHeads(members, withModel);
    PlainMemberIsSaid(members, withModel, k);
    CellsAre(members[k], withModel);
    hide *;
  }

  lemma HeadNames(withModel: bool)
    ensures IsOneLine(Head(withModel)[0])
  {
  }

  lemma HeadRules(withModel: bool)
    ensures IsOneLine(Head(withModel)[1])
  {
  }

  lemma HeadIsLines(withModel: bool)
    ensures IsOneLine(Head(withModel)[0]) && IsOneLine(Head(withModel)[1])
  {
    hide IsOneLine;
    HeadNames(withModel);
    HeadRules(withModel);
  }
}
