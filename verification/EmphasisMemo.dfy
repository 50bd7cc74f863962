/**
 Where the memo of emphasis is exact (app/ui/core/markdown.js, closer). On some lines it is not; on a line
 with no link in it, whatever brackets it has, and no three marks in a row it is: a search goes on from
 wherever one from further left came by.
 */
module EmphasisMemo {
  import opened Prelude
  import opened Characters
  import opened MarkdownInline

  /** A fresh search for each run of marks, or the memo of those that found nothing. */
  const FRESH := Mode(false, false)
  const KEPT := Mode(false, true)

  predicate IsMark(c: char) {
    c == '*' || c == '_'
  }

  predicate IsPlain(c: char) {
    !IsMark(c) && c != '`' && c != '\\'
  }

  ghost predicate NoLinks(line: string) {
    forall at: nat :: at < |line| ==> ReferenceAt(line, at).None?
  }

  predicate NoThree(line: string) {
    forall i :: 0 <= i < |line| - 2 && IsMark(line[i]) ==> !(line[i] == line[i + 1] == line[i + 2])
  }

  /** No link, and no three of a mark in a row. */
  ghost predicate Simple(line: string) {
    NoLinks(line) && NoThree(line)
  }

  // ---------------------------------------------------------------------------------------
  // A part of a line has no link the line has not
  // ---------------------------------------------------------------------------------------

  lemma {:induction false} UntilWithin(
      line: string, from: nat, to: nat, at: nat, stops: set<char>, spaces: bool)
    requires from <= to <= |line| && at <= to - from
    requires Until(line[from..to], at, stops, spaces) < to - from
    ensures Until(line, from + at, stops, spaces) == from + Until(line[from..to], at, stops, spaces)
    decreases |line[from..to]| - at
  {
    var part := line[from..to];
    if at < |part| && part[at] !in stops && !(spaces && IsSpace(part[at])) {
      UntilWithin(line, from, to, at + 1, stops, spaces);
    }
  }

  lemma {:induction false} SpacesWithin(line: string, from: nat, to: nat, at: nat)
    requires from <= to <= |line| && at <= to - from && SpacesEnd(line[from..to], at) < to - from
    ensures SpacesEnd(line, from + at) == from + SpacesEnd(line[from..to], at)
    decreases |line[from..to]| - at
  {
    if at < to - from && IsSpace(line[from..to][at]) {
      SpacesWithin(line, from, to, at + 1);
    }
  }

  lemma PairWithin(line: string, from: nat, to: nat, at: nat)
    requires from <= to <= |line| && at <= to - from && PairEnd(line[from..to], at) < to - from
    ensures PairEnd(line, from + at) == from + PairEnd(line[from..to], at)
  {
    UntilWithin(line, from, to, at, {'(', ')'}, true);
  }

  lemma SameThere(line: string, from: nat, to: nat, at: nat)
    requires from <= to <= |line| && at < to - from
    ensures line[from..to][at] == line[from + at]
  {
  }

  /** An address that ends inside a part, at no parenthesis left open, ends there in the line. */
  lemma {:induction false} AddressWithin(line: string, from: nat, to: nat, at: nat)
    requires from <= to <= |line| && at <= to - from
    requires var part := line[from..to]; var end := AddressEnd(part, at); end < |part| && part[end] != '('
    ensures AddressEnd(line, from + at) == from + AddressEnd(line[from..to], at)
    decreases |line[from..to]| - at
  {
    hide PairEnd, IsSpace;
    var part := line[from..to];
    SameThere(line, from, to, at);
    if IsSpace(part[at]) || part[at] == ')' {
    } else if part[at] != '(' {
      AddressWithin(line, from, to, at + 1);
    } else {
      var close := PairEnd(part, at + 1);
      PairWithin(line, from, to, at + 1);
      SameThere(line, from, to, close);
      AddressWithin(line, from, to, close + 1);
    }
  }

  lemma LinkEndWithin(line: string, from: nat, to: nat, at: nat)
    requires from <= to <= |line| && at <= to - from && LinkEnd(line[from..to], at).Some?
    ensures at < to - from && line[from..to][at] != '(' && LinkEnd(line, from + at).Some?
  {
    assert !IsSpace('(');
    hide Until, SpacesEnd, IsSpace;
    var part := line[from..to];
    SameThere(line, from, to, at);
    if !IsAt(part, at, ')') {
      var quote := SpacesEnd(part, at);
      SpacesWithin(line, from, to, at);
      SameThere(line, from, to, quote);
      TitleWithin(line, from, to, quote + 1);
    }
  }

  lemma TitleWithin(line: string, from: nat, to: nat, at: nat)
    requires from <= to <= |line| && at <= to - from
    requires var close := Until(line[from..to], at, {'"'}, false);
             IsAt(line[from..to], close, '"') && IsAt(line[from..to], close + 1, ')')
    ensures var close := Until(line, from + at, {'"'}, false); IsAt(line, close, '"') && IsAt(line, close + 1, ')')
  {
    hide Until;
    UntilWithin(line, from, to, at, {'"'}, false);
  }

  lemma ReferenceWithin(line: string, from: nat, to: nat, at: nat)
    requires from <= to <= |line| && at < to - from && ReferenceAt(line[from..to], at).Some?
    ensures ReferenceAt(line, from + at).Some?
  {
    hide Until, AddressEnd, LinkEnd;
    var part := line[from..to];
    var open := if part[at] == '!' then at + 1 else at;
    var close := Until(part, open + 1, {'[', ']'}, false);
    UntilWithin(line, from, to, open + 1, {'[', ']'}, false);
    LinkEndWithin(line, from, to, AddressEnd(part, close + 2));
    AddressWithin(line, from, to, close + 2);
  }

  lemma NoThreeWithin(line: string, from: nat, to: nat)
    requires NoThree(line) && from <= to <= |line|
    ensures NoThree(line[from..to])
  {
    var part := line[from..to];
    forall i | 0 <= i < |part| - 2 && IsMark(part[i])
      ensures !(part[i] == part[i + 1] == part[i + 2])
    {
      assert line[from + i] == part[i] && line[from + i + 1] == part[i + 1] && line[from + i + 2] == part[i + 2];
    }
  }

  lemma SimpleWithin(line: string, from: nat, to: nat)
    requires Simple(line) && from <= to <= |line|
    ensures Simple(line[from..to])
  {
    hide ReferenceAt, NoThree;
    NoThreeWithin(line, from, to);
    forall at: nat | at < to - from ensures ReferenceAt(line[from..to], at).None? {
      NoLinkThere(line, from + at);
      if ReferenceAt(line[from..to], at).Some? {
        ReferenceWithin(line, from, to, at);
      }
    }
  }

  /** A run of marks is one or two, and all of it opens emphasis. */
  lemma RunIsShort(line: string, at: nat)
    requires Simple(line) && at < |line| && IsMark(line[at])
    ensures RunEnd(line, at) <= at + 2 && at + |MarksAt(line, at)| == RunEnd(line, at)
  {
    hide NoLinks;
  }

  lemma NoLinkThere(line: string, at: nat)
    requires Simple(line) && at < |line|
    ensures ReferenceAt(line, at).None?
  {
  }

  lemma NoLinkRead(mode: Mode, line: string, at: nat)
    requires at < |line| && ReferenceAt(line, at).None?
    ensures LinkAt(mode, line, at).None?
  {
  }

  lemma CodeIsFresh(mode: Mode, line: string, at: nat, memo: Memo)
    requires !mode.code && at < |line|
    ensures var (span, next, after) := CodeAt(FRESH, line, at, map[]);
            CodeAt(mode, line, at, memo) == (span, next, memo)
  {
  }

  // ---------------------------------------------------------------------------------------
  // Where a search comes by
  // ---------------------------------------------------------------------------------------

  /** Where a search goes on from `at`, having not ended there. */
  function Skip(line: string, at: nat): (next: nat)
    requires at < |line|
    ensures at < next <= |line| + 1
  {
    if line[at] == '\\' then at + 2
    else if line[at] == '`' then CodeAt(FRESH, line, at, map[]).1
    else RunEnd(line, at)
  }

  ghost predicate Reaches(line: string, from: nat, to: nat)
    decreases if from < |line| then |line| - from else 0
  {
    from == to || (from < |line| && Reaches(line, Skip(line, from), to))
  }

  lemma {:induction false} ReachesUp(line: string, from: nat, to: nat)
    requires Reaches(line, from, to)
    ensures from <= to
    decreases if from < |line| then |line| - from else 0
  {
    hide Skip;
    if from != to {
      ReachesUp(line, Skip(line, from), to);
    }
  }

  lemma {:induction false} ReachesThen(line: string, a: nat, b: nat, c: nat)
    requires Reaches(line, a, b) && Reaches(line, b, c)
    ensures Reaches(line, a, c)
    decreases if a < |line| then |line| - a else 0
  {
    hide Skip;
    if a != b {
      ReachesThen(line, Skip(line, a), b, c);
    }
  }

  lemma ReachesNext(line: string, from: nat, at: nat)
    requires at < |line| && Reaches(line, from, at)
    ensures Reaches(line, from, Skip(line, at))
  {
    hide Skip;
    ReachesThen(line, from, at, Skip(line, at));
  }

  lemma {:induction false} ReachesBetween(line: string, from: nat, a: nat, b: nat)
    requires Reaches(line, from, a) && Reaches(line, from, b) && a <= b
    ensures Reaches(line, a, b)
    decreases if from < |line| then |line| - from else 0
  {
    hide Skip;
    if from == b {
      ReachesUp(line, from, a);
    } else if from != a {
      ReachesBetween(line, Skip(line, from), a, b);
    }
  }

  function Search(line: string, at: nat, marks: string): (end: Option<nat>)
    requires 1 <= at && 1 <= |marks| <= 2
    ensures end.Some? ==> at <= end.value && end.value + |marks| <= |line|
  {
    ScanMarks(FRESH, line, at, marks, map[]).0
  }

  lemma {:induction false} SearchIs(mode: Mode, line: string, at: nat, marks: string, memo: Memo)
    requires !mode.code && 1 <= at && 1 <= |marks| <= 2
    ensures ScanMarks(mode, line, at, marks, memo) == (Search(line, at, marks), memo)
    decreases |line| - at
  {
    hide CodeAt, Closes;
    if at < |line| {
      var next := RunEnd(line, at);
      if Closes(line, at, next, marks) {
      } else if line[at] == '\\' {
        SearchIs(mode, line, at + 2, marks, memo);
      } else if line[at] == '`' {
        CodeIsFresh(mode, line, at, memo);
        CodeIsFresh(FRESH, line, at, map[]);
        SearchIs(mode, line, CodeAt(FRESH, line, at, map[]).1, marks, memo);
      } else {
        SearchIs(mode, line, next, marks, memo);
      }
    }
  }

  lemma SearchSteps(line: string, at: nat, marks: string)
    requires 1 <= at && 1 <= |marks| <= 2
    ensures Search(line, at, marks) ==
            if at >= |line| then None
            else if Closes(line, at, RunEnd(line, at), marks) then Some(RunEnd(line, at) - |marks|)
            else Search(line, Skip(line, at), marks)
  {
    hide CodeAt, Closes;
    if at < |line| && line[at] == '`' {
      CodeIsFresh(FRESH, line, at, map[]);
    }
  }

  /** A search that found nothing finds nothing from any place it came by. */
  lemma {:induction false} NothingFromThere(line: string, from: nat, to: nat, marks: string)
    requires 1 <= from && 1 <= |marks| <= 2 && Reaches(line, from, to)
    requires Search(line, from, marks).None?
    ensures 1 <= to && Search(line, to, marks).None?
    decreases if from < |line| then |line| - from else 0
  {
    hide Skip, Search;
    if from != to {
      SearchSteps(line, from, marks);
      NothingFromThere(line, Skip(line, from), to, marks);
    }
  }

  /** What closes marks ends where a search would have come by. */
  lemma {:induction false} FoundOnTheWay(line: string, from: nat, marks: string)
    requires Simple(line) && 1 <= from && 1 <= |marks| <= 2 && IsMark(marks[0])
    requires Search(line, from, marks).Some?
    ensures Reaches(line, from, Search(line, from, marks).value + |marks|)
    decreases if from < |line| then |line| - from else 0
  {
    hide Search, Simple;
    SearchSteps(line, from, marks);
    if from < |line| {
      if Closes(line, from, RunEnd(line, from), marks) {
        RunIsShort(line, from);
        assert Skip(line, from) == RunEnd(line, from);
      } else {
        FoundOnTheWay(line, Skip(line, from), marks);
      }
    }
  }

  // ---------------------------------------------------------------------------------------
  // Where reading comes by
  // ---------------------------------------------------------------------------------------

  /** Reading is where a search from the start comes by, or in plain text a search skips in one. */
  ghost predicate Aligned(line: string, at: nat) {
    Reaches(line, 0, at) || exists s: nat :: InPlainText(line, s, at)
  }

  ghost predicate InPlainText(line: string, s: nat, at: nat) {
    && s < |line| && s < at < Skip(line, s) && Reaches(line, 0, s)
    && forall i :: at <= i < Skip(line, s) && i < |line| ==> IsPlain(line[i])
  }

  /** What the memo says is so, and of places a search comes by. */
  ghost predicate MemoHolds(line: string, memo: Memo) {
    forall marks :: marks in memo ==>
      && 1 <= |marks| <= 2 && IsMark(marks[0]) && 1 <= memo[marks]
      && Reaches(line, 0, memo[marks]) && Search(line, memo[marks], marks).None?
  }

  lemma PlainGoesOn(line: string, at: nat)
    requires at < |line| && IsPlain(line[at]) && Aligned(line, at)
    ensures Aligned(line, at + 1)
  {
    if Reaches(line, 0, at) {
      ReachesNext(line, 0, at);
      if Skip(line, at) != at + 1 {
        assert InPlainText(line, at, at + 1);
      }
    } else {
      var s: nat :| InPlainText(line, s, at);
      ReachesNext(line, 0, s);
      if Skip(line, s) != at + 1 {
        assert InPlainText(line, s, at + 1);
      }
    }
  }

  lemma MarkIsReached(line: string, at: nat)
    requires at < |line| && !IsPlain(line[at]) && Aligned(line, at)
    ensures Reaches(line, 0, at) && Reaches(line, 0, Skip(line, at))
  {
    hide Skip;
    ReachesNext(line, 0, at);
  }

  lemma BackslashGoesOn(line: string, at: nat)
    requires at < |line| && line[at] == '\\' && Aligned(line, at)
    ensures Aligned(line, at + 2)
    ensures !(at + 1 < |line| && IsPunctuation(line[at + 1])) ==> Aligned(line, at + 1)
  {
    MarkIsReached(line, at);
    if !(at + 1 < |line| && IsPunctuation(line[at + 1])) {
      assert InPlainText(line, at, at + 1);
    }
  }

  /** A search the memo stands in for would have found nothing. */
  lemma KnownIsTrue(line: string, from: nat, marks: string, memo: Memo)
    requires 1 <= from <= |line| && 1 <= |marks| <= 2 && Reaches(line, 0, from)
    requires MemoHolds(line, memo) && Known(memo, marks, from, |line|)
    ensures Search(line, from, marks).None?
  {
    hide Search, Reaches;
    if marks in memo {
      ReachesBetween(line, 0, memo[marks], from);
      NothingFromThere(line, memo[marks], from, marks);
    } else {
      SearchSteps(line, from, marks);
    }
  }

  /** What closes marks, searched for with the memo and afresh. */
  lemma CloserIsExact(line: string, from: nat, marks: string, memo: Memo)
    requires 1 <= from <= |line| && 1 <= |marks| <= 2 && IsMark(marks[0]) && Reaches(line, 0, from)
    requires MemoHolds(line, memo)
    ensures MarkCloser(FRESH, line, from, marks, map[]) == (Search(line, from, marks), map[])
    ensures MarkCloser(KEPT, line, from, marks, memo).0 == Search(line, from, marks)
    ensures MemoHolds(line, MarkCloser(KEPT, line, from, marks, memo).1)
  {
    hide Search, Reaches;
    SearchIs(KEPT, line, from, marks, memo);
    SearchIs(FRESH, line, from, marks, map[]);
    if Known(memo, marks, from, |line|) {
      KnownIsTrue(line, from, marks, memo);
    }
  }

  lemma EndIsExact(line: string, at: nat, memo: Memo)
    requires Simple(line) && at < |line| && IsMark(line[at]) && Reaches(line, 0, at)
    requires MemoHolds(line, memo)
    ensures var (end, after) := EmphasisEnd(KEPT, line, at, memo);
            && end == EmphasisEnd(FRESH, line, at, map[]).0 && MemoHolds(line, after)
            && EmphasisEnd(FRESH, line, at, map[]).1 == map[]
            && (end.Some? ==> Reaches(line, 0, end.value + |MarksAt(line, at)|))
  {
    hide Search, Simple, Reaches, MemoHolds, MarkCloser, Opens;
    RunIsShort(line, at);
    var marks := MarksAt(line, at);
    var from := at + |marks|;
    ReachesNext(line, 0, at);
    assert Skip(line, at) == from;
    CloserIsExact(line, from, marks, memo);
    if Search(line, from, marks).Some? {
      FoundOnTheWay(line, from, marks);
      ReachesThen(line, 0, from, Search(line, from, marks).value + |marks|);
    }
  }

  lemma {:induction false} EmphasisIsExact(line: string, at: nat, memo: Memo)
    requires Simple(line) && at < |line| && IsMark(line[at]) && Reaches(line, 0, at)
    requires MemoHolds(line, memo)
    ensures var (span, next, after) := EmphasisAt(KEPT, line, at, memo);
            && EmphasisAt(FRESH, line, at, map[]) == (span, next, map[])
            && MemoHolds(line, after) && Reaches(line, 0, next)
    decreases |line|, |line| - at, 1
  {
    hide Reaches, MemoHolds, Simple;
    EndIsExact(line, at, memo);
    ReachesNext(line, 0, at);
    RunIsShort(line, at);
    var end := EmphasisEnd(KEPT, line, at, memo).0;
    var from := at + |MarksAt(line, at)|;
    if end.Some? {
      SimpleWithin(line, from, end.value);
      SimpleLinesAreExact(line[from..end.value]);
    }
  }

  lemma {:induction false} StepIsExact(line: string, at: nat, memo: Memo)
    requires Simple(line) && at < |line| && Aligned(line, at) && MemoHolds(line, memo)
    ensures var (span, next, after) := StepAt(KEPT, line, at, memo);
            && StepAt(FRESH, line, at, map[]) == (span, next, map[])
            && MemoHolds(line, after) && Aligned(line, next)
    decreases |line|, |line| - at, 3
  {
    hide Aligned, MemoHolds, CodeAt, EmphasisAt, LinkAt, Reaches, Simple, ReferenceAt;
    NoLinkThere(line, at);
    NoLinkRead(KEPT, line, at);
    NoLinkRead(FRESH, line, at);
    if line[at] == '\\' {
      BackslashGoesOn(line, at);
    } else if line[at] == '`' {
      MarkIsReached(line, at);
      CodeIsFresh(KEPT, line, at, memo);
      CodeIsFresh(FRESH, line, at, map[]);
      ReachedIsAligned(line, Skip(line, at));
    } else if IsMark(line[at]) {
      MarkIsReached(line, at);
      EmphasisIsExact(line, at, memo);
      ReachedIsAligned(line, EmphasisAt(KEPT, line, at, memo).1);
    } else {
      PlainGoesOn(line, at);
    }
  }

  lemma ReachedIsAligned(line: string, at: nat)
    requires Reaches(line, 0, at)
    ensures Aligned(line, at)
  {
  }

  lemma {:induction false} SpansAreExact(line: string, at: nat, text: string, memo: Memo)
    requires Simple(line) && at <= |line| && Aligned(line, at) && MemoHolds(line, memo)
    ensures SpansFrom(KEPT, line, at, text, memo) == SpansFrom(FRESH, line, at, text, map[])
    decreases |line|, |line| - at, 4
  {
    hide Aligned, MemoHolds, Simple;
    if at < |line| {
      StepIsExact(line, at, memo);
      var (span, next, after) := StepAt(KEPT, line, at, memo);
      SpansAreExact(line, next, if span.Text? then text + span.text else "", after);
    }
  }

  lemma {:induction false} SimpleLinesAreExact(line: string)
    requires Simple(line)
    ensures Spans(KEPT, line) == Spans(FRESH, line)
    decreases |line|, |line|, 5
  {
    SpansAreExact(line, 0, "", map[]);
  }

  /** A simple line reads as the page reads it with no memo at all. */
  lemma PageReadsSimpleLinesExactly(line: string)
    requires Simple(line)
    ensures Spans(PAGE, line) == Spans(FRESH, line) == Spans(Mode(true, false), line)
  {
    MemoChangesNoReading(PAGE, line);
    MemoChangesNoReading(Mode(true, false), line);
    SimpleLinesAreExact(line);
  }
}
