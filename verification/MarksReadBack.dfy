/**
 Code and emphasis as they are written (app/ui/core/markdown.js): code between backticks, italic and bold
 between marks, each of just what stands between; and marks that open or close nothing, which are text.
 */
module MarksReadBack {
  import opened Prelude
  import opened Characters
  import opened MarkdownInline
  import opened Parts
  import opened LinkReadBack

  // ---------------------------------------------------------------------------------------
  // Code as it is written
  // ---------------------------------------------------------------------------------------

  /** Just `n` of a character, no more on either side. */
  predicate IsRun(line: string, at: nat, c: char, n: nat) {
    && at + n <= |line| && (forall i :: at <= i < at + n ==> line[i] == c)
    && (at > 0 ==> line[at - 1] != c) && (at + n < |line| ==> line[at + n] != c)
  }

  lemma {:induction false} RunEndIs(line: string, at: nat, end: nat)
    requires at < end <= |line| && (forall i :: at <= i < end ==> line[i] == line[at])
    requires end < |line| ==> line[end] != line[at]
    ensures RunEnd(line, at) == end
    decreases end - at
  {
    if at + 1 < end {
      RunEndIs(line, at + 1, end);
    }
  }

  lemma RunsDoNotCross(line: string, at: nat, p: nat, n: nat)
    requires at < p && n >= 1 && IsRun(line, p, '`', n)
    ensures p >= RunEnd(line, at)
  {
    var here, before := line[p], line[p - 1];
  }

  /** The search for backticks finds the first run just as long, and none where there is none. */
  lemma {:induction false} TicksFound(line: string, at: nat, n: nat, p: nat)
    requires n >= 1 && at <= p && IsRun(line, p, '`', n) && (0 < at < |line| && line[at] == '`' ==> line[at - 1] != '`')
    requires forall q :: at <= q < p ==> !IsRun(line, q, '`', n)
    ensures ScanTicks(line, at, n) == Some(p)
    decreases |line| - at
  {
    var next := RunEnd(line, at);
    if at == p {
      RunEndIs(line, at, at + n);
    } else {
      if line[at] == '`' && next - at == n {
        assert IsRun(line, at, '`', n);
      }
      RunsDoNotCross(line, at, p, n);
      TicksFound(line, next, n, p);
    }
  }

  lemma {:induction false} NoTicksFound(line: string, at: nat, n: nat)
    requires n >= 1 && at <= |line| && (0 < at < |line| && line[at] == '`' ==> line[at - 1] != '`')
    requires forall q :: at <= q ==> !IsRun(line, q, '`', n)
    ensures ScanTicks(line, at, n).None?
    decreases |line| - at
  {
    if at < |line| {
      var next := RunEnd(line, at);
      if line[at] == '`' && next - at == n {
        assert IsRun(line, at, '`', n);
      }
      NoTicksFound(line, next, n);
    }
  }

  lemma TimesJoin(c: char, n: nat)
    ensures n > 0 ==> Times(c, n) == [c] + Times(c, n - 1)
    ensures Times(c, 1) == [c] && Times(c, 2) == [c, c] && Times(c, 3) == [c, c, c]
  {
    assert Times(c, 0) == "" && Times(c, 1) == [c] + "" && Times(c, 2) == [c] + Times(c, 1);
  }

  /** Where a run stands between two other characters, or the line's ends. */
  lemma StandsRun(line: string, at: nat, c: char, n: nat)
    requires Stands(line, at, Times(c, n)) && n >= 1
    requires at > 0 ==> line[at - 1] != c
    requires at + n < |line| ==> line[at + n] != c
    ensures IsRun(line, at, c, n) && RunEnd(line, at) == at + n && line[at] == c
  {
    var run := line[at..at + n];
    forall i | at <= i < at + n ensures line[i] == c {
      assert run[i - at] == line[i];
    }
    RunEndIs(line, at, at + n);
  }

  lemma RunWithin(line: string, from: nat, t: string, q: nat, n: nat)
    requires Stands(line, from, t) && from <= q < from + |t| && n >= 1 && from + |t| < |line|
    requires line[from + |t|] == '`' && t[|t| - 1] != '`' && IsRun(line, q, '`', n)
    ensures IsRun(t, q - from, '`', n)
  {
    var part := line[from..from + |t|];
    assert forall i :: 0 <= i < |t| ==> t[i] == part[i] == line[from + i];
    var last := from + |t| - 1;
    assert line[last] == t[|t| - 1];
    assert !(q <= last < q + n);
  }

  /** The first run just as long after `t` is the one at its end. */
  lemma TicksEnd(line: string, from: nat, t: string, n: nat)
    requires Stands(line, from, t) && t != "" && n >= 1 && IsRun(line, from + |t|, '`', n)
    requires t[0] != '`' && t[|t| - 1] != '`' && forall q :: 0 <= q < |t| ==> !IsRun(t, q, '`', n)
    ensures ScanTicks(line, from, n) == Some(from + |t|)
  {
    assert line[from] == line[from..from + |t|][0] == t[0];
    hide IsRun, Stands;
    RunStarts(line, from + |t|, n);
    forall q | from <= q < from + |t| ensures !IsRun(line, q, '`', n) {
      if IsRun(line, q, '`', n) {
        RunWithin(line, from, t, q, n);
      }
    }
    TicksFound(line, from, n, from + |t|);
  }

  lemma RunStarts(line: string, at: nat, n: nat)
    requires n >= 1 && IsRun(line, at, '`', n)
    ensures at < |line| && line[at] == '`'
  {
  }

  /** What starts at a run of backticks, by a fresh search: code up to the first run just as long. */
  lemma CodeIsRead(mode: Mode, line: string, at: nat, n: nat, t: string, memo: Memo)
    requires !mode.code && n >= 1 && t != ""
    requires Stands(line, at, Times('`', n)) && Stands(line, at + n, t) && Stands(line, at + n + |t|, Times('`', n))
    requires at > 0 ==> line[at - 1] != '`'
    requires at + 2 * n + |t| < |line| ==> line[at + 2 * n + |t|] != '`'
    requires t[0] != '`' && t[|t| - 1] != '`' && forall q :: 0 <= q < |t| ==> !IsRun(t, q, '`', n)
    ensures CodeAt(mode, line, at, memo) == (Code(t), at + 2 * n + |t|, memo)
  {
    hide ScanTicks, RunEnd, IsRun, Stands, Times, CodeAt;
    var from, end := at + n, at + n + |t|;
    StandsAs(line, from, t);
    StandsTicks(line, end, n);
    assert line[from] == line[from..end][0] && line[end - 1] == line[from..end][|t| - 1];
    StandsRun(line, at, '`', n);
    StandsRun(line, end, '`', n);
    TicksEnd(line, from, t, n);
    CodeOf(mode, line, at, from, end, memo);
  }

  lemma CodeOf(mode: Mode, line: string, at: nat, from: nat, end: nat, memo: Memo)
    requires !mode.code && at < from <= end <= |line| && RunEnd(line, at) == from
    requires ScanTicks(line, from, from - at) == Some(end)
    ensures CodeAt(mode, line, at, memo) == (Code(line[from..end]), end + (from - at), memo)
  {
    hide ScanTicks, RunEnd;
    assert |line[at..from]| == from - at;
  }

  /** Three texts one after the other, between two others. */
  lemma Bracketed(before: string, a: string, b: string, c: string, after: string)
    ensures var (line, at) := (before + (a + b + c) + after, |before|);
            var end := at + |a| + |b| + |c|;
            && Stands(line, at, a) && Stands(line, at + |a|, b) && Stands(line, at + |a| + |b|, c)
            && end <= |line| && line[..at] == before && line[end..] == after
            && (end < |line| <==> after != "")
            && (at > 0 ==> line[at - 1] == before[at - 1]) && (end < |line| ==> line[end] == after[0])
  {
    var s := a + b + c;
    var line, at := before + s + after, |before|;
    hide Stands;
    Around(before, s, after);
    RestStarts(line, at + |s|, after);
    Regrouped(a, b, c, "");
    StandsThen(line, at, a, b + c);
    StandsThen(line, at + |a|, b, c);
  }

  lemma QuietEnds(before: string, after: string)
    requires Quiet(before) && Quiet(after)
    ensures before != "" ==> IsQuiet(before[|before| - 1])
    ensures after != "" ==> IsQuiet(after[0])
  {
  }

  /** Between backticks and the next just as many, what stands is code as it is: no mark in it is one. */
  lemma CodeReadsBack(mode: Mode, before: string, n: nat, t: string, after: string)
    requires Quiet(before) && Quiet(after) && n >= 1 && t != ""
    requires t[0] != '`' && t[|t| - 1] != '`' && forall q :: 0 <= q < |t| ==> !IsRun(t, q, '`', n)
    ensures Spans(mode, before + (Times('`', n) + t + Times('`', n)) + after)
            == Flushed(before) + [Code(t)] + Flushed(after)
  {
    hide IsRun, CodeAt, Stands, Spans, Times, Quiet, SpansFrom;
    var ticks, plain := Times('`', n), mode.(code := false);
    var line, at := before + (ticks + t + ticks) + after, |before|;
    Bracketed(before, ticks, t, ticks, after);
    QuietEnds(before, after);
    CodeIsRead(plain, line, at, n, t, map[]);
    StandsTicks(line, at, n);
    CodeSpanAt(plain, line, at);
    hide SpanAt;
    OneSpan(plain, line, at, Code(t), at + 2 * n + |t|, map[]);
    if mode.code {
      MemoChangesNoReading(mode, line);
    }
  }

  lemma StandsTicks(line: string, at: nat, n: nat)
    requires n >= 1 && Stands(line, at, Times('`', n))
    ensures at < |line| && line[at] == '`'
  {
    assert line[at..at + n][0] == line[at];
  }

  lemma CodeSpanAt(mode: Mode, line: string, at: nat)
    requires at < |line| && line[at] == '`'
    ensures var (span, next, after) := CodeAt(mode, line, at, map[]);
            SpanAt(mode, line, at, map[]) == (Some((span, next)), after)
  {
    hide CodeAt;
  }

  // ---------------------------------------------------------------------------------------
  // Emphasis as it is written
  // ---------------------------------------------------------------------------------------

  /** One backtick, what has none in it, and another. */
  predicate IsTicked(s: string) {
    |s| >= 3 && s[0] == '`' == s[|s| - 1] && forall i :: 0 < i < |s| - 1 ==> s[i] != '`'
  }

  /** No `mark` stands in it but after a backslash, or in code. */
  ghost predicate Sealed(s: string, mark: char) {
    || s == ""
    || (s[0] != mark && s[0] != '\\' && s[0] != '`' && Sealed(s[1..], mark))
    || (|s| >= 2 && s[0] == '\\' && Sealed(s[2..], mark))
    || exists k :: 3 <= k <= |s| && IsTicked(s[..k]) && (k < |s| ==> s[k] != '`') && Sealed(s[k..], mark)
  }

  predicate IsMark(c: char) {
    c == '*' || c == '_'
  }

  predicate AreMarksOf(marks: string, c: char) {
    IsMark(c) && 1 <= |marks| <= 2 && marks[0] == c
  }

  lemma PlainIsPassed(mode: Mode, line: string, at: nat, marks: string, c: char, memo: Memo)
    requires AreMarksOf(marks, c) && 1 <= at < |line|
    requires line[at] != c && line[at] != '\\' && line[at] != '`'
    ensures ScanMarks(mode, line, at, marks, memo) == ScanMarks(mode, line, at + 1, marks, memo)
  {
    hide CodeAt;
    if at + 1 < |line| && line[at + 1] == line[at] {
      assert RunEnd(line, at) == RunEnd(line, at + 1);
    }
  }

  lemma EscapeIsPassed(mode: Mode, line: string, at: nat, marks: string, c: char, memo: Memo)
    requires AreMarksOf(marks, c) && 1 <= at < |line| && line[at] == '\\'
    ensures ScanMarks(mode, line, at, marks, memo) == ScanMarks(mode, line, at + 2, marks, memo)
  {
    hide CodeAt;
  }

  lemma TickedIsRead(mode: Mode, line: string, at: nat, s: string, memo: Memo)
    requires !mode.code && Stands(line, at, s) && IsTicked(s) && (at + |s| < |line| ==> line[at + |s|] != '`')
    ensures line[at] == '`' && CodeAt(mode, line, at, memo).1 == at + |s| && CodeAt(mode, line, at, memo).2 == memo
  {
    var part := line[at..at + |s|];
    assert part == s;
    forall i | 0 <= i < |s| ensures line[at + i] == s[i] {
      assert part[i] == line[at + i];
    }
    var end := at + |s| - 1;
    assert line[at] == s[0] && line[end] == s[|s| - 1] && line[at + 1] == s[1];
    RunEndIs(line, at, at + 1);
    assert IsRun(line, end, '`', 1) by {
      assert line[end - 1] == s[|s| - 2];
    }
    forall q | at + 1 <= q < end ensures !IsRun(line, q, '`', 1) {
      assert line[q] == s[q - at];
    }
    TicksFound(line, at + 1, 1, end);
    hide IsRun, IsTicked, Stands, RunEnd, ScanTicks;
    CodeOf(mode, line, at, at + 1, end, memo);
  }

  lemma TickedIsPassed(mode: Mode, line: string, at: nat, s: string, marks: string, c: char, memo: Memo)
    requires !mode.code && AreMarksOf(marks, c) && 1 <= at
    requires Stands(line, at, s) && IsTicked(s) && (at + |s| < |line| ==> line[at + |s|] != '`')
    ensures ScanMarks(mode, line, at, marks, memo) == ScanMarks(mode, line, at + |s|, marks, memo)
  {
    TickedIsRead(mode, line, at, s, memo);
    hide CodeAt, IsTicked;
    assert at < |line| by { StandsAs(line, at, s); }
  }

  /** The search for what closes emphasis passes over all that is sealed. */
  lemma {:induction false} SealedIsPassed(
    mode: Mode, line: string, at: nat, s: string, marks: string, c: char, memo: Memo)
    requires !mode.code && AreMarksOf(marks, c) && 1 <= at && Stands(line, at, s) && Sealed(s, c)
    requires at + |s| < |line| && line[at + |s|] == c
    ensures ScanMarks(mode, line, at, marks, memo) == ScanMarks(mode, line, at + |s|, marks, memo)
    decreases |s|
  {
    hide ScanMarks, IsTicked, Stands;
    if s != "" {
      var k := FirstSealed(mode, line, at, s, marks, c, memo);
      SealedIsPassed(mode, line, at + k, s[k..], marks, c, memo);
    }
  }

  lemma FirstSealed(mode: Mode, line: string, at: nat, s: string, marks: string, c: char, memo: Memo)
    returns (k: nat)
    requires !mode.code && AreMarksOf(marks, c) && 1 <= at && Stands(line, at, s) && Sealed(s, c) && s != ""
    requires at + |s| < |line| && line[at + |s|] == c
    ensures 1 <= k <= |s| && Stands(line, at + k, s[k..]) && Sealed(s[k..], c)
    ensures ScanMarks(mode, line, at, marks, memo) == ScanMarks(mode, line, at + k, marks, memo)
  {
    hide ScanMarks, IsTicked, Stands, Sealed;
    StandsFirst(line, at, s);
    k := SealedPart(s, c);
    Cut(line, at, s, k);
    if k == 1 {
      PlainIsPassed(mode, line, at, marks, c, memo);
    } else if k == 2 {
      EscapeIsPassed(mode, line, at, marks, c, memo);
    } else {
      TickedIsPassed(mode, line, at, s[..k], marks, c, memo);
    }
  }

  lemma SealedPart(s: string, c: char) returns (k: nat)
    requires Sealed(s, c) && s != ""
    ensures 1 <= k <= |s| && Sealed(s[k..], c)
    ensures k == 1 ==> s[0] != c && s[0] != '\\' && s[0] != '`'
    ensures k == 2 ==> s[0] == '\\'
    ensures k >= 3 ==> IsTicked(s[..k]) && (k < |s| ==> s[k] != '`')
  {
    hide IsTicked;
    if s[0] != c && s[0] != '\\' && s[0] != '`' && Sealed(s[1..], c) {
      k := 1;
    } else if |s| >= 2 && s[0] == '\\' && Sealed(s[2..], c) {
      k := 2;
    } else {
      k :| 3 <= k <= |s| && IsTicked(s[..k]) && (k < |s| ==> s[k] != '`') && Sealed(s[k..], c);
    }
  }

  /** Whether marks stand free of a word before them, as an underscore has to. */
  predicate Free(c: char, before: string, after: string) {
    c == '_' ==>
      (before != "" ==> !IsWord(before[|before| - 1])) && (after != "" ==> !IsWord(after[0]))
  }

  function Emphasised(n: nat, inner: seq<Span>): Span {
    if n == 2 then Strong(inner) else Em(inner)
  }

  lemma EmphasisOf(mode: Mode, line: string, at: nat, n: nat, end: nat)
    requires !mode.code && at < |line| && 1 <= n <= 2 && at + n < |line| && at + n <= end && end + n <= |line|
    requires |MarksAt(line, at)| == n && Opens(line, at, RunEnd(line, at))
    requires ScanMarks(mode, line, at + n, MarksAt(line, at), map[]) == (Some(end), map[])
    ensures EmphasisAt(mode, line, at, map[]) ==
            (Emphasised(n, Spans(mode, line[at + n..end])), end + n, map[])
  {
    hide ScanMarks, Opens, RunEnd, Spans, MarksAt;
  }

  lemma MarksAre(line: string, at: nat, c: char, n: nat)
    requires Stands(line, at, Times(c, n)) && n >= 1 && (at + n < |line| ==> line[at + n] != c)
    ensures at < |line| && RunEnd(line, at) == at + n
    ensures MarksAt(line, at) == Times(c, Min(n, 2)) && line[at] == c && line[at + n - 1] == c
  {
    var run := line[at..at + n];
    forall i | at <= i < at + n ensures line[i] == c {
      assert run[i - at] == line[i];
    }
    RunEndIs(line, at, at + n);
    hide RunEnd;
    assert line[at..at + Min(n, 2)] == Times(c, Min(n, 2));
  }

  lemma MarksClose(mode: Mode, line: string, at: nat, c: char, n: nat, j: nat, memo: Memo)
    requires IsMark(c) && 1 <= n <= 2 && 1 <= at && Stands(line, at, Times(c, j)) && (j == n || j >= 3)
    requires at + j < |line| ==> line[at + j] != c
    requires !IsSpace(line[at - 1]) && (c == '_' && at + j < |line| ==> !IsWord(line[at + j]))
    ensures ScanMarks(mode, line, at, Times(c, n), memo) == (Some(at + j - n), memo)
  {
    MarksAre(line, at, c, j);
    hide RunEnd, IsSpace, IsWord, CodeAt;
  }

  /** Emphasis written at a place of a line, with nothing but what is sealed in it, is read there. */
  lemma EmphasisIsRead(mode: Mode, line: string, at: nat, c: char, n: nat, t: string)
    requires !mode.code && IsMark(c) && 1 <= n <= 2 && t != "" && Sealed(t, c) && t[0] != c
    requires Stands(line, at, Times(c, n)) && Stands(line, at + n, t) && Stands(line, at + n + |t|, Times(c, n))
    requires !IsSpace(t[0]) && !IsSpace(t[|t| - 1])
    requires at + 2 * n + |t| < |line| ==> line[at + 2 * n + |t|] != c
    requires c == '_' ==>
      (at > 0 ==> !IsWord(line[at - 1]))
      && (at + 2 * n + |t| < |line| ==> !IsWord(line[at + 2 * n + |t|]))
    ensures EmphasisAt(mode, line, at, map[]) ==
            (Emphasised(n, Spans(mode, t)), at + 2 * n + |t|, map[])
  {
    hide Sealed, Spans, ScanMarks, RunEnd, IsSpace, IsWord, EmphasisAt, MarksAt, Stands, Times;
    var from, end := at + n, at + n + |t|;
    StandsFirst(line, from, t);
    StandsAs(line, from, t);
    assert line[end - 1] == line[from..end][|t| - 1];
    MarksAre(line, at, c, n);
    MarksAre(line, end, c, n);
    assert AreMarksOf(Times(c, n), c) by {
      assert Times(c, n)[0] == c;
    }
    SealedIsPassed(mode, line, from, t, Times(c, n), c, map[]);
    MarksClose(mode, line, end, c, n, n, map[]);
    EmphasisOf(mode, line, at, n, end);
  }

  lemma EmphasisSpanAt(mode: Mode, line: string, at: nat)
    requires at < |line| && IsMark(line[at])
    ensures var (span, next, after) := EmphasisAt(mode, line, at, map[]);
            SpanAt(mode, line, at, map[]) == (Some((span, next)), after)
  {
    hide EmphasisAt;
  }

  /** One mark around a text reads as italic, two as bold, of what the text itself reads as. */
  lemma EmphasisReadsBack(mode: Mode, before: string, c: char, n: nat, t: string, after: string)
    requires Quiet(before) && Quiet(after) && IsMark(c) && 1 <= n <= 2 && Free(c, before, after)
    requires t != "" && t[0] != c && Sealed(t, c) && !IsSpace(t[0]) && !IsSpace(t[|t| - 1])
    ensures Spans(mode, before + (Times(c, n) + t + Times(c, n)) + after)
            == Flushed(before)
               + [if n == 2 then Strong(Spans(mode, t)) else Em(Spans(mode, t))]
               + Flushed(after)
  {
    hide Sealed, EmphasisAt, Stands, Spans, Times, Quiet, SpansFrom, IsSpace, IsWord, MarksAt, RunEnd;
    var marks, plain := Times(c, n), mode.(code := false);
    var line, at := before + (marks + t + marks) + after, |before|;
    Bracketed(before, marks, t, marks, after);
    QuietEnds(before, after);
    EmphasisIsRead(plain, line, at, c, n, t);
    StandsFirst(line, at, marks);
    assert line[at] == marks[0] == c;
    EmphasisSpanAt(plain, line, at);
    hide SpanAt;
    OneSpan(plain, line, at, Emphasised(n, Spans(plain, t)), at + 2 * n + |t|, map[]);
    if mode.code {
      MemoChangesNoReading(mode, line);
      MemoChangesNoReading(mode, t);
    }
  }

  lemma {:induction false} QuietIsSealed(s: string, c: char)
    requires Quiet(s) && IsMark(c)
    ensures Sealed(s, c)
  {
    if s != "" {
      QuietIsSealed(s[1..], c);
    }
  }

  /** Plain words between one mark are italic, between two bold. */
  lemma PlainEmphasisReadsBack(mode: Mode, c: char, t: string)
    requires IsMark(c) && Quiet(t) && t != "" && !IsSpace(t[0]) && !IsSpace(t[|t| - 1])
    ensures Spans(mode, [c] + t + [c]) == [Em([Text(t)])]
    ensures Spans(mode, [c, c] + t + [c, c]) == [Strong([Text(t)])]
  {
    QuietIsSealed(t, c);
    QuietReadsAsItself(mode, t);
    TimesJoin(c, 1);
    hide Sealed, Spans, IsSpace, Times;
    EmphasisReadsBack(mode, "", c, 1, t, "");
    EmphasisReadsBack(mode, "", c, 2, t, "");
    var one, two := [c] + t + [c], [c, c] + t + [c, c];
    assert "" + one + "" == one && "" + two + "" == two;
  }

  /** A leftover of three marks closes nothing and goes on. */
  lemma LeftoverIsPassed(mode: Mode, line: string, at: nat, c: char, memo: Memo)
    requires IsMark(c) && 1 <= at < |line| && line[at] == c && (at + 1 < |line| ==> line[at + 1] != c)
    ensures ScanMarks(mode, line, at, Times(c, 2), memo) == ScanMarks(mode, line, at + 1, Times(c, 2), memo)
  {
    RunEndIs(line, at, at + 1);
    hide RunEnd, CodeAt;
  }

  /** Three marks around a text read as bold and italic. */
  lemma ThreeMarksReadBack(mode: Mode, before: string, c: char, t: string, after: string)
    requires Quiet(before) && Quiet(after) && IsMark(c) && Free(c, before, after)
    requires t != "" && t[0] != c && Sealed(t, c) && !IsSpace(t[0]) && !IsSpace(t[|t| - 1])
    ensures Spans(mode, before + ([c, c, c] + t + [c, c, c]) + after)
            == Flushed(before) + [Strong([Em(Spans(mode, t))])] + Flushed(after)
  {
    hide Sealed, EmphasisAt, Stands, Spans, Times, Quiet, SpansFrom, IsSpace, IsWord, MarksAt, RunEnd, ScanMarks;
    TimesJoin(c, 3);
    var marks, plain := Times(c, 3), mode.(code := false);
    var line, at := before + (marks + t + marks) + after, |before|;
    Bracketed(before, marks, t, marks, after);
    QuietEnds(before, after);
    ThreeAreRead(plain, line, at, c, t);
    StandsFirst(line, at, marks);
    EmphasisSpanAt(plain, line, at);
    hide SpanAt;
    InnerOfThree(plain, line, at, c, t);
    var inner := line[at + 2..at + |t| + 4];
    OneSpan(plain, line, at, Strong(Spans(plain, inner)), at + |t| + 6, map[]);
    if mode.code {
      MemoChangesNoReading(mode, line);
      MemoChangesNoReading(mode, t);
    }
  }

  lemma ThreeAreRead(mode: Mode, line: string, at: nat, c: char, t: string)
    requires !mode.code && IsMark(c) && t != "" && Sealed(t, c) && t[0] != c
    requires Stands(line, at, Times(c, 3)) && Stands(line, at + 3, t) && Stands(line, at + 3 + |t|, Times(c, 3))
    requires !IsSpace(t[0]) && !IsSpace(t[|t| - 1])
    requires at + 6 + |t| < |line| ==> line[at + 6 + |t|] != c
    requires c == '_' ==>
      (at > 0 ==> !IsWord(line[at - 1])) && (at + 6 + |t| < |line| ==> !IsWord(line[at + 6 + |t|]))
    ensures at + |t| + 4 <= |line|
    ensures EmphasisAt(mode, line, at, map[]) == (Strong(Spans(mode, line[at + 2..at + |t| + 4])), at + |t| + 6, map[])
  {
    hide Sealed, Spans, ScanMarks, RunEnd, IsSpace, IsWord, EmphasisAt, MarksAt, Stands, Times;
    var from, end := at + 3, at + 3 + |t|;
    StandsFirst(line, from, t);
    StandsAs(line, from, t);
    StandsAs(line, end, Times(c, 3));
    assert line[end - 1] == line[from..end][|t| - 1];
    MarksAre(line, at, c, 3);
    MarksAre(line, end, c, 3);
    assert AreMarksOf(Times(c, 2), c) by {
      assert Times(c, 2)[0] == c;
    }
    LeftoverIsPassed(mode, line, at + 2, c, map[]);
    SealedIsPassed(mode, line, from, t, Times(c, 2), c, map[]);
    MarksClose(mode, line, end, c, 2, 3, map[]);
    EmphasisOf(mode, line, at, 2, end + 1);
  }

  lemma Framed(line: string, at: nat, last: nat)
    requires at < last < |line|
    ensures line[at..last + 1] == [line[at]] + line[at + 1..last] + [line[last]]
  {
  }

  lemma InnerOfThree(mode: Mode, line: string, at: nat, c: char, t: string)
    requires Stands(line, at, Times(c, 3)) && Stands(line, at + 3, t) && Stands(line, at + 3 + |t|, Times(c, 3))
    requires IsMark(c) && t != "" && t[0] != c && Sealed(t, c) && !IsSpace(t[0]) && !IsSpace(t[|t| - 1])
    ensures at + |t| + 4 <= |line| && Spans(mode, line[at + 2..at + |t| + 4]) == [Em(Spans(mode, t))]
  {
    hide Sealed, Spans, IsSpace, Times, Stands;
    TimesJoin(c, 1);
    TimesFirst(c, 3);
    ThirdMark(line, at, c);
    StandsAs(line, at + 3, t);
    StandsFirst(line, at + 3 + |t|, Times(c, 3));
    var inner := [c] + t + [c];
    Framed(line, at + 2, at + 3 + |t|);
    NoneIsQuiet();
    EmphasisReadsBack(mode, "", c, 1, t, "");
    Alone(inner);
  }

  // ---------------------------------------------------------------------------------------
  // Marks that are text
  // ---------------------------------------------------------------------------------------

  lemma {:induction false} NothingAhead(mode: Mode, line: string, at: nat, marks: string, c: char, memo: Memo)
    requires AreMarksOf(marks, c) && 1 <= at <= |line| && Quiet(line[at..])
    ensures ScanMarks(mode, line, at, marks, memo) == (None, memo)
    decreases |line| - at
  {
    if at < |line| {
      assert line[at..][0] == line[at] && line[at + 1..] == line[at..][1..];
      PlainIsPassed(mode, line, at, marks, c, memo);
      NothingAhead(mode, line, at + 1, marks, c, memo);
    }
  }

  lemma CloseNothing(mode: Mode, line: string, at: nat, c: char, n: nat, j: nat, memo: Memo)
    requires IsMark(c) && 1 <= n <= 2 && 1 <= at && Stands(line, at, Times(c, j)) && j >= 1
    requires at + j < |line| ==> line[at + j] != c
    requires IsSpace(line[at - 1]) || (j != n && j < 3) || (c == '_' && at + j < |line| && IsWord(line[at + j]))
    ensures at + j <= |line|
    ensures ScanMarks(mode, line, at, Times(c, n), memo) == ScanMarks(mode, line, at + j, Times(c, n), memo)
  {
    MarksAre(line, at, c, j);
    hide RunEnd, IsSpace, IsWord, CodeAt;
  }

  lemma EmphasisIsText(mode: Mode, line: string, at: nat, memo: Memo)
    requires at < |line| && EmphasisEnd(mode, line, at, memo).0.None?
    ensures EmphasisAt(mode, line, at, memo) ==
            (Text(line[at..RunEnd(line, at)]), RunEnd(line, at), EmphasisEnd(mode, line, at, memo).1)
  {
    hide EmphasisEnd;
  }

  lemma NothingFound(mode: Mode, line: string, at: nat, memo: Memo)
    requires at < |line|
    requires Opens(line, at, RunEnd(line, at)) ==>
      ScanMarks(mode, line, at + |MarksAt(line, at)|, MarksAt(line, at), memo).0.None?
    ensures EmphasisEnd(mode, line, at, memo).0.None?
  {
    hide ScanMarks, Opens, RunEnd, MarksAt;
  }

  /** Whether what stands before and after a run of marks lets it open. */
  predicate MayOpen(c: char, before: string, t: string) {
    t != "" && !IsSpace(t[0]) && !(c == '_' && before != "" && IsWord(before[|before| - 1]))
  }

  predicate MayClose(c: char, i: nat, t: string, j: nat, after: string) {
    && t != "" && !IsSpace(t[|t| - 1]) && (j == Min(i, 2) || j >= 3)
    && !(c == '_' && after != "" && IsWord(after[0]))
  }

  /** A search that comes by sealed text and a run that closes nothing, and then by quiet text, finds nothing. */
  lemma PastTheSecond(mode: Mode, line: string, at: nat, c: char, i: nat, t: string, j: nat)
    requires !mode.code && IsMark(c) && 1 <= i <= 3 && j >= 1 && Sealed(t, c) && t != "" && t[0] != c
    requires Stands(line, at, Times(c, i)) && Stands(line, at + i, t) && Stands(line, at + i + |t|, Times(c, j))
    requires at + i + |t| + j <= |line| && Quiet(line[at + i + |t| + j..])
    requires || IsSpace(t[|t| - 1]) || (j != Min(i, 2) && j < 3)
             || (c == '_' && at + i + |t| + j < |line| && IsWord(line[at + i + |t| + j]))
    ensures ScanMarks(mode, line, at + Min(i, 2), Times(c, Min(i, 2)), map[]).0.None?
  {
    hide Stands, Times, ScanMarks, RunEnd, IsSpace, IsWord, Sealed, Quiet;
    var from, end, n := at + i, at + i + |t|, Min(i, 2);
    StandsFirst(line, from, t);
    StandsAs(line, from, t);
    assert line[end - 1] == line[from..end][|t| - 1];
    TimesFirst(c, n);
    assert AreMarksOf(Times(c, n), c);
    StandsFirst(line, end, Times(c, j));
    TimesFirst(c, j);
    if i == 3 {
      ThirdMark(line, at, c);
      LeftoverIsPassed(mode, line, at + 2, c, map[]);
    }
    SealedIsPassed(mode, line, from, t, Times(c, n), c, map[]);
    QuietStarts(line, end + j);
    CloseNothing(mode, line, end, c, n, j, map[]);
    NothingAhead(mode, line, end + j, Times(c, n), c, map[]);
  }

  lemma ThirdMark(line: string, at: nat, c: char)
    requires Stands(line, at, Times(c, 3))
    ensures at + 3 <= |line| && line[at + 2] == c
  {
    assert line[at..at + 3][2] == line[at + 2];
  }

  lemma QuietStarts(line: string, at: nat)
    requires at <= |line| && Quiet(line[at..])
    ensures at < |line| ==> IsQuiet(line[at])
  {
    assert at < |line| ==> line[at..][0] == line[at];
  }

  lemma FirstRunIsText(mode: Mode, line: string, before: string, c: char, i: nat, t: string, j: nat, after: string)
    requires Quiet(before) && Quiet(t) && Quiet(after) && t != "" && IsMark(c) && 1 <= i <= 3 && 1 <= j <= 3
    requires !mode.code && !(MayOpen(c, before, t) && MayClose(c, i, t, j, after))
    requires line == before + (Times(c, i) + t + Times(c, j)) + after
    ensures |before| + i <= |line| && EmphasisEnd(mode, line, |before|, map[]).0.None?
  {
    hide Stands, Times, ScanMarks, RunEnd, IsSpace, IsWord, MarksAt, EmphasisEnd, Sealed, Quiet;
    var at := |before|;
    var from := at + i;
    Bracketed(before, Times(c, i), t, Times(c, j), after);
    FirstIsQuiet(t);
    StandsFirst(line, from, t);
    MarksAre(line, at, c, i);
    if Opens(line, at, from) {
      assert MayOpen(c, before, t);
      hide Opens;
      QuietIsSealed(t, c);
      PastTheSecond(mode, line, at, c, i, t, j);
    }
    NothingFound(mode, line, at, map[]);
  }

  lemma LastRunIsText(mode: Mode, line: string, at: nat, c: char, j: nat, memo: Memo)
    requires !mode.code && IsMark(c) && 1 <= j <= 3 && Stands(line, at, Times(c, j))
    requires at + j <= |line| && Quiet(line[at + j..])
    ensures EmphasisEnd(mode, line, at, memo).0.None? && RunEnd(line, at) == at + j
  {
    hide Stands, Times, ScanMarks, RunEnd, MarksAt, EmphasisEnd, Opens;
    var end := at + j;
    assert end < |line| ==> line[end..][0] == line[end];
    MarksAre(line, at, c, j);
    var n := Min(j, 2);
    assert AreMarksOf(Times(c, n), c) by {
      assert Times(c, n)[0] == c;
    }
    if j == 3 {
      LeftoverIsPassed(mode, line, at + 2, c, memo);
    }
    NothingAhead(mode, line, end, Times(c, n), c, memo);
    NothingFound(mode, line, at, memo);
  }

  lemma RunReadsAsText(mode: Mode, line: string, at: nat, end: nat, text: string, memo: Memo)
    requires at < end <= |line| && IsMark(line[at]) && RunEnd(line, at) == end
    requires EmphasisEnd(mode, line, at, memo).0.None?
    ensures SpansFrom(mode, line, at, text, memo) ==
            SpansFrom(mode, line, end, text + line[at..end], EmphasisEnd(mode, line, at, memo).1)
  {
    EmphasisIsText(mode, line, at, memo);
    hide EmphasisEnd, RunEnd, SpansFrom, EmphasisAt;
    var (span, next, after) := EmphasisAt(mode, line, at, memo);
    assert SpanAt(mode, line, at, memo) == (Some((span, next)), after);
    SpanThenRest(mode, line, at, text, memo, span, next, after);
  }

  /** Text up to a run of marks that opens nothing, the run, and on to `to`. */
  lemma TextPastARun(
    mode: Mode, line: string, from: nat, at: nat, end: nat, to: nat, text: string, memo: Memo) returns (after: Memo)
    requires from <= at < end <= to <= |line| && Quiet(line[from..at]) && Quiet(line[end..to])
    requires IsMark(line[at]) && RunEnd(line, at) == end && EmphasisEnd(mode, line, at, memo).0.None?
    requires to < |line| ==> line[to] != '['
    ensures after == EmphasisEnd(mode, line, at, memo).1
    ensures SpansFrom(mode, line, from, text, memo) == SpansFrom(mode, line, to, text + line[from..to], after)
  {
    hide RunEnd, EmphasisEnd, SpansFrom, Quiet;
    after := EmphasisEnd(mode, line, at, memo).1;
    QuietRun(mode, line, from, at, text, memo);
    RunReadsAsText(mode, line, at, end, text + line[from..at], memo);
    QuietRun(mode, line, end, to, text + line[from..at] + line[at..end], after);
    ThreeParts(line, from, at, end, to, text);
  }

  lemma ThreeParts(line: string, from: nat, at: nat, end: nat, to: nat, text: string)
    requires from <= at <= end <= to <= |line|
    ensures text + line[from..at] + line[at..end] + line[end..to] == text + line[from..to]
  {
  }

  /**
   Two runs of marks around plain text are text exactly where the first may not open or the second not
   close it: a space after or before, other lengths, or an underscore inside a word.
   */
  lemma MarksStayText(mode: Mode, before: string, c: char, i: nat, t: string, j: nat, after: string)
    requires Quiet(before) && Quiet(t) && Quiet(after) && t != "" && IsMark(c) && 1 <= i <= 3 && 1 <= j <= 3
    requires !(MayOpen(c, before, t) && MayClose(c, i, t, j, after))
    ensures var line := before + (Times(c, i) + t + Times(c, j)) + after; Spans(mode, line) == [Text(line)]
  {
    hide Stands, Times, RunEnd, MayOpen, MayClose, EmphasisEnd, SpansFrom, Quiet, IsMark;
    var line, at, plain := before + (Times(c, i) + t + Times(c, j)) + after, |before|, mode.(code := false);
    Bracketed(before, Times(c, i), t, Times(c, j), after);
    FirstRunIsText(plain, line, before, c, i, t, j, after);
    TextOfTwoRuns(plain, line, at, c, i, t, j);
    if mode.code {
      MemoChangesNoReading(mode, line);
    }
  }

  lemma TextOfTwoRuns(mode: Mode, line: string, at: nat, c: char, i: nat, t: string, j: nat)
    requires !mode.code && IsMark(c) && 1 <= i <= 3 && 1 <= j <= 3 && Quiet(t) && t != ""
    requires Stands(line, at, Times(c, i)) && Stands(line, at + i, t) && Stands(line, at + i + |t|, Times(c, j))
    requires at + i + |t| + j <= |line| && Quiet(line[..at]) && Quiet(line[at + i + |t| + j..])
    requires EmphasisEnd(mode, line, at, map[]).0.None?
    ensures Spans(mode, line) == [Text(line)]
  {
    hide Stands, Times, RunEnd, EmphasisEnd, Quiet, Spans, MarksAt;
    var from, end, last := at + i, at + i + |t|, at + i + |t| + j;
    StandsAs(line, from, t);
    StandsFirst(line, from, t);
    FirstIsQuiet(t);
    MarksAre(line, at, c, i);
    StandsFirst(line, end, Times(c, j));
    TimesFirst(c, j);
    var memo := EmphasisEnd(mode, line, at, map[]).1;
    LastRunIsText(mode, line, end, c, j, memo);
    TextRuns(mode, line, at, from, end, last);
  }

  lemma TextRuns(mode: Mode, line: string, at: nat, from: nat, end: nat, last: nat)
    requires at < from <= end < last <= |line| && Quiet(line[..at]) && Quiet(line[from..end]) && Quiet(line[last..])
    requires IsMark(line[at]) && IsMark(line[end]) && RunEnd(line, at) == from && RunEnd(line, end) == last
    requires EmphasisEnd(mode, line, at, map[]).0.None?
    requires EmphasisEnd(mode, line, end, EmphasisEnd(mode, line, at, map[]).1).0.None?
    ensures Spans(mode, line) == [Text(line)]
  {
    hide RunEnd, EmphasisEnd, SpansFrom, Quiet;
    assert line[0..at] == line[..at] && line[end..end] == "" && line[last..|line|] == line[last..];
    NoneIsQuiet();
    var memo := TextPastARun(mode, line, 0, at, from, end, "", map[]);
    var later := TextPastARun(mode, line, end, end, last, |line|, "" + line[0..end], memo);
    Ends(mode, line, "" + line[0..end] + line[end..|line|], later);
    assert "" + line[0..end] + line[end..|line|] == line;
  }

  lemma FirstIsQuiet(t: string)
    requires Quiet(t) && t != ""
    ensures IsQuiet(t[0])
  {
  }

  lemma TimesFirst(c: char, n: nat)
    requires n >= 1
    ensures Times(c, n)[0] == c
  {
  }

  /** Backticks that no run as long follows are text. */
  lemma UnclosedTicksStayText(mode: Mode, before: string, n: nat, after: string)
    requires Quiet(before) && Quiet(after) && n >= 1
    ensures var line := before + Times('`', n) + after; Spans(mode, line) == [Text(line)]
  {
    var ticks, plain := Times('`', n), mode.(code := false);
    var line, at := before + ticks + after, |before|;
    Around(before, ticks, after);
    RestStarts(line, at + n, after);
    QuietEnds(before, after);
    UnclosedTicks(plain, line, at, n);
    if mode.code {
      MemoChangesNoReading(mode, line);
    }
  }

  lemma UnclosedTicks(mode: Mode, line: string, at: nat, n: nat)
    requires !mode.code && n >= 1 && Stands(line, at, Times('`', n)) && at + n <= |line|
    requires Quiet(line[..at]) && Quiet(line[at + n..])
    ensures Spans(mode, line) == [Text(line)]
  {
    hide Stands, Times, RunEnd, SpansFrom, Quiet, IsRun, ScanTicks;
    var end := at + n;
    QuietStarts(line, end);
    TicksAre(line, at, n);
    NoRunInQuiet(line, end, n);
    NoTicksFound(line, end, n);
    assert line[0..at] == line[..at] && line[end..|line|] == line[end..];
    QuietRun(mode, line, 0, at, "", map[]);
    TicksAsText(mode, line, at, end, "" + line[0..at]);
    QuietRun(mode, line, end, |line|, "" + line[0..at] + line[at..end], map[]);
    Ends(mode, line, "" + line[0..at] + line[at..end] + line[end..|line|], map[]);
    ThreeParts(line, 0, at, end, |line|, "");
    assert "" + line[0..|line|] == line;
  }

  lemma NoRunInQuiet(line: string, from: nat, n: nat)
    requires n >= 1 && from <= |line| && Quiet(line[from..])
    ensures forall q :: from <= q ==> !IsRun(line, q, '`', n)
  {
    hide IsRun;
    forall q | from <= q ensures !IsRun(line, q, '`', n) {
      if IsRun(line, q, '`', n) {
        RunStarts(line, q, n);
        QuietAt(line, from, q);
      }
    }
  }

  lemma QuietAt(line: string, from: nat, q: nat)
    requires from <= q < |line| && Quiet(line[from..])
    ensures IsQuiet(line[q])
  {
    assert line[from..][q - from] == line[q];
  }

  lemma TicksAsText(mode: Mode, line: string, at: nat, end: nat, text: string)
    requires !mode.code && at < end <= |line| && line[at] == '`' && RunEnd(line, at) == end
    requires ScanTicks(line, end, end - at).None?
    ensures SpansFrom(mode, line, at, text, map[]) == SpansFrom(mode, line, end, text + line[at..end], map[])
  {
    hide RunEnd, SpansFrom, ScanTicks;
    assert |line[at..end]| == end - at;
    assert CodeAt(mode, line, at, map[]) == (Text(line[at..end]), end, map[]);
    CodeSpanAt(mode, line, at);
    hide CodeAt, SpanAt;
    SpanThenRest(mode, line, at, text, map[], Text(line[at..end]), end, map[]);
  }

  lemma TicksAre(line: string, at: nat, n: nat)
    requires n >= 1 && Stands(line, at, Times('`', n)) && (at + n < |line| ==> line[at + n] != '`')
    ensures at < |line| && line[at] == '`' && RunEnd(line, at) == at + n
  {
    var run := line[at..at + n];
    forall i | at <= i < at + n ensures line[i] == '`' {
      assert run[i - at] == line[i];
    }
    RunEndIs(line, at, at + n);
  }

  /** A backslash is text but before ASCII punctuation. */
  lemma BackslashStaysText(mode: Mode, before: string, after: string)
    requires Quiet(before) && Quiet(after) && (after != "" ==> !IsPunctuation(after[0]))
    ensures var line := before + "\\" + after; Spans(mode, line) == [Text(line)]
  {
    var line, at := before + "\\" + after, |before|;
    Around(before, "\\", after);
    RestStarts(line, at + 1, after);
    assert line[at] == '\\' by { StandsFirst(line, at, "\\"); }
    BackslashStep(mode, line, at, before, map[]);
    hide SpansFrom, Quiet, IsPunctuation, Stands;
    assert line[0..at] == line[..at] && line[at + 1..|line|] == line[at + 1..] && "" + before == before;
    QuietRun(mode, line, 0, at, "", map[]);
    QuietRun(mode, line, at + 1, |line|, before + "\\", map[]);
    Ends(mode, line, line, map[]);
  }

  lemma BackslashStep(mode: Mode, line: string, at: nat, text: string, memo: Memo)
    requires at < |line| && line[at] == '\\' && !(at + 1 < |line| && IsPunctuation(line[at + 1]))
    ensures SpansFrom(mode, line, at, text, memo) == SpansFrom(mode, line, at + 1, text + "\\", memo)
  {
    assert SpanAt(mode, line, at, memo) == (None, memo);
  }
}
