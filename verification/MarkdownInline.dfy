/**
 What is inside a line of markdown (app/ui/core/markdown.js): code, bold, italic and links, read
 with a memo of the searches that found nothing. The readers are functions that pass the memo
 along; the methods at the end are the page's own loops over a memo updated in place.
 */
module MarkdownInline {
  import opened Prelude
  import opened Characters

  datatype Span =
    | Text(text: string)
    | Code(code: string)
    | Strong(inner: seq<Span>)
    | Em(inner: seq<Span>)
    | Link(inner: seq<Span>, href: string)

  /** By marks, where looking for what closes them found nothing. */
  type Memo = map<string, nat>

  /** Which searches the memo is used for: the page's reader uses it for both. */
  datatype Mode = Mode(code: bool, marks: bool)

  const PAGE := Mode(true, true)

  // ---------------------------------------------------------------------------------------
  // Runs of marks, and what closes them
  // ---------------------------------------------------------------------------------------

  /** Where the run of the character at `at` ends. */
  function RunEnd(line: string, at: nat): (end: nat)
    requires at < |line|
    ensures at < end <= |line|
    ensures forall i :: at <= i < end ==> line[i] == line[at]
    ensures end < |line| ==> line[end] != line[at]
    decreases |line| - at
  {
    if at + 1 < |line| && line[at + 1] == line[at] then RunEnd(line, at + 1) else at + 1
  }

  /** A run of backticks closes code where it is exactly as long as the one that opened it. */
  function ScanTicks(line: string, at: nat, count: nat): (end: Option<nat>)
    ensures end.Some? ==> at <= end.value && end.value + count <= |line|
    decreases |line| - at
  {
    if at >= |line| then None
    else
      var next := RunEnd(line, at);
      if line[at] == '`' && next - at == count then Some(at)
      else ScanTicks(line, next, count)
  }

  /** A search that looked past `from` already and found nothing is not made again. */
  predicate Known(memo: Memo, marks: string, from: nat, length: nat) {
    from >= (if marks in memo then memo[marks] else length)
  }

  /** Where the code opened by `marks` ends, looking from `from`. */
  function CodeCloser(mode: Mode, line: string, from: nat, marks: string, memo: Memo)
    : (r: (Option<nat>, Memo))
    ensures r.0.Some? ==> from <= r.0.value && r.0.value + |marks| <= |line|
  {
    if mode.code && Known(memo, marks, from, |line|) then (None, memo)
    else
      var end := ScanTicks(line, from, |marks|);
      (end, if mode.code && end.None? then memo[marks := from] else memo)
  }

  /** What starts at a run of backticks: code, or the marks themselves; and where it ends. */
  function CodeAt(mode: Mode, line: string, at: nat, memo: Memo): (r: (Span, nat, Memo))
    requires at < |line|
    ensures at < r.1 <= |line|
  {
    var from := RunEnd(line, at);
    var marks := line[at..from];
    var (end, after) := CodeCloser(mode, line, from, marks, memo);
    if end.None? then (Text(marks), from, after)
    else (Code(line[from..end.value]), end.value + |marks|, after)
  }

  /** Whether the marks from `at` to `next` close the emphasis `marks` opened. */
  predicate Closes(line: string, at: nat, next: nat, marks: string)
    requires 1 <= at < next <= |line| && marks != []
  {
    && line[at] == marks[0]
    && !IsSpace(line[at - 1])
    && (next - at == |marks| || next - at >= 3)
    && !(marks[0] == '_' && next < |line| && IsWord(line[next]))
  }

  /** The search for what closes emphasis, from `at`: code and escaped characters are passed over. */
  function ScanMarks(mode: Mode, line: string, at: nat, marks: string, memo: Memo)
    : (r: (Option<nat>, Memo))
    requires 1 <= at && 1 <= |marks| <= 2
    ensures r.0.Some? ==> at <= r.0.value && r.0.value + |marks| <= |line|
    decreases |line| - at
  {
    if at >= |line| then (None, memo)
    else
      var next := RunEnd(line, at);
      if Closes(line, at, next, marks) then (Some(next - |marks|), memo)
      else if line[at] == '\\' then ScanMarks(mode, line, at + 2, marks, memo)
      else if line[at] == '`' then
        var (span, past, after) := CodeAt(mode, line, at, memo);
        ScanMarks(mode, line, past, marks, after)
      else ScanMarks(mode, line, next, marks, memo)
  }

  function MarkCloser(mode: Mode, line: string, from: nat, marks: string, memo: Memo)
    : (r: (Option<nat>, Memo))
    requires 1 <= from && 1 <= |marks| <= 2
    ensures r.0.Some? ==> from <= r.0.value && r.0.value + |marks| <= |line|
  {
    if mode.marks && Known(memo, marks, from, |line|) then (None, memo)
    else
      var (end, after) := ScanMarks(mode, line, from, marks, memo);
      (end, if mode.marks && end.None? then after[marks := from] else after)
  }

  // ---------------------------------------------------------------------------------------
  // Links
  // ---------------------------------------------------------------------------------------

  /** Where the text from `at` with none of `stops` in it ends. */
  function Until(line: string, at: nat, stops: set<char>, spaces: bool): (end: nat)
    requires at <= |line|
    ensures at <= end <= |line|
    decreases |line| - at
  {
    if at < |line| && line[at] !in stops && !(spaces && IsSpace(line[at]))
    then Until(line, at + 1, stops, spaces) else at
  }

  /** Where what is after an open parenthesis ends: no spaces, and no other parenthesis. */
  function PairEnd(line: string, at: nat): (end: nat)
    requires at <= |line|
    ensures at <= end <= |line|
  {
    Until(line, at, {'(', ')'}, true)
  }

  /** Where an address ends: no spaces, and parentheses only in pairs one deep. */
  function AddressEnd(line: string, at: nat): (end: nat)
    requires at <= |line|
    ensures at <= end <= |line|
    decreases |line| - at
  {
    if at >= |line| || IsSpace(line[at]) || line[at] == ')' then at
    else if line[at] != '(' then AddressEnd(line, at + 1)
    else
      var close := PairEnd(line, at + 1);
      if close < |line| && line[close] == ')' then AddressEnd(line, close + 1) else at
  }

  predicate IsAt(line: string, at: nat, c: char) {
    at < |line| && line[at] == c
  }

  /** Where a link whose address ends at `at` itself ends: after a title, if it has one. */
  function LinkEnd(line: string, at: nat): (end: Option<nat>)
    requires at <= |line|
    ensures end.Some? ==> at < end.value <= |line|
  {
    if IsAt(line, at, ')') then Some(at + 1)
    else
      var quote := SpacesEnd(line, at);
      if quote > at && IsAt(line, quote, '"') then
        var close := Until(line, quote + 1, {'"'}, false);
        if IsAt(line, close, '"') && IsAt(line, close + 1, ')') then Some(close + 2) else None
      else None
  }

  /** A link's words are `line[words..close]`, its address `line[close + 2..address]`. */
  datatype Reference = Reference(words: nat, close: nat, address: nat, end: nat)

  /** The link or image that starts at `at`. */
  function ReferenceAt(line: string, at: nat): (r: Option<Reference>)
    requires at < |line|
    ensures r.Some? ==>
              at < r.value.words <= r.value.close && r.value.close + 2 <= r.value.address < r.value.end <= |line|
  {
    var open := if line[at] == '!' then at + 1 else at;
    if !IsAt(line, open, '[') then None
    else
      var close := Until(line, open + 1, {'[', ']'}, false);
      if !(IsAt(line, close, ']') && IsAt(line, close + 1, '(')) then None
      else
        var address := AddressEnd(line, close + 2);
        var end := LinkEnd(line, address);
        if end.None? then None else Some(Reference(open + 1, close, address, end.value))
  }

  // ---------------------------------------------------------------------------------------
  // Spans
  // ---------------------------------------------------------------------------------------

  function LinkAt(mode: Mode, line: string, at: nat): (r: Option<(Span, nat)>)
    requires at < |line|
    ensures r.Some? ==> at < r.value.1 <= |line|
    decreases |line|, |line| - at, 1
  {
    var found := ReferenceAt(line, at);
    if found.None? then None
    else
      var words := line[found.value.words..found.value.close];
      var href := line[found.value.close + 2..found.value.address];
      Some((Link(if IsBlank(words) then [Text(href)] else Spans(mode, words), href), found.value.end))
  }

  /** Whether the run of marks from `at` to `run` can open emphasis. */
  predicate Opens(line: string, at: nat, run: nat)
    requires at < run <= |line|
  {
    run < |line| && !IsSpace(line[run]) && !(line[at] == '_' && at > 0 && IsWord(line[at - 1]))
  }

  /** The marks of a run that open emphasis: two of them where there are as many, else one. */
  function MarksAt(line: string, at: nat): (marks: string)
    requires at < |line|
    ensures 1 <= |marks| <= 2 && marks[0] == line[at] && at + |marks| <= RunEnd(line, at)
  {
    line[at..at + Min(RunEnd(line, at) - at, 2)]
  }

  function EmphasisEnd(mode: Mode, line: string, at: nat, memo: Memo): (r: (Option<nat>, Memo))
    requires at < |line|
    ensures r.0.Some? ==> at + |MarksAt(line, at)| <= r.0.value
    ensures r.0.Some? ==> r.0.value + |MarksAt(line, at)| <= |line|
  {
    var marks := MarksAt(line, at);
    if Opens(line, at, RunEnd(line, at)) then MarkCloser(mode, line, at + |marks|, marks, memo)
    else (None, memo)
  }

  function EmphasisAt(mode: Mode, line: string, at: nat, memo: Memo): (r: (Span, nat, Memo))
    requires at < |line|
    ensures at < r.1 <= |line|
    decreases |line|, |line| - at, 1
  {
    var marks := MarksAt(line, at);
    var (end, after) := EmphasisEnd(mode, line, at, memo);
    if end.None? then (Text(line[at..RunEnd(line, at)]), RunEnd(line, at), after)
    else
      var inner := Spans(mode, line[at + |marks|..end.value]);
      (if |marks| == 2 then Strong(inner) else Em(inner), end.value + |marks|, after)
  }

  /** The span that starts at `at` and where it ends, if one does; and the memo after it. */
  function SpanAt(mode: Mode, line: string, at: nat, memo: Memo): (r: (Option<(Span, nat)>, Memo))
    requires at < |line|
    ensures r.0.Some? ==> at < r.0.value.1 <= |line|
    decreases |line|, |line| - at, 2
  {
    var mark := line[at];
    if mark == '\\' && at + 1 < |line| && IsPunctuation(line[at + 1]) then
      (Some((Text([line[at + 1]]), at + 2)), memo)
    else if mark == '`' then
      var (span, next, after) := CodeAt(mode, line, at, memo);
      (Some((span, next)), after)
    else if mark == '[' || (mark == '!' && IsAt(line, at + 1, '[')) then
      (LinkAt(mode, line, at), memo)
    else if mark == '*' || mark == '_' then
      var (span, next, after) := EmphasisAt(mode, line, at, memo);
      (Some((span, next)), after)
    else (None, memo)
  }

  /** One step of reading: the span at `at`, a single character of text where none starts. */
  function StepAt(mode: Mode, line: string, at: nat, memo: Memo): (r: (Span, nat, Memo))
    requires at < |line|
    ensures at < r.1 <= |line|
    decreases |line|, |line| - at, 3
  {
    var (span, after) := SpanAt(mode, line, at, memo);
    if span.Some? then (span.value.0, span.value.1, after) else (Text([line[at]]), at + 1, after)
  }

  function Flushed(text: string): seq<Span> {
    if text == "" then [] else [Text(text)]
  }

  /** The spans from `at` on, `text` being read and not yet said. */
  function SpansFrom(mode: Mode, line: string, at: nat, text: string, memo: Memo): seq<Span>
    requires at <= |line|
    decreases |line|, |line| - at, 4
  {
    if at == |line| then Flushed(text)
    else
      var (span, next, after) := StepAt(mode, line, at, memo);
      if span.Text? then SpansFrom(mode, line, next, text + span.text, after)
      else Flushed(text) + [span] + SpansFrom(mode, line, next, "", after)
  }

  function Spans(mode: Mode, line: string): seq<Span>
    decreases |line|, |line|, 5
  {
    SpansFrom(mode, line, 0, "", map[])
  }

  /** What spans say, their marks gone. */
  function Plain(spans: seq<Span>): string {
    if spans == [] then "" else Words(spans[0]) + Plain(spans[1..])
  }

  function Words(span: Span): string {
    match span
    case Text(text) => text
    case Code(code) => code
    case Strong(inner) => Plain(inner)
    case Em(inner) => Plain(inner)
    case Link(inner, _) => Plain(inner)
  }

  // ---------------------------------------------------------------------------------------
  // The memo of code
  // ---------------------------------------------------------------------------------------

  predicate AllTicks(marks: string) {
    marks != "" && forall i :: 0 <= i < |marks| ==> marks[i] == '`'
  }

  /** No run of backticks stretches across `at`, to its right. */
  predicate Boundary(line: string, at: nat) {
    at >= |line| || line[at] != '`'
  }

  /** What the memo says of backticks is so: from there on, no run of just as many starts. */
  ghost predicate MemoIsTrue(line: string, memo: Memo) {
    forall marks :: marks in memo && AllTicks(marks) ==>
      Boundary(line, memo[marks]) && ScanTicks(line, memo[marks], |marks|).None?
  }

  /** A search that starts inside a run of other characters goes on as one from the run's end. */
  lemma {:induction false} ScanPastARun(line: string, at: nat, to: nat, count: nat)
    requires at < |line| && line[at] != '`' && at <= to < RunEnd(line, at)
    ensures ScanTicks(line, to, count) == ScanTicks(line, RunEnd(line, at), count)
    decreases |line| - at
  {
    if at < to {
      assert RunEnd(line, at) == RunEnd(line, at + 1);
      ScanPastARun(line, at + 1, to, count);
    }
  }

  /** A search that found nothing finds nothing from any boundary further on. */
  lemma {:induction false} NothingFurtherOn(line: string, from: nat, to: nat, count: nat)
    requires from <= to && Boundary(line, to) && ScanTicks(line, from, count).None?
    ensures ScanTicks(line, to, count).None?
    decreases |line| - from
  {
    if to < |line| && from < to {
      var next := RunEnd(line, from);
      if next <= to {
        NothingFurtherOn(line, next, to, count);
      } else {
        assert line[to] == line[from];
        ScanPastARun(line, from, to, count);
      }
    }
  }

  /**
   The memo of code is exact: with whatever memo a line can be read with, the search for what closes
   a run of backticks finds just what one with no memo does, and leaves such a memo.
   */
  lemma CodeMemoIsExact(mode: Mode, line: string, at: nat, memo: Memo)
    requires mode.code && at < |line| && line[at] == '`' && MemoIsTrue(line, memo)
    ensures CodeAt(mode, line, at, memo).0 == CodeAt(mode.(code := false), line, at, memo).0
    ensures CodeAt(mode, line, at, memo).1 == CodeAt(mode.(code := false), line, at, memo).1
    ensures MemoIsTrue(line, CodeAt(mode, line, at, memo).2)
    ensures forall marks :: !AllTicks(marks) ==>
              (marks in CodeAt(mode, line, at, memo).2 <==> marks in memo)
              && (marks in memo ==> CodeAt(mode, line, at, memo).2[marks] == memo[marks])
  {
    var from := RunEnd(line, at);
    var marks := line[at..from];
    assert AllTicks(marks) && Boundary(line, from);
    if Known(memo, marks, from, |line|) && marks in memo {
      NothingFurtherOn(line, memo[marks], from, |marks|);
    }
  }

  /** The two readings of a line agree: on its code, whatever the memo, and on what marks know. */
  ghost predicate Agree(line: string, memo: Memo, plain: Memo) {
    && MemoIsTrue(line, memo)
    && (forall marks :: !AllTicks(marks) ==> (marks in memo <==> marks in plain))
    && (forall marks :: !AllTicks(marks) && marks in memo ==> memo[marks] == plain[marks])
  }

  lemma CodeAgrees(mode: Mode, line: string, at: nat, memo: Memo, plain: Memo)
    requires mode.code && at < |line| && line[at] == '`' && Agree(line, memo, plain)
    ensures var r, q := CodeAt(mode, line, at, memo), CodeAt(mode.(code := false), line, at, plain);
            r.0 == q.0 && r.1 == q.1 && Agree(line, r.2, q.2)
  {
    CodeMemoIsExact(mode, line, at, memo);
  }

  lemma {:induction false} ScanAgrees(
    mode: Mode, line: string, at: nat, marks: string, memo: Memo, plain: Memo)
    requires mode.code && 1 <= at && 1 <= |marks| <= 2 && Agree(line, memo, plain)
    ensures var r := ScanMarks(mode, line, at, marks, memo);
            var q := ScanMarks(mode.(code := false), line, at, marks, plain);
            r.0 == q.0 && Agree(line, r.1, q.1)
    decreases |line| - at
  {
    if at < |line| {
      var next := RunEnd(line, at);
      if Closes(line, at, next, marks) {
      } else if line[at] == '\\' {
        ScanAgrees(mode, line, at + 2, marks, memo, plain);
      } else if line[at] == '`' {
        CodeAgrees(mode, line, at, memo, plain);
        var (span, past, after) := CodeAt(mode, line, at, memo);
        ScanAgrees(mode, line, past, marks, after,
                   CodeAt(mode.(code := false), line, at, plain).2);
      } else {
        ScanAgrees(mode, line, next, marks, memo, plain);
      }
    }
  }

  lemma CloserAgrees(mode: Mode, line: string, from: nat, marks: string, memo: Memo, plain: Memo)
    requires mode.code && 1 <= from && 1 <= |marks| <= 2 && !AllTicks(marks)
    requires Agree(line, memo, plain)
    ensures var r := MarkCloser(mode, line, from, marks, memo);
            var q := MarkCloser(mode.(code := false), line, from, marks, plain);
            r.0 == q.0 && Agree(line, r.1, q.1)
  {
    ScanAgrees(mode, line, from, marks, memo, plain);
  }

  lemma EmphasisEndAgrees(mode: Mode, line: string, at: nat, memo: Memo, plain: Memo)
    requires mode.code && at < |line| && line[at] != '`' && Agree(line, memo, plain)
    ensures var r := EmphasisEnd(mode, line, at, memo);
            var q := EmphasisEnd(mode.(code := false), line, at, plain);
            r.0 == q.0 && Agree(line, r.1, q.1)
  {
    var marks := MarksAt(line, at);
    if Opens(line, at, RunEnd(line, at)) {
      CloserAgrees(mode, line, at + |marks|, marks, memo, plain);
    }
  }

  lemma {:induction false} EmphasisAgrees(mode: Mode, line: string, at: nat, memo: Memo, plain: Memo)
    requires mode.code && at < |line| && line[at] != '`' && Agree(line, memo, plain)
    ensures var r := EmphasisAt(mode, line, at, memo);
            var q := EmphasisAt(mode.(code := false), line, at, plain);
            r.0 == q.0 && r.1 == q.1 && Agree(line, r.2, q.2)
    decreases |line|, |line| - at, 1
  {
    EmphasisEndAgrees(mode, line, at, memo, plain);
    var end := EmphasisEnd(mode, line, at, memo).0;
    if end.Some? {
      MemoChangesNoReading(mode, line[at + |MarksAt(line, at)|..end.value]);
    }
  }

  lemma {:induction false} LinksAgree(mode: Mode, line: string, at: nat)
    requires mode.code && at < |line|
    ensures LinkAt(mode, line, at) == LinkAt(mode.(code := false), line, at)
    decreases |line|, |line| - at, 1
  {
    var found := ReferenceAt(line, at);
    if found.Some? {
      MemoChangesNoReading(mode, line[found.value.words..found.value.close]);
    }
  }

  lemma {:induction false} SpanAgrees(mode: Mode, line: string, at: nat, memo: Memo, plain: Memo)
    requires mode.code && at < |line| && Agree(line, memo, plain)
    ensures var r, q := SpanAt(mode, line, at, memo), SpanAt(mode.(code := false), line, at, plain);
            r.0 == q.0 && Agree(line, r.1, q.1)
    decreases |line|, |line| - at, 2
  {
    if line[at] == '`' {
      CodeAgrees(mode, line, at, memo, plain);
    } else if line[at] == '[' || line[at] == '!' {
      LinksAgree(mode, line, at);
    } else if line[at] == '*' || line[at] == '_' {
      EmphasisAgrees(mode, line, at, memo, plain);
    }
  }

  lemma {:induction false} SpansAgree(
    mode: Mode, line: string, at: nat, text: string, memo: Memo, plain: Memo)
    requires mode.code && at <= |line| && Agree(line, memo, plain)
    ensures SpansFrom(mode, line, at, text, memo) ==
            SpansFrom(mode.(code := false), line, at, text, plain)
    decreases |line|, |line| - at, 4
  {
    if at < |line| {
      SpanAgrees(mode, line, at, memo, plain);
      var (span, next, after) := StepAt(mode, line, at, memo);
      SpansAgree(mode, line, next, if span.Text? then text + span.text else "", after,
                 StepAt(mode.(code := false), line, at, plain).2);
    }
  }

  /**
   Every line reads the same with the memo of code as with a fresh search for each run of backticks,
   in the line itself and in all that is read inside its links and emphasis.
   */
  lemma {:induction false} MemoChangesNoReading(mode: Mode, line: string)
    requires mode.code
    ensures Spans(mode, line) == Spans(mode.(code := false), line)
    decreases |line|, |line|, 5
  {
    SpansAgree(mode, line, 0, "", map[], map[]);
  }

  // ---------------------------------------------------------------------------------------
  // What is read is what was written
  // ---------------------------------------------------------------------------------------

  /** Whether `part` is `whole` with some characters left out. */
  predicate Kept(part: string, whole: string) {
    || part == ""
    || (whole != "" && ((part[0] == whole[0] && Kept(part[1..], whole[1..])) || Kept(part, whole[1..])))
  }

  lemma {:induction false} KeptAll(s: string)
    ensures Kept(s, s)
  {
    if s != "" {
      KeptAll(s[1..]);
    }
  }

  lemma {:induction false} KeptAfter(part: string, before: string, whole: string)
    requires Kept(part, whole)
    ensures Kept(part, before + whole)
  {
    if before == "" {
      assert before + whole == whole;
    } else {
      KeptAfter(part, before[1..], whole);
      assert (before + whole)[1..] == before[1..] + whole;
    }
  }

  lemma {:induction false} KeptBoth(a: string, b: string, c: string, d: string)
    requires Kept(a, b) && Kept(c, d)
    ensures Kept(a + c, b + d)
    decreases |b|
  {
    if a == "" {
      assert a + c == c;
      KeptAfter(c, b, d);
    } else {
      assert (b + d)[1..] == b[1..] + d;
      assert (a + c)[1..] == a[1..] + c;
      if a[0] == b[0] && Kept(a[1..], b[1..]) {
        KeptBoth(a[1..], b[1..], c, d);
      } else {
        KeptBoth(a, b[1..], c, d);
      }
    }
  }

  lemma KeptStretch(line: string, from: nat, to: nat, at: nat, end: nat)
    requires at <= from <= to <= end <= |line|
    ensures Kept(line[from..to], line[at..end])
  {
    KeptAll(line[from..to]);
    KeptAfter(line[from..to], line[at..from], line[from..to]);
    assert line[at..from] + line[from..to] == line[at..to];
    assert Kept("", line[to..end]);
    KeptBoth(line[from..to], line[at..to], "", line[to..end]);
    assert line[from..to] + "" == line[from..to];
    assert line[at..to] + line[to..end] == line[at..end];
  }

  lemma {:induction false} KeptThrough(a: string, b: string, c: string)
    requires Kept(a, b) && Kept(b, c)
    ensures Kept(a, c)
    decreases |b| + |c|
  {
    if a != "" {
      if b[0] == c[0] && Kept(b[1..], c[1..]) {
        if a[0] == b[0] && Kept(a[1..], b[1..]) {
          KeptThrough(a[1..], b[1..], c[1..]);
        } else {
          KeptThrough(a, b[1..], c[1..]);
        }
      } else {
        KeptThrough(a, b, c[1..]);
      }
    }
  }

  lemma KeptFromStretch(part: string, line: string, from: nat, to: nat, at: nat, end: nat)
    requires at <= from <= to <= end <= |line| && Kept(part, line[from..to])
    ensures Kept(part, line[at..end])
  {
    KeptStretch(line, from, to, at, end);
    KeptThrough(part, line[from..to], line[at..end]);
  }

  lemma {:induction false} PlainAppend(a: seq<Span>, b: seq<Span>)
    ensures Plain(a + b) == Plain(a) + Plain(b)
  {
    if a == [] {
      assert a + b == b;
    } else {
      assert (a + b)[1..] == a[1..] + b;
      PlainAppend(a[1..], b);
    }
  }

  lemma PlainOne(span: Span)
    ensures Plain([span]) == Words(span)
  {
    assert Plain([span]) == Words(span) + Plain([]);
  }

  /** What a step reads is, in its place, what the line says there with some of it left out. */
  lemma {:induction false} StepKeepsWords(mode: Mode, line: string, at: nat, memo: Memo)
    requires at < |line|
    ensures Kept(Words(StepAt(mode, line, at, memo).0), line[at..StepAt(mode, line, at, memo).1])
    decreases |line|, |line| - at, 3
  {
    var mark := line[at];
    if mark == '\\' && at + 1 < |line| && IsPunctuation(line[at + 1]) {
      KeptStretch(line, at + 1, at + 2, at, at + 2);
      assert line[at + 1..at + 2] == [line[at + 1]];
    } else if mark == '`' {
      CodeKeepsWords(mode, line, at, memo);
    } else if (mark == '[' || (mark == '!' && IsAt(line, at + 1, '['))) && ReferenceAt(line, at).Some? {
      LinkKeepsWords(mode, line, at);
    } else if mark == '*' || mark == '_' {
      EmphasisKeepsWords(mode, line, at, memo);
    } else {
      KeptStretch(line, at, at + 1, at, at + 1);
      assert line[at..at + 1] == [line[at]];
    }
  }

  lemma CodeKeepsWords(mode: Mode, line: string, at: nat, memo: Memo)
    requires at < |line|
    ensures var r := CodeAt(mode, line, at, memo); Kept(Words(r.0), line[at..r.1])
  {
    var from := RunEnd(line, at);
    var marks := line[at..from];
    var end := CodeCloser(mode, line, from, marks, memo).0;
    if end.Some? {
      KeptStretch(line, from, end.value, at, end.value + |marks|);
    } else {
      KeptStretch(line, at, from, at, from);
    }
  }

  lemma LinkSays(mode: Mode, line: string, at: nat)
    requires at < |line| && ReferenceAt(line, at).Some?
    ensures var found := ReferenceAt(line, at).value;
            var words := line[found.words..found.close];
            var r := LinkAt(mode, line, at).value;
            && r.1 == found.end
            && Words(r.0) == if IsBlank(words) then line[found.close + 2..found.address]
                             else Plain(Spans(mode, words))
  {
    var found := ReferenceAt(line, at).value;
    PlainOne(Text(line[found.close + 2..found.address]));
  }

  lemma {:induction false} LinkKeepsWords(mode: Mode, line: string, at: nat)
    requires at < |line| && ReferenceAt(line, at).Some?
    ensures var r := LinkAt(mode, line, at).value; Kept(Words(r.0), line[at..r.1])
    decreases |line|, |line| - at, 1
  {
    LinkSays(mode, line, at);
    var found := ReferenceAt(line, at).value;
    var words := line[found.words..found.close];
    if IsBlank(words) {
      KeptStretch(line, found.close + 2, found.address, at, found.end);
    } else {
      SpansKeepWords(mode, words);
      KeptFromStretch(Plain(Spans(mode, words)), line, found.words, found.close, at, found.end);
    }
  }

  lemma {:induction false} EmphasisKeepsWords(mode: Mode, line: string, at: nat, memo: Memo)
    requires at < |line|
    ensures var r := EmphasisAt(mode, line, at, memo); Kept(Words(r.0), line[at..r.1])
    decreases |line|, |line| - at, 1
  {
    var marks := MarksAt(line, at);
    var end := EmphasisEnd(mode, line, at, memo).0;
    if end.Some? {
      var inner := line[at + |marks|..end.value];
      SpansKeepWords(mode, inner);
      KeptFromStretch(Plain(Spans(mode, inner)), line, at + |marks|, end.value, at, end.value + |marks|);
    } else {
      KeptStretch(line, at, RunEnd(line, at), at, RunEnd(line, at));
    }
  }

  lemma {:induction false} FromKeepsWords(mode: Mode, line: string, at: nat, text: string, memo: Memo)
    requires at <= |line|
    ensures Kept(Plain(SpansFrom(mode, line, at, text, memo)), text + line[at..])
    decreases |line|, |line| - at, 4
  {
    if at == |line| {
      assert text + line[at..] == text;
      KeptAll(text);
      PlainOne(Text(text));
    } else {
      var (span, next, after) := StepAt(mode, line, at, memo);
      StepKeepsWords(mode, line, at, memo);
      assert line[at..next] + line[next..] == line[at..];
      if span.Text? {
        FromKeepsWords(mode, line, next, text + span.text, after);
        KeptAll(text);
        KeptAll(line[next..]);
        KeptBoth(text, text, span.text, line[at..next]);
        KeptBoth(text + span.text, text + line[at..next], line[next..], line[next..]);
        assert text + line[at..next] + line[next..] == text + line[at..];
        KeptThrough(Plain(SpansFrom(mode, line, at, text, memo)), text + span.text + line[next..],
                    text + line[at..]);
      } else {
        FromKeepsWords(mode, line, next, "", after);
        FlushKeepsWords(text, span, SpansFrom(mode, line, next, "", after), line[at..next], line[next..]);
        assert text + line[at..next] + line[next..] == text + line[at..];
      }
    }
  }

  lemma FlushKeepsWords(text: string, span: Span, rest: seq<Span>, here: string, later: string)
    requires Kept(Words(span), here) && Kept(Plain(rest), "" + later)
    ensures Kept(Plain(Flushed(text) + [span] + rest), text + here + later)
  {
    PlainAppend(Flushed(text) + [span], rest);
    PlainAppend(Flushed(text), [span]);
    PlainOne(span);
    PlainOne(Text(text));
    assert Plain(Flushed(text)) == text;
    KeptAll(text);
    KeptBoth(text, text, Words(span), here);
    assert "" + later == later;
    KeptBoth(text + Words(span), text + here, Plain(rest), later);
  }

  /** Reading never makes up, repeats or reorders a character: what spans say is what the line says
      with its marks left out. */
  lemma {:induction false} SpansKeepWords(mode: Mode, line: string)
    ensures Kept(Plain(Spans(mode, line)), line)
    decreases |line|, |line|, 5
  {
    FromKeepsWords(mode, line, 0, "", map[]);
    assert "" + line[0..] == line;
  }

  /** Text written so that it reads as itself: every ASCII punctuation character after a backslash. */
  function Escaped(text: string): string {
    if text == "" then ""
    else (if IsPunctuation(text[0]) then ['\\', text[0]] else [text[0]]) + Escaped(text[1..])
  }

  lemma {:induction false} EscapedFrom(
    mode: Mode, line: string, at: nat, read: string, text: string, memo: Memo)
    requires at <= |line| && line[at..] == Escaped(text)
    ensures SpansFrom(mode, line, at, read, memo) == Flushed(read + text)
    decreases |text|
  {
    if text == "" {
      assert read + text == read;
    } else {
      var width := if IsPunctuation(text[0]) then 2 else 1;
      assert line[at] == Escaped(text)[0];
      assert line[at..][width..] == Escaped(text)[width..] == Escaped(text[1..]);
      assert line[at + width..] == line[at..][width..];
      if IsPunctuation(text[0]) {
        assert line[at + 1] == Escaped(text)[1] == text[0];
      } else {
        assert SpanAt(mode, line, at, memo) == (None, memo);
      }
      assert StepAt(mode, line, at, memo) == (Text([text[0]]), at + width, memo);
      EscapedFrom(mode, line, at + width, read + [text[0]], text[1..], memo);
      assert read + [text[0]] + text[1..] == read + text;
    }
  }

  /** An escaped text reads back as one span of text, the text itself. */
  lemma EscapedReadsAsItself(mode: Mode, text: string)
    ensures Spans(mode, Escaped(text)) == Flushed(text)
    ensures Plain(Spans(mode, Escaped(text))) == text
  {
    assert Escaped(text)[0..] == Escaped(text) && "" + text == text;
    EscapedFrom(mode, Escaped(text), 0, "", text, map[]);
    PlainOne(Text(text));
  }

  /** `**a ****b`, character by character. */
  predicate IsTwice(line: string) {
    && |line| == 9
    && line[0] == line[1] == line[4] == line[5] == line[6] == line[7] == '*'
    && line[2] == 'a' && line[3] == ' ' && line[8] == 'b'
  }

  lemma RunsOfTwice(line: string)
    requires IsTwice(line)
    ensures RunEnd(line, 0) == 2 && RunEnd(line, 2) == 3 && RunEnd(line, 3) == 4
    ensures RunEnd(line, 4) == 8 && RunEnd(line, 6) == 8 && RunEnd(line, 8) == 9
  {
    assert RunEnd(line, 1) == 2;
    assert RunEnd(line, 7) == 8;
    assert RunEnd(line, 5) == 8;
  }

  /** A character that is no mark is text. */
  lemma PlainCharacter(mode: Mode, line: string, at: nat, text: string, memo: Memo)
    requires at < |line| && !IsPunctuation(line[at])
    ensures SpansFrom(mode, line, at, text, memo) ==
            SpansFrom(mode, line, at + 1, text + [line[at]], memo)
  {
    assert SpanAt(mode, line, at, memo) == (None, memo);
  }

  /** The first marks of the line open nothing, as a space stands before the others. */
  lemma FirstMarksOfTwice(mode: Mode, line: string)
    requires IsTwice(line)
    ensures var memo: Memo := if mode.marks then map["**" := 2] else map[];
            EmphasisEnd(mode, line, 0, map[]) == (None, memo)
  {
    RunsOfTwice(line);
    assert MarksAt(line, 0) == "**";
    assert ScanMarks(mode, line, 8, "**", map[]) == (None, map[]);
    assert ScanMarks(mode, line, 4, "**", map[]) == (None, map[]);
    assert ScanMarks(mode, line, 3, "**", map[]) == (None, map[]);
    assert ScanMarks(mode, line, 2, "**", map[]) == (None, map[]);
  }

  lemma StartOfTwice(mode: Mode, line: string)
    requires IsTwice(line)
    ensures var memo: Memo := if mode.marks then map["**" := 2] else map[];
            Spans(mode, line) == SpansFrom(mode, line, 4, line[..4], memo)
  {
    RunsOfTwice(line);
    FirstMarksOfTwice(mode, line);
    var memo: Memo := if mode.marks then map["**" := 2] else map[];
    assert EmphasisAt(mode, line, 0, map[]) == (Text(line[0..2]), 2, memo);
    assert SpanAt(mode, line, 0, map[]) == (Some((Text(line[0..2]), 2)), memo);
    assert "" + line[0..2] == line[..2] && line[..2] + [line[2]] == line[..3];
    assert line[..3] + [line[3]] == line[..4];
    assert SpansFrom(mode, line, 0, "", map[]) == SpansFrom(mode, line, 2, line[..2], memo);
    PlainCharacter(mode, line, 2, line[..2], memo);
    PlainCharacter(mode, line, 3, line[..3], memo);
  }

  lemma WithTheMemo(mode: Mode, line: string)
    requires IsTwice(line) && mode.marks
    ensures Spans(mode, line) == [Text(line)]
  {
    RunsOfTwice(line);
    StartOfTwice(mode, line);
    var memo: Memo := map["**" := 2];
    assert MarksAt(line, 4) == "**";
    assert EmphasisEnd(mode, line, 4, memo) == (None, memo);
    assert EmphasisAt(mode, line, 4, memo) == (Text(line[4..8]), 8, memo);
    assert SpanAt(mode, line, 4, memo) == (Some((Text(line[4..8]), 8)), memo);
    assert line[..4] + line[4..8] == line[..8] && line[..8] + [line[8]] == line;
    PlainCharacter(mode, line, 8, line[..8], memo);
  }

  lemma WithoutTheMemo(mode: Mode, line: string)
    requires IsTwice(line) && !mode.marks
    ensures Spans(mode, line) == [Text(line[..4]), Strong([]), Text(line[8..])]
  {
    RunsOfTwice(line);
    StartOfTwice(mode, line);
    assert MarksAt(line, 4) == "**" && Closes(line, 6, 8, "**");
    assert EmphasisEnd(mode, line, 4, map[]) == (Some(6), map[]);
    assert line[6..6] == "" && Spans(mode, "") == [];
    assert EmphasisAt(mode, line, 4, map[]) == (Strong([]), 8, map[]);
    assert SpanAt(mode, line, 4, map[]) == (Some((Strong([]), 8)), map[]);
    assert SpansFrom(mode, line, 4, line[..4], map[]) ==
        Flushed(line[..4]) + [Strong([])] + SpansFrom(mode, line, 8, "", map[]);
    PlainCharacter(mode, line, 8, "", map[]);
    assert "" + [line[8]] == line[8..];
  }

  /**
   The memo of emphasis is not exact: on this line a search it skips, as one from further left found
   nothing, would find what closes it at once, right after the marks that open it.
   */
  lemma EmphasisMemoIsNotExact(mode: Mode, line: string)
    requires line == "**a ****b"
    ensures Spans(mode.(marks := true), line) == [Text(line)]
    ensures Spans(mode.(marks := false), line) == [Text("**a "), Strong([]), Text("b")]
  {
    assert IsTwice(line) && line[..4] == "**a " && line[8..] == "b";
    WithTheMemo(mode.(marks := true), line);
    WithoutTheMemo(mode.(marks := false), line);
  }

  // ---------------------------------------------------------------------------------------
  // The page's loops
  // ---------------------------------------------------------------------------------------

  /** Where looking for what closes marks found nothing, kept while a line is read. */
  class Unclosed {
    var searches: Memo

    constructor ()
      ensures searches == map[]
    {
      searches := map[];
    }
  }

  method RunAt(line: string, at: nat) returns (run: nat)
    requires at < |line|
    ensures run == RunEnd(line, at) - at
  {
    var end := at;
    while end < |line| && line[end] == line[at]
      invariant at <= end <= |line|
      invariant end == RunEnd(line, at) || (end < RunEnd(line, at) && line[end] == line[at])
    {
      RunGoesOn(line, at, end);
      end := end + 1;
    }
    run := end - at;
  }

  lemma RunGoesOn(line: string, at: nat, end: nat)
    requires at <= end < |line| && line[end] == line[at] && end <= RunEnd(line, at)
    ensures end < RunEnd(line, at)
    ensures end + 1 < RunEnd(line, at) ==> line[end + 1] == line[at]
  {
  }

  /** Marks that one search is made for: a run of backticks, or one or two marks of emphasis. */
  predicate AreMarks(marks: string) {
    marks != "" && (marks[0] == '`' || |marks| <= 2)
  }

  /** The search for what closes `marks`, code or emphasis. */
  function Scanned(line: string, at: nat, marks: string, memo: Memo): (Option<nat>, Memo)
    requires 1 <= at && AreMarks(marks)
  {
    if marks[0] == '`' then (ScanTicks(line, at, |marks|), memo)
    else ScanMarks(PAGE, line, at, marks, memo)
  }

  function Closed(line: string, from: nat, marks: string, memo: Memo): (Option<nat>, Memo)
    requires 1 <= from && AreMarks(marks)
  {
    if marks[0] == '`' then CodeCloser(PAGE, line, from, marks, memo)
    else MarkCloser(PAGE, line, from, marks, memo)
  }

  method Closer(line: string, from: nat, marks: string, unclosed: Unclosed) returns (end: Option<nat>)
    requires 1 <= from && AreMarks(marks)
    modifies unclosed
    ensures (end, unclosed.searches) == Closed(line, from, marks, old(unclosed.searches))
    decreases if marks[0] == '`' then 0 else 2
  {
    if from >= if marks in unclosed.searches then unclosed.searches[marks] else |line| {
      return None;
    }
    var at := from;
    while at < |line|
      invariant from <= at
      invariant Scanned(line, from, marks, old(unclosed.searches))
                == Scanned(line, at, marks, unclosed.searches)
      decreases |line| - at
    {
      var run := RunAt(line, at);
      if line[at] == marks[0]
         && (if marks[0] == '`' then run == |marks| else Closes(line, at, at + run, marks)) {
        return Some(at + run - |marks|);
      }
      if marks[0] != '`' && line[at] == '\\' {
        at := at + 2;
      } else if marks[0] != '`' && line[at] == '`' {
        var _, next := CodeSpan(line, at, unclosed);
        at := next;
      } else {
        at := at + run;
      }
    }
    unclosed.searches := unclosed.searches[marks := from];
    end := None;
  }

  method CodeSpan(line: string, at: nat, unclosed: Unclosed) returns (span: Span, next: nat)
    requires at < |line| && line[at] == '`'
    modifies unclosed
    ensures (span, next, unclosed.searches) == CodeAt(PAGE, line, at, old(unclosed.searches))
    decreases 1
  {
    var run := RunAt(line, at);
    var marks := line[at..at + run];
    assert AllTicks(marks);
    var end := Closer(line, at + run, marks, unclosed);
    if end.None? {
      return Text(marks), at + run;
    }
    return Code(line[at + run..end.value]), end.value + |marks|;
  }

  method EmphasisCloser(line: string, at: nat, run: nat, unclosed: Unclosed) returns (end: Option<nat>)
    requires at < |line| && line[at] != '`' && run == RunEnd(line, at) - at
    modifies unclosed
    ensures (end, unclosed.searches) == EmphasisEnd(PAGE, line, at, old(unclosed.searches))
    decreases 3
  {
    end := None;
    if Opens(line, at, at + run) {
      var marks := line[at..at + Min(run, 2)];
      end := Closer(line, at + |marks|, marks, unclosed);
    }
  }

  method EmphasisSpan(line: string, at: nat, unclosed: Unclosed) returns (span: Span, next: nat)
    requires at < |line| && line[at] != '`'
    modifies unclosed
    ensures (span, next, unclosed.searches) == EmphasisAt(PAGE, line, at, old(unclosed.searches))
    decreases |line|, 1
  {
    var run := RunAt(line, at);
    var marks := line[at..at + Min(run, 2)];
    var end := EmphasisCloser(line, at, run, unclosed);
    if end.None? {
      return Text(line[at..at + run]), at + run;
    }
    var inner := SpansOf(line[at + |marks|..end.value]);
    span := if |marks| == 2 then Strong(inner) else Em(inner);
    next := end.value + |marks|;
  }

  method LinkSpan(line: string, at: nat) returns (found: Option<(Span, nat)>)
    requires at < |line|
    ensures found == LinkAt(PAGE, line, at)
    decreases |line|, 1
  {
    var reference := ReferenceAt(line, at);
    if reference.None? {
      return None;
    }
    var words := line[reference.value.words..reference.value.close];
    var href := line[reference.value.close + 2..reference.value.address];
    var inner := [Text(href)];
    if !IsBlank(words) {
      inner := SpansOf(words);
    }
    found := Some((Link(inner, href), reference.value.end));
  }

  method SpanFound(line: string, at: nat, unclosed: Unclosed) returns (found: Option<(Span, nat)>)
    requires at < |line|
    modifies unclosed
    ensures (found, unclosed.searches) == SpanAt(PAGE, line, at, old(unclosed.searches))
    decreases |line|, 2
  {
    var mark := line[at];
    if mark == '\\' && at + 1 < |line| && IsPunctuation(line[at + 1]) {
      return Some((Text([line[at + 1]]), at + 2));
    }
    if mark == '`' {
      var span, next := CodeSpan(line, at, unclosed);
      return Some((span, next));
    }
    if mark == '[' || (mark == '!' && IsAt(line, at + 1, '[')) {
      found := LinkSpan(line, at);
      return;
    }
    if mark == '*' || mark == '_' {
      var span, next := EmphasisSpan(line, at, unclosed);
      return Some((span, next));
    }
    found := None;
  }

  lemma OneStep(line: string, at: nat, text: string, memo: Memo)
    requires at < |line|
    ensures var (span, next, after) := StepAt(PAGE, line, at, memo);
            SpansFrom(PAGE, line, at, text, memo) ==
            if span.Text? then SpansFrom(PAGE, line, next, text + span.text, after)
            else Flushed(text) + [span] + SpansFrom(PAGE, line, next, "", after)
  {
    hide StepAt;
  }

  lemma FoundSoFar(found: seq<Span>, text: seq<Span>, span: Span, rest: seq<Span>)
    ensures found + (text + [span] + rest) == found + text + [span] + rest
  {
  }

  /** The page's reader of a line: what it returns is what the functions above say the line is. */
  method SpansOf(line: string) returns (found: seq<Span>)
    ensures found == Spans(PAGE, line)
    decreases |line|, 3
  {
    hide SpanAt;
    found := [];
    var unclosed := new Unclosed();
    var text, at := "", 0;
    while at < |line|
      invariant at <= |line|
      invariant Spans(PAGE, line) == found + SpansFrom(PAGE, line, at, text, unclosed.searches)
    {
      OneStep(line, at, text, unclosed.searches);
      var one := SpanFound(line, at, unclosed);
      var span, next := Text([line[at]]), at + 1;
      if one.Some? {
        span, next := one.value.0, one.value.1;
      }
      if span.Text? {
        text := text + span.text;
      } else {
        FoundSoFar(found, Flushed(text), span, SpansFrom(PAGE, line, next, "", unclosed.searches));
        found := found + Flushed(text) + [span];
        text := "";
      }
      at := next;
    }
    found := found + Flushed(text);
  }
}
