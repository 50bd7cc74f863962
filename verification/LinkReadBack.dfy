/**
 Links as they are written (app/ui/core/markdown.js): read with their own words and addresses where one is
 written, and nowhere else. What a line with one span in it reads as.
 */
module LinkReadBack {
  import opened Prelude
  import opened Characters
  import opened MarkdownInline
  import opened Parts

  // ---------------------------------------------------------------------------------------
  // A link as it is written
  // ---------------------------------------------------------------------------------------

  /** Parentheses around what has no space and no parenthesis. */
  predicate IsGroup(s: string) {
    && |s| >= 2 && s[0] == '(' && s[|s| - 1] == ')'
    && forall i :: 0 < i < |s| - 1 ==> s[i] != '(' && s[i] != ')' && !IsSpace(s[i])
  }

  /** Characters that are no space and no parenthesis, and groups between them. */
  ghost predicate IsAddress(s: string) {
    || s == ""
    || (s[0] != '(' && s[0] != ')' && !IsSpace(s[0]) && IsAddress(s[1..]))
    || exists k :: 2 <= k <= |s| && IsGroup(s[..k]) && IsAddress(s[k..])
  }

  /** Nothing, or spaces and then anything between quotes. */
  ghost predicate IsTitle(s: string) {
    s == "" || exists k :: 0 < k < |s| && IsBlank(s[..k]) && IsQuoted(s[k..])
  }

  predicate IsQuoted(s: string) {
    |s| >= 2 && s[0] == '"' == s[|s| - 1] && forall i :: 0 < i < |s| - 1 ==> s[i] != '"'
  }

  ghost predicate IsLink(s: string, words: string, href: string, title: string) {
    && '[' !in words && ']' !in words && IsAddress(href) && IsTitle(title)
    && (s == "[" + words + "](" + href + title + ")" || s == "![" + words + "](" + href + title + ")")
  }

  lemma {:induction false} UntilIs(line: string, at: nat, stops: set<char>, spaces: bool, end: nat)
    requires at <= end <= |line|
    requires forall i :: at <= i < end ==> line[i] !in stops && !(spaces && IsSpace(line[i]))
    requires end < |line| ==> line[end] in stops || (spaces && IsSpace(line[end]))
    ensures Until(line, at, stops, spaces) == end
    decreases end - at
  {
    if at < end {
      UntilIs(line, at + 1, stops, spaces, end);
    }
  }

  lemma {:induction false} UntilMeans(line: string, at: nat, stops: set<char>, spaces: bool)
    requires at <= |line|
    ensures forall i :: at <= i < Until(line, at, stops, spaces) ==>
              line[i] !in stops && !(spaces && IsSpace(line[i]))
    decreases |line| - at
  {
    if at < |line| && line[at] !in stops && !(spaces && IsSpace(line[at])) {
      UntilMeans(line, at + 1, stops, spaces);
    }
  }

  lemma {:induction false} SpacesEndIs(line: string, at: nat, end: nat)
    requires at <= end <= |line| && (forall i :: at <= i < end ==> IsSpace(line[i]))
    requires end < |line| ==> !IsSpace(line[end])
    ensures SpacesEnd(line, at) == end
    decreases end - at
  {
    if at < end {
      SpacesEndIs(line, at + 1, end);
    }
  }

  lemma GroupIs(line: string, at: nat, end: nat)
    requires at <= end <= |line| && IsGroup(line[at..end])
    ensures line[at] == '(' && PairEnd(line, at + 1) == end - 1 && line[end - 1] == ')'
  {
    var group := line[at..end];
    assert group[0] == line[at] && group[|group| - 1] == line[end - 1];
    forall i | at + 1 <= i < end - 1
      ensures line[i] !in {'(', ')'} && !IsSpace(line[i])
    {
      assert group[i - at] == line[i];
    }
    UntilIs(line, at + 1, {'(', ')'}, true, end - 1);
  }

  lemma PastGroup(line: string, at: nat, next: nat)
    requires at <= next <= |line| && IsGroup(line[at..next])
    ensures AddressEnd(line, at) == AddressEnd(line, next)
  {
    hide IsSpace, PairEnd, IsGroup;
    GroupIs(line, at, next);
    ParenthesisIsNoSpace();
  }

  /** Reading an address goes on from after its first character, or group. */
  lemma FirstOfAddress(line: string, at: nat, end: nat) returns (next: nat)
    requires at < end <= |line| && IsAddress(line[at..end])
    ensures at < next <= end && IsAddress(line[next..end]) && AddressEnd(line, at) == AddressEnd(line, next)
  {
    hide IsSpace, PairEnd, IsGroup;
    ParenthesisIsNoSpace();
    var s := line[at..end];
    assert s[0] == line[at];
    if s[0] != '(' && s[0] != ')' && !IsSpace(s[0]) && IsAddress(s[1..]) {
      assert s[1..] == line[at + 1..end];
      next := at + 1;
    } else {
      var k :| 2 <= k <= |s| && IsGroup(s[..k]) && IsAddress(s[k..]);
      next := at + k;
      assert s[..k] == line[at..next] && s[k..] == line[next..end];
      hide IsAddress, AddressEnd;
      PastGroup(line, at, next);
    }
  }

  /** An address is read to its end, before the space or parenthesis after it. */
  lemma {:induction false} AddressIs(line: string, at: nat, end: nat)
    requires at <= end < |line| && IsAddress(line[at..end]) && (IsSpace(line[end]) || line[end] == ')')
    ensures AddressEnd(line, at) == end
    decreases end - at
  {
    hide IsSpace, IsAddress;
    if at < end {
      var next := FirstOfAddress(line, at, end);
      AddressIs(line, next, end);
    }
  }

  lemma ParenthesisIsNoSpace()
    ensures !IsSpace('(') && !IsSpace(')')
  {
  }

  lemma GroupMeans(line: string, at: nat, close: nat)
    requires at < |line| && line[at] == '(' && close == PairEnd(line, at + 1)
    requires close < |line| && line[close] == ')'
    ensures IsGroup(line[at..close + 1])
  {
    UntilMeans(line, at + 1, {'(', ')'}, true);
    hide PairEnd, IsSpace;
  }

  lemma {:induction false} AddressMeans(line: string, at: nat)
    requires at <= |line|
    ensures IsAddress(line[at..AddressEnd(line, at)])
    decreases |line| - at
  {
    hide IsSpace, PairEnd, IsGroup;
    var end := AddressEnd(line, at);
    var s := line[at..end];
    if at < end {
      if line[at] != '(' {
        AddressMeans(line, at + 1);
        assert s[1..] == line[at + 1..end];
      } else {
        var close := PairEnd(line, at + 1);
        GroupMeans(line, at, close);
        AddressMeans(line, close + 1);
        var k := close + 1 - at;
        assert s[..k] == line[at..close + 1] && s[k..] == line[close + 1..end];
      }
    }
  }

  lemma QuotedIs(line: string, at: nat, end: nat)
    requires at <= end <= |line| && IsQuoted(line[at..end])
    ensures at + 2 <= end && line[at] == '"' == line[end - 1] && Until(line, at + 1, {'"'}, false) == end - 1
  {
    var quoted := line[at..end];
    assert quoted[0] == line[at] && quoted[|quoted| - 1] == line[end - 1];
    forall i | at < i < end - 1 ensures line[i] != '"' {
      assert quoted[i - at] == line[i];
    }
    UntilIs(line, at + 1, {'"'}, false, end - 1);
  }

  lemma BlankIs(line: string, at: nat, end: nat)
    requires at < end < |line| && IsBlank(line[at..end]) && line[end] == '"'
    ensures SpacesEnd(line, at) == end && IsSpace(line[at])
  {
    forall i | at <= i < end ensures IsSpace(line[i]) {
      assert line[at..end][i - at] == line[i];
    }
    SpacesEndIs(line, at, end);
  }

  lemma TitleIs(line: string, at: nat, end: nat)
    requires at <= end < |line| && IsTitle(line[at..end]) && line[end] == ')'
    ensures LinkEnd(line, at) == Some(end + 1)
    ensures IsSpace(line[at]) || line[at] == ')'
  {
    hide IsBlank, IsQuoted, Until, SpacesEnd, IsSpace;
    var s := line[at..end];
    if s != "" {
      var k :| 0 < k < |s| && IsBlank(s[..k]) && IsQuoted(s[k..]);
      SlicesOf(line, at, end, k);
      QuotedIs(line, at + k, end);
      BlankIs(line, at, at + k);
      ParenthesisIsNoSpace();
    }
  }

  lemma QuotedMeans(line: string, at: nat)
    requires at < |line| && line[at] == '"' && IsAt(line, Until(line, at + 1, {'"'}, false), '"')
    ensures IsQuoted(line[at..Until(line, at + 1, {'"'}, false) + 1])
  {
    UntilMeans(line, at + 1, {'"'}, false);
    hide Until;
  }

  lemma SpacesMean(line: string, at: nat)
    requires at <= |line|
    ensures IsBlank(line[at..SpacesEnd(line, at)])
  {
    hide SpacesEnd, IsSpace;
    var end := SpacesEnd(line, at);
    forall i | 0 <= i < end - at ensures IsSpace(line[at..end][i]) {
      assert line[at..end][i] == line[at + i];
    }
  }

  lemma TitleMeans(line: string, at: nat)
    requires at <= |line| && LinkEnd(line, at).Some?
    ensures var end := LinkEnd(line, at).value - 1; at <= end && line[end] == ')' && IsTitle(line[at..end])
  {
    hide SpacesEnd, Until, IsBlank, IsQuoted, IsSpace;
    var end := LinkEnd(line, at).value - 1;
    var s := line[at..end];
    if !IsAt(line, at, ')') {
      var quote := SpacesEnd(line, at);
      SpacesMean(line, at);
      QuotedMeans(line, quote);
      SlicesOf(line, at, end, quote - at);
    }
  }

  /** A reference is found where its parts stand one after the other. */
  lemma ReferenceIs(line: string, at: nat, open: nat, close: nat, address: nat, end: nat)
    requires at < |line| && (open == at || (open == at + 1 && line[at] == '!'))
    requires open < close && close + 2 <= address < end <= |line| && line[open] == '['
    requires '[' !in line[open + 1..close] && ']' !in line[open + 1..close]
    requires line[close] == ']' && line[close + 1] == '(' && line[end - 1] == ')'
    requires IsAddress(line[close + 2..address]) && IsTitle(line[address..end - 1])
    ensures ReferenceAt(line, at) == Some(Reference(open + 1, close, address, end))
  {
    hide IsAddress, IsTitle, AddressEnd, LinkEnd, IsSpace;
    WordsEnd(line, open + 1, close);
    TitleIs(line, address, end - 1);
    AddressIs(line, close + 2, address);
    hide Until;
  }

  lemma WordsEnd(line: string, at: nat, close: nat)
    requires at <= close < |line| && '[' !in line[at..close] && ']' !in line[at..close] && line[close] == ']'
    ensures Until(line, at, {'[', ']'}, false) == close
  {
    forall i | at <= i < close ensures line[i] !in {'[', ']'} {
      assert line[at..close][i - at] == line[i];
    }
    UntilIs(line, at, {'[', ']'}, false, close);
  }

  lemma WordsMean(line: string, at: nat)
    requires at <= |line|
    ensures var words := line[at..Until(line, at, {'[', ']'}, false)]; '[' !in words && ']' !in words
  {
    UntilMeans(line, at, {'[', ']'}, false);
    hide Until;
  }

  lemma ReferenceMeans(line: string, at: nat)
    requires at < |line| && ReferenceAt(line, at).Some?
    ensures var r := ReferenceAt(line, at).value;
            && (r.words == at + 1 || (r.words == at + 2 && line[at] == '!')) && line[r.words - 1] == '['
            && '[' !in line[r.words..r.close] && ']' !in line[r.words..r.close]
            && line[r.close] == ']' && line[r.close + 1] == '(' && line[r.end - 1] == ')'
            && IsAddress(line[r.close + 2..r.address]) && IsTitle(line[r.address..r.end - 1])
  {
    hide IsAddress, IsTitle, Until, AddressEnd, LinkEnd;
    var r := ReferenceAt(line, at).value;
    WordsMean(line, r.words);
    AddressMeans(line, r.close + 2);
    TitleMeans(line, r.address);
  }

  // ---------------------------------------------------------------------------------------
  // A link is read where one is written, and nowhere else
  // ---------------------------------------------------------------------------------------

  /** What a link with these words and this address reads as: the address for its words where they are blank. */
  function LinkTo(mode: Mode, words: string, href: string): Span {
    Link(if IsBlank(words) then [Text(href)] else Spans(mode, words), href)
  }

  lemma LinkOf(mode: Mode, line: string, at: nat, r: Reference)
    requires at < |line| && ReferenceAt(line, at) == Some(r)
    ensures r.words <= r.close && r.close + 2 <= r.address <= |line|
    ensures LinkAt(mode, line, at) ==
            Some((LinkTo(mode, line[r.words..r.close], line[r.close + 2..r.address]), r.end))
  {
    hide ReferenceAt, Spans, IsBlank;
  }

  lemma LinkRegrouped(mark: string, words: string, href: string, title: string)
    ensures mark + "[" + words + "](" + href + title + ")" ==
            mark + ("[" + (words + ("]" + ("(" + (href + (title + ")"))))))
  {
    assert "](" == "]" + "(";
    Regrouped(mark + "[" + words, "]", "(", href + title + ")");
    Regrouped(mark, "[", words, "](" + href + title + ")");
  }

  lemma MarkOf(s: string, words: string, href: string, title: string) returns (mark: string)
    requires IsLink(s, words, href, title)
    ensures s == mark + "[" + words + "](" + href + title + ")" && (mark == "" || mark == "!")
    ensures '[' !in words && ']' !in words && IsAddress(href) && IsTitle(title)
  {
    hide IsAddress, IsTitle;
    mark := if s == "[" + words + "](" + href + title + ")" then "" else "!";
    assert "" + "[" == "[" && "!" + "[" == "![";
  }

  /** A link written at a place of a line, whatever stands around it, is read there with its own address. */
  lemma LinkIsRead(mode: Mode, line: string, at: nat, s: string, words: string, href: string, title: string)
    requires Stands(line, at, s) && IsLink(s, words, href, title)
    ensures LinkAt(mode, line, at) == Some((LinkTo(mode, words, href), at + |s|))
  {
    hide IsAddress, IsTitle, Stands, ReferenceAt, LinkAt, LinkTo;
    var mark := MarkOf(s, words, href, title);
    hide IsLink;
    LinkPartsStand(line, at, s, mark, words, href, title);
    var open := at + |mark|;
    var close := open + 1 + |words|;
    var address := close + 2 + |href|;
    var end := address + |title| + 1;
    ReferenceIs(line, at, open, close, address, end);
    LinkOf(mode, line, at, Reference(open + 1, close, address, end));
  }

  lemma LinkPartsStand(line: string, at: nat, s: string, mark: string, words: string, href: string, title: string)
    requires Stands(line, at, s) && s == mark + "[" + words + "](" + href + title + ")" && (mark == "" || mark == "!")
    ensures var open := at + |mark|;
            var close := open + 1 + |words|;
            var address := close + 2 + |href|;
            var end := address + |title|;
            && end < |line| && end + 1 == at + |s| && (mark == "!" ==> line[at] == '!') && line[open] == '['
            && line[open + 1..close] == words && line[close] == ']' && line[close + 1] == '('
            && line[close + 2..address] == href && line[address..end] == title && line[end] == ')'
  {
    hide Stands;
    var rest := "]" + ("(" + (href + (title + ")")));
    var close := at + |mark| + 1 + |words|;
    LinkRegrouped(mark, words, href, title);
    StandsThen(line, at, mark, "[" + (words + rest));
    StandsThen(line, at + |mark|, "[", words + rest);
    StandsThen(line, at + |mark| + 1, words, rest);
    StandsOne(line, at, '!');
    StandsOne(line, at + |mark|, '[');
    StandsAs(line, at + |mark| + 1, words);
    AddressStands(line, close, href, title);
  }

  lemma AddressStands(line: string, close: nat, href: string, title: string)
    requires Stands(line, close, "]" + ("(" + (href + (title + ")"))))
    ensures var address := close + 2 + |href|;
            var end := address + |title|;
            && end < |line| && line[close] == ']' && line[close + 1] == '('
            && line[close + 2..address] == href && line[address..end] == title && line[end] == ')'
  {
    hide Stands;
    var address := close + 2 + |href|;
    StandsThen(line, close, "]", "(" + (href + (title + ")")));
    StandsThen(line, close + 1, "(", href + (title + ")"));
    StandsThen(line, close + 2, href, title + ")");
    StandsThen(line, address, title, ")");
    StandsOne(line, close, ']');
    StandsOne(line, close + 1, '(');
    StandsOne(line, address + |title|, ')');
    StandsAs(line, close + 2, href);
    StandsAs(line, address, title);
  }

  /** And what is read as a link is written as one. */
  lemma LinkIsWritten(mode: Mode, line: string, at: nat)
    requires at < |line| && LinkAt(mode, line, at).Some?
    ensures exists s, words, href, title :: Stands(line, at, s) && IsLink(s, words, href, title)
  {
    hide ReferenceAt, Spans, IsAddress, IsTitle;
    var r := ReferenceAt(line, at).value;
    ReferenceMeans(line, at);
    var words, href, title := line[r.words..r.close], line[r.close + 2..r.address], line[r.address..r.end - 1];
    var mark := if r.words == at + 1 then "" else "!";
    LinkPartsMake(line, at, r, mark);
    var s := mark + "[" + words + "](" + href + title + ")";
    assert "" + "[" == "[" && "!" + "[" == "![";
    hide Stands;
    assert IsLink(s, words, href, title);
  }

  lemma AddressMakes(line: string, r: Reference)
    requires r.close + 2 <= r.address < r.end <= |line|
    requires line[r.close] == ']' && line[r.close + 1] == '(' && line[r.end - 1] == ')'
    ensures Stands(line, r.close,
                   "]" + ("(" + (line[r.close + 2..r.address] + (line[r.address..r.end - 1] + ")"))))
  {
    hide Stands;
    var href, title := line[r.close + 2..r.address], line[r.address..r.end - 1];
    SliceStands(line, r.close + 2, r.address);
    SliceStands(line, r.address, r.end - 1);
    StandsOne(line, r.close, ']');
    StandsOne(line, r.close + 1, '(');
    StandsOne(line, r.end - 1, ')');
    ThenStands(line, r.address, title, ")");
    ThenStands(line, r.close + 2, href, title + ")");
    ThenStands(line, r.close + 1, "(", href + (title + ")"));
    ThenStands(line, r.close, "]", "(" + (href + (title + ")")));
  }

  lemma LinkPartsMake(line: string, at: nat, r: Reference, mark: string)
    requires r.words <= r.close && r.close + 2 <= r.address < r.end <= |line|
    requires r.words == at + |mark| + 1 && (mark == "" || (mark == "!" && line[at] == '!'))
    requires line[r.words - 1] == '[' && line[r.close] == ']' && line[r.close + 1] == '(' && line[r.end - 1] == ')'
    ensures Stands(line, at, mark + "[" + line[r.words..r.close] + "](" + line[r.close + 2..r.address]
                             + line[r.address..r.end - 1] + ")")
  {
    hide Stands;
    var words, href, title := line[r.words..r.close], line[r.close + 2..r.address], line[r.address..r.end - 1];
    AddressMakes(line, r);
    var rest := "]" + ("(" + (href + (title + ")")));
    SliceStands(line, r.words, r.close);
    MarkStands(line, at, mark);
    StandsOne(line, r.words - 1, '[');
    ThenStands(line, r.words, words, rest);
    ThenStands(line, r.words - 1, "[", words + rest);
    ThenStands(line, at, mark, "[" + (words + rest));
    LinkRegrouped(mark, words, href, title);
  }

  lemma MarkStands(line: string, at: nat, mark: string)
    requires at < |line| && (mark == "" || (mark == "!" && line[at] == '!'))
    ensures Stands(line, at, mark)
  {
    StandsOne(line, at, '!');
  }

  // ---------------------------------------------------------------------------------------
  // A line with one span in it
  // ---------------------------------------------------------------------------------------

  /** A character that starts nothing by itself. */
  predicate IsQuiet(c: char) {
    c != '\\' && c != '`' && c != '[' && c != '*' && c != '_'
  }

  predicate Quiet(s: string) {
    forall i :: 0 <= i < |s| ==> IsQuiet(s[i])
  }

  lemma NoneIsQuiet()
    ensures Quiet("")
  {
  }

  lemma QuietStep(mode: Mode, line: string, at: nat, text: string, memo: Memo)
    requires at < |line| && IsQuiet(line[at]) && !(line[at] == '!' && IsAt(line, at + 1, '['))
    ensures SpansFrom(mode, line, at, text, memo) == SpansFrom(mode, line, at + 1, text + [line[at]], memo)
  {
    assert SpanAt(mode, line, at, memo) == (None, memo);
  }

  /** Quiet characters up to `to` are text, where they end in no mark of an image. */
  lemma {:induction false} QuietRun(mode: Mode, line: string, at: nat, to: nat, text: string, memo: Memo)
    requires at <= to <= |line| && Quiet(line[at..to])
    requires at < to && to < |line| && line[to] == '[' ==> line[to - 1] != '!'
    ensures SpansFrom(mode, line, at, text, memo) == SpansFrom(mode, line, to, text + line[at..to], memo)
    decreases |line[at..to]|
  {
    hide SpansFrom;
    if at == to {
      assert text + line[at..to] == text;
    } else {
      var part := line[at..to];
      assert part[0] == line[at] && line[at + 1..to] == part[1..];
      assert at + 1 < to ==> part[1] == line[at + 1];
      QuietStep(mode, line, at, text, memo);
      QuietRun(mode, line, at + 1, to, text + [line[at]], memo);
      assert text + [line[at]] + line[at + 1..to] == text + line[at..to];
    }
  }

  lemma Ends(mode: Mode, line: string, text: string, memo: Memo)
    ensures SpansFrom(mode, line, |line|, text, memo) == Flushed(text)
  {
  }

  lemma SpanThenRest(mode: Mode, line: string, at: nat, text: string, memo: Memo, span: Span, next: nat, after: Memo)
    requires at < |line| && next <= |line| && SpanAt(mode, line, at, memo) == (Some((span, next)), after)
    ensures SpansFrom(mode, line, at, text, memo) ==
            if span.Text? then SpansFrom(mode, line, next, text + span.text, after)
            else Flushed(text) + [span] + SpansFrom(mode, line, next, "", after)
  {
    hide SpanAt;
  }

  /** A line whose one span stands between quiet texts. */
  lemma OneSpan(mode: Mode, line: string, at: nat, span: Span, next: nat, after: Memo)
    requires at < |line| && at < next <= |line| && Quiet(line[..at]) && Quiet(line[next..])
    requires line[at] == '[' && at > 0 ==> line[at - 1] != '!'
    requires SpanAt(mode, line, at, map[]) == (Some((span, next)), after) && !span.Text?
    ensures Spans(mode, line) == Flushed(line[..at]) + [span] + Flushed(line[next..])
  {
    hide SpanAt, SpansFrom, Quiet;
    assert line[0..at] == line[..at] && line[next..|line|] == line[next..];
    QuietRun(mode, line, 0, at, "", map[]);
    assert "" + line[..at] == line[..at] && "" + line[next..] == line[next..];
    SpanThenRest(mode, line, at, line[..at], map[], span, next, after);
    QuietRun(mode, line, next, |line|, "", after);
    Ends(mode, line, line[next..], after);
  }

  /** A link between quiet texts is read with its own words and its own address, and nothing else is. */
  lemma LinkReadsBack(
    mode: Mode, before: string, s: string, words: string, href: string, title: string, after: string)
    requires Quiet(before) && Quiet(after) && (before != "" ==> before[|before| - 1] != '!')
    requires IsLink(s, words, href, title)
    ensures Spans(mode, before + s + after) ==
            Flushed(before)
            + [Link(if IsBlank(words) then [Text(href)] else Spans(mode, words), href)]
            + Flushed(after)
  {
    hide LinkAt, IsLink, Quiet, Stands, Spans, SpanAt, IsBlank;
    var line, at := before + s + after, |before|;
    Around(before, s, after);
    LinkStarts(line, at, s, words, href, title);
    LinkIsRead(mode, line, at, s, words, href, title);
    LinkSpanAt(mode, line, at);
    OneSpan(mode, line, at, LinkTo(mode, words, href), at + |s|, map[]);
  }

  lemma LinkStarts(line: string, at: nat, s: string, words: string, href: string, title: string)
    requires Stands(line, at, s) && IsLink(s, words, href, title)
    ensures at + |s| <= |line| && |s| >= 1
    ensures at < |line| && (line[at] == '[' || (line[at] == '!' && IsAt(line, at + 1, '[')))
  {
    hide IsAddress, IsTitle;
    var mark := MarkOf(s, words, href, title);
    LinkPartsStand(line, at, s, mark, words, href, title);
  }

  lemma LinkSpanAt(mode: Mode, line: string, at: nat)
    requires at < |line| && (line[at] == '[' || (line[at] == '!' && IsAt(line, at + 1, '[')))
    ensures SpanAt(mode, line, at, map[]) == (LinkAt(mode, line, at), map[])
  {
    hide LinkAt;
  }

  /** Quiet text is one span of text. */
  lemma QuietReadsAsItself(mode: Mode, text: string)
    requires Quiet(text)
    ensures Spans(mode, text) == Flushed(text)
  {
    assert text[0..|text|] == text && "" + text == text;
    QuietRun(mode, text, 0, |text|, "", map[]);
    Ends(mode, text, text, map[]);
  }

  /** Words with no mark in them, an address with no space or parenthesis: a link of those words to that address. */
  lemma PlainLinkReadsBack(mode: Mode, words: string, href: string)
    requires Quiet(words) && ']' !in words && !IsBlank(words)
    requires forall i :: 0 <= i < |href| ==> href[i] != '(' && href[i] != ')' && !IsSpace(href[i])
    ensures Spans(mode, "[" + words + "](" + href + ")") == [Link([Text(words)], href)]
    ensures Spans(mode, "![" + words + "](" + href + ")") == [Link([Text(words)], href)]
  {
    PlainAddress(href);
    hide IsSpace, IsBlank, IsAddress, IsTitle, Spans;
    PlainIsLink(words, href);
    QuietReadsAsItself(mode, words);
    hide IsLink;
    var link, image := "[" + words + "](" + href + ")", "![" + words + "](" + href + ")";
    NoneIsQuiet();
    LinkReadsBack(mode, "", link, words, href, "", "");
    LinkReadsBack(mode, "", image, words, href, "", "");
    Alone(link);
    Alone(image);
    assert words != "" by { NoneIsBlank(); }
  }

  lemma NoneIsBlank()
    ensures IsBlank("")
  {
  }

  lemma PlainIsLink(words: string, href: string)
    requires '[' !in words && ']' !in words && IsAddress(href)
    ensures IsLink("[" + words + "](" + href + ")", words, href, "")
    ensures IsLink("![" + words + "](" + href + ")", words, href, "")
  {
    hide IsAddress;
    assert "[" + words + "](" + href + "" == "[" + words + "](" + href;
    assert "![" + words + "](" + href + "" == "![" + words + "](" + href;
  }

  lemma {:induction false} PlainAddress(href: string)
    requires forall i :: 0 <= i < |href| ==> href[i] != '(' && href[i] != ')' && !IsSpace(href[i])
    ensures IsAddress(href)
  {
    hide IsSpace, IsGroup;
    if href != "" {
      PlainAddress(href[1..]);
    }
  }

  /** Brackets that are no link are text. */
  lemma BracketsStayText(mode: Mode, line: string)
    requires forall i :: 0 <= i < |line| ==> IsQuiet(line[i]) || line[i] == '['
    requires forall at: nat, s, words, href, title :: !(Stands(line, at, s) && IsLink(s, words, href, title))
    ensures Spans(mode, line) == Flushed(line)
  {
    BracketsFrom(mode, line, 0, "");
    assert "" + line[0..] == line;
  }

  lemma {:induction false} BracketsFrom(mode: Mode, line: string, at: nat, text: string)
    requires forall i :: 0 <= i < |line| ==> IsQuiet(line[i]) || line[i] == '['
    requires forall at: nat, s, words, href, title :: !(Stands(line, at, s) && IsLink(s, words, href, title))
    requires at <= |line|
    ensures SpansFrom(mode, line, at, text, map[]) == Flushed(text + line[at..])
    decreases |line| - at
  {
    hide Stands, IsLink, SpansFrom, LinkAt;
    if at == |line| {
      Ends(mode, line, text, map[]);
      assert text + line[at..] == text;
    } else {
      if LinkAt(mode, line, at).Some? {
        LinkIsWritten(mode, line, at);
      }
      BracketStep(mode, line, at, text);
      BracketsFrom(mode, line, at + 1, text + [line[at]]);
      assert text + [line[at]] + line[at + 1..] == text + line[at..];
    }
  }

  lemma BracketStep(mode: Mode, line: string, at: nat, text: string)
    requires at < |line| && (IsQuiet(line[at]) || line[at] == '[') && LinkAt(mode, line, at).None?
    ensures SpansFrom(mode, line, at, text, map[]) == SpansFrom(mode, line, at + 1, text + [line[at]], map[])
  {
    hide LinkAt;
    assert SpanAt(mode, line, at, map[]) == (None, map[]);
  }
}
