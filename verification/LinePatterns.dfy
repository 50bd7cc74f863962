/**
 What the patterns of the reader of blocks say of a line (app/ui/core/markdown.js): how a quote, a heading, a
 fence, a rule, a list item and its box are written. Each scan finds what its pattern says, with the parts it
 says, and nothing else.
 */
module LinePatterns {
  import opened Prelude
  import opened Characters
  import opened Parts
  import opened TableCells
  import opened MarkdownBlocks

  // ---------------------------------------------------------------------------------------
  // Parts of a line
  // ---------------------------------------------------------------------------------------

  lemma {:induction false} SpacesEndIs(s: string, at: nat, end: nat)
    requires at <= end <= |s| && (forall i :: at <= i < end ==> IsSpace(s[i])) && (end < |s| ==> !IsSpace(s[end]))
    ensures SpacesEnd(s, at) == end
    decreases end - at
  {
    if at < end {
      SpacesEndIs(s, at + 1, end);
    }
  }

  /** A blank line is one with nothing but spaces. */
  lemma BlankMeans(line: string)
    ensures Blank(line) <==> IsBlank(line)
  {
    if IsBlank(line) {
      SpacesEndIs(line, 0, |line|);
    }
  }

  /** The indent of a line is the spaces before its words. */
  lemma IndentIs(spaces: string, words: string)
    requires IsBlank(spaces) && (words != "" ==> !IsSpace(words[0]))
    ensures IndentOf(spaces + words) == |spaces|
  {
    var line := spaces + words;
    assert forall i :: 0 <= i < |spaces| ==> line[i] == spaces[i];
    assert words != "" ==> line[|spaces|] == words[0];
    SpacesEndIs(line, 0, |spaces|);
  }

  lemma IndentMeans(line: string)
    ensures var at := IndentOf(line);
            IsBlank(line[..at]) && (at < |line| ==> !IsSpace(line[at])) && line == line[..at] + line[at..]
  {
  }

  lemma {:induction false} RunIs(line: string, at: nat, c: char, end: nat)
    requires at <= end <= |line| && (forall i :: at <= i < end ==> line[i] == c) && (end < |line| ==> line[end] != c)
    ensures Run(line, at, c) == end
    decreases end - at
  {
    if at < end {
      RunIs(line, at + 1, c, end);
    }
  }

  lemma {:induction false} RunMeans(line: string, at: nat, c: char)
    requires at <= |line|
    ensures var end := Run(line, at, c);
            (forall i :: at <= i < end ==> line[i] == c) && (end < |line| ==> line[end] != c)
    decreases |line| - at
  {
    if at < |line| && line[at] == c {
      RunMeans(line, at + 1, c);
    }
  }

  lemma TimesIs(line: string, at: nat, end: nat, c: char)
    requires at <= end <= |line| && forall i :: at <= i < end ==> line[i] == c
    ensures line[at..end] == Times(c, end - at)
  {
  }

  // ---------------------------------------------------------------------------------------
  // A quote
  // ---------------------------------------------------------------------------------------

  /** Whether a text starts with a space. */
  predicate StartsSpaced(s: string) {
    s != "" && IsSpace(s[0])
  }

  /** Spaces, the mark, a space or none, and what is quoted. */
  lemma QuoteIsRead(spaces: string, space: string, words: string)
    requires IsBlank(spaces) && IsBlank(space) && |space| <= 1 && (space == "" ==> !StartsSpaced(words))
    ensures QuotedOf(spaces + (">" + space + words)) == Some(words)
  {
    var rest := ">" + space + words;
    var line := spaces + rest;
    assert !IsSpace('>');
    IndentIs(spaces, rest);
    var at := |spaces|;
    assert line[at] == rest[0] == '>';
    assert at + 1 < |line| ==> line[at + 1] == rest[1];
    assert line[at + 1..] == rest[1..] && rest[1..] == space + words;
    assert space != "" ==> line[at + 2..] == rest[2..] && rest[2..] == words;
    hide IsSpace;
  }

  lemma QuoteIsWritten(line: string)
    requires QuotedOf(line).Some?
    ensures exists spaces, space :: IsBlank(spaces) && IsBlank(space) && |space| <= 1
              && line == spaces + (">" + space + QuotedOf(line).value)
  {
    var at, words := IndentOf(line), QuotedOf(line).value;
    IndentMeans(line);
    var space := if at + 1 < |line| && IsSpace(line[at + 1]) then [line[at + 1]] else "";
    assert line[at..] == ">" + space + words;
    assert line == line[..at] + (">" + space + words);
  }

  // ---------------------------------------------------------------------------------------
  // A heading
  // ---------------------------------------------------------------------------------------

  lemma AllOf(a: string, b: string)
    ensures Stands(a + b, |a|, b)
  {
  }

  lemma SpacesStand(line: string, at: nat, gap: string)
    requires Stands(line, at, gap) && IsBlank(gap) && (at + |gap| < |line| ==> !IsSpace(line[at + |gap|]))
    ensures SpacesEnd(line, at) == at + |gap|
  {
    forall i | at <= i < at + |gap| ensures IsSpace(line[i]) {
      assert line[at..at + |gap|][i - at] == line[i];
    }
    SpacesEndIs(line, at, at + |gap|);
  }

  lemma RunStands(line: string, at: nat, c: char, n: nat)
    requires Stands(line, at, Times(c, n)) && (at + n < |line| ==> line[at + n] != c)
    ensures Run(line, at, c) == at + n
  {
    forall i | at <= i < at + n ensures line[i] == c {
      assert line[at..at + n][i - at] == line[i];
    }
    RunIs(line, at, c, at + n);
  }

  lemma {:induction false} TrimStartPastSpaces(spaces: string, words: string)
    requires IsBlank(spaces)
    ensures TrimStart(spaces + words) == TrimStart(words)
  {
    if spaces == "" {
      assert spaces + words == words;
    } else {
      assert (spaces + words)[1..] == spaces[1..] + words;
      TrimStartPastSpaces(spaces[1..], words);
    }
  }

  /** Trimmed from where its spaces end, a text is trimmed as from where they start. */
  lemma TrimFromSpacesEnd(line: string, at: nat)
    requires at <= |line|
    ensures Trim(line[SpacesEnd(line, at)..]) == Trim(line[at..])
  {
    hide SpacesEnd, IsSpace, TrimStart, TrimEnd;
    var from := SpacesEnd(line, at);
    var spaces := line[at..from];
    forall i | 0 <= i < |spaces| ensures IsSpace(spaces[i]) {
      assert spaces[i] == line[at + i];
    }
    assert line[at..] == spaces + line[from..];
    TrimStartPastSpaces(spaces, line[from..]);
  }

  lemma TrimPastSpaces(spaces: string, words: string)
    requires IsBlank(spaces)
    ensures Trim(spaces + words) == Trim(words)
  {
    hide TrimStart, TrimEnd, IsBlank;
    TrimStartPastSpaces(spaces, words);
  }

  lemma HeadingFound(line: string, at: nat, end: nat)
    requires IndentOf(line) == at && Run(line, at, '#') == end && 1 <= end - at <= 6
    requires end < |line| && IsSpace(line[end])
    ensures HeadingOf(line) == Some((end - at, Trim(line[end..])))
  {
    hide SpacesEnd, Run, IndentOf, Trim, IsSpace;
    TrimFromSpacesEnd(line, end);
  }

  lemma HeadingStands(line: string, at: nat, level: nat, gap: string, words: string)
    requires IndentOf(line) == at && 1 <= level <= 6 && IsBlank(gap) && gap != ""
    requires Stands(line, at, Times('#', level)) && Stands(line, at + level, gap + words)
    requires at + level + |gap + words| == |line|
    ensures HeadingOf(line) == Some((level, Trim(words)))
  {
    assert IsSpace(gap[0]) && !IsSpace('#');
    hide *;
    var end := at + level;
    FirstOf(gap, words);
    StandsFirst(line, end, gap + words);
    RunStands(line, at, '#', level);
    HeadingFound(line, at, end);
    StandsRest(line, end, gap + words);
    TrimPastSpaces(gap, words);
  }

  lemma HeadingInPlace(line: string, at: nat, level: nat, gap: string, words: string)
    requires IndentOf(line) == at && 1 <= level <= 6 && IsBlank(gap) && gap != ""
    requires Stands(line, at, Times('#', level) + (gap + words)) && at + level + |gap| + |words| == |line|
    ensures HeadingOf(line) == Some((level, Trim(words)))
  {
    hide *;
    StandsThen(line, at, Times('#', level), gap + words);
    HeadingStands(line, at, level, gap, words);
  }

  lemma TimesFirst(c: char, n: nat)
    requires n >= 1
    ensures Times(c, n) != "" && Times(c, n)[0] == c
  {
  }

  lemma FirstOf(first: string, rest: string)
    requires first != ""
    ensures first + rest != "" && (first + rest)[0] == first[0]
  {
  }

  /** Spaces, one to six marks, spaces, and words. */
  lemma HeadingIsRead(spaces: string, level: nat, gap: string, words: string)
    requires IsBlank(spaces) && 1 <= level <= 6 && IsBlank(gap) && gap != ""
    ensures HeadingOf(spaces + (Times('#', level) + (gap + words))) == Some((level, Trim(words)))
  {
    assert !IsSpace('#');
    hide *;
    TimesFirst('#', level);
    FirstOf(Times('#', level), gap + words);
    IndentIs(spaces, Times('#', level) + (gap + words));
    AllOf(spaces, Times('#', level) + (gap + words));
    HeadingInPlace(spaces + (Times('#', level) + (gap + words)), |spaces|, level, gap, words);
  }

  lemma StandsRest(line: string, at: nat, rest: string)
    requires Stands(line, at, rest) && at + |rest| == |line|
    ensures line[at..] == rest
  {
  }

  lemma HeadingMeans(line: string) returns (at: nat, end: nat, from: nat)
    requires HeadingOf(line).Some?
    ensures at < end < from <= |line| && IsBlank(line[..at]) && IsBlank(line[end..from])
    ensures line[at..end] == Times('#', end - at) && end - at <= 6
    ensures HeadingOf(line) == Some((end - at, Trim(line[from..])))
  {
    hide SpacesEnd, Run, Times, IndentOf, Trim, IsBlank, IsSpace;
    at := IndentOf(line);
    end := Run(line, at, '#');
    from := SpacesEnd(line, end);
    IndentIsBlank(line);
    RunMeans(line, at, '#');
    TimesIs(line, at, end, '#');
    SpacesMean(line, end);
  }

  lemma HeadingIsWritten(line: string)
    requires HeadingOf(line).Some?
    ensures var (level, words) := HeadingOf(line).value;
            && 1 <= level <= 6
            && exists spaces, gap, rest :: IsBlank(spaces) && IsBlank(gap) && gap != ""
                 && line == spaces + (Times('#', level) + (gap + rest)) && words == Trim(rest)
  {
    hide *;
    var at, end, from := HeadingMeans(line);
    ThreeSlices(line, at, end, from);
    var spaces, gap, rest := line[..at], line[end..from], line[from..];
    assert line == spaces + (Times('#', end - at) + (gap + rest));
  }

  lemma IndentIsBlank(line: string)
    ensures IsBlank(line[..IndentOf(line)])
  {
    IndentMeans(line);
  }

  lemma SpacesMean(line: string, at: nat)
    requires at <= |line|
    ensures IsBlank(line[at..SpacesEnd(line, at)])
    ensures at < |line| && IsSpace(line[at]) ==> SpacesEnd(line, at) > at
  {
    hide IsSpace;
  }

  lemma ThreeSlices(line: string, a: nat, b: nat, c: nat)
    requires a <= b <= c <= |line|
    ensures line == line[..a] + (line[a..b] + (line[b..c] + line[c..]))
  {
  }

  // ---------------------------------------------------------------------------------------
  // A fence
  // ---------------------------------------------------------------------------------------

  lemma FenceFound(line: string, at: nat, end: nat, word: nat, last: nat)
    requires IndentOf(line) == at && at < |line| && (line[at] == '`' || line[at] == '~')
    requires Run(line, at, line[at]) == end && end - at >= 3
    requires SpacesEnd(line, end) == word && LangEnd(line, word) == last
    ensures FenceOf(line) == Some((line[at..end], line[word..last]))
  {
    hide SpacesEnd, Run, IndentOf, LangEnd;
  }

  lemma FenceStands(line: string, at: nat, c: char, n: nat, gap: string, lang: string, rest: string)
    requires IndentOf(line) == at && (c == '`' || c == '~') && n >= 3 && IsBlank(gap)
    requires forall i :: 0 <= i < |lang| ==> lang[i] != '`' && !IsSpace(lang[i])
    requires rest != "" ==> rest[0] == '`' || IsSpace(rest[0])
    requires lang + rest != "" ==> !IsSpace((lang + rest)[0])
    requires Stands(line, at, Times(c, n)) && Stands(line, at + n, gap) && Stands(line, at + n + |gap|, lang)
    requires Stands(line, at + n + |gap|, lang + rest) && Stands(line, at + n + |gap| + |lang|, rest)
    requires at + n + |gap| + |lang| + |rest| == |line| && (at + n < |line| ==> line[at + n] != c)
    ensures FenceOf(line) == Some((Times(c, n), lang))
  {
    hide *;
    var end, word, last := at + n, at + n + |gap|, at + n + |gap| + |lang|;
    TimesFirst(c, n);
    StandsFirst(line, at, Times(c, n));
    RunStands(line, at, c, n);
    StandsEnd(line, word, lang + rest);
    SpacesStand(line, end, gap);
    StandsEnd(line, last, rest);
    LangStands(line, word, lang);
    StandsAs(line, at, Times(c, n));
    StandsAs(line, word, lang);
    FenceFound(line, at, end, word, last);
  }

  /** Spaces, three or more of a mark, spaces, a word, and what follows the word, which says nothing. */
  lemma FenceIsRead(spaces: string, c: char, n: nat, gap: string, lang: string, rest: string)
    requires IsBlank(spaces) && (c == '`' || c == '~') && n >= 3 && IsBlank(gap)
    requires forall i :: 0 <= i < |lang| ==> lang[i] != '`' && !IsSpace(lang[i])
    requires rest != "" ==> rest[0] == '`' || IsSpace(rest[0])
    requires gap == "" && lang + rest != "" ==> (lang + rest)[0] != c
    requires lang + rest != "" ==> !IsSpace((lang + rest)[0])
    ensures FenceOf(spaces + (Times(c, n) + (gap + (lang + rest)))) == Some((Times(c, n), lang))
  {
    assert !IsSpace('`') && !IsSpace('~');
    hide *;
    var all := Times(c, n) + (gap + (lang + rest));
    TimesFirst(c, n);
    FirstOf(Times(c, n), gap + (lang + rest));
    IndentIs(spaces, all);
    AllOf(spaces, all);
    FenceInPlace(spaces + all, |spaces|, c, n, gap, lang, rest);
  }

  lemma FenceInPlace(line: string, at: nat, c: char, n: nat, gap: string, lang: string, rest: string)
    requires IndentOf(line) == at && (c == '`' || c == '~') && n >= 3 && IsBlank(gap)
    requires forall i :: 0 <= i < |lang| ==> lang[i] != '`' && !IsSpace(lang[i])
    requires rest != "" ==> rest[0] == '`' || IsSpace(rest[0])
    requires gap == "" && lang + rest != "" ==> (lang + rest)[0] != c
    requires lang + rest != "" ==> !IsSpace((lang + rest)[0])
    requires Stands(line, at, Times(c, n) + (gap + (lang + rest)))
    requires at + n + |gap| + |lang| + |rest| == |line|
    ensures FenceOf(line) == Some((Times(c, n), lang))
  {
    hide *;
    StandsThen(line, at, Times(c, n), gap + (lang + rest));
    AfterMarks(line, at + n, gap, lang + rest, c);
    StandsThen(line, at + n, gap, lang + rest);
    StandsThen(line, at + n + |gap|, lang, rest);
    FenceStands(line, at, c, n, gap, lang, rest);
  }

  lemma AfterMarks(line: string, end: nat, gap: string, tail: string, c: char)
    requires Stands(line, end, gap + tail) && end + |gap + tail| == |line| && (c == '`' || c == '~')
    requires IsBlank(gap) && (gap == "" && tail != "" ==> tail[0] != c)
    ensures end < |line| ==> line[end] != c
  {
    assert !IsSpace('`') && !IsSpace('~');
    if end < |line| {
      StandsFirst(line, end, gap + tail);
      assert (gap + tail)[0] == if gap != "" then gap[0] else tail[0];
    }
  }

  /** What the line ends with starts at its place. */
  lemma StandsEnd(line: string, at: nat, rest: string)
    requires Stands(line, at, rest) && at + |rest| == |line|
    ensures at < |line| <==> rest != ""
    ensures rest != "" ==> line[at] == rest[0]
  {
    if rest != "" {
      StandsFirst(line, at, rest);
    }
  }

  lemma LangStands(line: string, at: nat, lang: string)
    requires Stands(line, at, lang) && forall i :: 0 <= i < |lang| ==> lang[i] != '`' && !IsSpace(lang[i])
    requires at + |lang| < |line| ==> line[at + |lang|] == '`' || IsSpace(line[at + |lang|])
    ensures LangEnd(line, at) == at + |lang|
  {
    forall i | at <= i < at + |lang| ensures line[i] != '`' && !IsSpace(line[i]) {
      assert line[at..at + |lang|][i - at] == line[i];
    }
    LangEndIs(line, at, at + |lang|);
  }

  lemma {:induction false} LangEndIs(line: string, at: nat, end: nat)
    requires at <= end <= |line| && forall i :: at <= i < end ==> line[i] != '`' && !IsSpace(line[i])
    requires end < |line| ==> line[end] == '`' || IsSpace(line[end])
    ensures LangEnd(line, at) == end
    decreases end - at
  {
    if at < end {
      LangEndIs(line, at + 1, end);
    }
  }

  lemma FenceIsWritten(line: string)
    requires FenceOf(line).Some?
    ensures var (marks, lang) := FenceOf(line).value;
            && |marks| >= 3 && (marks == Times('`', |marks|) || marks == Times('~', |marks|))
            && exists spaces, rest :: IsBlank(spaces) && line == spaces + (marks + rest)
  {
    hide SpacesEnd, Run, Times, IndentOf, IsBlank, IsSpace, LangEnd;
    var at := IndentOf(line);
    var c := line[at];
    var end := Run(line, at, c);
    IndentIsBlank(line);
    RunMeans(line, at, c);
    TimesIs(line, at, end, c);
    TwoSlices(line, at, end);
    var spaces, marks, rest := line[..at], line[at..end], line[end..];
    assert FenceOf(line).value.0 == marks;
    hide FenceOf;
    assert line == spaces + (marks + rest);
  }

  lemma TwoSlices(line: string, a: nat, b: nat)
    requires a <= b <= |line|
    ensures line == line[..a] + (line[a..b] + line[b..])
  {
  }

  // ---------------------------------------------------------------------------------------
  // What closes a fence
  // ---------------------------------------------------------------------------------------

  lemma {:induction false} TrimEndBeforeSpaces(words: string, spaces: string)
    requires IsBlank(spaces)
    ensures TrimEnd(words + spaces) == TrimEnd(words)
    decreases |spaces|
  {
    if spaces == "" {
      assert words + spaces == words;
    } else {
      var last := |spaces| - 1;
      assert (words + spaces)[..|words| + last] == words + spaces[..last];
      assert (words + spaces)[|words| + last] == spaces[last];
      TrimEndBeforeSpaces(words, spaces[..last]);
    }
  }

  lemma {:induction false} TrimStartMeans(s: string)
    ensures exists spaces :: IsBlank(spaces) && s == spaces + TrimStart(s)
  {
    if s != "" && IsSpace(s[0]) {
      TrimStartMeans(s[1..]);
      var spaces :| IsBlank(spaces) && s[1..] == spaces + TrimStart(s[1..]);
      assert s == [s[0]] + s[1..] == ([s[0]] + spaces) + TrimStart(s);
    } else {
      assert IsBlank("") && s == "" + TrimStart(s);
    }
  }

  lemma {:induction false} TrimEndMeans(s: string)
    ensures exists spaces :: IsBlank(spaces) && s == TrimEnd(s) + spaces
  {
    if s != "" && IsSpace(s[|s| - 1]) {
      var last := |s| - 1;
      TrimEndMeans(s[..last]);
      var spaces :| IsBlank(spaces) && s[..last] == TrimEnd(s[..last]) + spaces;
      assert s == s[..last] + [s[last]] == TrimEnd(s) + (spaces + [s[last]]);
    } else {
      assert IsBlank("") && s == TrimEnd(s) + "";
    }
  }

  /** A trimmed text is what stands between spaces. */
  lemma TrimMeans(s: string)
    ensures exists before, after :: IsBlank(before) && IsBlank(after) && s == before + (Trim(s) + after)
  {
    hide IsBlank, TrimStart, TrimEnd;
    TrimStartMeans(s);
    TrimEndMeans(TrimStart(s));
    var before :| IsBlank(before) && s == before + TrimStart(s);
    var after :| IsBlank(after) && TrimStart(s) == Trim(s) + after;
    assert s == before + (Trim(s) + after);
  }

  /** Between spaces, a text that neither starts nor ends with one is what trimming leaves. */
  lemma TrimIs(before: string, words: string, after: string)
    requires IsBlank(before) && IsBlank(after)
    requires words != "" ==> !IsSpace(words[0]) && !IsSpace(words[|words| - 1])
    ensures Trim(before + (words + after)) == words
  {
    TrimStartPastSpaces(before, words + after);
    if words == "" {
      assert words + after == after + "";
      TrimStartPastSpaces(after, "");
    } else {
      assert (words + after)[0] == words[0];
      TrimEndBeforeSpaces(words, after);
    }
    hide IsSpace;
  }

  /** A fence is closed by just as many of its marks or more, between spaces. */
  lemma FenceIsClosedBy(before: string, c: char, m: nat, after: string, n: nat)
    requires IsBlank(before) && IsBlank(after) && (c == '`' || c == '~') && 1 <= n <= m
    ensures ClosesFence(before + (Times(c, m) + after), Times(c, n))
  {
    assert !IsSpace('`') && !IsSpace('~');
    TrimIs(before, Times(c, m), after);
    hide IsSpace, Trim;
  }

  lemma FenceIsClosedOnlyBy(line: string, c: char, n: nat)
    requires n >= 1 && ClosesFence(line, Times(c, n))
    ensures exists before, m: nat, after ::
              m >= n && IsBlank(before) && IsBlank(after) && line == before + (Times(c, m) + after)
  {
    TrimMeans(line);
    var bare := Trim(line);
    TimesIs(bare, 0, |bare|, c);
    assert bare[0..|bare|] == bare;
    hide IsBlank, Trim, Times;
    var before, after :| IsBlank(before) && IsBlank(after) && line == before + (bare + after);
    assert line == before + (Times(c, |bare|) + after);
  }

  // ---------------------------------------------------------------------------------------
  // A rule
  // ---------------------------------------------------------------------------------------

  lemma {:induction false} CountAtLeast(line: string, c: char, n: nat, at: seq<nat>)
    requires |at| == n && (forall k :: 0 <= k < n ==> at[k] < |line| && line[at[k]] == c)
    requires forall j, k :: 0 <= j < k < n ==> at[j] < at[k]
    ensures CountOf(line, c) >= n
    decreases |line|
  {
    if n > 0 {
      assert at[0] < |line|;
      var rest := line[1..];
      if at[0] == 0 {
        var left := seq(n - 1, k requires 0 <= k < n - 1 => if at[k + 1] > 0 then at[k + 1] - 1 else 0);
        CountAtLeast(rest, c, n - 1, left);
      } else {
        var left := seq(n, k requires 0 <= k < n => if at[k] > 0 then at[k] - 1 else 0);
        CountAtLeast(rest, c, n, left);
      }
    }
  }

  lemma {:induction false} CountMeans(line: string, c: char, n: nat) returns (at: seq<nat>)
    requires CountOf(line, c) >= n
    ensures |at| == n && (forall k :: 0 <= k < n ==> at[k] < |line| && line[at[k]] == c)
    ensures forall j, k :: 0 <= j < k < n ==> at[j] < at[k]
    decreases |line|
  {
    if n == 0 {
      at := [];
    } else if line[0] == c {
      var rest := CountMeans(line[1..], c, n - 1);
      at := [0] + seq(n - 1, k requires 0 <= k < n - 1 => rest[k] + 1);
    } else {
      var rest := CountMeans(line[1..], c, n);
      at := seq(n, k requires 0 <= k < n => rest[k] + 1);
    }
  }

  predicate IsRuleMark(c: char) {
    c == '-' || c == '*' || c == '_'
  }

  /** A rule is three or more of one mark, and nothing else but spaces. */
  lemma RulePattern(line: string)
    ensures IsRule(line) <==>
            exists c, i: nat, j: nat, k: nat ::
              && IsRuleMark(c) && i < j < k < |line| && line[i] == c == line[j] && line[k] == c
              && forall at :: 0 <= at < |line| ==> line[at] == c || IsSpace(line[at])
  {
    hide CountOf, IsSpace;
    forall c, i: nat, j: nat, k: nat |
      && IsRuleMark(c) && i < j < k < |line| && line[i] == c == line[j] && line[k] == c
      && forall at :: 0 <= at < |line| ==> line[at] == c || IsSpace(line[at])
      ensures IsRule(line)
    {
      CountAtLeast(line, c, 3, [i, j, k]);
    }
    if IsRule(line) {
      var c := if IsRuleOf(line, '-') then '-' else if IsRuleOf(line, '*') then '*' else '_';
      var at := CountMeans(line, c, 3);
      var i, j, k := at[0], at[1], at[2];
      assert IsRuleMark(c) && i < j < k < |line| && line[i] == c == line[j] && line[k] == c;
    }
  }

  lemma RuleParts(line: string) returns (c: char, i: nat)
    requires IsRule(line)
    ensures IsRuleMark(c) && i < |line| && line[i] == c
    ensures forall at :: 0 <= at < |line| ==> line[at] == c || IsSpace(line[at])
  {
    hide CountOf, IsSpace;
    c := if IsRuleOf(line, '-') then '-' else if IsRuleOf(line, '*') then '*' else '_';
    var at := CountMeans(line, c, 3);
    i := at[0];
  }

  // ---------------------------------------------------------------------------------------
  // A list item
  // ---------------------------------------------------------------------------------------

  predicate AreDigits(s: string) {
    forall i :: 0 <= i < |s| ==> IsDigit(s[i])
  }

  /** The mark of a list item: one of three, or a number of at most nine digits and its point. */
  predicate IsItemMark(mark: string) {
    || mark == "-" || mark == "*" || mark == "+"
    || (2 <= |mark| <= 10 && AreDigits(mark[..|mark| - 1])
        && (mark[|mark| - 1] == '.' || mark[|mark| - 1] == ')'))
  }

  /** Words that end no line. */
  predicate InLine(words: string) {
    forall i :: 0 <= i < |words| ==>
      words[i] != '\n' && words[i] != '\r' && words[i] != '\U{2028}' && words[i] != '\U{2029}'
  }

  lemma {:induction false} DigitsEndIs(line: string, at: nat, end: nat)
    requires at <= end <= |line| && (forall i :: at <= i < end ==> IsDigit(line[i]))
    requires end < |line| ==> !IsDigit(line[end])
    ensures DigitsEnd(line, at) == end
    decreases end - at
  {
    if at < end {
      DigitsEndIs(line, at + 1, end);
    }
  }

  lemma {:induction false} DigitsEndMeans(line: string, at: nat)
    requires at <= |line|
    ensures forall i :: at <= i < DigitsEnd(line, at) ==> IsDigit(line[i])
    decreases |line| - at
  {
    if at < |line| && IsDigit(line[at]) {
      DigitsEndMeans(line, at + 1);
    }
  }

  lemma MarkStands(line: string, at: nat, mark: string)
    requires Stands(line, at, mark) && IsItemMark(mark)
    ensures MarkEnd(line, at) == at + |mark|
  {
    var part := line[at..at + |mark|];
    assert part == mark;
    forall i | 0 <= i < |mark| ensures line[at + i] == mark[i] {
      assert part[i] == line[at + i];
    }
    assert line[at] == mark[0];
    if |mark| >= 2 {
      var last := |mark| - 1;
      forall i | at <= i < at + last ensures IsDigit(line[i]) {
        assert mark[..last][i - at] == line[i];
      }
      assert line[at + last] == mark[last];
      DigitsEndIs(line, at, at + last);
      assert mark[..last][0] == line[at];
    }
  }

  lemma MarkMeans(line: string, at: nat)
    requires at <= |line| && MarkEnd(line, at) > at
    ensures IsItemMark(line[at..MarkEnd(line, at)])
  {
    var end := MarkEnd(line, at);
    var mark := line[at..end];
    if line[at] == '-' || line[at] == '*' || line[at] == '+' {
      assert mark == [line[at]];
    } else {
      DigitsEndMeans(line, at);
      assert mark[..|mark| - 1] == line[at..end - 1] && mark[|mark| - 1] == line[end - 1];
    }
  }

  lemma InLineMeans(words: string)
    ensures InLine(words) <==> !HasLineEnd(words)
  {
  }

  lemma ItemStands(line: string, at: nat, mark: string, gap: string, words: string)
    requires IndentOf(line) == at && IsItemMark(mark) && IsBlank(gap) && gap != "" && InLine(words)
    requires Stands(line, at, mark) && Stands(line, at + |mark|, gap) && Stands(line, at + |mark| + |gap|, words)
    requires at + |mark| + |gap| + |words| == |line| && (words != "" ==> !IsSpace(words[0]))
    ensures ItemOf(line) == Some(Mark(at, mark, words))
  {
    hide IsSpace, SpacesEnd, IsBlank, Stands, MarkEnd, IndentOf, InLine, IsItemMark, HasLineEnd;
    var end, from := at + |mark|, at + |mark| + |gap|;
    StandsEnd(line, from, words);
    MarkStands(line, at, mark);
    SpacesStand(line, end, gap);
    StandsAs(line, at, mark);
    StandsRest(line, from, words);
    InLineMeans(words);
    MarkIsSome(mark);
  }

  lemma MarkIsSome(mark: string)
    requires IsItemMark(mark)
    ensures mark != "" && !IsSpace(mark[0])
  {
    if |mark| >= 2 {
      assert mark[..|mark| - 1][0] == mark[0];
    }
  }

  /** Spaces, a mark, spaces, and words to the line's end. */
  lemma ItemIsRead(indent: string, mark: string, gap: string, words: string)
    requires IsBlank(indent) && IsItemMark(mark) && IsBlank(gap) && gap != "" && InLine(words)
    requires words != "" ==> !IsSpace(words[0])
    ensures ItemOf(indent + (mark + (gap + words))) == Some(Mark(|indent|, mark, words))
  {
    hide *;
    MarkIsSome(mark);
    FirstOf(mark, gap + words);
    IndentIs(indent, mark + (gap + words));
    AllOf(indent, mark + (gap + words));
    ItemInPlace(indent + (mark + (gap + words)), |indent|, mark, gap, words);
  }

  lemma ItemInPlace(line: string, at: nat, mark: string, gap: string, words: string)
    requires IndentOf(line) == at && IsItemMark(mark) && IsBlank(gap) && gap != "" && InLine(words)
    requires Stands(line, at, mark + (gap + words)) && at + |mark| + |gap| + |words| == |line|
    requires words != "" ==> !IsSpace(words[0])
    ensures ItemOf(line) == Some(Mark(at, mark, words))
  {
    hide *;
    StandsThen(line, at, mark, gap + words);
    StandsThen(line, at + |mark|, gap, words);
    ItemStands(line, at, mark, gap, words);
  }

  lemma ItemIsWritten(line: string)
    requires ItemOf(line).Some?
    ensures var m := ItemOf(line).value;
            && IsItemMark(m.mark) && InLine(m.words)
            && exists indent, gap :: |indent| == m.indent && IsBlank(indent) && IsBlank(gap) && gap != ""
                 && line == indent + (m.mark + (gap + m.words))
  {
    hide *;
    var at, end, from := ItemMeans(line);
    ThreeSlices(line, at, end, from);
    var indent, mark, gap, words := line[..at], line[at..end], line[end..from], line[from..];
    assert line == indent + (mark + (gap + words));
  }

  lemma ItemMeans(line: string) returns (at: nat, end: nat, from: nat)
    requires ItemOf(line).Some?
    ensures at < end < from <= |line| && IsBlank(line[..at]) && IsBlank(line[end..from])
    ensures IsItemMark(line[at..end]) && InLine(line[from..])
    ensures ItemOf(line) == Some(Mark(at, line[at..end], line[from..]))
  {
    hide SpacesEnd, MarkEnd, IndentOf, IsBlank, IsSpace, HasLineEnd, InLine, IsItemMark;
    at := IndentOf(line);
    end := MarkEnd(line, at);
    from := SpacesEnd(line, end);
    IndentIsBlank(line);
    SpacesMean(line, end);
    MarkMeans(line, at);
    InLineMeans(line[from..]);
  }

  /** A list is ordered where its mark is a number. */
  lemma OrderedMeans(m: Mark)
    requires IsItemMark(m.mark)
    ensures Ordered(m) <==> |m.mark| >= 2
  {
    if |m.mark| >= 2 {
      assert m.mark[..|m.mark| - 1][0] == m.mark[0];
    }
  }

  function Digit(n: nat): char
    requires n < 10
  {
    ('0' as int + n) as char
  }

  /** A number as it is written. */
  function Decimal(n: nat): (digits: string)
    ensures digits != ""
  {
    (if n < 10 then "" else Decimal(n / 10)) + [Digit(n % 10)]
  }

  lemma DigitReadsBack(n: nat)
    requires n < 10
    ensures IsDigit(Digit(n)) && Digit(n) as int - '0' as int == n
  {
  }

  lemma NumberOfMore(digits: string, n: nat)
    requires n < 10 && AreDigits(digits)
    ensures AreDigits(digits + [Digit(n)]) && Number(digits + [Digit(n)]) == 10 * Number(digits) + n
  {
    DigitReadsBack(n);
    hide Digit;
    var all := digits + [Digit(n)];
    assert all[..|all| - 1] == digits;
  }

  lemma {:induction false} NumberReadsBack(zeros: nat, n: nat)
    ensures AreDigits(Times('0', zeros) + Decimal(n)) && Number(Times('0', zeros) + Decimal(n)) == n
  {
    hide Number, AreDigits, Digit, Times;
    var zero, last := Times('0', zeros), [Digit(n % 10)];
    if n < 10 {
      ZerosAreNone(zeros);
      NumberOfMore(zero, n);
      assert zero + ("" + last) == zero + last;
    } else {
      NumberReadsBack(zeros, n / 10);
      NumberOfMore(zero + Decimal(n / 10), n % 10);
      assert zero + (Decimal(n / 10) + last) == zero + Decimal(n / 10) + last;
    }
  }

  lemma {:induction false} ZerosAreNone(zeros: nat)
    ensures AreDigits(Times('0', zeros)) && Number(Times('0', zeros)) == 0
  {
    if zeros > 0 {
      var s := Times('0', zeros);
      assert s[..zeros - 1] == Times('0', zeros - 1);
      ZerosAreNone(zeros - 1);
    }
  }

  /** An ordered list starts at its first number, one of bullets at none. */
  lemma StartReadsBack(m: Mark, zeros: nat, n: nat, point: char)
    ensures m.mark == Times('0', zeros) + Decimal(n) + [point] ==> StartOf(m) == Some(n)
    ensures m.mark == "-" || m.mark == "*" || m.mark == "+" ==> StartOf(m) == None
  {
    var digits := Times('0', zeros) + Decimal(n);
    NumberReadsBack(zeros, n);
    if m.mark == digits + [point] {
      assert m.mark[0] == digits[0] && m.mark[..|m.mark| - 1] == digits;
    }
  }

  /** A box, ticked or not, and then a space or nothing: a task. */
  lemma TaskIsRead(box: char, gap: string, words: string)
    requires (box == ' ' || box == 'x' || box == 'X') && IsBlank(gap) && (words != "" ==> gap != "" && !IsSpace(words[0]))
    ensures TaskOf("[" + [box] + "]" + (gap + words)) == Some((box != ' ', words))
  {
    var line, rest := "[" + [box] + "]" + (gap + words), gap + words;
    assert line[0] == '[' && line[1] == box && line[2] == ']' && line[3..] == rest;
    assert |line| > 3 ==> line[3] == rest[0];
    assert gap != "" ==> rest[0] == gap[0];
    hide IsSpace;
    StandsIn(line, 3, gap, words);
    StandsEnd(line, 3 + |gap|, words);
    SpacesStand(line, 3, gap);
    StandsRest(line, 3 + |gap|, words);
  }

  lemma StandsIn(line: string, at: nat, a: string, b: string)
    requires at <= |line| && line[at..] == a + b
    ensures Stands(line, at, a) && Stands(line, at + |a|, b) && at + |a| + |b| == |line|
  {
    assert Stands(line, at, a + b);
    StandsThen(line, at, a, b);
  }

  lemma TaskIsWritten(words: string)
    requires TaskOf(words).Some?
    ensures exists box: char, gap ::
              && (box == ' ' || box == 'x' || box == 'X') && IsBlank(gap)
              && words == "[" + [box] + "]" + (gap + TaskOf(words).value.1)
              && TaskOf(words).value.0 == (box != ' ')
  {
    hide IsSpace;
    var end := SpacesEnd(words, 3);
    SpacesMean(words, 3);
    var box, gap := words[1], words[3..end];
    assert words == "[" + [box] + "]" + (gap + words[end..]);
  }

  // ---------------------------------------------------------------------------------------
  // What sits under a table's head
  // ---------------------------------------------------------------------------------------

  lemma RuleCellPattern(cell: string)
    ensures IsRuleCell(cell) <==>
            exists before, n: nat, after ::
              && n >= 1 && (before == "" || before == ":") && (after == "" || after == ":")
              && cell == before + Times('-', n) + after
  {
    forall before, n: nat, after |
      && n >= 1 && (before == "" || before == ":") && (after == "" || after == ":")
      && cell == before + Times('-', n) + after
      ensures IsRuleCell(cell)
    {
      RuleCellIs(cell, before, n, after);
    }
    if IsRuleCell(cell) {
      hide AreDashes;
      var rest := if cell != "" && cell[0] == ':' then cell[1..] else cell;
      var dashes := if rest != "" && rest[|rest| - 1] == ':' then rest[..|rest| - 1] else rest;
      DashesAre(dashes);
      var before, after := WithoutColons(cell, rest, dashes);
      assert cell == before + Times('-', |dashes|) + after;
    }
  }

  lemma DashesAre(dashes: string)
    requires AreDashes(dashes)
    ensures dashes == Times('-', |dashes|) && dashes != ""
  {
    TimesIs(dashes, 0, |dashes|, '-');
    assert dashes[0..|dashes|] == dashes;
  }

  lemma WithoutColons(cell: string, rest: string, dashes: string) returns (before: string, after: string)
    requires rest == if cell != "" && cell[0] == ':' then cell[1..] else cell
    requires dashes == if rest != "" && rest[|rest| - 1] == ':' then rest[..|rest| - 1] else rest
    ensures (before == "" || before == ":") && (after == "" || after == ":") && cell == before + dashes + after
  {
    before := if cell != "" && cell[0] == ':' then ":" else "";
    after := if rest != "" && rest[|rest| - 1] == ':' then ":" else "";
    assert rest == dashes + after && cell == before + rest;
  }

  lemma RuleCellIs(cell: string, before: string, n: nat, after: string)
    requires n >= 1 && (before == "" || before == ":") && (after == "" || after == ":")
    requires cell == before + Times('-', n) + after
    ensures IsRuleCell(cell)
  {
    var dashes := Times('-', n);
    assert before == "" ==> cell[0] == dashes[0];
    assert cell[|before|..] == dashes + after;
    var left := dashes + after;
    assert after == "" ==> left[|left| - 1] == dashes[n - 1];
    assert left[..n] == dashes;
  }
}
