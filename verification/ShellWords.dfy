/**
 What a drop of files types (app/ui/core/file-drop.js): each path as one word of the system's shell, and
 the words a shell reads from it.
 */
module ShellWords {
  import opened Prelude

  /** What a shell reads as more than itself in a word, and the space that ends one. */
  predicate Special(c: char) {
    c in " !\"#$&'()*;<>?[\\]^`{|}~"
  }

  predicate IsControl(c: char) {
    c < ' ' || c == '\U{7F}'
  }

  predicate HasControl(path: string) {
    exists i :: 0 <= i < |path| && IsControl(path[i])
  }

  /** The path at `i` is the first with a control character in its name. */
  ghost predicate FirstWithControl(paths: seq<string>, i: nat) {
    i < |paths| && HasControl(paths[i]) && forall j :: 0 <= j < i ==> !HasControl(paths[j])
  }

  /** The first path with a control character in its name: a drop of it types nothing. */
  function WithControl(paths: seq<string>): (found: Option<string>)
    ensures found.None? <==> forall p :: p in paths ==> !HasControl(p)
    ensures found.None? <==>
      forall p :: p in paths ==> forall i :: 0 <= i < |p| ==> ' ' <= p[i] && p[i] != '\U{7F}'
    ensures found.Some? ==> exists i: nat :: FirstWithControl(paths, i) && paths[i] == found.value
  {
    if paths == [] then None
    else if HasControl(paths[0]) then assert FirstWithControl(paths, 0); Some(paths[0])
    else FirstIsLater(paths); WithControl(paths[1..])
  }

  lemma FirstIsLater(paths: seq<string>)
    requires paths != [] && !HasControl(paths[0])
    ensures forall i: nat :: FirstWithControl(paths[1..], i) ==>
      FirstWithControl(paths, i + 1) && paths[i + 1] == paths[1..][i]
  {
    forall i: nat | FirstWithControl(paths[1..], i)
      ensures FirstWithControl(paths, i + 1)
    {
      assert forall j :: 0 < j <= i ==> paths[j] == paths[1..][j - 1];
    }
  }

  function EscapedOne(c: char): string {
    if Special(c) then ['\\', c] else [c]
  }

  function Escaped(path: string): string {
    if path == "" then "" else EscapedOne(path[0]) + Escaped(path[1..])
  }

  function Quoted(path: string): string {
    if ' ' in path then "\"" + path + "\"" else path
  }

  function Word(path: string, windows: bool): string {
    if windows then Quoted(path) else Escaped(path)
  }

  function Words(paths: seq<string>, windows: bool): (words: seq<string>)
    ensures |words| == |paths|
  {
    if paths == [] then [] else [Word(paths[0], windows)] + Words(paths[1..], windows)
  }

  function DroppedText(paths: seq<string>, windows: bool): string {
    Joined(Words(paths, windows), " ")
  }

  // ---------------------------------------------------------------------------------------
  // What a shell reads
  // ---------------------------------------------------------------------------------------

  /**
   What a shell reads as more than itself: what sections 2.2 and 2.3 of the POSIX Shell Command Language
   list for quoting and operators, and what zsh and bash expand besides.
   */
  predicate SaysMore(c: char) {
    || c == '|' || c == '&' || c == ';' || c == '<' || c == '>' || c == '(' || c == ')' || c == '$'
    || c == '`' || c == '\\' || c == '"' || c == '\'' || c == ' ' || c == '*' || c == '?' || c == '['
    || c == ']' || c == '#' || c == '~' || c == '!' || c == '^' || c == '{' || c == '}'
  }

  /** A character is written with a backslash before it exactly where a shell would read more of it. */
  lemma WrittenOneByOne(before: string, c: char, after: string)
    ensures Escaped(before + [c] + after) ==
            Escaped(before) + (if SaysMore(c) then ['\\', c] else [c]) + Escaped(after)
  {
    hide *;
    EscapedInTwo(before + [c], after);
    EscapedInTwo(before, [c]);
    EscapedByItself(c);
  }

  lemma EscapedByItself(c: char)
    ensures Escaped([c]) == if SaysMore(c) then ['\\', c] else [c]
  {
    SpecialSaysMore(c);
    hide Special, SaysMore;
    assert [c][1..] == "";
  }

  lemma SpecialSaysMore(c: char)
    ensures Special(c) <==> SaysMore(c)
  {
  }

  lemma {:induction false} EscapedInTwo(a: string, b: string)
    ensures Escaped(a + b) == Escaped(a) + Escaped(b)
  {
    hide EscapedOne;
    if a == "" {
      assert a + b == b;
    } else {
      assert (a + b)[1..] == a[1..] + b;
      EscapedInTwo(a[1..], b);
    }
  }

  function Grown(word: Option<string>, c: char): Option<string> {
    Some((if word.Some? then word.value else "") + [c])
  }

  function Ended(word: Option<string>): seq<string> {
    if word.Some? then [word.value] else []
  }

  /**
   The words of one command's line, where `word` is the one read so far, as sections 2.2.1 and 2.3 of the
   POSIX Shell Command Language split them; nothing where the line says more than words: an expansion, a
   quote, an operator, a pattern, a history reference, or a second line.
   */
  function ReadWords(s: string, word: Option<string>): Option<seq<string>>
    decreases |s|
  {
    if s == "" then Some(Ended(word))
    else if s[0] == '\\' then
      if |s| == 1 then None
      else if s[1] == '\n' then ReadWords(s[2..], word)
      else ReadWords(s[2..], Grown(word, s[1]))
    else if s[0] == ' ' || s[0] == '\t' then
      var rest := ReadWords(s[1..], None);
      if rest.None? then None else Some(Ended(word) + rest.value)
    else if SaysMore(s[0]) || s[0] == '\n' then None
    else ReadWords(s[1..], Grown(word, s[0]))
  }

  /** The words of a line on Windows: cut at spaces that are not in double quotes. */
  function ReadQuoted(s: string, word: Option<string>, inQuotes: bool): Option<seq<string>>
    decreases |s|
  {
    if s == "" then if inQuotes then None else Some(Ended(word))
    else if s[0] == '"' then
      ReadQuoted(s[1..], Some(if word.Some? then word.value else ""), !inQuotes)
    else if s[0] == ' ' && !inQuotes then
      var rest := ReadQuoted(s[1..], None, false);
      if rest.None? then None else Some(Ended(word) + rest.value)
    else ReadQuoted(s[1..], Grown(word, s[0]), inQuotes)
  }

  /** A path a shell's word can be: not empty, and nothing in it that ends a word or a line. */
  predicate IsWord(path: string) {
    path != "" && forall i :: 0 <= i < |path| ==> path[i] != '\t' && path[i] != '\n'
  }

  predicate IsWindowsWord(path: string) {
    path != "" && forall i :: 0 <= i < |path| ==> path[i] != '"'
  }

  lemma OneReads(c: char, rest: string, word: Option<string>)
    requires c != '\t' && c != '\n'
    ensures ReadWords(EscapedOne(c) + rest, word) == ReadWords(rest, Grown(word, c))
  {
    var s := EscapedOne(c) + rest;
    SpecialSaysMore(c);
    hide Special;
    if Special(c) {
      assert s[0] == '\\' && s[1] == c && s[2..] == rest;
    } else {
      assert s[0] == c && s[1..] == rest;
    }
  }

  lemma {:induction false} EscapedReads(path: string, rest: string, word: Option<string>)
    requires forall i :: 0 <= i < |path| ==> path[i] != '\t' && path[i] != '\n'
    ensures ReadWords(Escaped(path) + rest, word) ==
            ReadWords(rest, if path == "" then word
                            else Some((if word.Some? then word.value else "") + path))
    decreases |path|
  {
    hide ReadWords, EscapedOne;
    if path == "" {
      assert Escaped(path) + rest == rest;
    } else {
      var c, later := path[0], path[1..];
      OneReads(c, Escaped(later) + rest, word);
      assert EscapedOne(c) + (Escaped(later) + rest) == Escaped(path) + rest;
      EscapedReads(later, rest, Grown(word, c));
      var start := if word.Some? then word.value else "";
      assert start + [c] + later == start + path;
      if later == "" {
        assert path == [c];
      }
    }
  }

  /** What a drop types, a path at a time. */
  lemma DroppedIs(paths: seq<string>, windows: bool)
    ensures DroppedText(paths, windows) ==
            if paths == [] then ""
            else Word(paths[0], windows)
                 + if |paths| == 1 then "" else " " + DroppedText(paths[1..], windows)
  {
    hide Word;
    if paths != [] {
      assert Words(paths, windows)[1..] == Words(paths[1..], windows);
      assert Word(paths[0], windows) + "" == Word(paths[0], windows);
    }
  }

  lemma {:induction false} WordsReadBack(paths: seq<string>)
    requires forall p :: p in paths ==> IsWord(p)
    ensures ReadWords(DroppedText(paths, false), None) == Some(paths)
  {
    hide DroppedText, Escaped;
    DroppedIs(paths, false);
    if paths != [] {
      var first, rest := paths[0], paths[1..];
      assert first in paths && "" + first == first;
      WordsReadBack(rest);
      var tail := if rest == [] then "" else " " + DroppedText(rest, false);
      EscapedReads(first, tail, None);
      assert paths == [first] + rest && (rest == [] ==> paths == [first]);
      if rest != [] {
        assert tail[1..] == DroppedText(rest, false);
      }
    }
  }

  /** A text that escapes special characters alone. */
  predicate EscapesSpecials(s: string)
    decreases |s|
  {
    s == "" ||
    if s[0] == '\\' then |s| >= 2 && Special(s[1]) && EscapesSpecials(s[2..])
    else EscapesSpecials(s[1..])
  }

  lemma OneEscapes(c: char, rest: string)
    requires EscapesSpecials(rest)
    ensures EscapesSpecials(EscapedOne(c) + rest)
  {
    var s := EscapedOne(c) + rest;
    assert Special('\\');
    if Special(c) {
      assert s[0] == '\\' && s[1] == c && s[2..] == rest;
    } else {
      assert s[0] == c && s[1..] == rest;
    }
  }

  lemma {:induction false} EscapedEscapes(path: string, rest: string)
    requires EscapesSpecials(rest)
    ensures EscapesSpecials(Escaped(path) + rest)
  {
    hide EscapesSpecials, EscapedOne;
    if path == "" {
      assert Escaped(path) + rest == rest;
    } else {
      EscapedEscapes(path[1..], rest);
      OneEscapes(path[0], Escaped(path[1..]) + rest);
      assert EscapedOne(path[0]) + (Escaped(path[1..]) + rest) == Escaped(path) + rest;
    }
  }

  lemma {:induction false} DroppedEscapes(paths: seq<string>)
    ensures EscapesSpecials(DroppedText(paths, false))
  {
    hide DroppedText, Escaped;
    DroppedIs(paths, false);
    if paths != [] {
      DroppedEscapes(paths[1..]);
      var tail := if |paths| == 1 then "" else " " + DroppedText(paths[1..], false);
      assert |paths| > 1 ==> tail[1..] == DroppedText(paths[1..], false);
      EscapedEscapes(paths[0], tail);
    }
  }

  /** Whatever is read of such a text is words. */
  lemma {:induction false} ReadAreWords(s: string, word: Option<string>, p: string)
    requires EscapesSpecials(s) && (word.Some? ==> IsWord(word.value))
    requires ReadWords(s, word).Some? && p in ReadWords(s, word).value
    ensures IsWord(p)
    decreases |s|
  {
    if s == "" {
    } else if s[0] == '\\' {
      ReadAreWords(s[2..], Grown(word, s[1]), p);
    } else if s[0] == ' ' || s[0] == '\t' {
      if p in ReadWords(s[1..], None).value {
        ReadAreWords(s[1..], None, p);
      }
    } else {
      ReadAreWords(s[1..], Grown(word, s[0]), p);
    }
  }

  /** A drop's paths are read back exactly when each is a word, which a path with no control character is. */
  lemma DropReadsBack(paths: seq<string>)
    ensures ReadWords(DroppedText(paths, false), None) == Some(paths) <==>
            forall p :: p in paths ==> IsWord(p)
    ensures WithControl(paths).None? && "" !in paths ==>
            ReadWords(DroppedText(paths, false), None) == Some(paths)
  {
    hide ReadWords, DroppedText, EscapesSpecials;
    if forall p :: p in paths ==> IsWord(p) {
      WordsReadBack(paths);
    } else if ReadWords(DroppedText(paths, false), None) == Some(paths) {
      DroppedEscapes(paths);
      var p :| p in paths && !IsWord(p);
      ReadAreWords(DroppedText(paths, false), None, p);
    }
  }

  // ---------------------------------------------------------------------------------------
  // On Windows
  // ---------------------------------------------------------------------------------------

  lemma {:induction false} PlainReads(path: string, rest: string, word: Option<string>, inQuotes: bool)
    requires forall i :: 0 <= i < |path| ==> path[i] != '"' && (path[i] == ' ' ==> inQuotes)
    ensures ReadQuoted(path + rest, word, inQuotes) ==
            ReadQuoted(rest, if path == "" then word
                             else Some((if word.Some? then word.value else "") + path), inQuotes)
    decreases |path|
  {
    if path == "" {
      assert path + rest == rest;
    } else {
      var c, later := path[0], path[1..];
      assert (path + rest)[1..] == later + rest;
      PlainReads(later, rest, Grown(word, c), inQuotes);
      var start := if word.Some? then word.value else "";
      assert start + [c] + later == start + path;
      if later == "" {
        assert path == [c];
      }
    }
  }

  lemma QuotedReads(path: string, rest: string)
    requires IsWindowsWord(path)
    ensures ReadQuoted(Quoted(path) + rest, None, false) == ReadQuoted(rest, Some(path), false)
  {
    if ' ' in path {
      var s := Quoted(path) + rest;
      assert s[1..] == path + ("\"" + rest);
      PlainReads(path, "\"" + rest, Some(""), true);
      assert "" + path == path;
      assert ("\"" + rest)[1..] == rest;
    } else {
      PlainReads(path, rest, None, false);
      assert "" + path == path;
    }
  }

  lemma {:induction false} WindowsWordsReadBack(paths: seq<string>)
    requires forall p :: p in paths ==> IsWindowsWord(p)
    ensures ReadQuoted(DroppedText(paths, true), None, false) == Some(paths)
  {
    hide DroppedText, Quoted;
    DroppedIs(paths, true);
    if paths != [] {
      var first, rest := paths[0], paths[1..];
      assert first in paths;
      WindowsWordsReadBack(rest);
      var tail := if rest == [] then "" else " " + DroppedText(rest, true);
      QuotedReads(first, tail);
      assert paths == [first] + rest && (rest == [] ==> paths == [first]);
      if rest != [] {
        assert tail[1..] == DroppedText(rest, true);
      }
    }
  }

  /** A path is typed in double quotes exactly where it has a space, and else as it is. */
  lemma QuotedOnlyForASpace(path: string)
    ensures DroppedText([path], true) ==
            if exists i :: 0 <= i < |path| && path[i] == ' ' then "\"" + path + "\"" else path
  {
    DroppedIs([path], true);
  }
}
