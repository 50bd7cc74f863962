/** The classes of characters the page's patterns name, as direct tests. */
module Characters {
  /** `\s`: the white space and line ends a trim takes off, too. */
  predicate IsSpace(c: char) {
    || '\t' <= c <= '\r' || c == ' ' || c == '\U{00A0}' || c == '\U{1680}'
    || '\U{2000}' <= c <= '\U{200A}' || c == '\U{2028}' || c == '\U{2029}' || c == '\U{202F}'
    || c == '\U{205F}' || c == '\U{3000}' || c == '\U{FEFF}'
  }

  predicate IsDigit(c: char) {
    '0' <= c <= '9'
  }

  /** `\w`. */
  predicate IsWord(c: char) {
    IsDigit(c) || 'a' <= c <= 'z' || 'A' <= c <= 'Z' || c == '_'
  }

  /** ASCII punctuation. */
  predicate IsPunctuation(c: char) {
    '!' <= c <= '/' || ':' <= c <= '@' || '[' <= c <= '`' || '{' <= c <= '~'
  }

  /** What of ASCII shows and is neither a letter nor a digit. */
  lemma PunctuationIs(c: char)
    ensures IsPunctuation(c) <==>
            && 0x20 < c as int < 0x7F
            && !('0' <= c <= '9') && !('a' <= c <= 'z') && !('A' <= c <= 'Z')
  {
  }

  /** A text with its ASCII letters lower. */
  function Lowered(s: string): string {
    seq(|s|, i requires 0 <= i < |s| => if 'A' <= s[i] <= 'Z' then s[i] - 'A' + 'a' else s[i])
  }

  predicate IsBlank(s: string) {
    forall i :: 0 <= i < |s| ==> IsSpace(s[i])
  }

  function TrimStart(s: string): string {
    if s != [] && IsSpace(s[0]) then TrimStart(s[1..]) else s
  }

  function TrimEnd(s: string): string {
    if s != [] && IsSpace(s[|s| - 1]) then TrimEnd(s[..|s| - 1]) else s
  }

  function Trim(s: string): string {
    TrimEnd(TrimStart(s))
  }

  /** Where the spaces from `at` on end. */
  function SpacesEnd(s: string, at: nat): (end: nat)
    requires at <= |s|
    ensures at <= end <= |s|
    ensures end < |s| ==> !IsSpace(s[end])
    ensures forall i :: at <= i < end ==> IsSpace(s[i])
    decreases |s| - at
  {
    if at < |s| && IsSpace(s[at]) then SpacesEnd(s, at + 1) else at
  }
}
