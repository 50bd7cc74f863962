/**
 The texts a golden's files are moved to (tools/move_subagent_role_goldens.py): the front matter of a
 role no model may start, and the configuration a sub-agent starts with in place of a role.
 */
module GoldenTexts {
  import opened Prelude
  import opened GoldenPaths

  const FRONT := "---\n"
  const LINE := "disable-model-invocation: true\n"
  const NOT_FOR_THE_MODEL := FRONT + LINE

  function NotForTheModel(text: string): string {
    if text == "" || StartsWith(text, NOT_FOR_THE_MODEL) then text
    else if StartsWith(text, FRONT) then NOT_FOR_THE_MODEL + text[|FRONT|..]
    else NOT_FOR_THE_MODEL + "---\n\n" + text
  }

  /**
   The line is there once, at the top of the front matter: a text that has it stays as it is, and the
   rest of a text is kept.
   */
  lemma NotForTheModelOnce(text: string)
    ensures NotForTheModel(NotForTheModel(text)) == NotForTheModel(text)
    ensures text != "" ==>
      exists rest ::
        NotForTheModel(text) == NOT_FOR_THE_MODEL + rest &&
        (text == NOT_FOR_THE_MODEL + rest || text == FRONT + rest || FRONT + "\n" + text == rest)
  {
    var out := NotForTheModel(text);
    if text != "" {
      var rest := out[|NOT_FOR_THE_MODEL|..];
      assert out[..|NOT_FOR_THE_MODEL|] == NOT_FOR_THE_MODEL;
      assert out == NOT_FOR_THE_MODEL + rest;
      if StartsWith(text, FRONT) && !StartsWith(text, NOT_FOR_THE_MODEL) {
        assert rest == text[|FRONT|..];
      } else if !StartsWith(text, NOT_FOR_THE_MODEL) {
        assert out == NOT_FOR_THE_MODEL + (FRONT + "\n" + text);
        assert rest == FRONT + "\n" + text;
      }
    }
  }

  lemma SameAfter(start: string, rest: string, part: string, more: string)
    requires start + rest == start + part + more
    ensures rest == part + more
  {
    assert (start + rest)[|start|..] == rest;
    assert (start + part + more)[|start|..] == part + more;
  }

  lemma Starts(start: string, rest: string)
    ensures StartsWith(start + rest, start) && (start + rest)[|start|..] == rest
  {
  }

  /** Front matter without the line gains it at its top; with it, it stays. */
  lemma FrontMatterGainsTheLine(rest: string)
    ensures NotForTheModel(NOT_FOR_THE_MODEL + rest) == NOT_FOR_THE_MODEL + rest
    ensures (forall more :: rest != "disable-model-invocation: true\n" + more) ==>
              NotForTheModel("---\n" + rest) == NOT_FOR_THE_MODEL + rest
  {
    hide StartsWith;
    Starts(NOT_FOR_THE_MODEL, rest);
    Starts("---\n", rest);
    var text := "---\n" + rest;
    if StartsWith(text, NOT_FOR_THE_MODEL) {
      StartSplits(text, NOT_FOR_THE_MODEL);
      SameAfter(FRONT, rest, LINE, text[|NOT_FOR_THE_MODEL|..]);
    }
  }

  lemma TheLineIsInFrontMatter(text: string)
    requires StartsWith(text, NOT_FOR_THE_MODEL)
    ensures StartsWith(text, FRONT)
  {
    assert text[..4] == text[..|NOT_FOR_THE_MODEL|][..4] == NOT_FOR_THE_MODEL[..|FRONT|];
  }

  /** A text with no front matter gains one of that line alone; none is made for no text. */
  lemma OtherTextsGainFrontMatter(text: string)
    requires forall rest :: text != "---\n" + rest
    ensures NotForTheModel(text) == if text == "" then "" else NOT_FOR_THE_MODEL + "---\n\n" + text
  {
    if StartsWith(text, NOT_FOR_THE_MODEL) {
      TheLineIsInFrontMatter(text);
    }
    if StartsWith(text, FRONT) {
      StartSplits(text, FRONT);
    }
  }

  // ---------------------------------------------------------------------------------------
  // A string of TOML
  // ---------------------------------------------------------------------------------------

  function HexDigit(n: nat): char
    requires n < 16
  {
    if n < 10 then ('0' as int + n) as char else ('A' as int + n - 10) as char
  }

  /** A character as a basic string of TOML holds it. */
  function Quoted(c: char): (q: string)
    ensures q != ""
  {
    if c == '"' then "\\\""
    else if c == '\\' then "\\\\"
    else if c == '\t' then "\t"
    else if c == '\n' then "\\n"
    else if c == '\r' then "\\r"
    else if c < ' ' || c == '\U{7F}' then
      ['\\', 'u', '0', '0', HexDigit(c as int / 16), HexDigit(c as int % 16)]
    else [c]
  }

  function QuotedAll(text: string): string {
    if text == "" then "" else Quoted(text[0]) + QuotedAll(text[1..])
  }

  function TomlString(text: string): string {
    "\"" + QuotedAll(text) + "\""
  }

  lemma {:induction false} QuotedAppend(text: string, c: char)
    ensures QuotedAll(text + [c]) == QuotedAll(text) + Quoted(c)
  {
    hide Quoted;
    if text != "" {
      assert (text + [c])[1..] == text[1..] + [c];
      QuotedAppend(text[1..], c);
    }
  }

  method Quote(character: char) returns (more: string)
    ensures more == Quoted(character)
  {
    hide HexDigit;
    if character == '"' {
      more := "\\\"";
    } else if character == '\\' {
      more := "\\\\";
    } else if character == '\t' {
      more := "\t";
    } else if character == '\n' {
      more := "\\n";
    } else if character == '\r' {
      more := "\\r";
    } else if character < ' ' || character == '\U{7F}' {
      more := ['\\', 'u', '0', '0', HexDigit(character as int / 16), HexDigit(character as int % 16)];
    } else {
      more := [character];
    }
  }

  method WriteTomlString(text: string) returns (quoted: string)
    ensures quoted == TomlString(text)
  {
    hide Quoted;
    quoted := "\"";
    var at := 0;
    while at < |text|
      invariant 0 <= at <= |text| && quoted == "\"" + QuotedAll(text[..at])
    {
      var more := Quote(text[at]);
      QuotedAppend(text[..at], text[at]);
      assert text[..at + 1] == text[..at] + [text[at]];
      quoted := quoted + more;
      at := at + 1;
    }
    assert text[..at] == text;
    quoted := quoted + "\"";
  }

  function HexValue(c: char): Option<nat> {
    if '0' <= c <= '9' then Some(c as int - '0' as int)
    else if 'A' <= c <= 'F' then Some(c as int - 'A' as int + 10)
    else if 'a' <= c <= 'f' then Some(c as int - 'a' as int + 10)
    else None
  }

  function HexNumber(digits: string): Option<nat> {
    if digits == "" then Some(0)
    else
      var front, last := HexNumber(digits[..|digits| - 1]), HexValue(digits[|digits| - 1]);
      if front.None? || last.None? then None else Some(16 * front.value + last.value)
  }

  predicate IsScalar(code: nat) {
    code < 0xD800 || 0xE000 <= code < 0x11_0000
  }

  /** The character an escape of TOML stands for, and how long the escape is. */
  function Escape(s: string): Option<(char, nat)> {
    if |s| < 2 || s[0] != '\\' then None
    else if s[1] == '"' || s[1] == '\\' then Some((s[1], 2))
    else if s[1] == 'b' then Some(('\U{8}', 2))
    else if s[1] == 't' then Some(('\t', 2))
    else if s[1] == 'n' then Some(('\n', 2))
    else if s[1] == 'f' then Some(('\U{C}', 2))
    else if s[1] == 'r' then Some(('\r', 2))
    else
      var end := if s[1] == 'u' then 6 else 10;
      if (s[1] != 'u' && s[1] != 'U') || |s| < end then None
      else
        var code := HexNumber(s[2..end]);
        if code.None? || !IsScalar(code.value) then None else Some((code.value as char, end))
  }

  /**
   What is in a basic string of TOML from after its opening mark, and what stands after its closing one
   ("String" in TOML 1.0.0); nothing where it is not one.
   */
  function ReadToml(s: string): Option<(string, string)>
    decreases |s|
  {
    if s == "" then None
    else if s[0] == '"' then Some(("", s[1..]))
    else if s[0] == '\\' then
      var escape := Escape(s);
      if escape.None? || escape.value.1 > |s| || escape.value.1 == 0 then None
      else
        var rest := ReadToml(s[escape.value.1..]);
        if rest.None? then None else Some(([escape.value.0] + rest.value.0, rest.value.1))
    else if (s[0] < ' ' && s[0] != '\t') || s[0] == '\U{7F}' then None
    else
      var rest := ReadToml(s[1..]);
      if rest.None? then None else Some(([s[0]] + rest.value.0, rest.value.1))
  }

  lemma HexReadsBack(n: nat)
    requires n < 16
    ensures HexValue(HexDigit(n)) == Some(n)
  {
  }

  lemma ControlReadsBack(c: char, rest: string)
    requires c < ' ' || c == '\U{7F}'
    requires c != '\t' && c != '\n' && c != '\r'
    ensures Escape(Quoted(c) + rest) == Some((c, 6))
  {
    var high, low := c as int / 16, c as int % 16;
    HexReadsBack(high);
    HexReadsBack(low);
    hide HexDigit, HexValue;
    var s := Quoted(c) + rest;
    var a, b := HexDigit(high), HexDigit(low);
    assert s[2..6] == ['0', '0', a, b];
    FourDigits('0', '0', a, b);
    assert HexValue('0') == Some(0) by { HexReadsBack(0); }
  }

  lemma FourDigits(a: char, b: char, c: char, d: char)
    requires HexValue(a).Some? && HexValue(b).Some? && HexValue(c).Some? && HexValue(d).Some?
    ensures HexNumber([a, b, c, d]) ==
      Some(16 * (16 * (16 * HexValue(a).value + HexValue(b).value) + HexValue(c).value) + HexValue(d).value)
  {
    hide HexValue;
    assert [a, b, c, d][..3] == [a, b, c] && [a, b, c][..2] == [a, b] && [a, b][..1] == [a];
    assert HexNumber([a]) == Some(HexValue(a).value);
    assert HexNumber([a, b]) == Some(16 * HexValue(a).value + HexValue(b).value);
    assert HexNumber([a, b, c]).Some?;
  }

  lemma CharacterReadsBack(c: char, more: string)
    ensures var rest := ReadToml(more);
            ReadToml(Quoted(c) + more) ==
            if rest.None? then None else Some(([c] + rest.value.0, rest.value.1))
  {
    var s := Quoted(c) + more;
    if (c < ' ' || c == '\U{7F}') && c != '\t' && c != '\n' && c != '\r' {
      ControlReadsBack(c, more);
      assert s[6..] == more;
    } else if c == '"' || c == '\\' || c == '\n' || c == '\r' {
      assert s[2..] == more;
    } else {
      assert s[1..] == more;
    }
  }

  lemma FirstThen(first: string, later: string, mark: string, after: string)
    ensures first + later + mark + after == first + (later + mark + after)
  {
  }

  /** Whatever a text says, a reader of TOML reads that from its string. */
  lemma {:induction false} TomlReadsBack(text: string, after: string)
    ensures ReadToml(QuotedAll(text) + "\"" + after) == Some((text, after))
  {
    hide Quoted;
    if text == "" {
      assert QuotedAll(text) + "\"" + after == "\"" + after;
    } else {
      var more := QuotedAll(text[1..]) + "\"" + after;
      TomlReadsBack(text[1..], after);
      hide ReadToml;
      CharacterReadsBack(text[0], more);
      FirstThen(Quoted(text[0]), QuotedAll(text[1..]), "\"", after);
      assert text == [text[0]] + text[1..];
    }
  }

  lemma {:induction false} QuotedInTwo(a: string, b: string)
    ensures QuotedAll(a + b) == QuotedAll(a) + QuotedAll(b)
  {
    hide Quoted;
    if a == "" {
      assert a + b == b;
    } else {
      assert (a + b)[1..] == a[1..] + b;
      QuotedInTwo(a[1..], b);
    }
  }

  lemma QuotedByItself(c: char)
    ensures QuotedAll([c]) == Quoted(c)
  {
    hide Quoted;
    assert [c][1..] == "";
  }

  /** A text is written a character at a time, each by itself. */
  lemma WrittenOneByOne(before: string, c: char, after: string)
    ensures QuotedAll(before + [c] + after) == QuotedAll(before) + Quoted(c) + QuotedAll(after)
  {
    hide *;
    QuotedInTwo(before + [c], after);
    QuotedInTwo(before, [c]);
    QuotedByItself(c);
  }

  /**
   Marks and backslashes are written after a backslash, line ends by their letters, other controls but the
   tab by their codes in upper-case hexadecimal, and all else as it is.
   */
  lemma EscapedAre(c: char)
    ensures c == '"' || c == '\\' ==> Quoted(c) == ['\\', c]
    ensures (c == '\n' ==> Quoted(c) == "\\n") && (c == '\r' ==> Quoted(c) == "\\r")
    ensures c == '\t' || (' ' <= c && c != '"' && c != '\\' && c != '\U{7F}') ==> Quoted(c) == [c]
    ensures (c < ' ' && c != '\t' && c != '\n' && c != '\r') || c == '\U{7F}' ==>
      exists x, y :: Quoted(c) == ['\\', 'u', '0', '0', x, y]
        && HexValue(x) == Some(c as int / 16) && HexValue(y) == Some(c as int % 16)
        && !('a' <= x <= 'f') && !('a' <= y <= 'f')
  {
    if (c < ' ' && c != '\t' && c != '\n' && c != '\r') || c == '\U{7F}' {
      var x, y := HexDigit(c as int / 16), HexDigit(c as int % 16);
      assert Quoted(c) == ['\\', 'u', '0', '0', x, y];
    }
  }

  // ---------------------------------------------------------------------------------------
  // What a sub-agent starts with
  // ---------------------------------------------------------------------------------------

  const ROLE_SAID := "\n\nYour ConsensFlow role is "
  const SETTING := "developer_instructions = "

  predicate StandsAt(s: string, part: string, at: nat) {
    at + |part| <= |s| && s[at..at + |part|] == part
  }

  /** Where `part` stands first from `at` on. */
  function Find(s: string, part: string, at: nat): (found: Option<nat>)
    ensures found.Some? ==> StandsAt(s, part, found.value)
    ensures found.Some? ==> forall i :: at <= i < found.value ==> !StandsAt(s, part, i)
    ensures found.None? ==> forall i: nat :: at <= i ==> !StandsAt(s, part, i)
    decreases |s| - at
  {
    if at > |s| then None else if StandsAt(s, part, at) then Some(at) else Find(s, part, at + 1)
  }

  function UpTo(s: string, c: char): string {
    if s == "" || s[0] == c then "" else [s[0]] + UpTo(s[1..], c)
  }

  function Children(role: string): string {
    "You are a sub-agent that a ConsensFlow " + role + " started. You are not the " + role
    + ": you have no board identity, so never run cf; answer your parent in your final message."
  }

  /** What a sub-agent is told in place of `roleText`; nothing where that names no role. */
  function SubAgentSaid(roleText: string): Option<string> {
    var at := Find(roleText, ROLE_SAID, 0);
    if at.None? then None
    else
      Some(roleText[..at.value] + "\n\n" + Children(UpTo(roleText[at.value + |ROLE_SAID|..], '.')))
  }

  function SubAgents(roleText: string): Option<string> {
    var said := SubAgentSaid(roleText);
    if said.None? then None else Some(SETTING + TomlString(said.value) + "\n")
  }

  /** The setting a sub-agent's configuration holds, as a reader of TOML reads it. */
  function SettingOf(config: string): Option<(string, string)> {
    if !StartsWith(config, SETTING + "\"") then None else ReadToml(config[|SETTING| + 1..])
  }

  /** A sub-agent's configuration is one setting, and says all of what it is told. */
  lemma SubAgentsReadBack(roleText: string)
    ensures SubAgents(roleText).Some? == SubAgentSaid(roleText).Some?
    ensures SubAgents(roleText).Some? ==>
      SettingOf(SubAgents(roleText).value) == Some((SubAgentSaid(roleText).value, "\n"))
  {
    hide ReadToml, QuotedAll, SubAgentSaid;
    var said := SubAgentSaid(roleText);
    if said.Some? {
      var config := SubAgents(roleText).value;
      var quoted := QuotedAll(said.value) + "\"" + "\n";
      assert config == SETTING + "\"" + quoted;
      assert config[|SETTING| + 1..] == quoted;
      assert config[..|SETTING| + 1] == SETTING + "\"";
      TomlReadsBack(said.value, "\n");
    }
  }

  lemma {:induction false} UpToFirst(s: string, c: char, rest: string)
    requires c !in s && (rest == "" || rest[0] == c)
    ensures UpTo(s + rest, c) == s
  {
    if s == "" {
      assert s + rest == rest;
    } else {
      assert (s + rest)[1..] == s[1..] + rest;
      UpToFirst(s[1..], c, rest);
    }
  }

  lemma StandsBetween(s: string, a: string, part: string, b: string)
    requires s == a + part + b
    ensures StandsAt(s, part, |a|)
  {
    assert s[|a|..|a| + |part|] == part;
  }

  lemma BetweenStands(s: string, part: string, at: nat)
    requires StandsAt(s, part, at)
    ensures at + |part| <= |s| && s == s[..at] + part + s[at + |part|..]
  {
  }

  /** Where a text names the role first, and what is said of it. */
  lemma SaidOfRole(text: string, own: string, role: string, rest: string)
    requires text == own + ROLE_SAID + role + rest && '.' !in role && (rest == "" || rest[0] == '.')
    requires forall a, b :: text == a + ROLE_SAID + b ==> |a| >= |own|
    ensures SubAgentSaid(text) == Some(own + "\n\n" + Children(role))
  {
    hide StandsAt, Children, UpTo;
    assert text == own + ROLE_SAID + (role + rest);
    StandsBetween(text, own, ROLE_SAID, role + rest);
    var at := Find(text, ROLE_SAID, 0);
    BetweenStands(text, ROLE_SAID, at.value);
    assert at.value == |own|;
    assert text[..|own|] == own && text[|own| + |ROLE_SAID|..] == role + rest;
    UpToFirst(role, '.', rest);
  }

  /**
   A sub-agent is told all its harness was told before the role was named, and then that it is not the
   one of that role; a reader of TOML reads just that from its configuration.
   */
  lemma SubAgentsAreToldTheirOwn(text: string, own: string, role: string, rest: string)
    requires text == own + "\n\nYour ConsensFlow role is " + role + rest
    requires '.' !in role && (rest == "" || rest[0] == '.')
    requires forall a, b :: text == a + "\n\nYour ConsensFlow role is " + b ==> |a| >= |own|
    ensures SubAgents(text).Some?
    ensures SettingOf(SubAgents(text).value) ==
            Some((own + "\n\n" + ("You are a sub-agent that a ConsensFlow " + role
                  + " started. You are not the " + role
                  + ": you have no board identity, so never run cf; answer your parent in your final message."),
                  "\n"))
  {
    SaidOfRole(text, own, role, rest);
    hide SubAgents, SettingOf, SubAgentSaid;
    SubAgentsReadBack(text);
  }

  /** A text that names no role has no sub-agents' configuration, and no other has none. */
  lemma NoSubAgentsExactlyWhere(text: string)
    ensures SubAgents(text).None? <==> forall a, b :: text != a + "\n\nYour ConsensFlow role is " + b
  {
    hide StandsAt, Children, UpTo, TomlString;
    var at := Find(text, ROLE_SAID, 0);
    if at.Some? {
      BetweenStands(text, ROLE_SAID, at.value);
      var before, after := text[..at.value], text[at.value + |ROLE_SAID|..];
      assert text == before + "\n\nYour ConsensFlow role is " + after;
    } else {
      forall a, b | text == a + ROLE_SAID + b ensures false {
        StandsBetween(text, a, ROLE_SAID, b);
      }
    }
  }
}
