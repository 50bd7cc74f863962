/**
 The paths of a golden's files (tools/move_subagent_role_goldens.py): which of them hold a role, what
 stands beside one, and the order a list of changes says them in.
 */
module GoldenPaths {
  import opened Prelude

  /** No path ends a line: a pattern's end is the path's. */
  type Path = p: string | p == "" || p[|p| - 1] != '\n'

  const CLAUDE_LAUNCHES := "/integrations/claude/"
  const CLAUDE_SKILLS := "/role/.claude/skills/"
  const CLAUDE_SKILL := "consensflow-"
  const CLAUDE_FILE := "/SKILL.md"
  const CODEX_LAUNCHES := "/integrations/codex/"
  const CODEX_FILE := "/developer-instructions.md"
  const SUBAGENT_FILE := "sub-agents.toml"

  predicate EndsWith(s: string, end: string) {
    |end| <= |s| && s[|s| - |end|..] == end
  }

  predicate StartsWith(s: string, start: string) {
    |start| <= |s| && s[..|start|] == start
  }

  /** Where the last slash stands, -1 where there is none. */
  function LastSlash(s: string): (at: int)
    ensures -1 <= at < |s|
    ensures at >= 0 ==> s[at] == '/'
    ensures forall i :: at < i < |s| ==> s[i] != '/'
  {
    if s == "" then -1 else if s[|s| - 1] == '/' then |s| - 1 else LastSlash(s[..|s| - 1])
  }

  /** A name between two slashes. */
  predicate Segment(s: string) {
    s != "" && forall i :: 0 <= i < |s| ==> s[i] != '/'
  }

  /** Whether `s` is anything, then `dir`, then one name. */
  predicate NamedIn(s: string, dir: string) {
    var at := LastSlash(s);
    at >= 0 && at + 1 < |s| && EndsWith(s[..at + 1], dir)
  }

  /** Codex's role file, read from its end. */
  predicate IsCodexRole(path: string) {
    EndsWith(path, CODEX_FILE) && NamedIn(path[..|path| - |CODEX_FILE|], CODEX_LAUNCHES)
  }

  function DirectoryOf(s: string): string {
    s[..LastSlash(s) + 1]
  }

  function NameOf(s: string): string {
    s[LastSlash(s) + 1..]
  }

  /** What stands before `end`. */
  function Front(s: string, end: string): string
    requires EndsWith(s, end)
  {
    s[..|s| - |end|]
  }

  /** Whether `s` is anything, then `dirs`, then one name that goes on from `mark`. */
  predicate MarkedIn(s: string, dirs: string, mark: string) {
    LastSlash(s) >= 0 && StartsWith(NameOf(s), mark) && |NameOf(s)| > |mark| && EndsWith(DirectoryOf(s), dirs)
  }

  /** A directory of one of Consensflow's skills in a launch of Claude Code's. */
  predicate IsSkill(skill: string) {
    MarkedIn(skill, CLAUDE_SKILLS, CLAUDE_SKILL) && NamedIn(Front(DirectoryOf(skill), CLAUDE_SKILLS), CLAUDE_LAUNCHES)
  }

  /** Claude Code's role file, read from its end. */
  predicate IsClaudeRole(path: string) {
    EndsWith(path, CLAUDE_FILE) && IsSkill(path[..|path| - |CLAUDE_FILE|])
  }

  lemma LastSlashIs(s: string, at: nat)
    requires at < |s| && s[at] == '/' && forall i :: at < i < |s| ==> s[i] != '/'
    ensures LastSlash(s) == at
  {
  }

  /** `s` is some path, a directory after it, and one name in that. */
  ghost predicate Splits(s: string, pre: string, dir: string, name: string) {
    Segment(name) && s == pre + dir + name
  }

  lemma NamedInMeans(s: string, dir: string)
    requires dir != "" && dir[|dir| - 1] == '/'
    ensures NamedIn(s, dir) <==> exists pre, name :: Splits(s, pre, dir, name)
  {
    if NamedIn(s, dir) {
      var end := LastSlash(s) + 1;
      var pre, name := s[..end - |dir|], s[end..];
      assert s[..end] == pre + dir;
      assert Splits(s, pre, dir, name);
    }
    forall pre, name | Splits(s, pre, dir, name)
      ensures NamedIn(s, dir)
    {
      var end := |pre + dir|;
      assert s[end - 1] == (pre + dir)[end - 1] == '/';
      LastSlashIs(s, end - 1);
      assert s[..end] == pre + dir;
    }
  }

  /** What the script's pattern for Codex's role files says. */
  lemma CodexRolePattern(path: string)
    ensures IsCodexRole(path) <==>
      exists pre, launch ::
        Segment(launch) && path == pre + "/integrations/codex/" + launch + "/developer-instructions.md"
  {
    if EndsWith(path, CODEX_FILE) {
      var dir := path[..|path| - |CODEX_FILE|];
      assert path == dir + CODEX_FILE;
      NamedInMeans(dir, CODEX_LAUNCHES);
      if NamedIn(dir, CODEX_LAUNCHES) {
        var pre, launch :| Splits(dir, pre, CODEX_LAUNCHES, launch);
        assert path == pre + CODEX_LAUNCHES + launch + CODEX_FILE;
      }
    }
    forall pre, launch | Segment(launch) && path == pre + CODEX_LAUNCHES + launch + CODEX_FILE
      ensures IsCodexRole(path)
    {
      var dir := pre + CODEX_LAUNCHES + launch;
      assert path[..|path| - |CODEX_FILE|] == dir;
      assert Splits(dir, pre, CODEX_LAUNCHES, launch);
      NamedInMeans(dir, CODEX_LAUNCHES);
    }
  }

  /** A marked name in a directory, as a scan from its end finds it. */
  lemma MarkedScans(s: string, dir: string, dirs: string, mark: string, name: string)
    requires s == dir + dirs + mark + name && Segment(name) && Segment(mark)
    requires dirs != "" && dirs[|dirs| - 1] == '/'
    ensures MarkedIn(s, dirs, mark) && Front(DirectoryOf(s), dirs) == dir
  {
    var end := |dir| + |dirs|;
    assert s[end..] == mark + name;
    assert s[end - 1] == dirs[|dirs| - 1];
    forall i | end <= i < |s| ensures s[i] != '/' {
      assert s[i] == (mark + name)[i - end];
    }
    LastSlashIs(s, end - 1);
    assert s[..end] == dir + dirs;
    assert s[..|dir|] == dir;
  }

  lemma EndsOn(s: string, end: string)
    ensures EndsWith(s + end, end) && (s + end)[..|s + end| - |end|] == s
  {
  }

  lemma LaunchPattern(pre: string, launch: string)
    requires Segment(launch)
    ensures NamedIn(pre + CLAUDE_LAUNCHES + launch, CLAUDE_LAUNCHES)
  {
    assert Splits(pre + CLAUDE_LAUNCHES + launch, pre, CLAUDE_LAUNCHES, launch);
    hide Segment, NamedIn, Splits;
    NamedInMeans(pre + CLAUDE_LAUNCHES + launch, CLAUDE_LAUNCHES);
  }

  lemma SkillPattern(skill: string, dir: string, role: string)
    requires Segment(role) && NamedIn(dir, CLAUDE_LAUNCHES)
    requires skill == dir + CLAUDE_SKILLS + CLAUDE_SKILL + role
    ensures IsSkill(skill)
  {
    assert Segment(CLAUDE_SKILL);
    hide NamedIn, MarkedIn, Front, DirectoryOf, Segment;
    MarkedScans(skill, dir, CLAUDE_SKILLS, CLAUDE_SKILL, role);
  }

  lemma EndSplits(s: string, end: string)
    requires EndsWith(s, end)
    ensures s == Front(s, end) + end
  {
  }

  lemma StartSplits(s: string, start: string)
    requires StartsWith(s, start)
    ensures s == start + s[|start|..]
  {
  }

  lemma NameSplits(s: string, k: nat)
    requires k < |NameOf(s)|
    ensures s == DirectoryOf(s) + NameOf(s) && Segment(NameOf(s)[k..])
  {
  }

  lemma Regrouped(a: string, b: string, c: string, d: string)
    ensures (a + b) + (c + d) == a + b + c + d
  {
  }

  /** A name that starts with a mark, in a directory that ends with another. */
  lemma MarkedSplits(s: string, dirs: string, mark: string)
    requires MarkedIn(s, dirs, mark)
    ensures var name := NameOf(s)[|mark|..];
            Segment(name) && s == Front(DirectoryOf(s), dirs) + dirs + mark + name
  {
    hide Segment, LastSlash, NameOf, DirectoryOf, Front, StartsWith, EndsWith;
    NameSplits(s, |mark|);
    EndSplits(DirectoryOf(s), dirs);
    StartSplits(NameOf(s), mark);
    Regrouped(Front(DirectoryOf(s), dirs), dirs, mark, NameOf(s)[|mark|..]);
  }

  ghost predicate ClaudeRoleOf(path: string, pre: string, launch: string, role: string) {
    && Segment(launch) && Segment(role)
    && path == pre + "/integrations/claude/" + launch + "/role/.claude/skills/" + "consensflow-" + role
               + "/SKILL.md"
  }

  lemma ClaudeRoleSplits(path: string)
    requires IsClaudeRole(path)
    ensures exists pre, launch, role :: ClaudeRoleOf(path, pre, launch, role)
  {
    hide NamedIn;
    var skill := path[..|path| - |CLAUDE_FILE|];
    MarkedSplits(skill, CLAUDE_SKILLS, CLAUDE_SKILL);
    var dir, role := Front(DirectoryOf(skill), CLAUDE_SKILLS), NameOf(skill)[|CLAUDE_SKILL|..];
    assert path == skill + CLAUDE_FILE;
    hide *;
    SkillIs(path, skill, dir, role);
  }

  lemma SkillIs(path: string, skill: string, dir: string, role: string)
    requires path == skill + CLAUDE_FILE && skill == dir + CLAUDE_SKILLS + CLAUDE_SKILL + role
    requires Segment(role) && NamedIn(dir, CLAUDE_LAUNCHES)
    ensures exists pre, launch :: ClaudeRoleOf(path, pre, launch, role)
  {
    NamedInMeans(dir, CLAUDE_LAUNCHES);
    hide NamedIn;
    var pre, launch :| Splits(dir, pre, CLAUDE_LAUNCHES, launch);
    assert ClaudeRoleOf(path, pre, launch, role);
  }

  /** What the script's pattern for Claude Code's role files says. */
  lemma ClaudeRolePattern(path: string)
    ensures IsClaudeRole(path) <==>
      exists pre, launch, role :: ClaudeRoleOf(path, pre, launch, role)
  {
    if IsClaudeRole(path) {
      ClaudeRoleSplits(path);
    }
    hide IsSkill, EndsWith, Segment, NamedIn;
    forall pre, launch, role | ClaudeRoleOf(path, pre, launch, role)
      ensures IsClaudeRole(path)
    {
      var dir := pre + CLAUDE_LAUNCHES + launch;
      var skill := dir + CLAUDE_SKILLS + CLAUDE_SKILL + role;
      LaunchPattern(pre, launch);
      SkillPattern(skill, dir, role);
      EndsOn(skill, CLAUDE_FILE);
    }
  }

  // ---------------------------------------------------------------------------------------
  // What stands beside a role
  // ---------------------------------------------------------------------------------------

  /** The sub-agents' file in the directory of `path`. */
  function Beside(path: string): (beside: Path) {
    path[..LastSlash(path) + 1] + SUBAGENT_FILE
  }

  /** The sub-agents' file beside `path`; nothing where `path` has no directory. */
  function Sibling(path: string): Option<Path> {
    if LastSlash(path) < 0 then None else Some(Beside(path))
  }

  /** The role file a sub-agents' file stands beside, if one does. */
  function RoleBeside(path: Path): Path {
    path[..LastSlash(path) + 1] + CODEX_FILE[1..]
  }

  predicate IsSubAgents(path: string) {
    EndsWith(path, "/" + SUBAGENT_FILE)
  }

  /** The last slash of a file in a directory, given with the slash before it, is that one. */
  lemma SlashOfFile(dir: string, file: string)
    requires file != "" && file[0] == '/' && Segment(file[1..])
    ensures LastSlash(dir + file) == |dir|
  {
    hide LastSlash;
    var path := dir + file;
    forall i | |dir| < i < |path| ensures path[i] != '/' {
      assert path[i] == file[1..][i - |dir| - 1];
    }
    LastSlashIs(path, |dir|);
  }

  lemma ReplacedAfter(dir: string, file: string, other: string)
    requires file != "" && other != "" && file[0] == other[0]
    ensures (dir + file)[..|dir| + 1] + other[1..] == dir + other
  {
    var upTo := (dir + file)[..|dir| + 1];
    assert upTo[..|dir|] == dir && upTo[|dir|] == other[0];
  }

  /** One file's name in the place of another's. */
  lemma InPlaceOf(dir: string, file: string, other: string)
    requires file != "" && file[0] == '/' && Segment(file[1..]) && other != "" && other[0] == '/'
    ensures LastSlash(dir + file) == |dir|
    ensures (dir + file)[..|dir| + 1] + other[1..] == dir + other
  {
    hide LastSlash, Segment;
    SlashOfFile(dir, file);
    ReplacedAfter(dir, file, other);
  }

  lemma FileNames()
    ensures Segment(CODEX_FILE[1..]) && Segment(SUBAGENT_FILE)
    ensures ("/" + SUBAGENT_FILE)[1..] == SUBAGENT_FILE
  {
  }

  lemma BesideRole(path: Path)
    requires IsCodexRole(path)
    ensures Sibling(path) == Some(Beside(path)) && IsSubAgents(Beside(path))
    ensures RoleBeside(Beside(path)) == path
  {
    hide NamedIn, LastSlash, EndsWith, Segment, Front;
    var dir, file := Front(path, CODEX_FILE), "/" + SUBAGENT_FILE;
    FileNames();
    EndSplits(path, CODEX_FILE);
    InPlaceOf(dir, CODEX_FILE, file);
    InPlaceOf(dir, file, CODEX_FILE);
    EndsOn(dir, file);
  }

  lemma SiblingIs(dir: string, role: string, file: string)
    requires role == CODEX_FILE && file == "/" + SUBAGENT_FILE
    ensures LastSlash(dir + role) == |dir| && Sibling(dir + role) == Some(dir + file)
  {
    hide LastSlash, EndsWith, Segment;
    FileNames();
    InPlaceOf(dir, role, file);
  }

  lemma RoleBesideIs(dir: string, role: string, file: string)
    requires role == CODEX_FILE && file == "/" + SUBAGENT_FILE
    ensures RoleBeside(dir + file) == dir + role && IsSubAgents(dir + file)
  {
    hide LastSlash, EndsWith, Segment;
    FileNames();
    InPlaceOf(dir, file, role);
    EndsOn(dir, file);
  }

  /** The sub-agents' file is the one of its name in the directory of the role's, and the other way round. */
  lemma SubAgentsStandBeside(dir: string)
    ensures Sibling(dir + "/developer-instructions.md") == Some(dir + "/sub-agents.toml")
    ensures RoleBeside(dir + "/sub-agents.toml") == dir + "/developer-instructions.md"
    ensures IsSubAgents(dir + "/sub-agents.toml")
  {
    assert "/developer-instructions.md" == CODEX_FILE && "/sub-agents.toml" == "/" + SUBAGENT_FILE;
    hide *;
    SiblingIs(dir, "/developer-instructions.md", "/sub-agents.toml");
    RoleBesideIs(dir, "/developer-instructions.md", "/sub-agents.toml");
  }

  /** Whatever a path's file is named, what stands beside it is in its directory; one with no directory has none. */
  lemma SiblingOfAny(dir: string, name: string)
    requires forall i :: 0 <= i < |name| ==> name[i] != '/'
    ensures Sibling(dir + "/" + name) == Some(dir + "/sub-agents.toml")
    ensures Sibling(name) == None
  {
    LastSlashIs(dir + "/" + name, |dir|);
    hide LastSlash;
    assert (dir + "/" + name)[..|dir| + 1] == dir + "/";
    assert dir + "/" + SUBAGENT_FILE == dir + "/sub-agents.toml";
  }

  lemma RoleOfSubAgents(path: Path)
    requires IsSubAgents(path)
    ensures Beside(RoleBeside(path)) == path
  {
    hide LastSlash, EndsWith, Segment, Front;
    var file := "/" + SUBAGENT_FILE;
    FileNames();
    EndSplits(path, file);
    InPlaceOf(Front(path, file), file, CODEX_FILE);
    InPlaceOf(Front(path, file), CODEX_FILE, file);
  }

  lemma EndsIn(s: string, end: string, k: nat)
    requires 1 <= k <= |end|
    ensures EndsWith(s, end) ==> s[|s| - k] == end[|end| - k]
  {
    if EndsWith(s, end) {
      assert s[|s| - |end|..][|end| - k] == s[|s| - k];
    }
  }

  /** A sub-agents' file is no role file. */
  lemma SubAgentsAreNoRole(path: Path)
    requires IsSubAgents(path)
    ensures !IsCodexRole(path) && !IsClaudeRole(path)
  {
    EndsIn(path, "/" + SUBAGENT_FILE, 1);
    EndsIn(path, CODEX_FILE, 1);
    EndsIn(path, CLAUDE_FILE, 1);
  }

  /** No file is a role of both harnesses. */
  lemma RolesAreApart(path: Path)
    ensures !(IsCodexRole(path) && IsClaudeRole(path))
  {
    EndsIn(path, CODEX_FILE, 4);
    EndsIn(path, CLAUDE_FILE, 4);
  }

  // ---------------------------------------------------------------------------------------
  // The order of paths
  // ---------------------------------------------------------------------------------------

  /** A character in big-endian UTF-16. */
  function Encoded(c: char): seq<int> {
    var code := c as int;
    if code < 0x1_0000 then [code / 0x100, code % 0x100]
    else
      var high, low := 0xD800 + (code - 0x1_0000) / 0x400, 0xDC00 + (code - 0x1_0000) % 0x400;
      [high / 0x100, high % 0x100, low / 0x100, low % 0x100]
  }

  function Utf16(s: string): (bytes: seq<int>)
    ensures bytes == [] <==> s == ""
  {
    if s == "" then [] else Encoded(s[0]) + Utf16(s[1..])
  }

  predicate Less(a: seq<int>, b: seq<int>) {
    b != [] && (a == [] || a[0] < b[0] || (a[0] == b[0] && Less(a[1..], b[1..])))
  }

  predicate Precedes(p: string, q: string) {
    Less(Utf16(p), Utf16(q))
  }

  lemma {:induction false} LessIsAnOrder(a: seq<int>, b: seq<int>, c: seq<int>)
    ensures !(Less(a, b) && Less(b, a)) && !Less(a, a)
    ensures a == b || Less(a, b) || Less(b, a)
    ensures Less(a, b) && Less(b, c) ==> Less(a, c)
  {
    if a != [] && b != [] {
      LessIsAnOrder(a[1..], b[1..], if c == [] then [] else c[1..]);
      if a[0] == b[0] && a[1..] == b[1..] {
        assert a == [a[0]] + a[1..] == b;
      }
    } else if a != [] {
      LessIsAnOrder(a[1..], a[1..], []);
    }
  }

  /** The character bytes are of, as a number. */
  function Decoded(bytes: seq<int>): int
    requires |bytes| == 2 || |bytes| == 4
  {
    if |bytes| == 2 then bytes[0] * 0x100 + bytes[1]
    else
      (bytes[0] * 0x100 + bytes[1] - 0xD800) * 0x400 + bytes[2] * 0x100 + bytes[3] - 0xDC00 + 0x1_0000
  }

  lemma DecodedIsEncoded(c: char)
    ensures |Encoded(c)| == (if 0xD8 <= Encoded(c)[0] < 0xDC then 4 else 2)
    ensures Decoded(Encoded(c)) == c as int
  {
  }

  /** Two characters' bytes tell them apart, and neither's start the other's. */
  lemma EncodedIsOwn(c: char, d: char, more: seq<int>, rest: seq<int>)
    requires Encoded(c) + more == Encoded(d) + rest
    ensures c == d && more == rest
  {
    DecodedIsEncoded(c);
    DecodedIsEncoded(d);
    hide Decoded;
    var a, b := Encoded(c) + more, Encoded(d) + rest;
    assert Encoded(c)[0] == a[0] == b[0] == Encoded(d)[0];
    hide Encoded;
    assert Encoded(c) == a[..|Encoded(c)|] == b[..|Encoded(d)|] == Encoded(d);
    assert more == a[|Encoded(c)|..] == rest;
  }

  lemma {:induction false} Utf16IsOwn(p: string, q: string)
    requires Utf16(p) == Utf16(q)
    ensures p == q
  {
    hide Encoded;
    if p != "" && q != "" {
      EncodedIsOwn(p[0], q[0], Utf16(p[1..]), Utf16(q[1..]));
      Utf16IsOwn(p[1..], q[1..]);
      assert p == [p[0]] + p[1..] && q == [q[0]] + q[1..];
    }
  }

  /** Paths are in one order, and no two different ones are level in it. */
  lemma PathsAreOrdered(p: string, q: string, r: string)
    ensures !Precedes(p, p) && !(Precedes(p, q) && Precedes(q, p))
    ensures p == q || Precedes(p, q) || Precedes(q, p)
    ensures Precedes(p, q) && Precedes(q, r) ==> Precedes(p, r)
  {
    hide Less, Utf16;
    LessIsAnOrder(Utf16(p), Utf16(q), Utf16(r));
    if Utf16(p) == Utf16(q) {
      Utf16IsOwn(p, q);
    }
  }

  lemma {:induction false} Utf16InTwo(a: string, b: string)
    ensures Utf16(a + b) == Utf16(a) + Utf16(b)
  {
    hide Encoded;
    if a == "" {
      assert a + b == b;
    } else {
      assert (a + b)[1..] == a[1..] + b;
      Utf16InTwo(a[1..], b);
    }
  }

  lemma {:induction false} LessAfter(start: seq<int>, a: seq<int>, b: seq<int>)
    ensures Less(start + a, start + b) <==> Less(a, b)
  {
    if start == [] {
      assert start + a == a && start + b == b;
    } else {
      assert (start + a)[1..] == start[1..] + a && (start + b)[1..] == start[1..] + b;
      LessAfter(start[1..], a, b);
    }
  }

  /** Two units that differ decide, whatever follows them. */
  lemma UnitsDecide(u: int, v: int, more: seq<int>, rest: seq<int>)
    requires 0 <= u < 0x1_0000 && 0 <= v < 0x1_0000 && u != v
    ensures Less([u / 0x100, u % 0x100] + more, [v / 0x100, v % 0x100] + rest) <==> u < v
  {
    var a, b := [u / 0x100, u % 0x100] + more, [v / 0x100, v % 0x100] + rest;
    assert a[1..] == [u % 0x100] + more && b[1..] == [v % 0x100] + rest;
  }

  /** A character's first unit, and what comes after it. */
  lemma FirstUnit(c: char) returns (unit: int, after: seq<int>)
    ensures 0 <= unit < 0x1_0000 && Encoded(c) == [unit / 0x100, unit % 0x100] + after
    ensures c as int < 0x1_0000 ==> unit == c as int && after == []
    ensures c as int >= 0x1_0000 ==>
      var low := 0xDC00 + (c as int - 0x1_0000) % 0x400;
      unit == 0xD800 + (c as int - 0x1_0000) / 0x400 < 0xDC00 && after == [low / 0x100, low % 0x100]
  {
    var code := c as int;
    if code < 0x1_0000 {
      unit, after := code, [];
    } else {
      var low := 0xDC00 + (code - 0x1_0000) % 0x400;
      unit, after := 0xD800 + (code - 0x1_0000) / 0x400, [low / 0x100, low % 0x100];
    }
  }

  /**
   Of two characters the one with the lower code comes first, but that one past U+FFFF comes before those
   from U+E000 to it.
   */
  predicate ComesFirst(c: char, d: char) {
    if (c as int < 0x1_0000) == (d as int < 0x1_0000) then c < d
    else if c as int < 0x1_0000 then c as int < 0xD800 else d as int >= 0xE000
  }

  lemma CharactersDecide(c: char, d: char, more: seq<int>, rest: seq<int>)
    requires c != d
    ensures Less(Encoded(c) + more, Encoded(d) + rest) <==> ComesFirst(c, d)
  {
    var u, afterC := FirstUnit(c);
    var v, afterD := FirstUnit(d);
    var a, b := Encoded(c) + more, Encoded(d) + rest;
    assert a == [u / 0x100, u % 0x100] + (afterC + more) && b == [v / 0x100, v % 0x100] + (afterD + rest);
    if u != v {
      hide Less, Encoded;
      UnitsDecide(u, v, afterC + more, afterD + rest);
    } else {
      hide Less, Encoded;
      var x, y := 0xDC00 + (c as int - 0x1_0000) % 0x400, 0xDC00 + (d as int - 0x1_0000) % 0x400;
      LessAfter([u / 0x100, u % 0x100], afterC + more, afterD + rest);
      UnitsDecide(x, y, more, rest);
    }
  }

  /** Where two paths first differ decides their order; a path comes before one that goes on from it. */
  lemma FirstDifferenceOrders(p: string, c: char, d: char, q: string, r: string)
    requires c != d
    ensures Precedes(p + [c] + q, p + [d] + r) <==> ComesFirst(c, d)
    ensures Precedes(p, p + [c] + q)
  {
    hide Less, Encoded, ComesFirst;
    assert p + [c] + q == p + ([c] + q) && p + [d] + r == p + ([d] + r);
    Utf16InTwo(p, [c] + q);
    Utf16InTwo(p, [d] + r);
    OneEncoded(c, q);
    OneEncoded(d, r);
    LessAfter(Utf16(p), Utf16([c] + q), Utf16([d] + r));
    CharactersDecide(c, d, Utf16(q), Utf16(r));
    LessAfter(Utf16(p), [], Utf16([c] + q));
    NothingIsLess(Utf16([c] + q));
    assert Utf16(p) + [] == Utf16(p);
  }

  lemma OneEncoded(c: char, q: string)
    ensures Utf16([c] + q) == Encoded(c) + Utf16(q)
  {
    hide Encoded;
    assert ([c] + q)[1..] == q;
  }

  lemma NothingIsLess(bytes: seq<int>)
    requires bytes != []
    ensures Less([], bytes)
  {
  }

  ghost predicate Least(p: Path, paths: set<Path>) {
    p in paths && forall q :: q in paths && q != p ==> Precedes(p, q)
  }

  lemma {:induction false} OneIsLeast(paths: set<Path>)
    requires paths != {}
    ensures exists least: Path :: Least(least, paths)
  {
    hide Precedes;
    var p :| p in paths;
    if paths == {p} {
      assert Least(p, paths);
    } else {
      OneIsLeast(paths - {p});
      var least: Path :| Least(least, paths - {p});
      PathsAreOrdered(p, least, p);
      if Precedes(p, least) {
        forall q | q in paths && q != p
          ensures Precedes(p, q)
        {
          PathsAreOrdered(p, least, q);
        }
        assert Least(p, paths);
      } else {
        assert Least(least, paths);
      }
    }
  }

  ghost function First(paths: set<Path>): (least: Path)
    requires paths != {}
    ensures Least(least, paths)
  {
    OneIsLeast(paths);
    var least: Path :| Least(least, paths);
    least
  }

  ghost predicate Ascending(paths: seq<Path>) {
    forall i, j :: 0 <= i < j < |paths| ==> Precedes(paths[i], paths[j])
  }

  /** Paths in their order. */
  ghost function InOrder(paths: set<Path>): (sorted: seq<Path>)
    ensures forall p :: p in sorted <==> p in paths
    ensures Ascending(sorted)
    decreases |paths|
  {
    hide Precedes;
    if paths == {} then []
    else
      var least := First(paths);
      [least] + InOrder(paths - {least})
  }
}
