/**
 A launch's goldens moved to sub-agents that start without the window's role
 (tools/move_subagent_role_goldens.py). A record says what its step changed of the files: the records
 are replayed, the files after each step moved, and each step's change said again between them.
 */
module GoldenMove {
  import opened Prelude
  import opened GoldenPaths
  import opened GoldenTexts

  /** What a golden says of a file beside its text: its mode, and whatever else. */
  datatype Json = Null | Truth(truth: bool) | Number(number: int) | Text(text: string)

  datatype Entry = Entry(text: Option<string>, rest: map<string, Json>)

  type Files = map<Path, Entry>

  // ---------------------------------------------------------------------------------------
  // Files as the moved code leaves them
  // ---------------------------------------------------------------------------------------

  predicate IsRole(files: Files, path: Path) {
    path in files && IsCodexRole(path) && files[path].text.Some?
  }

  /** A role's file under Claude Code, no longer for the model; any other file as it is. */
  function ForNoModel(path: Path, entry: Entry): Entry {
    if IsClaudeRole(path) && entry.text.Some?
    then entry.(text := Some(NotForTheModel(entry.text.value))) else entry
  }

  /** The sub-agents' file beside a role, with the role's mode; none where the role says no role. */
  function SubAgentsEntry(role: Entry): Option<Entry>
    requires role.text.Some?
  {
    var text := SubAgents(role.text.value);
    if text.None? then None
    else Some(Entry(text, map["mode" := if "mode" in role.rest then role.rest["mode"] else Null]))
  }

  /** Every role that has a text says one the sub-agents' file can be made of. */
  predicate Movable(files: Files) {
    forall path :: path in files && IsRole(files, path) ==> SubAgentsEntry(files[path]).Some?
  }

  /** The roles' sub-agents' files. */
  function BesideRoles(files: Files): set<Path> {
    set path | path in files && IsRole(files, path) :: Beside(path)
  }

  /** What the moved files hold at `path`. */
  function MovedAt(files: Files, path: Path): Option<Entry> {
    if IsSubAgents(path) && IsRole(files, RoleBeside(path))
    then SubAgentsEntry(files[RoleBeside(path)])
    else if path in files then Some(ForNoModel(path, files[path]))
    else None
  }

  function Moved(files: Files): Files {
    map path: Path | path in files.Keys + BesideRoles(files) && MovedAt(files, path).Some?
      :: MovedAt(files, path).value
  }

  lemma MovedSays(files: Files, path: Path)
    ensures path in Moved(files) <==> MovedAt(files, path).Some?
    ensures path in Moved(files) ==> Moved(files)[path] == MovedAt(files, path).value
  {
    if IsSubAgents(path) && IsRole(files, RoleBeside(path)) {
      RoleOfSubAgents(path);
      assert path in BesideRoles(files);
    }
  }

  /** Moving changes no role of Codex's. */
  lemma RolesStay(files: Files, path: Path)
    requires IsCodexRole(path)
    ensures path in Moved(files) <==> path in files
    ensures path in files ==> Moved(files)[path] == files[path]
  {
    hide IsCodexRole, IsClaudeRole, IsSubAgents;
    MovedSays(files, path);
    RolesAreApart(path);
    if IsSubAgents(path) {
      SubAgentsAreNoRole(path);
    }
  }

  /**
   What moved files hold: beside each role of Codex's with a text a file of what its sub-agents are told, with
   the role's mode; the roles of Claude Code not for the model; every other file as it was.
   */
  lemma MovedFilesHold(files: Files, path: Path)
    requires Movable(files)
    ensures path in files && IsCodexRole(path) && files[path].text.Some? ==>
      && Beside(path) in Moved(files)
      && Moved(files)[Beside(path)].text == SubAgents(files[path].text.value)
      && Moved(files)[Beside(path)].rest ==
         map["mode" := if "mode" in files[path].rest then files[path].rest["mode"] else Null]
    ensures path in files && IsClaudeRole(path) && files[path].text.Some? ==>
      path in Moved(files)
      && Moved(files)[path] == Entry(Some(NotForTheModel(files[path].text.value)), files[path].rest)
    ensures (forall role: Path :: role in files && IsCodexRole(role) && files[role].text.Some? ==>
               Beside(role) != path)
            && (path in files ==> !IsClaudeRole(path) || files[path].text.None?) ==>
      (path in Moved(files) <==> path in files) && (path in files ==> Moved(files)[path] == files[path])
  {
    hide IsCodexRole, IsClaudeRole, IsSubAgents, SubAgents, NotForTheModel, Moved, Beside, RoleBeside;
    MovedSays(files, path);
    if IsCodexRole(path) {
      BesideRole(path);
      MovedSays(files, Beside(path));
    }
    if IsSubAgents(path) {
      SubAgentsAreNoRole(path);
      RoleOfSubAgents(path);
    }
  }

  lemma MovedAtTwice(files: Files, path: Path)
    requires Movable(files)
    ensures MovedAt(Moved(files), path) == MovedAt(files, path)
  {
    hide IsCodexRole, IsClaudeRole, IsSubAgents, SubAgents, NotForTheModel, Moved;
    MovedSays(files, path);
    var role := RoleBeside(path);
    if IsCodexRole(role) {
      RolesStay(files, role);
    }
    if IsSubAgents(path) {
      SubAgentsAreNoRole(path);
    }
    if path in files && files[path].text.Some? {
      NotForTheModelOnce(files[path].text.value);
    }
  }

  /** Files already moved are moved to themselves. */
  lemma MovedTwice(files: Files)
    requires Movable(files)
    ensures Movable(Moved(files)) && Moved(Moved(files)) == Moved(files)
  {
    hide Moved, MovedAt, IsCodexRole, IsClaudeRole, SubAgentsEntry;
    forall path | path in Moved(files) && IsRole(Moved(files), path)
      ensures SubAgentsEntry(Moved(files)[path]).Some?
    {
      RolesStay(files, path);
    }
    forall path: Path
      ensures path in Moved(Moved(files)) <==> path in Moved(files)
      ensures path in Moved(files) ==> Moved(Moved(files))[path] == Moved(files)[path]
    {
      MovedSays(files, path);
      MovedSays(Moved(files), path);
      MovedAtTwice(files, path);
    }
    assert Moved(Moved(files)).Keys == Moved(files).Keys;
  }

  // ---------------------------------------------------------------------------------------
  // Changes and replay
  // ---------------------------------------------------------------------------------------

  /** One change a step says. */
  datatype Said = Removed(path: Path) | Put(path: Path, entry: Entry)

  function Applied(files: Files, said: Said): Files {
    match said
    case Removed(path) => files - {path}
    case Put(path, entry) => files[path := entry]
  }

  function Replay(files: Files, tree: seq<Said>): Files
    decreases |tree|
  {
    if tree == [] then files else Replay(Applied(files, tree[0]), tree[1..])
  }

  predicate Differ(was: Files, now: Files, path: Path) {
    !(path in was <==> path in now) || (path in now && was[path] != now[path])
  }

  function ChangeAt(was: Files, now: Files, path: Path): seq<Said> {
    if !Differ(was, now, path) then [] else if path in now then [Put(path, now[path])] else [Removed(path)]
  }

  function ChangesAlong(paths: seq<Path>, was: Files, now: Files): seq<Said> {
    if paths == [] then [] else ChangeAt(was, now, paths[0]) + ChangesAlong(paths[1..], was, now)
  }

  /** Each path made, changed or removed, in order. */
  ghost function Changes(was: Files, now: Files): seq<Said> {
    ChangesAlong(InOrder(was.Keys + now.Keys), was, now)
  }

  lemma SameFiles(a: Files, b: Files)
    requires forall path: Path :: !Differ(a, b, path)
    ensures a == b
  {
    forall path: Path
      ensures path in a <==> path in b
      ensures path in a ==> a[path] == b[path]
    {
      assert !Differ(a, b, path);
    }
    assert a.Keys == b.Keys;
  }

  /** One change brings its path to what it is now, and touches no other. */
  lemma ChangeReplays(files: Files, was: Files, now: Files, path: Path)
    requires !Differ(files, was, path)
    ensures var next := Replay(files, ChangeAt(was, now, path));
            !Differ(next, now, path) &&
            forall p: Path :: p != path ==> (p in next <==> p in files) && (p in files ==> next[p] == files[p])
  {
    var change := ChangeAt(was, now, path);
    if change != [] {
      assert change[1..] == [];
      assert Replay(files, change) == Replay(Applied(files, change[0]), []) == Applied(files, change[0]);
    }
  }

  lemma {:induction false} ReplayInTwo(files: Files, first: seq<Said>, rest: seq<Said>)
    ensures Replay(files, first + rest) == Replay(Replay(files, first), rest)
    decreases |first|
  {
    if first == [] {
      assert first + rest == rest;
    } else {
      assert (first + rest)[1..] == first[1..] + rest;
      ReplayInTwo(Applied(files, first[0]), first[1..], rest);
    }
  }

  lemma {:induction false} ReplayAlong(files: Files, paths: seq<Path>, was: Files, now: Files)
    requires Ascending(paths)
    requires forall path: Path :: path in paths ==> !Differ(files, was, path)
    requires forall path: Path :: path !in paths ==> !Differ(files, now, path)
    ensures Replay(files, ChangesAlong(paths, was, now)) == now
    decreases |paths|
  {
    hide Precedes, ChangeAt, Replay;
    if paths == [] {
      SameFiles(files, now);
      NoChange(files);
    } else {
      var path, rest := paths[0], paths[1..];
      var next := Replay(files, ChangeAt(was, now, path));
      ChangeReplays(files, was, now, path);
      forall p: Path
        ensures p in rest ==> !Differ(next, was, p)
        ensures p !in rest ==> !Differ(next, now, p)
      {
        assert p in paths <==> p == path || p in rest;
        assert !Differ(files, if p in paths then was else now, p);
        PathsAreOrdered(p, path, p);
      }
      ReplayAlong(next, rest, was, now);
      ReplayInTwo(files, ChangeAt(was, now, path), ChangesAlong(rest, was, now));
    }
  }

  lemma NoChange(files: Files)
    ensures Replay(files, []) == files
  {
  }

  /** What changed, replayed on what was, is what is. */
  lemma ChangesReplay(was: Files, now: Files)
    ensures Replay(was, Changes(was, now)) == now
  {
    ReplayAlong(was, InOrder(was.Keys + now.Keys), was, now);
  }

  ghost predicate SaidInOrder(tree: seq<Said>, paths: set<Path>) {
    && (forall said :: said in tree ==> said.path in paths)
    && (forall i, j :: 0 <= i < j < |tree| ==> Precedes(tree[i].path, tree[j].path))
  }

  ghost function PathsIn(paths: seq<Path>): set<Path> {
    set path | path in paths
  }

  lemma {:induction false} ChangesAlongAscend(paths: seq<Path>, was: Files, now: Files)
    requires Ascending(paths)
    ensures SaidInOrder(ChangesAlong(paths, was, now), PathsIn(paths))
  {
    hide Precedes, Differ;
    if paths != [] {
      ChangesAlongAscend(paths[1..], was, now);
      var rest, head := ChangesAlong(paths[1..], was, now), ChangeAt(was, now, paths[0]);
      var tree := head + rest;
      forall p | p in paths[1..]
        ensures Precedes(paths[0], p)
      {
        var k :| 0 <= k < |paths[1..]| && paths[1..][k] == p;
        assert paths[k + 1] == p;
      }
      forall i, j | 0 <= i < j < |tree|
        ensures Precedes(tree[i].path, tree[j].path)
      {
        assert tree[j] == rest[j - |head|];
        assert rest[j - |head|] in rest;
        if i >= |head| {
          assert tree[i] == rest[i - |head|];
        }
      }
    }
  }

  ghost predicate OnlyDiffering(tree: seq<Said>, was: Files, now: Files) {
    forall i :: 0 <= i < |tree| ==> Differ(was, now, tree[i].path)
  }

  ghost predicate SaysAll(tree: seq<Said>, paths: seq<Path>, was: Files, now: Files) {
    forall p :: p in paths && Differ(was, now, p) ==> exists i :: 0 <= i < |tree| && tree[i].path == p
  }

  lemma OneMoreSaid(head: seq<Said>, rest: seq<Said>, paths: seq<Path>, was: Files, now: Files)
    requires paths != [] && head == ChangeAt(was, now, paths[0])
    requires OnlyDiffering(rest, was, now) && SaysAll(rest, paths[1..], was, now)
    ensures OnlyDiffering(head + rest, was, now) && SaysAll(head + rest, paths, was, now)
  {
    var tree := head + rest;
    assert Differ(was, now, paths[0]) ==> |head| == 1 && head[0].path == paths[0];
    assert !Differ(was, now, paths[0]) ==> head == [];
    hide Differ, ChangeAt;
    forall i | 0 <= i < |tree|
      ensures Differ(was, now, tree[i].path)
    {
      assert tree[i] == if i < |head| then head[i] else rest[i - |head|];
    }
    forall p | p in paths && Differ(was, now, p)
      ensures exists i :: 0 <= i < |tree| && tree[i].path == p
    {
      if p == paths[0] {
        assert tree[0].path == p;
      } else {
        var i :| 0 <= i < |rest| && rest[i].path == p;
        assert tree[|head| + i] == rest[i];
      }
    }
  }

  lemma {:induction false} ChangesAlongSay(paths: seq<Path>, was: Files, now: Files)
    ensures OnlyDiffering(ChangesAlong(paths, was, now), was, now)
    ensures SaysAll(ChangesAlong(paths, was, now), paths, was, now)
  {
    if paths != [] {
      hide OnlyDiffering, SaysAll, ChangeAt;
      ChangesAlongSay(paths[1..], was, now);
      OneMoreSaid(ChangeAt(was, now, paths[0]), ChangesAlong(paths[1..], was, now), paths, was, now);
    }
  }

  /** A change names each path that differs once, in the order of UTF-16, and no other. */
  lemma ChangesSay(was: Files, now: Files)
    ensures var tree := Changes(was, now);
            && (forall i, j :: 0 <= i < j < |tree| ==> Precedes(tree[i].path, tree[j].path))
            && (forall p: Path ::
                  Differ(was, now, p) <==> exists i :: 0 <= i < |tree| && tree[i].path == p)
            && (tree == [] ==> was == now)
  {
    hide ChangesAlong, Precedes, Replay;
    var paths, tree := InOrder(was.Keys + now.Keys), Changes(was, now);
    ChangesAlongSay(paths, was, now);
    ChangesAlongAscend(paths, was, now);
    ChangesReplay(was, now);
    NoChange(was);
    forall p: Path | Differ(was, now, p)
      ensures exists i :: 0 <= i < |tree| && tree[i].path == p
    {
      assert p in paths;
    }
  }

  /** Nothing is said where nothing changed. */
  lemma {:induction false} NothingChanged(paths: seq<Path>, files: Files)
    ensures ChangesAlong(paths, files, files) == []
  {
    if paths != [] {
      NothingChanged(paths[1..], files);
    }
  }

  // ---------------------------------------------------------------------------------------
  // A launch's environment
  // ---------------------------------------------------------------------------------------

  const ROLE_VARIABLE := "CF_CODEX_ROLE_FILE"
  const SUBAGENT_VARIABLE := "CF_CODEX_SUBAGENT_FILE"
  const TYPES_VARIABLE := "CF_CODEX_SUBAGENT_TYPES"
  const AGENT_TYPES := "default,explorer,worker"

  type Env = seq<(string, string)>

  /** Where a variable is first named; nowhere where it is not. */
  function Named(env: Env, name: string): (at: Option<nat>)
    ensures at.Some? ==> at.value < |env| && env[at.value].0 == name
    ensures at.Some? ==> forall i :: 0 <= i < at.value ==> env[i].0 != name
    ensures at.None? ==> forall i :: 0 <= i < |env| ==> env[i].0 != name
  {
    if env == [] then None
    else if env[0].0 == name then Some(0)
    else
      var rest := Named(env[1..], name);
      if rest.None? then None else Some(rest.value + 1)
  }

  function Inserted(env: Env, at: nat, name: string, value: string): Env
    requires at <= |env|
  {
    env[..at] + [(name, value)] + env[at..]
  }

  /** The sub-agents' file named after the role's; nothing where the role's is in no directory. */
  function WithSubAgents(env: Env): Option<Env> {
    var role := Named(env, ROLE_VARIABLE);
    if role.None? || Named(env, SUBAGENT_VARIABLE).Some? then Some(env)
    else
      var beside := Sibling(env[role.value].1);
      if beside.None? then None
      else Some(Inserted(env, role.value + 1, SUBAGENT_VARIABLE, beside.value))
  }

  /** The agent types named after the sub-agents' file. */
  function WithTypes(env: Env): Env {
    var subAgents := Named(env, SUBAGENT_VARIABLE);
    if subAgents.None? || Named(env, TYPES_VARIABLE).Some? then env
    else Inserted(env, subAgents.value + 1, TYPES_VARIABLE, AGENT_TYPES)
  }

  function MovedEnv(env: Env): Option<Env> {
    var first := WithSubAgents(env);
    if first.None? then None else Some(WithTypes(first.value))
  }

  lemma InsertedNames(env: Env, at: nat, name: string, value: string, other: string)
    requires at <= |env| && Named(env, name).None?
    ensures Named(Inserted(env, at, name, value), name) == Some(at)
    ensures other != name ==>
      (Named(Inserted(env, at, name, value), other).Some? <==> Named(env, other).Some?)
  {
    var out := Inserted(env, at, name, value);
    assert out[at].0 == name;
    forall i | 0 <= i < |env|
      ensures env[i] == out[if i < at then i else i + 1]
    {
    }
    forall i | 0 <= i < |out| && i != at
      ensures out[i] == env[if i < at then i else i - 1]
    {
    }
  }

  /** An environment moved stays as it is; it names what it should, and where. */
  lemma MovedEnvTwice(env: Env)
    requires MovedEnv(env).Some?
    ensures var out := MovedEnv(env).value;
            && MovedEnv(out) == Some(out)
            && (Named(out, ROLE_VARIABLE).Some? <==> Named(env, ROLE_VARIABLE).Some?)
            && (Named(out, ROLE_VARIABLE).Some? ==> Named(out, SUBAGENT_VARIABLE).Some?)
            && (Named(out, SUBAGENT_VARIABLE).Some? ==> Named(out, TYPES_VARIABLE).Some?)
  {
    hide Named, Sibling, Inserted;
    var first := WithSubAgents(env).value;
    if Named(env, ROLE_VARIABLE).Some? && Named(env, SUBAGENT_VARIABLE).None? {
      var at := Named(env, ROLE_VARIABLE).value;
      InsertedNames(env, at + 1, SUBAGENT_VARIABLE, Sibling(env[at].1).value, ROLE_VARIABLE);
    }
    var out := WithTypes(first);
    if Named(first, SUBAGENT_VARIABLE).Some? && Named(first, TYPES_VARIABLE).None? {
      var at := Named(first, SUBAGENT_VARIABLE).value;
      InsertedNames(first, at + 1, TYPES_VARIABLE, AGENT_TYPES, ROLE_VARIABLE);
      InsertedNames(first, at + 1, TYPES_VARIABLE, AGENT_TYPES, SUBAGENT_VARIABLE);
    }
  }

  /** A variable named where none of its name was, with one more right after it. */
  lemma InsertedTwice(env: Env, at: nat, name: string, value: string, next: string, other: string)
    requires at <= |env| && Named(env, name).None?
    ensures Named(Inserted(env, at, name, value), name) == Some(at)
    ensures Inserted(Inserted(env, at, name, value), at + 1, next, other) ==
            env[..at] + [(name, value), (next, other)] + env[at..]
  {
    InsertedNames(env, at, name, value, next);
    hide Named;
    var first := Inserted(env, at, name, value);
    assert first[..at + 1] == env[..at] + [(name, value)];
    assert first[at + 1..] == env[at..];
  }

  /** Whether an environment names the role's file, by a path with no directory, and no sub-agents' file. */
  predicate NamesNoDirectory(env: Env) {
    var role := Named(env, "CF_CODEX_ROLE_FILE");
    && role.Some? && Named(env, "CF_CODEX_SUBAGENT_FILE").None?
    && forall i :: 0 <= i < |env[role.value].1| ==> env[role.value].1[i] != '/'
  }

  /** The agent types as they are named where none were. */
  function TypesNamed(env: Env): Env {
    if Named(env, "CF_CODEX_SUBAGENT_TYPES").Some? then []
    else [("CF_CODEX_SUBAGENT_TYPES", "default,explorer,worker")]
  }

  lemma Around(env: Env, at: nat)
    requires at <= |env|
    ensures env[..at] + [] + env[at..] == env
  {
  }

  lemma EnvWithTypes(env: Env, at: nat)
    requires Named(env, SUBAGENT_VARIABLE) == Some(at)
    ensures MovedEnv(env) == Some(if Named(env, TYPES_VARIABLE).Some? then env
                                  else Inserted(env, at + 1, TYPES_VARIABLE, AGENT_TYPES))
  {
    hide Named, Sibling, Inserted;
  }

  lemma EnvWithSubAgents(env: Env, at: nat)
    requires Named(env, SUBAGENT_VARIABLE) == Some(at)
    ensures MovedEnv(env) == Some(env[..at + 1] + TypesNamed(env) + env[at + 1..])
  {
    EnvWithTypes(env, at);
    Around(env, at + 1);
    hide Named, MovedEnv;
    if Named(env, TYPES_VARIABLE).Some? {
      assert TypesNamed(env) == [];
      hide Inserted;
    }
  }

  lemma EnvWithRoleAlone(env: Env, at: nat, beside: Path)
    requires Named(env, ROLE_VARIABLE) == Some(at) && Named(env, SUBAGENT_VARIABLE).None?
    requires Sibling(env[at].1) == Some(beside)
    ensures var first := Inserted(env, at + 1, SUBAGENT_VARIABLE, beside);
            && Named(first, SUBAGENT_VARIABLE) == Some(at + 1)
            && (Named(first, TYPES_VARIABLE).Some? <==> Named(env, TYPES_VARIABLE).Some?)
            && MovedEnv(env) == Some(if Named(env, TYPES_VARIABLE).Some? then first
                                     else Inserted(first, at + 2, TYPES_VARIABLE, AGENT_TYPES))
  {
    InsertedNames(env, at + 1, SUBAGENT_VARIABLE, beside, TYPES_VARIABLE);
    assert WithSubAgents(env) == Some(Inserted(env, at + 1, SUBAGENT_VARIABLE, beside));
    hide Named, Sibling, Inserted, WithSubAgents;
  }

  lemma HeadAndTypes(env: Env, at: nat, beside: (string, string))
    requires at <= |env|
    ensures env[..at] + [beside] + [] + env[at..] == env[..at] + [beside] + env[at..]
    ensures var types := (TYPES_VARIABLE, AGENT_TYPES);
            env[..at] + [beside] + [types] + env[at..] == env[..at] + [beside, types] + env[at..]
  {
  }

  lemma EnvWithRole(env: Env, at: nat, beside: Path)
    requires Named(env, ROLE_VARIABLE) == Some(at) && Named(env, SUBAGENT_VARIABLE).None?
    requires Sibling(env[at].1) == Some(beside)
    ensures MovedEnv(env) ==
            Some(env[..at + 1] + [(SUBAGENT_VARIABLE, beside)] + TypesNamed(env) + env[at + 1..])
  {
    EnvWithRoleAlone(env, at, beside);
    HeadAndTypes(env, at + 1, (SUBAGENT_VARIABLE, beside));
    hide Named, Sibling, MovedEnv;
    if Named(env, TYPES_VARIABLE).Some? {
      assert TypesNamed(env) == [];
    } else {
      assert TypesNamed(env) == [(TYPES_VARIABLE, AGENT_TYPES)];
      InsertedTwice(env, at + 1, SUBAGENT_VARIABLE, beside, TYPES_VARIABLE, AGENT_TYPES);
      hide Inserted;
    }
  }

  lemma EnvWithNoSibling(env: Env, at: nat)
    requires Named(env, ROLE_VARIABLE) == Some(at) && Named(env, SUBAGENT_VARIABLE).None?
    requires Sibling(env[at].1).None?
    ensures MovedEnv(env).None?
  {
    hide Named, Sibling;
  }

  lemma EnvWithNeither(env: Env)
    requires Named(env, ROLE_VARIABLE).None? && Named(env, SUBAGENT_VARIABLE).None?
    ensures MovedEnv(env) == Some(env)
  {
    hide Named, Sibling;
  }

  lemma NoSibling(path: string)
    ensures Sibling(path).None? <==> forall i :: 0 <= i < |path| ==> path[i] != '/'
    ensures Sibling(path).Some? ==> Sibling(path).value == Beside(path)
  {
    hide Beside;
  }

  /**
   The sub-agents' file beside the role's is named right after it, where none was named, and the agent types
   right after the sub-agents' file, where none were; all else of an environment stays as it is.
   */
  lemma MovedEnvNames(env: Env)
    ensures MovedEnv(env).None? <==> NamesNoDirectory(env)
    ensures MovedEnv(env).Some? ==>
      var role, subAgents := Named(env, "CF_CODEX_ROLE_FILE"), Named(env, "CF_CODEX_SUBAGENT_FILE");
      MovedEnv(env).value ==
        if subAgents.Some? then env[..subAgents.value + 1] + TypesNamed(env) + env[subAgents.value + 1..]
        else if role.Some? then
          env[..role.value + 1] + [("CF_CODEX_SUBAGENT_FILE", Beside(env[role.value].1))] + TypesNamed(env)
          + env[role.value + 1..]
        else env
  {
    var role, subAgents := Named(env, ROLE_VARIABLE), Named(env, SUBAGENT_VARIABLE);
    hide Named, Beside, Sibling, MovedEnv, TypesNamed;
    if subAgents.Some? {
      EnvWithSubAgents(env, subAgents.value);
    } else if role.Some? {
      NoSibling(env[role.value].1);
      if Sibling(env[role.value].1).Some? {
        EnvWithRole(env, role.value, Sibling(env[role.value].1).value);
      } else {
        EnvWithNoSibling(env, role.value);
      }
    } else {
      EnvWithNeither(env);
    }
  }

  // ---------------------------------------------------------------------------------------
  // A scenario's records
  // ---------------------------------------------------------------------------------------

  datatype Tree = NoTree | NullTree | Tree(said: seq<Said>)

  /** What a step settled: an answer with an environment, or anything else. */
  datatype Answer = Other(said: Json) | Launch(env: Env)

  datatype Record = Record(tree: Tree, settled: seq<Answer>)

  function SaidOf(tree: Tree): seq<Said> {
    if tree.Tree? then tree.said else []
  }

  function MovedAnswer(answer: Answer): Option<Answer> {
    if answer.Other? then Some(answer)
    else
      var env := MovedEnv(answer.env);
      if env.None? then None else Some(Launch(env.value))
  }

  function MovedAnswers(settled: seq<Answer>): Option<seq<Answer>> {
    if settled == [] then Some([])
    else
      var first, rest := MovedAnswer(settled[0]), MovedAnswers(settled[1..]);
      if first.None? || rest.None? then None else Some([first.value] + rest.value)
  }

  /** A step's record from the moved files before it and after it. */
  ghost function MovedRecord(record: Record, was: Files, now: Files, codex: bool): Option<Record> {
    var tree := Changes(was, now);
    var settled := if codex then MovedAnswers(record.settled) else Some(record.settled);
    if settled.None? then None
    else Some(Record(if record.tree == NoTree && tree == [] then NoTree else Tree(tree), settled.value))
  }

  /**
   A moved record says the changes between the files around it, or nothing where it said nothing and nothing
   changed; of what it settled, a launch's environment alone is moved, and under Codex alone.
   */
  lemma RecordIsMoved(record: Record, was: Files, now: Files, codex: bool)
    requires MovedRecord(record, was, now, codex).Some?
    ensures var out := MovedRecord(record, was, now, codex).value;
            && out.tree == (if record.tree == NoTree && was == now then NoTree else Tree(Changes(was, now)))
            && |out.settled| == |record.settled|
            && forall i :: 0 <= i < |out.settled| ==>
                 if codex && record.settled[i].Launch?
                 then MovedEnv(record.settled[i].env).Some?
                      && out.settled[i] == Launch(MovedEnv(record.settled[i].env).value)
                 else out.settled[i] == record.settled[i]
  {
    hide Changes, MovedEnv;
    ChangesSay(was, now);
    if was == now {
      NoChanges(was);
    }
    if codex {
      EachAnswerIsMoved(record.settled);
    }
  }

  lemma NoChanges(files: Files)
    ensures Changes(files, files) == []
  {
    hide InOrder, ChangesAlong;
    NothingChanged(InOrder(files.Keys + files.Keys), files);
  }

  lemma {:induction false} EachAnswerIsMoved(settled: seq<Answer>)
    requires MovedAnswers(settled).Some?
    ensures var out := MovedAnswers(settled).value;
            && |out| == |settled|
            && forall i :: 0 <= i < |out| ==> MovedAnswer(settled[i]) == Some(out[i])
  {
    hide MovedAnswer;
    if settled != [] {
      EachAnswerIsMoved(settled[1..]);
    }
  }

  /** The records from one on, where the files before it are `files`; nothing where one cannot be moved. */
  ghost function MovedFrom(records: seq<Record>, files: Files, codex: bool): Option<seq<Record>>
    requires Movable(files)
    decreases |records|
  {
    if records == [] then Some([])
    else
      var next := Replay(files, SaidOf(records[0].tree));
      if !Movable(next) then None
      else
        var first := MovedRecord(records[0], Moved(files), Moved(next), codex);
        var rest := MovedFrom(records[1..], next, codex);
        if first.None? || rest.None? then None else Some([first.value] + rest.value)
  }

  ghost function MovedRecords(records: seq<Record>, codex: bool): Option<seq<Record>> {
    MovedFrom(records, map[], codex)
  }

  /** The files after a scenario's records, from `files` on. */
  function FilesAfter(files: Files, records: seq<Record>): Files
    decreases |records|
  {
    if records == [] then files
    else FilesAfter(Replay(files, SaidOf(records[0].tree)), records[1..])
  }

  lemma RecordReplays(record: Record, was: Files, now: Files, codex: bool)
    requires MovedRecord(record, was, now, codex).Some?
    ensures Replay(was, SaidOf(MovedRecord(record, was, now, codex).value.tree)) == now
  {
    hide Replay, Changes;
    ChangesReplay(was, now);
  }

  lemma {:induction false} MeaningIsKeptFrom(
    records: seq<Record>, files: Files, codex: bool, steps: nat)
    requires Movable(files) && MovedFrom(records, files, codex).Some? && steps <= |records|
    ensures var out := MovedFrom(records, files, codex).value;
            && |out| == |records|
            && Movable(FilesAfter(files, records[..steps]))
            && FilesAfter(Moved(files), out[..steps]) == Moved(FilesAfter(files, records[..steps]))
    decreases |records|
  {
    hide Movable, Moved, Replay, MovedRecord;
    var out := MovedFrom(records, files, codex).value;
    if steps == 0 {
      assert records[..0] == [] && out[..0] == [];
      if records != [] {
        var next := Replay(files, SaidOf(records[0].tree));
        MeaningIsKeptFrom(records[1..], next, codex, 0);
      }
    } else {
      var next := Replay(files, SaidOf(records[0].tree));
      MeaningIsKeptFrom(records[1..], next, codex, steps - 1);
      RecordReplays(records[0], Moved(files), Moved(next), codex);
      assert records[..steps] == [records[0]] + records[1..][..steps - 1];
      assert out[..steps] == [out[0]] + out[1..][..steps - 1];
    }
  }

  lemma NoFilesMove()
    ensures Movable(map[]) && Moved(map[]) == map[]
  {
    SameFiles(Moved(map[]), map[]);
  }

  /** After every step the moved records leave the files the scenario left, moved. */
  lemma MeaningIsKept(records: seq<Record>, codex: bool, steps: nat)
    requires MovedRecords(records, codex).Some? && steps <= |records|
    ensures var out := MovedRecords(records, codex).value;
            && |out| == |records|
            && Movable(FilesAfter(map[], records[..steps]))
            && FilesAfter(map[], out[..steps]) == Moved(FilesAfter(map[], records[..steps]))
  {
    NoFilesMove();
    MeaningIsKeptFrom(records, map[], codex, steps);
  }

  lemma {:induction false} AnswersTwice(settled: seq<Answer>)
    requires MovedAnswers(settled).Some?
    ensures MovedAnswers(MovedAnswers(settled).value) == MovedAnswers(settled)
  {
    hide MovedEnv;
    if settled != [] {
      AnswersTwice(settled[1..]);
      if settled[0].Launch? {
        MovedEnvTwice(settled[0].env);
      }
      var out := MovedAnswers(settled).value;
      assert out[1..] == MovedAnswers(settled[1..]).value;
    }
  }

  lemma RecordTwice(record: Record, was: Files, now: Files, codex: bool)
    requires MovedRecord(record, was, now, codex).Some?
    ensures var out := MovedRecord(record, was, now, codex).value;
            MovedRecord(out, was, now, codex) == Some(out)
  {
    hide Changes, MovedAnswers;
    if codex {
      AnswersTwice(record.settled);
    }
  }

  lemma {:induction false} MovedFromTwice(records: seq<Record>, files: Files, codex: bool)
    requires Movable(files) && MovedFrom(records, files, codex).Some?
    ensures Movable(Moved(files))
    ensures var out := MovedFrom(records, files, codex);
            MovedFrom(out.value, Moved(files), codex) == out
    decreases |records|
  {
    hide Movable, Moved, Replay, MovedRecord;
    MovedTwice(files);
    if records != [] {
      var next := Replay(files, SaidOf(records[0].tree));
      MovedTwice(next);
      MovedFromTwice(records[1..], next, codex);
      RecordReplays(records[0], Moved(files), Moved(next), codex);
      RecordTwice(records[0], Moved(files), Moved(next), codex);
      var out := MovedFrom(records, files, codex).value;
      assert out[1..] == MovedFrom(records[1..], next, codex).value;
    }
  }

  /** A scenario already moved is moved to itself. */
  lemma MovedRecordsTwice(records: seq<Record>, codex: bool)
    requires MovedRecords(records, codex).Some?
    ensures var out := MovedRecords(records, codex); MovedRecords(out.value, codex) == out
  {
    NoFilesMove();
    MovedFromTwice(records, map[], codex);
  }

  lemma {:induction false} AnswersMoveWhen(settled: seq<Answer>)
    ensures MovedAnswers(settled).Some? <==>
      forall i :: 0 <= i < |settled| ==> MovedAnswer(settled[i]).Some?
  {
    hide MovedAnswer;
    if settled != [] {
      AnswersMoveWhen(settled[1..]);
      if forall i :: 0 <= i < |settled| ==> MovedAnswer(settled[i]).Some? {
        forall i | 0 <= i < |settled[1..]| ensures MovedAnswer(settled[1..][i]).Some? {
          assert settled[1..][i] == settled[i + 1];
        }
      } else if MovedAnswer(settled[0]).Some? {
        var i :| 0 < i < |settled| && MovedAnswer(settled[i]).None?;
        assert settled[1..][i - 1] == settled[i];
      }
    }
  }

  /** Whether a record's step leaves files that can be moved, and settled what can. */
  ghost predicate StepMoves(records: seq<Record>, files: Files, codex: bool, step: nat)
    requires step < |records|
  {
    && Movable(FilesAfter(files, records[..step + 1]))
    && (codex ==> forall i :: 0 <= i < |records[step].settled| ==>
          MovedAnswer(records[step].settled[i]).Some?)
  }

  lemma StepMovesLater(records: seq<Record>, files: Files, codex: bool, step: nat)
    requires step + 1 < |records|
    ensures StepMoves(records, files, codex, step + 1) <==>
            StepMoves(records[1..], Replay(files, SaidOf(records[0].tree)), codex, step)
  {
    hide Movable, Replay, MovedAnswer;
    assert records[..step + 2] == [records[0]] + records[1..][..step + 1];
  }

  lemma StepMovesFirst(records: seq<Record>, files: Files, codex: bool)
    requires records != []
    ensures StepMoves(records, files, codex, 0) <==>
            && Movable(Replay(files, SaidOf(records[0].tree)))
            && (codex ==> MovedAnswers(records[0].settled).Some?)
  {
    hide Movable, Replay, MovedAnswer;
    AnswersMoveWhen(records[0].settled);
    var next := Replay(files, SaidOf(records[0].tree));
    assert records[..1] == [records[0]];
    assert FilesAfter(files, [records[0]]) == FilesAfter(next, []) == next by {
      assert [records[0]][1..] == [];
    }
  }

  lemma {:induction false} MovesFromWhen(records: seq<Record>, files: Files, codex: bool)
    requires Movable(files)
    ensures MovedFrom(records, files, codex).Some? <==>
      forall step: nat :: step < |records| ==> StepMoves(records, files, codex, step)
    decreases |records|
  {
    hide Movable, Replay, MovedAnswer, StepMoves, Changes, Moved, MovedAnswers;
    if records != [] {
      var next := Replay(files, SaidOf(records[0].tree));
      StepMovesFirst(records, files, codex);
      if Movable(next) {
        MovesFromWhen(records[1..], next, codex);
        forall step: nat | step < |records[1..]|
          ensures StepMoves(records[1..], next, codex, step) <==>
                  StepMoves(records, files, codex, step + 1)
        {
          StepMovesLater(records, files, codex, step);
        }
        forall step: nat | 0 < step < |records|
          ensures StepMoves(records, files, codex, step) <==>
                  StepMoves(records[1..], next, codex, step - 1)
        {
          StepMovesLater(records, files, codex, step - 1);
        }
      }
    }
  }

  /** A scenario is moved exactly when each of its steps can be. */
  lemma MovesExactlyWhen(records: seq<Record>, codex: bool)
    ensures MovedRecords(records, codex).Some? <==>
      forall step: nat :: step < |records| ==> StepMoves(records, map[], codex, step)
  {
    NoFilesMove();
    MovesFromWhen(records, map[], codex);
  }

  // ---------------------------------------------------------------------------------------
  // The script's loops
  // ---------------------------------------------------------------------------------------

  /** The two passes over the files: the roles' own, then what stands beside them. */
  method MoveFiles(files: Files) returns (moved: Option<Files>)
    ensures moved.Some? <==> Movable(files)
    ensures moved.Some? ==> moved.value == Moved(files)
  {
    hide IsCodexRole, IsSubAgents, ForNoModel, SubAgentsEntry;
    var out: Files := map[];
    var left := files.Keys;
    while left != {}
      invariant left <= files.Keys && out.Keys == files.Keys - left
      invariant forall p :: p in out ==> out[p] == ForNoModel(p, files[p])
    {
      var path :| path in left;
      out := out[path := ForNoModel(path, files[path])];
      left := left - {path};
    }
    left := files.Keys;
    while left != {}
      invariant left <= files.Keys
      invariant forall p :: p in files && p !in left && IsRole(files, p) ==>
        SubAgentsEntry(files[p]).Some?
      invariant forall p: Path :: p in out <==> p in files || BesideDone(files, left, p)
      invariant forall p: Path :: p in out ==>
        if BesideDone(files, left, p)
        then SubAgentsEntry(files[RoleBeside(p)]) == Some(out[p])
        else out[p] == ForNoModel(p, files[p])
    {
      var path :| path in left;
      ghost var was := left;
      left := left - {path};
      if IsRole(files, path) {
        BesideRole(path);
        var entry := SubAgentsEntry(files[path]);
        if entry.None? {
          return None;
        }
        forall p: Path
          ensures BesideDone(files, left, p) <==> BesideDone(files, was, p) || p == Beside(path)
        {
          BesideOnce(files, left, was, path, p);
        }
        out := out[Beside(path) := entry.value];
      }
    }
    forall p: Path
      ensures p in out <==> p in Moved(files)
      ensures p in out ==> out[p] == Moved(files)[p]
    {
      MovedSays(files, p);
    }
    assert out.Keys == Moved(files).Keys;
    moved := Some(out);
  }

  /** Whether `path` stands beside a role that is no longer left. */
  ghost predicate BesideDone(files: Files, left: set<Path>, path: Path) {
    IsSubAgents(path) && IsRole(files, RoleBeside(path)) && RoleBeside(path) !in left
  }

  lemma BesideOnce(files: Files, left: set<Path>, was: set<Path>, role: Path, path: Path)
    requires role in was && left == was - {role} && IsRole(files, role)
    ensures BesideDone(files, left, path) <==> BesideDone(files, was, path) || path == Beside(role)
  {
    hide IsCodexRole, IsSubAgents, RoleBeside, Beside;
    BesideRole(role);
    if IsSubAgents(path) {
      RoleOfSubAgents(path);
    }
  }

  method SayChanges(was: Files, now: Files) returns (said: seq<Said>)
    ensures said == Changes(was, now)
  {
    hide Precedes, ChangeAt, InOrder, ChangesAlong;
    said := [];
    var left := was.Keys + now.Keys;
    while left != {}
      invariant said + ChangesAlong(InOrder(left), was, now) == Changes(was, now)
      decreases |left|
    {
      OneIsLeast(left);
      var path: Path :| path in left && forall q :: q in left && q != path ==> Precedes(path, q);
      NextChange(path, left, was, now);
      said := said + ChangeAt(was, now, path);
      left := left - {path};
    }
    NoPaths(was, now);
  }

  lemma NoPaths(was: Files, now: Files)
    ensures ChangesAlong(InOrder({}), was, now) == []
  {
  }

  lemma NextChange(path: Path, left: set<Path>, was: Files, now: Files)
    requires Least(path, left)
    ensures ChangesAlong(InOrder(left), was, now) ==
            ChangeAt(was, now, path) + ChangesAlong(InOrder(left - {path}), was, now)
  {
    hide InOrder, ChangeAt, Least;
    LeastIsFirst(path, left);
    assert ([path] + InOrder(left - {path}))[1..] == InOrder(left - {path});
  }

  lemma LeastIsFirst(path: Path, paths: set<Path>)
    requires Least(path, paths)
    ensures InOrder(paths) == [path] + InOrder(paths - {path})
  {
    hide Precedes;
    PathsAreOrdered(path, First(paths), path);
  }

  function Differences(was: seq<Record>, now: seq<Record>): nat
    requires |was| == |now|
  {
    if was == [] then 0
    else Differences(was[..|was| - 1], now[..|now| - 1])
         + if was[|was| - 1] == now[|now| - 1] then 0 else 1
  }

  /** The places where two lists of records differ. */
  ghost function Differing(was: seq<Record>, now: seq<Record>): set<int>
    requires |was| == |now|
  {
    set i | 0 <= i < |was| && was[i] != now[i]
  }

  lemma DifferingBefore(was: seq<Record>, now: seq<Record>, last: nat)
    requires |was| == |now| == last + 1
    ensures last !in Differing(was[..last], now[..last])
    ensures Differing(was, now) ==
            Differing(was[..last], now[..last]) + if was[last] == now[last] then {} else {last}
  {
  }

  /** The count a move gives is of the places where a record is not what it was. */
  lemma {:induction false} DifferencesAreCounted(was: seq<Record>, now: seq<Record>)
    requires |was| == |now|
    ensures Differences(was, now) == |Differing(was, now)|
  {
    if was == [] {
      assert Differing(was, now) == {};
    } else {
      var last := |was| - 1;
      DifferencesAreCounted(was[..last], now[..last]);
      DifferingBefore(was, now, last);
      hide Differing;
    }
  }

  lemma MovedFirst(first: Record, rest: seq<Record>, files: Files, codex: bool)
    requires Movable(files)
    ensures var next := Replay(files, SaidOf(first.tree));
            && FilesAfter(files, [first] + rest) == FilesAfter(next, rest)
            && MovedFrom([first] + rest, files, codex) ==
               if !Movable(next) then None
               else
                 var one := MovedRecord(first, Moved(files), Moved(next), codex);
                 var more := MovedFrom(rest, next, codex);
                 if one.None? || more.None? then None else Some([one.value] + more.value)
  {
    hide Movable, Replay, Moved, MovedRecord;
    assert ([first] + rest)[1..] == rest;
  }

  /** Records moved one more at a time. */
  lemma {:induction false} MovedLast(records: seq<Record>, last: Record, files: Files, codex: bool)
    requires Movable(files) && MovedFrom(records, files, codex).Some?
    ensures var was := FilesAfter(files, records);
            var next := Replay(was, SaidOf(last.tree));
            && Movable(was) && FilesAfter(files, records + [last]) == next
            && MovedFrom(records + [last], files, codex) ==
               if !Movable(next) then None
               else
                 var moved := MovedRecord(last, Moved(was), Moved(next), codex);
                 if moved.None? then None
                 else Some(MovedFrom(records, files, codex).value + [moved.value])
    decreases |records|
  {
    hide Movable, Replay, Moved, MovedRecord, MovedFrom;
    NothingMoves(files, codex);
    if records == [] {
      var next := Replay(files, SaidOf(last.tree));
      MovedFirst(last, [], files, codex);
      if Movable(next) {
        NothingMoves(next, codex);
        var one := MovedRecord(last, Moved(files), Moved(next), codex);
        if one.Some? {
          assert [one.value] + [] == [] + [one.value];
        }
      }
      assert records + [last] == [last] + [];
    } else {
      var first, rest := records[0], records[1..];
      assert records == [first] + rest;
      assert records + [last] == [first] + (rest + [last]);
      MovedFirst(first, rest, files, codex);
      MovedFirst(first, rest + [last], files, codex);
      var start := Replay(files, SaidOf(first.tree));
      MovedLast(rest, last, start, codex);
      if MovedFrom(rest + [last], start, codex).Some? {
        var one := MovedFrom(records, files, codex).value[0];
        var more := MovedFrom(rest, start, codex).value;
        var moved := MovedFrom(rest + [last], start, codex).value[|more|];
        assert [one] + (more + [moved]) == [one] + more + [moved];
      }
    }
  }

  lemma NothingMoves(files: Files, codex: bool)
    requires Movable(files)
    ensures MovedFrom([], files, codex) == Some([])
  {
  }

  /** Records moved only as far as some of them are not moved at all. */
  lemma {:induction false} PartMoves(
    records: seq<Record>, more: seq<Record>, files: Files, codex: bool)
    requires Movable(files) && MovedFrom(records + more, files, codex).Some?
    ensures MovedFrom(records, files, codex).Some?
    decreases |records|
  {
    hide Movable, Replay, Moved, MovedRecord, MovedFrom;
    NothingMoves(files, codex);
    if records == [] {
    } else {
      var first, rest := records[0], records[1..];
      assert records == [first] + rest;
      assert records + more == [first] + (rest + more);
      MovedFirst(first, rest, files, codex);
      MovedFirst(first, rest + more, files, codex);
      PartMoves(rest, more, Replay(files, SaidOf(first.tree)), codex);
    }
  }

  method MoveRecord(record: Record, was: Files, now: Files, codex: bool)
    returns (moved: Option<Record>)
    ensures moved == MovedRecord(record, was, now, codex)
  {
    hide Changes, MovedAnswers;
    var said := SayChanges(was, now);
    var tree := if record.tree != NoTree || said != [] then Tree(said) else NoTree;
    var settled := if codex then MovedAnswers(record.settled) else Some(record.settled);
    moved := if settled.None? then None else Some(Record(tree, settled.value));
  }

  /**
   A scenario's records moved in place; how many of them that changed, and nothing where one cannot be
   moved. A scenario of any other harness stays as it is.
   */
  method Move(harness: string, records: array<Record>) returns (changed: Option<nat>)
    modifies records
    ensures harness != "claude-code" && harness != "codex" ==>
      records[..] == old(records[..]) && changed == Some(0)
    ensures harness == "claude-code" || harness == "codex" ==>
      var moved := MovedRecords(old(records[..]), harness == "codex");
      && (changed.Some? <==> moved.Some?)
      && (changed.Some? ==>
            records[..] == moved.value && changed.value == Differences(old(records[..]), moved.value))
  {
    if harness != "claude-code" && harness != "codex" {
      return Some(0);
    }
    var codex := harness == "codex";
    ghost var before := records[..];
    MovedAtStart(before, codex);
    hide *;
    var files: Files, was: Files := map[], map[];
    var count, at := 0, 0;
    while at < records.Length
      invariant 0 <= at <= records.Length == |before|
      invariant MovedSoFar(before, records[..], at, files, was, count, codex)
    {
      MovedOneMore(before, records[..], at, files, was, count, codex);
      var record := records[at];
      var step := MoveStep(record, files, was, codex);
      if step.None? {
        return None;
      }
      var (moved, next, now) := step.value;
      ghost var done := records[..];
      records[at] := moved;
      assert records[..] == done[at := moved];
      files, was := next, now;
      if moved != record {
        count := count + 1;
      }
      at := at + 1;
    }
    MovedAtEnd(before, records[..], files, was, count, codex);
    changed := Some(count);
  }

  /** The records before `at` moved, the others as they were, and the files between them. */
  ghost predicate MovedSoFar(
    before: seq<Record>, now: seq<Record>, at: nat, files: Files, was: Files, count: nat, codex: bool)
  {
    && at <= |before| == |now| && now[at..] == before[at..]
    && Movable(map[]) && MovedFrom(before[..at], map[], codex) == Some(now[..at])
    && files == FilesAfter(map[], before[..at]) && Movable(files) && was == Moved(files)
    && count == Differences(before[..at], now[..at])
  }

  /** What a step makes of a record, the files after it, and those moved. */
  ghost function Step(record: Record, files: Files, was: Files, codex: bool)
    : Option<(Record, Files, Files)>
  {
    var next := Replay(files, SaidOf(record.tree));
    if !Movable(next) then None
    else
      var moved := MovedRecord(record, was, Moved(next), codex);
      if moved.None? then None else Some((moved.value, next, Moved(next)))
  }

  lemma MovedAtStart(before: seq<Record>, codex: bool)
    ensures MovedSoFar(before, before, 0, map[], map[], 0, codex)
  {
    NoFilesMove();
    assert before[..0] == [];
  }

  lemma MovedAtEnd(
    before: seq<Record>, now: seq<Record>, files: Files, was: Files, count: nat, codex: bool)
    requires MovedSoFar(before, now, |before|, files, was, count, codex)
    ensures MovedRecords(before, codex) == Some(now) && count == Differences(before, now)
  {
    assert before[..|before|] == before && now[..|before|] == now;
  }

  lemma MovedOneMore(
    before: seq<Record>, now: seq<Record>, at: nat, files: Files, was: Files, count: nat, codex: bool)
    requires MovedSoFar(before, now, at, files, was, count, codex) && at < |before|
    ensures now[at] == before[at] && Movable(files) && was == Moved(files)
    ensures var step := Step(now[at], files, was, codex);
            if step.None? then MovedRecords(before, codex).None?
            else
              var (moved, next, after) := step.value;
              MovedSoFar(before, now[at := moved], at + 1, next, after,
                         count + if moved == now[at] then 0 else 1, codex)
  {
    hide Movable, Moved, MovedFrom, MovedRecord, Differences, Replay, SaidOf;
    var record := before[at];
    assert now[at] == now[at..][0] == before[at..][0];
    assert before[..at + 1] == before[..at] + [record];
    MovedLast(before[..at], record, map[], codex);
    var step := Step(record, files, was, codex);
    if step.None? {
      NotMoved(before, at, codex);
    } else {
      var moved := step.value.0;
      assert now[at := moved][..at + 1] == now[..at] + [moved];
      assert now[at := moved][at + 1..] == now[at..][1..] == before[at..][1..] == before[at + 1..];
      DifferencesGrow(before[..at], now[..at], record, moved);
    }
  }

  lemma DifferencesGrow(was: seq<Record>, now: seq<Record>, one: Record, other: Record)
    requires |was| == |now|
    ensures Differences(was + [one], now + [other]) ==
            Differences(was, now) + if one == other then 0 else 1
  {
    assert (was + [one])[..|was|] == was && (now + [other])[..|now|] == now;
  }

  lemma NotMoved(records: seq<Record>, at: nat, codex: bool)
    requires at < |records| && Movable(map[])
    requires MovedFrom(records[..at + 1], map[], codex).None?
    ensures MovedRecords(records, codex).None?
  {
    hide MovedFrom, Movable;
    assert records == records[..at + 1] + records[at + 1..];
    if MovedRecords(records, codex).Some? {
      PartMoves(records[..at + 1], records[at + 1..], map[], codex);
    }
  }

  method MoveStep(record: Record, files: Files, was: Files, codex: bool)
    returns (step: Option<(Record, Files, Files)>)
    requires Movable(files) && was == Moved(files)
    ensures step == Step(record, files, was, codex)
  {
    hide Movable, Moved, Replay, SaidOf, MovedRecord;
    var next := Replay(files, SaidOf(record.tree));
    var now := MoveFiles(next);
    if now.None? {
      return None;
    }
    var moved := MoveRecord(record, was, now.value, codex);
    step := if moved.None? then None else Some((moved.value, next, now.value));
  }
}
