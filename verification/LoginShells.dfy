/**
 The login shells the app asks for its PATH (app/src-tauri/src/daemon_command.rs, LoginLookup): each
 held while it is asked, so that the app's quit ends it. Any number of lookups, the shells and the quit
 take their steps in any order; each step is one hold of the lock, or one without it.
 */
module LoginShells {
  import opened Prelude

  type ShellId = nat

  /** The system's shells: how many were started, and which of them were ended or ended themselves. */
  datatype Shells = Shells(started: nat, killed: set<ShellId>, exited: set<ShellId>) {
    predicate Lives(shell: ShellId) {
      shell < started && shell !in killed && shell !in exited
    }
  }

  /** What is behind the lock. */
  datatype Asking = Asking(shells: seq<(nat, ShellId)>, next: nat, ended: bool)

  datatype State = State(asking: Asking, os: Shells)

  /** How a start goes where none forbids it: the shell cannot be started, or has no output, or runs. */
  datatype Spawn = Fails | HasNoOutput | Runs

  /** Where a shell is held; past the end where it is not. */
  function HeldAt(shells: seq<(nat, ShellId)>, asked: nat): (at: nat)
    ensures at <= |shells|
    ensures at < |shells| ==> shells[at].0 == asked
    ensures forall i :: 0 <= i < at ==> shells[i].0 != asked
  {
    if shells == [] || shells[0].0 == asked then 0 else 1 + HeldAt(shells[1..], asked)
  }

  function Started(s: State, spawn: Spawn): (State, Option<nat>) {
    if s.asking.ended || spawn == Fails then (s, None)
    else
      var shell := s.os.started;
      if spawn == HasNoOutput
      then (s.(os := s.os.(started := shell + 1, killed := s.os.killed + {shell})), None)
      else
        var asked := s.asking.next;
        var asking := s.asking.(shells := s.asking.shells + [(asked, shell)], next := asked + 1);
        (State(asking, s.os.(started := shell + 1)), Some(asked))
  }

  /** How the shell held as `asked` ended: whether it has; nothing where none is held so. */
  function StatusOf(s: State, asked: nat): Option<bool> {
    var at := HeldAt(s.asking.shells, asked);
    if at == |s.asking.shells| then None
    else Some(!s.os.Lives(s.asking.shells[at].1))
  }

  /** The shell ended if it still runs, and let go; which one is to be waited for. */
  function Finished(s: State, asked: nat): (State, Option<ShellId>) {
    var at := HeldAt(s.asking.shells, asked);
    if at == |s.asking.shells| then (s, None)
    else
      var shell := s.asking.shells[at].1;
      var asking := s.asking.(shells := s.asking.shells[..at] + s.asking.shells[at + 1..]);
      (State(asking, s.os.(killed := s.os.killed + {shell})), Some(shell))
  }

  function ShellsOf(shells: seq<(nat, ShellId)>): set<ShellId> {
    set i | 0 <= i < |shells| :: shells[i].1
  }

  function Quit(s: State): State {
    State(s.asking.(ended := true), s.os.(killed := s.os.killed + ShellsOf(s.asking.shells)))
  }

  class Children {
    var started: nat
    var killed: set<ShellId>
    var exited: set<ShellId>

    constructor ()
      ensures Value() == Shells(0, {}, {})
    {
      started, killed, exited := 0, {}, {};
    }

    function Value(): Shells
      reads this
    {
      Shells(started, killed, exited)
    }

    method Start() returns (shell: ShellId)
      modifies this
      ensures shell == old(started)
      ensures Value() == old(Value()).(started := shell + 1)
    {
      shell := started;
      started := started + 1;
    }

    method Kill(shell: ShellId)
      modifies this
      ensures Value() == old(Value()).(killed := old(killed) + {shell})
    {
      killed := killed + {shell};
    }
  }

  class LoginLookup {
    var shells: seq<(nat, ShellId)>
    var next: nat
    var ended: bool
    const os: Children

    constructor (os: Children)
      ensures this.os == os && Value() == State(Asking([], 0, false), os.Value())
    {
      this.os := os;
      shells, next, ended := [], 0, false;
    }

    function Value(): State
      reads this, os
    {
      State(Asking(shells, next, ended), os.Value())
    }

    method Start(spawn: Spawn) returns (held: Option<nat>)
      modifies this, os
      ensures (Value(), held) == Started(old(Value()), spawn)
      ensures held == if !old(ended) && spawn == Runs then Some(old(next)) else None
      ensures shells == old(shells) + if held.Some? then [(old(next), old(os.started))] else []
      ensures os.started == old(os.started) + if old(ended) || spawn == Fails then 0 else 1
      ensures os.killed ==
              old(os.killed) + if !old(ended) && spawn == HasNoOutput then {old(os.started)} else {}
      ensures next == (if held.Some? then old(next) + 1 else old(next)) && ended == old(ended)
    {
      if ended {
        return None;
      }
      if spawn == Fails {
        return None;
      }
      var shell := os.Start();
      if spawn == HasNoOutput {
        os.Kill(shell);
        return None;
      }
      var asked := next;
      next := next + 1;
      shells := shells + [(asked, shell)];
      held := Some(asked);
    }

    method Status(asked: nat) returns (over: Option<bool>)
      ensures over == StatusOf(Value(), asked)
      ensures over.None? <==> forall i :: 0 <= i < |shells| ==> shells[i].0 != asked
      ensures over.Some? ==>
        exists i :: 0 <= i < |shells| && shells[i].0 == asked && over == Some(!os.Value().Lives(shells[i].1))
    {
      var at := HeldAt(shells, asked);
      over := if at == |shells| then None else Some(!os.Value().Lives(shells[at].1));
    }

    /** The half of a lookup's end under the lock. */
    method Finish(asked: nat) returns (shell: Option<ShellId>)
      modifies this, os
      ensures (Value(), shell) == Finished(old(Value()), asked)
      ensures shell.None? <==> forall i :: 0 <= i < |old(shells)| ==> old(shells)[i].0 != asked
      ensures shell.None? ==> Value() == old(Value())
      ensures shell.Some? ==>
        && os.killed == old(os.killed) + {shell.value}
        && exists i :: 0 <= i < |old(shells)| && old(shells)[i] == (asked, shell.value)
                       && shells == old(shells)[..i] + old(shells)[i + 1..]
      ensures next == old(next) && ended == old(ended) && os.started == old(os.started)
    {
      var at := HeldAt(shells, asked);
      if at == |shells| {
        return None;
      }
      shell := Some(shells[at].1);
      shells := shells[..at] + shells[at + 1..];
      os.Kill(shell.value);
    }

    method End()
      modifies this, os
      ensures Value() == Quit(old(Value()))
      ensures ended && shells == old(shells) && next == old(next) && os.started == old(os.started)
      ensures forall shell :: shell in os.killed <==>
        shell in old(os.killed) || exists i :: 0 <= i < |shells| && shells[i].1 == shell
    {
      ended := true;
      var at := 0;
      while at < |shells|
        invariant 0 <= at <= |shells| && ended
        invariant shells == old(shells) && next == old(next)
        invariant os.Value() == old(os.Value()).(killed := old(os.killed) + ShellsOf(shells[..at]))
      {
        os.Kill(shells[at].1);
        assert ShellsOf(shells[..at + 1]) == ShellsOf(shells[..at]) + {shells[at].1};
        at := at + 1;
      }
      assert shells[..at] == shells;
    }
  }

  // ---------------------------------------------------------------------------------------
  // The lookups, the shells and the quit
  // ---------------------------------------------------------------------------------------

  /** Where a lookup is: its shell asked, its shell let go and to be waited for, or over. */
  datatype Lookup =
    | ToStart
    | Asks(asked: nat, shell: ShellId)
    | Waits(awaited: ShellId)
    | Over(own: Option<ShellId>)

  datatype System = System(state: State, lookups: seq<Lookup>)

  datatype Action =
    | Come
    | Start(who: nat, spawn: Spawn)
    | Finish(who: nat)
    | Wait(who: nat)
    | Exit(shell: ShellId)
    | End

  function Begin(): System {
    System(State(Asking([], 0, false), Shells(0, {}, {})), [])
  }

  /** A lookup may finish at any time: its shell ended, its time is over, or it was not found. */
  predicate Enabled(s: System, a: Action) {
    match a
    case Come => true
    case Start(who, _) => who < |s.lookups| && s.lookups[who].ToStart?
    case Finish(who) => who < |s.lookups| && s.lookups[who].Asks?
    case Wait(who) =>
      who < |s.lookups| && s.lookups[who].Waits? && !s.state.os.Lives(s.lookups[who].awaited)
    case Exit(shell) => s.state.os.Lives(shell)
    case End => true
  }

  function AfterStart(s: System, who: nat, spawn: Spawn): System
    requires who < |s.lookups|
  {
    var (state, held) := Started(s.state, spawn);
    System(state, s.lookups[who := if held.None? then Over(None) else Asks(held.value, s.state.os.started)])
  }

  function AfterFinish(s: System, who: nat): System
    requires who < |s.lookups| && s.lookups[who].Asks?
  {
    var (state, shell) := Finished(s.state, s.lookups[who].asked);
    System(state, s.lookups[who := if shell.None? then Over(None) else Waits(shell.value)])
  }

  function Apply(s: System, a: Action): System
    requires Enabled(s, a)
  {
    match a
    case Come => s.(lookups := s.lookups + [ToStart])
    case Start(who, spawn) => AfterStart(s, who, spawn)
    case Finish(who) => AfterFinish(s, who)
    case Wait(who) => s.(lookups := s.lookups[who := Over(Some(s.lookups[who].awaited))])
    case Exit(shell) =>
      s.(state := s.state.(os := s.state.os.(exited := s.state.os.exited + {shell})))
    case End => s.(state := Quit(s.state))
  }

  ghost predicate Next(s: System, t: System) {
    exists a :: Enabled(s, a) && t == Apply(s, a)
  }

  ghost predicate Run(run: seq<System>) {
    && run != [] && run[0] == Begin()
    && forall i :: 0 <= i < |run| - 1 ==> Next(run[i], run[i + 1])
  }

  // ---------------------------------------------------------------------------------------
  // What every step keeps
  // ---------------------------------------------------------------------------------------

  /** Numbers and shells are each held once, and come before the next ones. */
  ghost predicate HeldOnce(s: State) {
    && (forall i :: 0 <= i < |s.asking.shells| ==>
          s.asking.shells[i].0 < s.asking.next && s.asking.shells[i].1 < s.os.started)
    && (forall i, j :: 0 <= i < j < |s.asking.shells| ==>
          s.asking.shells[i].0 != s.asking.shells[j].0 && s.asking.shells[i].1 != s.asking.shells[j].1)
  }

  /** A shell that lives is held, and none lives once the app quits. */
  ghost predicate LiveAreHeld(s: State) {
    forall shell: ShellId :: s.os.Lives(shell) ==> shell in ShellsOf(s.asking.shells) && !s.asking.ended
  }

  ghost predicate Known(os: Shells) {
    && (forall shell :: shell in os.killed ==> shell < os.started)
    && (forall shell :: shell in os.exited ==> shell < os.started)
  }

  /** What a lookup asks is held as its own, what it waits for or is over with lives no more. */
  ghost predicate LookupHolds(s: State, lookup: Lookup) {
    match lookup
    case ToStart => true
    case Asks(asked, shell) => (asked, shell) in s.asking.shells
    case Waits(shell) => shell < s.os.started && !s.os.Lives(shell)
    case Over(own) => own.Some? ==> own.value < s.os.started && !s.os.Lives(own.value)
  }

  ghost predicate AllHold(s: System) {
    forall i :: 0 <= i < |s.lookups| ==> LookupHolds(s.state, s.lookups[i])
  }

  /** No two lookups ask one shell, and each held is one of theirs. */
  ghost predicate AsksApart(s: System) {
    && (forall i, j :: 0 <= i < j < |s.lookups| && s.lookups[i].Asks? && s.lookups[j].Asks? ==>
          s.lookups[i].asked != s.lookups[j].asked)
    && (forall held :: held in s.state.asking.shells ==> AskedBy(s, held.0, held.1))
  }

  ghost predicate AskedBy(s: System, asked: nat, shell: ShellId) {
    exists i :: 0 <= i < |s.lookups| && s.lookups[i] == Asks(asked, shell)
  }

  ghost predicate Inv(s: System) {
    HeldOnce(s.state) && LiveAreHeld(s.state) && Known(s.state.os) && AllHold(s) && AsksApart(s)
  }

  lemma StartKeepsState(s: State, spawn: Spawn)
    requires HeldOnce(s) && LiveAreHeld(s) && Known(s.os)
    ensures var t := Started(s, spawn).0; HeldOnce(t) && LiveAreHeld(t) && Known(t.os)
    ensures forall held :: held in s.asking.shells ==> held in Started(s, spawn).0.asking.shells
    ensures forall shell: ShellId :: shell < s.os.started && !s.os.Lives(shell) ==>
      !Started(s, spawn).0.os.Lives(shell)
  {
    var t := Started(s, spawn).0;
    forall shell: ShellId | t.os.Lives(shell)
      ensures shell in ShellsOf(t.asking.shells) && !t.asking.ended
    {
      if shell < s.os.started {
        assert s.os.Lives(shell);
        var i :| 0 <= i < |s.asking.shells| && s.asking.shells[i].1 == shell;
        assert t.asking.shells[i].1 == shell;
      } else {
        assert t.asking.shells[|t.asking.shells| - 1].1 == shell;
      }
    }
  }

  lemma FinishKeepsHeldOnce(s: State, asked: nat)
    requires HeldOnce(s)
    ensures HeldOnce(Finished(s, asked).0)
  {
    var at := HeldAt(s.asking.shells, asked);
    if at < |s.asking.shells| {
      var held := s.asking.shells[..at] + s.asking.shells[at + 1..];
      forall i | 0 <= i < |held|
        ensures held[i] == s.asking.shells[if i < at then i else i + 1]
      {
      }
    }
  }

  lemma FinishKeepsLive(s: State, asked: nat)
    requires LiveAreHeld(s)
    ensures LiveAreHeld(Finished(s, asked).0)
  {
    var t := Finished(s, asked).0;
    var at := HeldAt(s.asking.shells, asked);
    forall shell: ShellId | t.os.Lives(shell)
      ensures shell in ShellsOf(t.asking.shells) && !t.asking.ended
    {
      assert s.os.Lives(shell);
      var i :| 0 <= i < |s.asking.shells| && s.asking.shells[i].1 == shell;
      assert t.asking.shells[if i < at then i else i - 1].1 == shell;
    }
  }

  lemma FinishKeepsState(s: State, asked: nat)
    requires HeldOnce(s) && LiveAreHeld(s) && Known(s.os)
    ensures var t := Finished(s, asked).0; HeldOnce(t) && LiveAreHeld(t) && Known(t.os)
  {
    FinishKeepsHeldOnce(s, asked);
    FinishKeepsLive(s, asked);
    hide LiveAreHeld;
  }

  lemma TakenOut(shells: seq<(nat, ShellId)>, at: nat, held: (nat, ShellId))
    requires at < |shells|
    requires forall i :: 0 <= i < |shells| && i != at ==> shells[i].0 != shells[at].0
    ensures held in shells[..at] + shells[at + 1..] <==> held in shells && held.0 != shells[at].0
  {
    var rest := shells[..at] + shells[at + 1..];
    assert forall i :: 0 <= i < |rest| ==> rest[i] == shells[if i < at then i else i + 1];
    if held in shells && held.0 != shells[at].0 {
      var i :| 0 <= i < |shells| && shells[i] == held;
      assert rest[if i < at then i else i - 1] == held;
    }
  }

  /** Finishing lets go of one's own number's shell alone. */
  lemma FinishLetsGo(s: State, asked: nat, shell: ShellId)
    requires HeldOnce(s) && (asked, shell) in s.asking.shells
    ensures Finished(s, asked).1 == Some(shell)
    ensures forall held :: held in Finished(s, asked).0.asking.shells <==>
      held in s.asking.shells && held.0 != asked
  {
    var i :| 0 <= i < |s.asking.shells| && s.asking.shells[i] == (asked, shell);
    assert HeldAt(s.asking.shells, asked) == i;
    forall held
      ensures held in Finished(s, asked).0.asking.shells <==> held in s.asking.shells && held.0 != asked
    {
      TakenOut(s.asking.shells, i, held);
    }
  }

  lemma QuitKeepsState(s: State)
    requires HeldOnce(s) && LiveAreHeld(s) && Known(s.os)
    ensures HeldOnce(Quit(s)) && LiveAreHeld(Quit(s)) && Known(Quit(s).os)
  {
    forall shell: ShellId | Quit(s).os.Lives(shell) ensures false {
      assert s.os.Lives(shell);
    }
  }

  lemma StartKeepsInv(s: System, who: nat, spawn: Spawn)
    requires Inv(s) && Enabled(s, Start(who, spawn))
    ensures Inv(AfterStart(s, who, spawn))
  {
    var t := AfterStart(s, who, spawn);
    StartKeepsState(s.state, spawn);
    hide LiveAreHeld, Known;
    forall i | 0 <= i < |t.lookups| ensures LookupHolds(t.state, t.lookups[i]) {
      assert i != who ==> LookupHolds(s.state, s.lookups[i]);
    }
    forall held | held in t.state.asking.shells ensures AskedBy(t, held.0, held.1) {
      if held in s.state.asking.shells {
        var i :| 0 <= i < |s.lookups| && s.lookups[i] == Asks(held.0, held.1);
        assert t.lookups[i] == Asks(held.0, held.1);
      } else {
        assert t.lookups[who] == Asks(held.0, held.1);
      }
    }
    forall i, j | 0 <= i < j < |t.lookups| && t.lookups[i].Asks? && t.lookups[j].Asks?
      ensures t.lookups[i].asked != t.lookups[j].asked
    {
      assert i != who ==> LookupHolds(s.state, s.lookups[i]);
      assert j != who ==> LookupHolds(s.state, s.lookups[j]);
    }
  }

  lemma FinishKeepsInv(s: System, who: nat)
    requires Inv(s) && Enabled(s, Finish(who))
    ensures Inv(AfterFinish(s, who))
  {
    var t := AfterFinish(s, who);
    var Asks(asked, shell) := s.lookups[who];
    FinishKeepsState(s.state, asked);
    assert LookupHolds(s.state, s.lookups[who]);
    FinishLetsGo(s.state, asked, shell);
    forall i | 0 <= i < |t.lookups| ensures LookupHolds(t.state, t.lookups[i]) {
      assert i != who ==> LookupHolds(s.state, s.lookups[i]);
    }
    forall held | held in t.state.asking.shells ensures AskedBy(t, held.0, held.1) {
      var i :| 0 <= i < |s.lookups| && s.lookups[i] == Asks(held.0, held.1);
      assert t.lookups[i] == Asks(held.0, held.1);
    }
  }

  lemma QuitKeepsInv(s: System)
    requires Inv(s)
    ensures Inv(Apply(s, End))
  {
    var t := Apply(s, End);
    QuitKeepsState(s.state);
    forall i | 0 <= i < |t.lookups| ensures LookupHolds(t.state, t.lookups[i]) {
      assert LookupHolds(s.state, s.lookups[i]);
    }
    forall held | held in t.state.asking.shells ensures AskedBy(t, held.0, held.1) {
      var i :| 0 <= i < |s.lookups| && s.lookups[i] == Asks(held.0, held.1);
      assert t.lookups[i] == Asks(held.0, held.1);
    }
  }

  /** A lookup that comes, waits, or whose shell ends itself. */
  lemma OtherKeepsInv(s: System, a: Action)
    requires Inv(s) && Enabled(s, a) && (a.Come? || a.Wait? || a.Exit?)
    ensures Inv(Apply(s, a))
  {
    var t := Apply(s, a);
    forall i | 0 <= i < |t.lookups| ensures LookupHolds(t.state, t.lookups[i]) {
      assert i < |s.lookups| ==> LookupHolds(s.state, s.lookups[i]);
    }
    forall shell: ShellId | t.state.os.Lives(shell)
      ensures shell in ShellsOf(t.state.asking.shells) && !t.state.asking.ended
    {
      assert s.state.os.Lives(shell);
    }
    forall held | held in t.state.asking.shells ensures AskedBy(t, held.0, held.1) {
      var i :| 0 <= i < |s.lookups| && s.lookups[i] == Asks(held.0, held.1);
      assert t.lookups[i] == Asks(held.0, held.1);
    }
  }

  lemma StepKeepsInv(s: System, a: Action)
    requires Inv(s) && Enabled(s, a)
    ensures Inv(Apply(s, a))
  {
    match a {
      case Start(who, spawn) => StartKeepsInv(s, who, spawn);
      case Finish(who) => FinishKeepsInv(s, who);
      case End => QuitKeepsInv(s);
      case _ => OtherKeepsInv(s, a);
    }
  }

  lemma {:induction false} RunKeepsInv(run: seq<System>, i: nat)
    requires Run(run) && i < |run|
    ensures Inv(run[i])
  {
    hide Inv;
    if i == 0 {
      BeginHolds();
    } else {
      RunKeepsInv(run, i - 1);
      assert Next(run[i - 1], run[i]);
      var a :| Enabled(run[i - 1], a) && run[i] == Apply(run[i - 1], a);
      StepKeepsInv(run[i - 1], a);
    }
  }

  lemma BeginHolds()
    ensures Inv(Begin())
  {
  }

  // ---------------------------------------------------------------------------------------
  // What holds over every run
  // ---------------------------------------------------------------------------------------

  /** A shell that lives is held, as one lookup's own: the quit finds it. */
  lemma LiveShellsAreHeld(run: seq<System>, i: nat, shell: ShellId)
    requires Run(run) && i < |run| && run[i].state.os.Lives(shell)
    ensures exists who :: 0 <= who < |run[i].lookups| && run[i].lookups[who].Asks? &&
              run[i].lookups[who].shell == shell &&
              (run[i].lookups[who].asked, shell) in run[i].state.asking.shells
  {
    RunKeepsInv(run, i);
    var s := run[i];
    var k :| 0 <= k < |s.state.asking.shells| && s.state.asking.shells[k].1 == shell;
    assert s.state.asking.shells[k] in s.state.asking.shells;
    assert AskedBy(s, s.state.asking.shells[k].0, shell);
  }

  /** A lookup that asks always finds the shell it started, and no other. */
  lemma LookupsFindTheirOwn(run: seq<System>, i: nat, who: nat)
    requires Run(run) && i < |run| && who < |run[i].lookups| && run[i].lookups[who].Asks?
    ensures var Asks(asked, shell) := run[i].lookups[who];
            && StatusOf(run[i].state, asked) == Some(!run[i].state.os.Lives(shell))
            && Finished(run[i].state, asked).1 == Some(shell)
  {
    RunKeepsInv(run, i);
    var Asks(asked, shell) := run[i].lookups[who];
    assert LookupHolds(run[i].state, run[i].lookups[who]);
    FinishLetsGo(run[i].state, asked, shell);
  }

  /** A lookup that is over leaves no shell of its own running. */
  lemma OverLeavesNone(run: seq<System>, i: nat, who: nat)
    requires Run(run) && i < |run| && who < |run[i].lookups|
    requires run[i].lookups[who].Over? && run[i].lookups[who].own.Some?
    ensures !run[i].state.os.Lives(run[i].lookups[who].own.value)
  {
    RunKeepsInv(run, i);
    assert LookupHolds(run[i].state, run[i].lookups[who]);
  }

  lemma EndedStep(s: System, t: System)
    requires Next(s, t) && s.state.asking.ended
    ensures t.state.asking.ended && t.state.os.started == s.state.os.started
  {
  }

  /** Once the app quit, no shell it ever started lives, and none is started. */
  lemma {:induction false} QuitLeavesNone(run: seq<System>, i: nat, j: nat)
    requires Run(run) && i <= j < |run| && run[i].state.asking.ended
    ensures run[j].state.asking.ended && run[j].state.os.started == run[i].state.os.started
    ensures forall shell: ShellId :: !run[j].state.os.Lives(shell)
    decreases j
  {
    RunKeepsInv(run, j);
    if i < j {
      QuitLeavesNone(run, i, j - 1);
      assert Next(run[j - 1], run[j]);
      EndedStep(run[j - 1], run[j]);
    }
  }

  /** A step that ends a shell ends one a lookup started: as it finishes, or all that are held at the quit. */
  lemma OnlyHeldAreKilled(run: seq<System>, i: nat, a: Action, shell: ShellId)
    requires Run(run) && i < |run| && Enabled(run[i], a)
    requires shell in Apply(run[i], a).state.os.killed && shell !in run[i].state.os.killed
    ensures match a
            case Start(_, spawn) => spawn == HasNoOutput && shell == run[i].state.os.started
            case Finish(who) => run[i].lookups[who] == Asks(run[i].lookups[who].asked, shell)
            case End => shell in ShellsOf(run[i].state.asking.shells)
            case _ => false
  {
    RunKeepsInv(run, i);
    if a.Finish? {
      LookupsFindTheirOwn(run, i, a.who);
    }
  }
}
