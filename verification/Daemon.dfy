/**
 The daemon as the app holds it (app/src-tauri/src/daemon.rs). The state behind the mutex is a
 class, each locked region one of its methods, proved against a function on the state's value.
 The parties that interleave over it (the start thread, the bridges' close callbacks, the app's
 stop, the page's requests) are the actions of a transition system over the same functions.
 */
module DaemonLifecycle {
  import opened Prelude

  const STOPPED := "ConsensFlow's daemon stopped while the app was running"
  const NOT_STARTED := "ConsensFlow's daemon has not started"

  datatype Status = Status(available: bool, cause: Option<string>, retrying: bool)

  function Up(): Status {
    Status(true, None, false)
  }

  function Down(cause: string, retrying: bool): Status {
    Status(false, Some(cause), retrying)
  }

  /**
   What the mutex holds. A daemon's process and its bridge are named by the number of the start
   they came from. `told` is every change reported, `heard` every report, those said again too,
   and `wakes` counts the calls of the condition variable's notify_all.
   */
  datatype State = State(
    daemon: Option<nat>,
    bridge: Option<nat>,
    status: Status,
    settled: bool,
    starts: nat,
    current: nat,
    stopping: bool,
    told: seq<Status>,
    heard: seq<Status>,
    wakes: nat)

  function Fresh(): State {
    State(None, None, Down(NOT_STARTED, false), false, 0, 0, false, [], [], 0)
  }

  function Changed(s: State, status: Status): State {
    s.(status := status, settled := true, told := s.told + [status], heard := s.heard + [status],
       wakes := s.wakes + 1)
  }

  function Told(s: State, status: Status): State {
    if s.stopping then s else Changed(s, status)
  }

  function ToldAgain(s: State): State {
    if s.settled then s.(heard := s.heard + [s.status]) else s
  }

  function Closed(s: State, start: nat): State {
    if s.stopping || s.current != start || !s.status.available then s
    else Changed(s, Down(STOPPED, false))
  }

  function TakenIn(s: State, start: nat, closed: bool): State {
    if s.stopping then s
    else
      Changed(s.(current := start, daemon := Some(start), bridge := Some(start)),
              if closed then Down(STOPPED, false) else Up())
  }

  function Stopped(s: State): State {
    if s.stopping then s else s.(stopping := true, wakes := s.wakes + 1, daemon := None)
  }

  /** Whether a request of the page waits: the first start has no outcome yet, and the app runs. */
  predicate Waits(s: State) {
    !s.settled && !s.stopping
  }

  function Answer(s: State): Result<nat, string> {
    if s.bridge.Some? && s.status.available then Ok(s.bridge.value)
    else Err(if s.status.cause.Some? then s.status.cause.value else "")
  }

  class Daemon {
    var daemon: Option<nat>
    var bridge: Option<nat>
    var status: Status
    var settled: bool
    var starts: nat
    var current: nat
    var stopping: bool
    ghost var told: seq<Status>
    ghost var heard: seq<Status>
    ghost var wakes: nat

    ghost function View(): State
      reads this
    {
      State(daemon, bridge, status, settled, starts, current, stopping, told, heard, wakes)
    }

    constructor ()
      ensures View() == Fresh()
    {
      daemon, bridge := None, None;
      status := Down(NOT_STARTED, false);
      settled, starts, current, stopping := false, 0, 0, false;
      told, heard, wakes := [], [], 0;
    }

    /** The first locked half of `attempt`. */
    method BeginAttempt() returns (start: nat)
      modifies this
      ensures View() == old(View()).(starts := old(starts) + 1)
      ensures start == starts
    {
      starts := starts + 1;
      start := starts;
    }

    /** The second locked half: the daemon taken in hand, or left for its starter to stop. */
    method TakeIn(start: nat, closed: bool) returns (taken: bool)
      modifies this
      ensures View() == TakenIn(old(View()), start, closed)
      ensures taken == !old(stopping)
      ensures !taken ==> View() == old(View())
      ensures taken ==> current == start && daemon == bridge == Some(start) && settled
      ensures taken ==> status == if closed then Status(false, Some(STOPPED), false) else Status(true, None, false)
    {
      if stopping {
        return false;
      }
      var next := if closed then Down(STOPPED, false) else Up();
      current := start;
      daemon := Some(start);
      bridge := Some(start);
      Change(next);
      return true;
    }

    method Fail(cause: string, retry: bool)
      modifies this
      ensures View() == Told(old(View()), Down(cause, retry))
      ensures !stopping ==> status == Status(false, Some(cause), retry) && told == old(told) + [status]
    {
      Tell(Down(cause, retry));
    }

    method OnClosed(start: nat)
      modifies this
      ensures View() == Closed(old(View()), start)
      ensures var takes := !old(stopping) && old(current) == start && old(status).available;
              && (takes ==> status == Status(false, Some(STOPPED), false) && told == old(told) + [status])
              && (!takes ==> View() == old(View()))
    {
      if stopping || current != start || !status.available {
        return;
      }
      Change(Down(STOPPED, false));
    }

    method Tell(next: Status)
      modifies this
      ensures View() == Told(old(View()), next)
      ensures old(stopping) ==> View() == old(View())
      ensures !old(stopping) ==> status == next && settled && told == old(told) + [next] && wakes > old(wakes)
    {
      if stopping {
        return;
      }
      Change(next);
    }

    method Change(next: Status)
      modifies this
      ensures View() == Changed(old(View()), next)
    {
      status := next;
      settled := true;
      told, heard := told + [next], heard + [next];
      wakes := wakes + 1;
    }

    method TellAgain()
      modifies this
      ensures View() == ToldAgain(old(View()))
      ensures heard == old(heard) + if settled then [status] else []
    {
      if settled {
        heard := heard + [status];
      }
    }

    /** What `connection` says once its wait is over. */
    method Connection() returns (answer: Result<nat, string>)
      requires !Waits(View())
      ensures answer == Answer(View())
      ensures answer.Ok? <==> bridge.Some? && status.available
      ensures answer.Ok? ==> bridge == Some(answer.value)
      ensures answer.Err? && status.cause.Some? ==> status.cause == Some(answer.error)
    {
      if bridge.Some? && status.available {
        return Ok(bridge.value);
      }
      answer := Err(if status.cause.Some? then status.cause.value else "");
    }

    method Stop() returns (handed: Option<(Option<nat>, Option<nat>)>)
      modifies this
      ensures View() == Stopped(old(View()))
      ensures handed == if old(stopping) then None else Some((old(daemon), old(bridge)))
      ensures stopping && (handed.Some? ==> daemon == None && wakes > old(wakes))
      ensures status == old(status) && told == old(told) && bridge == old(bridge)
    {
      if stopping {
        return None;
      }
      stopping := true;
      wakes := wakes + 1;
      handed := Some((daemon, bridge));
      daemon := None;
    }
  }

  // ---------------------------------------------------------------------------------------
  // The parties, interleaved
  // ---------------------------------------------------------------------------------------

  /** Where the start thread is. */
  datatype Thread =
    | Unborn
    | Attempting
    | Calling(start: nat)
    | Started(start: nat)
    | Failing(cause: string, retry: bool)
    | Sleeping
    | Woken(seen: Status)
    | GivingUp(seen: Status)
    | Ended

  /**
   The whole: the state, the thread and the backoff it waits by, the starts whose bridge has its
   closed flag set (`flagged`) and those whose callback has run (`ran`), the children started and
   where those no longer held went (`handed` by a stop, `dropped` by an attempt that met one), and
   the page's requests: those waiting, with the wake-ups counted when they slept, and the answers.
   `taken` is where in `told` the daemon was taken in hand, and whether its bridge was closed by
   then; `slept` is the waits between starts, in order.
   */
  datatype System = System(
    state: State,
    thread: Thread,
    wait: nat,
    slept: seq<nat>,
    flagged: set<nat>,
    ran: set<nat>,
    children: set<nat>,
    handed: set<nat>,
    dropped: set<nat>,
    waiting: map<nat, nat>,
    answered: map<nat, Result<nat, string>>,
    taken: Option<(nat, bool)>)

  datatype Backoff = Backoff(first: nat, most: nat)

  function Begin(b: Backoff): System {
    System(Fresh(), Unborn, b.first, [], {}, {}, {}, {}, {}, map[], map[], None)
  }

  datatype Action =
    | SpawnThread
    | SpawnFails(cause: string)
    | BeginAttempt
    | StarterStarts
    | StarterFails(cause: string, retry: bool)
    | TakeIn
    | TellFailure
    | Wake
    | PanesAllClosed
    | PaneOpen
    | GiveUp
    | CloseBridge(start: nat)
    | RunCallback(start: nat)
    | Stop
    | Ask(request: nat)
    | Recheck(request: nat)
    | TellAgain

  predicate Enabled(s: System, a: Action) {
    match a
    case SpawnThread => s.thread.Unborn?
    case SpawnFails(_) => s.thread.Unborn?
    case BeginAttempt => s.thread.Attempting?
    case StarterStarts => s.thread.Calling?
    case StarterFails(_, _) => s.thread.Calling?
    case TakeIn => s.thread.Started?
    case TellFailure => s.thread.Failing?
    case Wake => s.thread.Sleeping?
    case PanesAllClosed => s.thread.Woken?
    case PaneOpen => s.thread.Woken?
    case GiveUp => s.thread.GivingUp?
    case CloseBridge(k) => 1 <= k <= s.state.starts && k !in s.flagged
    case RunCallback(k) => k in s.flagged && k !in s.ran
    case Stop => true
    case Ask(r) => r !in s.waiting && r !in s.answered
    case Recheck(r) => r in s.waiting && s.waiting[r] < s.state.wakes
    case TellAgain => true
  }

  function Apply(b: Backoff, s: System, a: Action): System
    requires Enabled(s, a)
  {
    match a
    case SpawnThread => s.(thread := Attempting)
    case SpawnFails(cause) => s.(thread := Ended, state := Told(s.state, Down(cause, false)))
    case BeginAttempt =>
      s.(state := s.state.(starts := s.state.starts + 1), thread := Calling(s.state.starts + 1))
    case StarterStarts =>
      s.(thread := Started(s.thread.start), children := s.children + {s.thread.start})
    case StarterFails(cause, retry) => s.(thread := Failing(cause, retry))
    case TakeIn =>
      var start := s.thread.start;
      var state := TakenIn(s.state, start, start in s.flagged);
      if s.state.stopping then s.(thread := Ended, state := state, dropped := s.dropped + {start})
      else s.(thread := Ended, state := state, taken := Some((|s.state.told|, start in s.flagged)))
    case TellFailure =>
      var state := Told(s.state, Down(s.thread.cause, s.thread.retry));
      if s.thread.retry then s.(state := state, thread := Sleeping)
      else s.(state := state, thread := Ended)
    case Wake =>
      s.(slept := s.slept + [s.wait], wait := Min(s.wait * 2, b.most),
         thread := if s.state.stopping then Ended else Woken(s.state.status))
    case PanesAllClosed => s.(thread := Attempting)
    case PaneOpen => s.(thread := GivingUp(s.thread.seen))
    case GiveUp =>
      s.(state := Told(s.state, s.thread.seen.(retrying := false)), thread := Ended)
    case CloseBridge(k) => s.(flagged := s.flagged + {k})
    case RunCallback(k) => s.(ran := s.ran + {k}, state := Closed(s.state, k))
    case Stop =>
      s.(state := Stopped(s.state),
         handed := if !s.state.stopping && s.state.daemon.Some?
                   then s.handed + {s.state.daemon.value} else s.handed)
    case Ask(r) =>
      if Waits(s.state) then s.(waiting := s.waiting[r := s.state.wakes])
      else s.(answered := s.answered[r := Answer(s.state)])
    case Recheck(r) =>
      if Waits(s.state) then s.(waiting := s.waiting[r := s.state.wakes])
      else s.(waiting := s.waiting - {r}, answered := s.answered[r := Answer(s.state)])
    case TellAgain => s.(state := ToldAgain(s.state))
  }

  ghost predicate Next(b: Backoff, s: System, t: System) {
    exists a :: Enabled(s, a) && t == Apply(b, s, a)
  }

  /** A run: any interleaving of the parties, from the app's start. */
  ghost predicate Run(b: Backoff, run: seq<System>) {
    && |run| > 0
    && run[0] == Begin(b)
    && forall i :: 0 <= i < |run| - 1 ==> Next(b, run[i], run[i + 1])
  }

  // ---------------------------------------------------------------------------------------
  // What every step keeps
  // ---------------------------------------------------------------------------------------

  /** How many of the places a child can be in `child` is in. */
  function Places(s: System, child: nat): nat {
    (if s.state.daemon == Some(child) then 1 else 0)
    + (if s.thread == Started(child) then 1 else 0)
    + (if child in s.handed then 1 else 0)
    + (if child in s.dropped then 1 else 0)
  }

  ghost predicate ThreadInv(s: System) {
    && (s.thread.Unborn? ==> s.state.starts == 0)
    && ((s.thread.Calling? || s.thread.Started?) ==> s.thread.start == s.state.starts >= 1)
    && (s.thread.Started? ==> s.thread.start in s.children)
    && (s.thread.Calling? ==> s.thread.start !in s.children)
    && (forall k :: k in s.children ==> 1 <= k <= s.state.starts)
    && (forall k :: k in s.flagged ==> 1 <= k <= s.state.starts)
    && s.ran <= s.flagged
    && (!s.state.stopping ==> match s.thread
        case Ended => s.state.settled && !s.state.status.retrying
        case Sleeping => s.state.settled
        case Woken(seen) => s.state.settled && seen == s.state.status
        case GivingUp(seen) => s.state.settled && seen == s.state.status
        case _ => true)
    && (|s.state.told| > 0 <==> s.state.settled)
    && (s.state.heard != [] ==> s.state.heard[|s.state.heard| - 1] == s.state.status)
    && (s.state.settled ==> s.state.heard != [])
  }

  /** What was told since the daemon was taken in hand. */
  function SinceTaken(s: System): seq<Status>
    requires s.taken.Some? && s.taken.value.0 <= |s.state.told|
  {
    s.state.told[s.taken.value.0..]
  }

  /** What is to be told of a daemon in hand: down at once if it had closed, else up, then down. */
  function Due(early: bool, ran: bool): seq<Status> {
    if early then [Down(STOPPED, false)]
    else if ran then [Up(), Down(STOPPED, false)]
    else [Up()]
  }

  ghost predicate TakenInv(s: System) {
    && (s.taken.None? <==> s.state.current == 0)
    && (s.taken.None? ==> s.state.bridge.None? && s.state.daemon.None? && !s.state.status.available)
    && (s.taken.Some? ==>
          && s.thread.Ended?
          && s.state.current in s.children
          && s.state.bridge == Some(s.state.current)
          && s.taken.value.0 <= |s.state.told|
          && (s.taken.value.1 ==> s.state.current in s.flagged)
          && SinceTaken(s) != []
          && s.state.status == SinceTaken(s)[|SinceTaken(s)| - 1]
          && (SinceTaken(s) == Due(s.taken.value.1, s.state.current in s.ran)
              || (s.state.stopping && SinceTaken(s) == Due(s.taken.value.1, false))))
    && (forall r :: r in s.answered && s.answered[r].Ok? ==> s.answered[r].value == s.state.current != 0)
  }

  ghost predicate ChildInv(s: System) {
    && (forall k :: k in s.children ==> Places(s, k) == 1)
    && (forall k :: k !in s.children ==> Places(s, k) == 0)
    && (s.state.daemon.Some? ==> s.state.daemon.value == s.state.current)
    && (s.handed <= {s.state.current})
    && (s.handed != {} ==> s.state.stopping && s.state.current != 0)
    && (s.dropped != {} ==> s.state.stopping)
    && (s.state.stopping ==> s.state.daemon.None?)
  }

  ghost predicate WaitInv(s: System) {
    && (forall r :: r in s.waiting ==> s.waiting[r] <= s.state.wakes)
    && (forall r :: r in s.waiting && s.waiting[r] == s.state.wakes ==> Waits(s.state))
    && s.waiting.Keys !! s.answered.Keys
  }

  /** The wait after `k` failed starts: doubled each time, and no more than the most. */
  function WaitAfter(b: Backoff, k: nat): nat {
    if k == 0 then b.first else Min(b.first * Doubled(k), b.most)
  }

  function Doubled(k: nat): (p: nat)
    ensures p >= 1
  {
    if k == 0 then 1 else 2 * Doubled(k - 1)
  }

  ghost predicate BackoffInv(b: Backoff, s: System) {
    && s.wait == WaitAfter(b, |s.slept|)
    && forall k :: 0 <= k < |s.slept| ==> s.slept[k] == WaitAfter(b, k)
  }

  ghost predicate Inv(b: Backoff, s: System) {
    ThreadInv(s) && TakenInv(s) && ChildInv(s) && WaitInv(s) && BackoffInv(b, s)
  }

  /** Steps that leave the thread where it is. */
  predicate IsAside(a: Action) {
    a.CloseBridge? || a.RunCallback? || a.Stop? || a.Ask? || a.Recheck? || a.TellAgain?
  }

  predicate IsStart(a: Action) {
    a.SpawnThread? || a.SpawnFails? || a.BeginAttempt? || a.StarterStarts? || a.StarterFails? || a.TakeIn?
  }

  lemma AsideStep(b: Backoff, s: System, a: Action)
    requires Inv(b, s) && Enabled(s, a) && IsAside(a)
    ensures ThreadInv(Apply(b, s, a))
  {
    hide ChildInv, WaitInv, BackoffInv, WaitAfter, Answer, Waits, SinceTaken;
  }

  lemma StartStep(b: Backoff, s: System, a: Action)
    requires Inv(b, s) && Enabled(s, a) && IsStart(a)
    ensures ThreadInv(Apply(b, s, a))
  {
    hide ChildInv, WaitInv, BackoffInv, WaitAfter, Answer, Waits, SinceTaken;
  }

  lemma ThreadStep(b: Backoff, s: System, a: Action)
    requires Inv(b, s) && Enabled(s, a)
    ensures ThreadInv(Apply(b, s, a))
  {
    hide ChildInv, WaitInv, BackoffInv, WaitAfter, Answer, Waits, SinceTaken;
    if IsAside(a) {
      AsideStep(b, s, a);
    } else if IsStart(a) {
      StartStep(b, s, a);
    }
  }

  lemma TakenStep(b: Backoff, s: System, a: Action)
    requires Inv(b, s) && Enabled(s, a)
    ensures TakenInv(Apply(b, s, a))
  {
    hide ChildInv, WaitInv, BackoffInv, WaitAfter, Places;
    match a {
      case RunCallback(start) => CallbackKeepsTaken(b, s, start);
      case TakeIn => TakeInKeepsTaken(b, s);
      case _ =>
        if IsAside(a) {
          AsideKeepsTaken(b, s, a);
        }
    }
  }

  lemma AsideKeepsTaken(b: Backoff, s: System, a: Action)
    requires Inv(b, s) && Enabled(s, a) && IsAside(a) && !a.RunCallback?
    ensures TakenInv(Apply(b, s, a))
  {
    hide ChildInv, WaitInv, BackoffInv, WaitAfter, Places;
  }

  /** A callback tells the stop of the daemon in hand, or nothing. */
  lemma CallbackKeepsTaken(b: Backoff, s: System, start: nat)
    requires Inv(b, s) && Enabled(s, RunCallback(start))
    ensures TakenInv(Apply(b, s, RunCallback(start)))
  {
    hide ChildInv, WaitInv, BackoffInv, WaitAfter, Places;
    var t := Apply(b, s, RunCallback(start));
    if t.state != s.state {
      assert SinceTaken(t) == SinceTaken(s) + [Down(STOPPED, false)];
    }
  }

  /** A daemon taken in hand is told up, or down at once where its bridge had closed by then. */
  lemma TakeInKeepsTaken(b: Backoff, s: System)
    requires Inv(b, s) && Enabled(s, TakeIn)
    ensures TakenInv(Apply(b, s, TakeIn))
  {
    hide ChildInv, WaitInv, BackoffInv, WaitAfter, Places;
  }

  lemma ChildStep(b: Backoff, s: System, a: Action)
    requires Inv(b, s) && Enabled(s, a)
    ensures ChildInv(Apply(b, s, a))
  {
    hide WaitInv, BackoffInv, WaitAfter, SinceTaken, Due, Answer, Waits;
    if IsAside(a) {
      AsideKeepsChild(b, s, a);
    } else if a.StarterStarts? {
      assert Places(s, s.thread.start) == 0;
    }
  }

  lemma AsideKeepsChild(b: Backoff, s: System, a: Action)
    requires Inv(b, s) && Enabled(s, a) && IsAside(a)
    ensures ChildInv(Apply(b, s, a))
  {
    hide WaitInv, BackoffInv, WaitAfter, SinceTaken, Due, Answer, Waits;
  }

  lemma WaitStep(b: Backoff, s: System, a: Action)
    requires Inv(b, s) && Enabled(s, a)
    ensures WaitInv(Apply(b, s, a))
  {
    hide ThreadInv, TakenInv, ChildInv, BackoffInv, WaitAfter, Answer;
  }

  lemma BackoffStep(b: Backoff, s: System, a: Action)
    requires Inv(b, s) && Enabled(s, a)
    ensures BackoffInv(b, Apply(b, s, a))
  {
    hide ThreadInv, TakenInv, ChildInv, WaitInv, Answer, Waits;
  }

  lemma BeginHolds(b: Backoff)
    ensures Inv(b, Begin(b))
  {
  }

  lemma {:induction false} RunKeepsInv(b: Backoff, run: seq<System>, i: nat)
    requires Run(b, run) && i < |run|
    ensures Inv(b, run[i])
  {
    hide Apply, Enabled, ThreadInv, TakenInv, ChildInv, WaitInv, BackoffInv;
    if i == 0 {
      BeginHolds(b);
    } else {
      RunKeepsInv(b, run, i - 1);
      assert Next(b, run[i - 1], run[i - 1 + 1]);
      var a :| Enabled(run[i - 1], a) && run[i] == Apply(b, run[i - 1], a);
      ThreadStep(b, run[i - 1], a);
      TakenStep(b, run[i - 1], a);
      ChildStep(b, run[i - 1], a);
      WaitStep(b, run[i - 1], a);
      BackoffStep(b, run[i - 1], a);
    }
  }

  // ---------------------------------------------------------------------------------------
  // What the page may rely on
  // ---------------------------------------------------------------------------------------

  function Count(told: seq<Status>, status: Status): nat {
    if told == [] then 0 else Count(told[1..], status) + (if told[0] == status then 1 else 0)
  }

  /**
   A daemon that dies is told down exactly once, whenever it dies: in every interleaving, once the
   bridge of the daemon in hand has closed and its callback has run, and the app is not stopping,
   the status is down for good, and of what was told since it was taken in hand exactly one entry
   is that stop, the last, with nothing but its coming up before it.
   */
  lemma DeathIsToldOnce(b: Backoff, run: seq<System>, i: nat)
    requires Run(b, run) && i < |run|
    requires run[i].taken.Some? && !run[i].state.stopping && run[i].state.current in run[i].ran
    ensures run[i].state.status == Status(false, Some(STOPPED), false)
    ensures run[i].taken.value.0 < |run[i].state.told|
    ensures run[i].state.told[run[i].taken.value.0..] ==
            (if run[i].taken.value.1 then [] else [Status(true, None, false)]) + [Status(false, Some(STOPPED), false)]
    ensures Count(SinceTaken(run[i]), Status(false, Some(STOPPED), false)) == 1
  {
    RunKeepsInv(b, run, i);
    var told := SinceTaken(run[i]);
    if run[i].taken.value.1 {
      assert told[1..] == [];
    } else {
      var rest := told[1..];
      assert rest == [Down(STOPPED, false)] && rest[1..] == [];
      assert Count(rest, Down(STOPPED, false)) == 1;
    }
  }

  /** A close of any start but the one in hand changes nothing that is told or held. */
  lemma OtherClosesChangeNothing(b: Backoff, run: seq<System>, i: nat, start: nat)
    requires Run(b, run) && i < |run|
    requires Enabled(run[i], RunCallback(start))
    requires run[i].taken.None? || start != run[i].state.current
    ensures Apply(b, run[i], RunCallback(start)).state == run[i].state
  {
    RunKeepsInv(b, run, i);
  }

  /** While the daemon in hand is up for the page, its bridge's callback is still to come. */
  lemma UpMeansNoStopTold(b: Backoff, run: seq<System>, i: nat)
    requires Run(b, run) && i < |run|
    requires run[i].state.status.available && !run[i].state.stopping
    ensures run[i].taken.Some? && run[i].state.current !in run[i].ran
    ensures run[i].state.daemon == run[i].state.bridge == Some(run[i].state.current)
  {
    RunKeepsInv(b, run, i);
    assert Places(run[i], run[i].state.current) == 1;
  }

  /** The page is told the daemon is up exactly from when it is in hand to when its close is told. */
  lemma UpUntilItsCloseIsTold(b: Backoff, run: seq<System>, i: nat)
    requires Run(b, run) && i < |run| && !run[i].state.stopping
    ensures run[i].state.status.available <==>
            run[i].taken.Some? && !run[i].taken.value.1 && run[i].state.current !in run[i].ran
  {
    RunKeepsInv(b, run, i);
  }

  /** Every child that ever started is in exactly one place, and one stop at most is handed it. */
  lemma EveryChildIsInOnePlace(b: Backoff, run: seq<System>, i: nat, child: nat)
    requires Run(b, run) && i < |run| && child in run[i].children
    ensures Places(run[i], child) == 1
    ensures child in run[i].handed ==> run[i].state.stopping && run[i].handed == {child}
    ensures run[i].thread.Ended? && run[i].state.stopping ==>
              child in run[i].handed || child in run[i].dropped
  {
    RunKeepsInv(b, run, i);
  }

  /** Of an app that is stopping, what no later state differs in. */
  ghost predicate Frozen(s: State, t: State) {
    && s.stopping && t.stopping
    && t.status == s.status && t.told == s.told
    && s.daemon.None? && t.daemon.None? && t.bridge == s.bridge
  }

  lemma FrozenStep(b: Backoff, s: System, t: System)
    requires Next(b, s, t) && s.state.stopping && s.state.daemon.None?
    ensures Frozen(s.state, t.state) && t.handed == s.handed
  {
    hide Apply, Enabled;
    var a :| Enabled(s, a) && t == Apply(b, s, a);
    FrozenApply(b, s, a);
  }

  lemma FrozenApply(b: Backoff, s: System, a: Action)
    requires Enabled(s, a) && s.state.stopping && s.state.daemon.None?
    ensures Frozen(s.state, Apply(b, s, a).state) && Apply(b, s, a).handed == s.handed
  {
    hide Answer, Waits;
  }

  /** Once the app stops, the status, what was told and who was handed the daemon never change. */
  lemma {:induction false} StopFreezesStatus(b: Backoff, run: seq<System>, i: nat, j: nat)
    requires Run(b, run) && i <= j < |run| && run[i].state.stopping
    ensures Frozen(run[i].state, run[j].state) && run[j].handed == run[i].handed
    decreases j - i
  {
    if i == j {
      RunKeepsInv(b, run, i);
    } else {
      StopFreezesStatus(b, run, i, j - 1);
      assert Next(b, run[j - 1], run[j - 1 + 1]);
      FrozenStep(b, run[j - 1], run[j]);
    }
  }

  /**
   When the start thread has ended and the app is not stopping, the page is told of no further
   try, and no request still waits: each that does has been woken, and is answered as it looks.
   */
  lemma EndedThreadLeavesNoneWaiting(b: Backoff, run: seq<System>, i: nat, request: nat)
    requires Run(b, run) && i < |run| && run[i].thread.Ended?
    ensures !run[i].state.stopping ==> run[i].state.settled && !run[i].state.status.retrying
    ensures request in run[i].waiting ==>
              && Enabled(run[i], Recheck(request))
              && request !in Apply(b, run[i], Recheck(request)).waiting
              && request in Apply(b, run[i], Recheck(request)).answered
  {
    RunKeepsInv(b, run, i);
  }

  /** No wake-up is lost: a request that sleeps does so only while there is no outcome to give. */
  lemma NoLostWakeUp(b: Backoff, run: seq<System>, i: nat, request: nat)
    requires Run(b, run) && i < |run| && request in run[i].waiting
    ensures !Enabled(run[i], Recheck(request)) ==> Waits(run[i].state)
    ensures Enabled(run[i], Recheck(request)) && !Waits(run[i].state) ==>
              Apply(b, run[i], Recheck(request)).answered[request] == Answer(run[i].state)
  {
    RunKeepsInv(b, run, i);
  }

  /**
   The status is the last one told, before anything is told that nothing has started yet; and one
   that is not up has its cause.
   */
  ghost predicate StatusInv(s: State) {
    && s.status == (if s.told == [] then Status(false, Some(NOT_STARTED), false) else s.told[|s.told| - 1])
    && (s.status.available <==> s.status.cause.None?)
  }

  lemma {:induction false} RunKeepsStatus(b: Backoff, run: seq<System>, i: nat)
    requires Run(b, run) && i < |run|
    ensures StatusInv(run[i].state)
  {
    hide Apply, Enabled, StatusInv, Inv;
    if i == 0 {
      BeginsNotStarted(b);
    } else {
      RunKeepsStatus(b, run, i - 1);
      RunKeepsInv(b, run, i - 1);
      assert Next(b, run[i - 1], run[i - 1 + 1]);
      var a :| Enabled(run[i - 1], a) && run[i] == Apply(b, run[i - 1], a);
      StatusStep(b, run[i - 1], a);
    }
  }

  lemma BeginsNotStarted(b: Backoff)
    ensures StatusInv(Begin(b).state)
  {
  }

  lemma StatusStep(b: Backoff, s: System, a: Action)
    requires Inv(b, s) && Enabled(s, a) && StatusInv(s.state)
    ensures StatusInv(Apply(b, s, a).state)
  {
    hide TakenInv, ChildInv, WaitInv, BackoffInv, Answer, Waits;
  }

  /**
   What a request is told when it is made or looks again: nothing while the first start has no outcome
   and the app runs; else the one daemon's bridge exactly while the status is up, and otherwise the
   cause last told, or that nothing has started.
   */
  lemma RequestsAreAnsweredByTheStatus(b: Backoff, run: seq<System>, i: nat, request: nat, a: Action)
    requires Run(b, run) && i < |run|
    requires (a == Ask(request) || a == Recheck(request)) && Enabled(run[i], a)
    ensures var (s, t) := (run[i].state, Apply(b, run[i], a));
            && (request in t.answered <==> s.settled || s.stopping)
            && (request in t.waiting <==> !s.settled && !s.stopping)
            && (request in t.answered ==>
                  && (t.answered[request] == Ok(s.current) <==> s.status.available)
                  && (!s.status.available ==>
                        && t.answered[request].Err?
                        && (if s.told == [] then t.answered[request].error == NOT_STARTED
                            else s.told[|s.told| - 1].cause == Some(t.answered[request].error))))
  {
    RunKeepsInv(b, run, i);
    RunKeepsStatus(b, run, i);
  }

  /** A request answered with a bridge was given that of the one daemon ever in hand. */
  lemma AnswersNameTheDaemonInHand(b: Backoff, run: seq<System>, i: nat, request: nat)
    requires Run(b, run) && i < |run| && request in run[i].answered && run[i].answered[request].Ok?
    ensures run[i].taken.Some? && run[i].answered[request].value == run[i].state.current
    ensures run[i].state.current in run[i].children
  {
    RunKeepsInv(b, run, i);
  }

  /** The last the page heard is where the daemon stands; before the first outcome, nothing. */
  lemma LastHeardIsCurrent(b: Backoff, run: seq<System>, i: nat)
    requires Run(b, run) && i < |run|
    ensures run[i].state.heard == [] <==> !run[i].state.settled
    ensures run[i].state.settled ==>
              run[i].state.heard[|run[i].state.heard| - 1] == run[i].state.status
  {
    RunKeepsInv(b, run, i);
    HeardOnlySettled(b, run, i);
  }

  lemma {:induction false} HeardOnlySettled(b: Backoff, run: seq<System>, i: nat)
    requires Run(b, run) && i < |run|
    ensures run[i].state.heard != [] ==> run[i].state.settled
  {
    hide Apply, Enabled;
    if i > 0 {
      HeardOnlySettled(b, run, i - 1);
      assert Next(b, run[i - 1], run[i - 1 + 1]);
      var a :| Enabled(run[i - 1], a) && run[i] == Apply(b, run[i - 1], a);
      HeardStep(b, run[i - 1], a);
    }
  }

  lemma HeardStep(b: Backoff, s: System, a: Action)
    requires Enabled(s, a) && (s.state.heard != [] ==> s.state.settled)
    ensures Apply(b, s, a).state.heard != [] ==> Apply(b, s, a).state.settled
  {
    hide Answer, Waits;
  }

  /**
   A start that failed and may be retried is: the failure told, the wait over, and with every pane closed the
   next start begun, its number one more; with a pane open it is given up on, and said so with the same cause.
   */
  lemma RetriedOrGivenUp(b: Backoff, s: System)
    requires s.thread.Failing? && s.thread.retry && !s.state.stopping
    ensures var told := Apply(b, s, TellFailure);
            && Enabled(told, Wake) && told.state.status == Status(false, Some(s.thread.cause), true)
            && var woken := Apply(b, told, Wake);
            && Enabled(woken, PanesAllClosed) && Enabled(woken, PaneOpen)
            && woken.slept == s.slept + [s.wait] && woken.wait == Min(2 * s.wait, b.most)
            && var again := Apply(b, woken, PanesAllClosed);
            && Enabled(again, BeginAttempt)
            && Apply(b, again, BeginAttempt).thread == Calling(s.state.starts + 1)
            && var open := Apply(b, woken, PaneOpen);
            && Enabled(open, GiveUp)
            && Apply(b, open, GiveUp).state.status == Status(false, Some(s.thread.cause), false)
            && Apply(b, open, GiveUp).thread == Ended
  {
  }

  /**
   The status the start thread read before it listed the panes, and gives up with, is never out of
   date: what it tells then differs from the status in force in `retrying` alone.
   */
  lemma GivingUpIsNotStale(b: Backoff, run: seq<System>, i: nat)
    requires Run(b, run) && i < |run| && run[i].thread.GivingUp? && !run[i].state.stopping
    ensures Apply(b, run[i], GiveUp).state.status == run[i].state.status.(retrying := false)
    ensures !run[i].state.status.available
  {
    RunKeepsInv(b, run, i);
  }

  /** A start that failed is told with its own cause, and with whether it is tried again. */
  lemma FailureIsTold(b: Backoff, run: seq<System>, i: nat)
    requires Run(b, run) && i < |run| && run[i].thread.Failing? && !run[i].state.stopping
    ensures Apply(b, run[i], TellFailure).state.told ==
            run[i].state.told + [Status(false, Some(run[i].thread.cause), run[i].thread.retry)]
    ensures Apply(b, run[i], TellFailure).thread == if run[i].thread.retry then Sleeping else Ended
  {
  }

  /** The waits between starts: the first, then twice as long each time, up to the most. */
  lemma WaitsDouble(b: Backoff, run: seq<System>, i: nat, k: nat)
    requires Run(b, run) && i < |run| && k < |run[i].slept|
    ensures run[i].slept[k] == if k == 0 then b.first else Min(b.first * Doubled(k), b.most)
  {
    RunKeepsInv(b, run, i);
  }
}
