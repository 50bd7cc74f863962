/**
 The update manager (app/src-tauri/src/updates.rs): a phase machine whose checks, downloads and
 installs finish later, off the lock. The locked regions are the methods of a class, proved against
 functions on its state; the halves that finish later are the tasks of a transition system.
 */
module Updates {
  import opened Prelude
  import opened Versions

  datatype Phase = Idle | Checking | Available | Downloading | Ready | Installing | Failed

  /** A downloaded archive, tagged with the version it was downloaded for. */
  datatype Archive = Archive(of: Version, contents: seq<nat>)

  /**
   `available` is the release shown, `pending` the update that would be downloaded for it, and
   `bytes` the archive in hand.
   */
  datatype State = State(
    current: Version,
    channel: Channel,
    phase: Phase,
    available: Option<Version>,
    pending: Option<Version>,
    bytes: Option<Archive>)

  /** What a check found: where the app cannot install it, a release with no update pending. */
  datatype Found = Found(available: Option<Version>, pending: Option<Version>)

  predicate Busy(s: State) {
    s.phase.Checking? || s.phase.Downloading? || s.phase.Installing?
  }

  function ChannelSet(s: State, channel: Channel): State {
    if Busy(s) then s else State(s.current, channel, Idle, None, None, None)
  }

  predicate MayCheck(s: State) {
    !Busy(s) && !s.phase.Ready?
  }

  function CheckBegun(s: State): State {
    if MayCheck(s) then s.(phase := Checking, available := None, pending := None, bytes := None) else s
  }

  function CheckFound(s: State, found: Found): State {
    s.(phase := if found.available.Some? then Available else Idle,
       available := found.available, pending := found.pending)
  }

  function Errored(s: State): State {
    s.(phase := Failed)
  }

  predicate MayDownload(s: State) {
    (s.phase.Available? || s.phase.Failed?) && s.pending.Some?
  }

  function DownloadBegun(s: State): State {
    if MayDownload(s) then s.(phase := Downloading) else s
  }

  function DownloadDone(s: State, bytes: Archive): State {
    s.(bytes := Some(bytes), phase := Ready)
  }

  predicate MayInstall(s: State, permit: bool) {
    s.phase.Ready? && s.bytes.Some? && s.available.Some? && permit
  }

  function InstallBegun(s: State, permit: bool): State {
    if MayInstall(s, permit) then s.(phase := Installing, bytes := None) else s
  }

  function InstallFailed(s: State, bytes: Archive): State {
    s.(bytes := Some(bytes), phase := Ready)
  }

  class UpdateManager {
    const current: Version
    var channel: Channel
    var phase: Phase
    var available: Option<Version>
    var pending: Option<Version>
    var bytes: Option<Archive>

    ghost function View(): State
      reads this
    {
      State(current, channel, phase, available, pending, bytes)
    }

    /** `saved` is the channel kept in the app's preferences, where there is one. */
    constructor (current: Version, saved: Option<Channel>)
      ensures View() == State(current, if saved.Some? then saved.value else DefaultFor(current),
                              Idle, None, None, None)
      ensures saved.None? ==> (channel == Alpha <==> current.pre != [])
    {
      this.current := current;
      channel := if saved.Some? then saved.value else DefaultFor(current);
      phase, available, pending, bytes := Idle, None, None, None;
    }

    /** `kept`: whether the preferences could be written. */
    method SetChannel(next: Channel, kept: bool) returns (done: bool)
      modifies this
      ensures done <==> !Busy(old(View())) && kept
      ensures View() == if done then ChannelSet(old(View()), next) else old(View())
      ensures done <==> kept && (old(phase).Idle? || old(phase).Available? || old(phase).Ready? || old(phase).Failed?)
      ensures done ==> channel == next && phase == Idle && available == pending == None && bytes == None
    {
      if phase.Checking? || phase.Downloading? || phase.Installing? || !kept {
        return false;
      }
      channel, phase := next, Idle;
      available, pending, bytes := None, None, None;
      done := true;
    }

    method BeginCheck() returns (begun: bool)
      modifies this
      ensures View() == CheckBegun(old(View())) && (begun <==> MayCheck(old(View())))
      ensures begun <==> old(phase).Idle? || old(phase).Available? || old(phase).Failed?
      ensures begun ==>
        phase == Checking && available == pending == None && bytes == None && channel == old(channel)
      ensures !begun ==> View() == old(View())
    {
      if phase.Checking? || phase.Downloading? || phase.Ready? || phase.Installing? {
        return false;
      }
      phase, available, pending, bytes := Checking, None, None, None;
      begun := true;
    }

    method OnFound(found: Found)
      modifies this
      ensures View() == CheckFound(old(View()), found)
      ensures available == found.available && pending == found.pending
      ensures phase == (if found.available == None then Idle else Available)
      ensures channel == old(channel) && bytes == old(bytes)
    {
      phase := if found.available.Some? then Available else Idle;
      pending, available := found.pending, found.available;
    }

    method Fail()
      modifies this
      ensures View() == Errored(old(View()))
      ensures phase == Failed && channel == old(channel)
      ensures available == old(available) && pending == old(pending) && bytes == old(bytes)
    {
      phase := Failed;
    }

    /** The first half of `download`: the update to fetch. */
    method BeginDownload() returns (update: Option<Version>)
      modifies this
      ensures View() == DownloadBegun(old(View()))
      ensures update == if MayDownload(old(View())) then old(pending) else None
      ensures update == if old(phase).Available? || old(phase).Failed? then old(pending) else None
      ensures phase == if update.Some? then Downloading else old(phase)
      ensures channel == old(channel) && available == old(available)
      ensures pending == old(pending) && bytes == old(bytes)
    {
      if !(phase.Available? || phase.Failed?) || pending.None? {
        return None;
      }
      phase := Downloading;
      update := pending;
    }

    method Downloaded(archive: Archive)
      modifies this
      ensures View() == DownloadDone(old(View()), archive)
      ensures phase == Ready && bytes == Some(archive) && channel == old(channel)
      ensures available == old(available) && pending == old(pending)
    {
      bytes, phase := Some(archive), Ready;
    }

    /** The first half of `install`: the archive and the version handed to the action. */
    method BeginInstall(permit: bool) returns (handed: Option<(Archive, Version)>)
      modifies this
      ensures View() == InstallBegun(old(View()), permit)
      ensures handed == if MayInstall(old(View()), permit)
                        then Some((old(bytes).value, old(available).value)) else None
      ensures handed.Some? <==> old(phase).Ready? && old(bytes).Some? && old(available).Some? && permit
      ensures handed.Some? ==> Some(handed.value.0) == old(bytes) && Some(handed.value.1) == old(available)
      ensures handed.Some? ==> phase == Installing && bytes == None
      ensures handed.None? ==> phase == old(phase) && bytes == old(bytes)
      ensures channel == old(channel) && available == old(available) && pending == old(pending)
    {
      if !phase.Ready? || bytes.None? || available.None? || !permit {
        return None;
      }
      handed := Some((bytes.value, available.value));
      phase, bytes := Installing, None;
    }

    method UndoInstall(archive: Archive)
      modifies this
      ensures View() == InstallFailed(old(View()), archive)
      ensures phase == Ready && bytes == Some(archive) && channel == old(channel)
      ensures available == old(available) && pending == old(pending)
    {
      bytes, phase := Some(archive), Ready;
    }
  }

  // ---------------------------------------------------------------------------------------
  // Tasks under way
  // ---------------------------------------------------------------------------------------

  /**
   What is under way off the lock: a check, and the channel it read once it had begun; a download;
   an install's worker, with what its action was handed, and whether the app is swapped.
   */
  datatype Task =
    | Check(on: Option<Channel>)
    | Download(version: Version)
    | Install(archive: Archive, version: Version, swapped: bool)

  /** What an install's action was handed, and the channel in force as it was. */
  datatype Handed = Handed(archive: Archive, version: Version, channel: Channel)

  datatype System = System(state: State, tasks: seq<Task>, handed: seq<Handed>)

  /**
   When a worker that ended before it entered `install` may still tell the manager it failed: never, while
   nothing is under way and no bytes are held, or at any time.
   */
  datatype StrayFailures = Never | WhileNothingIs | AnyTime

  datatype Config = Config(current: Version, saved: Option<Channel>, strayFailures: StrayFailures)

  /** The channel an app starts on. */
  function FirstChannel(c: Config): Channel {
    if c.saved.Some? then c.saved.value else DefaultFor(c.current)
  }

  function Begin(c: Config): System {
    System(State(c.current, FirstChannel(c), Idle, None, None, None), [], [])
  }

  datatype Action =
    | SetChannel(channel: Channel)
    | StartCheck
    | ReadChannel(task: nat)
    | FinishCheck(task: nat, found: Found)
    | FailCheck(task: nat)
    | StartDownload
    | FinishDownload(task: nat, contents: seq<nat>)
    | FailDownload(task: nat)
    | StartInstall(permit: bool)
    | UndoInstall(task: nat)
    | Swap(task: nat)
    | JoinFails(task: nat)
    | Restart(task: nat)
    | Vanish(task: nat)
    | StrayFailure

  /** What a check on `channel` may find: nothing, or an upgrade, and to install it that same one. */
  predicate MayFind(current: Version, channel: Channel, found: Found) {
    && (found.available.Some? ==> Upgrade(current, channel, found.available.value))
    && (found.pending.Some? ==> found.pending == found.available)
  }

  /** Nothing is under way, and no bytes are held. */
  predicate NothingIs(s: System) {
    s.tasks == [] && !s.state.phase.Ready?
  }

  predicate Enabled(c: Config, s: System, a: Action) {
    match a
    case ReadChannel(t) => t < |s.tasks| && s.tasks[t] == Check(None)
    case FinishCheck(t, found) =>
      t < |s.tasks| && s.tasks[t].Check? && s.tasks[t].on.Some?
      && MayFind(s.state.current, s.tasks[t].on.value, found)
    case FailCheck(t) => t < |s.tasks| && s.tasks[t].Check?
    case FinishDownload(t, _) => t < |s.tasks| && s.tasks[t].Download?
    case FailDownload(t) => t < |s.tasks| && s.tasks[t].Download?
    case UndoInstall(t) => t < |s.tasks| && s.tasks[t].Install? && !s.tasks[t].swapped
    case Swap(t) => t < |s.tasks| && s.tasks[t].Install? && !s.tasks[t].swapped
    case JoinFails(t) => t < |s.tasks| && s.tasks[t].Install?
    case Restart(t) => t < |s.tasks| && s.tasks[t].Install? && s.tasks[t].swapped
    case Vanish(t) => t < |s.tasks| && !s.tasks[t].Install?
    case StrayFailure => c.strayFailures.AnyTime? || (c.strayFailures.WhileNothingIs? && NothingIs(s))
    case _ => true
  }

  function Without(tasks: seq<Task>, t: nat): seq<Task>
    requires t < |tasks|
  {
    tasks[..t] + tasks[t + 1..]
  }

  function Apply(c: Config, s: System, a: Action): System
    requires Enabled(c, s, a)
  {
    match a
    case SetChannel(channel) => s.(state := ChannelSet(s.state, channel))
    case StartCheck =>
      s.(state := CheckBegun(s.state),
         tasks := if MayCheck(s.state) then s.tasks + [Check(None)] else s.tasks)
    case ReadChannel(t) => s.(tasks := s.tasks[t := Check(Some(s.state.channel))])
    case FinishCheck(t, found) =>
      s.(state := CheckFound(s.state, found), tasks := Without(s.tasks, t))
    case FailCheck(t) => s.(state := Errored(s.state), tasks := Without(s.tasks, t))
    case StartDownload =>
      s.(state := DownloadBegun(s.state),
         tasks := if MayDownload(s.state) then s.tasks + [Download(s.state.pending.value)] else s.tasks)
    case FinishDownload(t, contents) =>
      s.(state := DownloadDone(s.state, Archive(s.tasks[t].version, contents)),
         tasks := Without(s.tasks, t))
    case FailDownload(t) => s.(state := Errored(s.state), tasks := Without(s.tasks, t))
    case StartInstall(permit) =>
      if MayInstall(s.state, permit) then
        var archive, version := s.state.bytes.value, s.state.available.value;
        System(InstallBegun(s.state, permit), s.tasks + [Install(archive, version, false)],
               s.handed + [Handed(archive, version, s.state.channel)])
      else s
    case UndoInstall(t) =>
      s.(state := InstallFailed(s.state, s.tasks[t].archive), tasks := Without(s.tasks, t))
    case Swap(t) => s.(tasks := s.tasks[t := s.tasks[t].(swapped := true)])
    case JoinFails(t) => s.(state := Errored(s.state), tasks := Without(s.tasks, t))
    case Restart(t) => s.(tasks := Without(s.tasks, t))
    case Vanish(t) => s.(tasks := Without(s.tasks, t))
    case StrayFailure => s.(state := Errored(s.state))
  }

  ghost predicate Next(c: Config, s: System, t: System) {
    exists a :: Enabled(c, s, a) && t == Apply(c, s, a)
  }

  ghost predicate Run(c: Config, run: seq<System>) {
    && |run| > 0
    && run[0] == Begin(c)
    && forall i :: 0 <= i < |run| - 1 ==> Next(c, run[i], run[i + 1])
  }

  /** What each phase holds: a shown release is an upgrade on the channel, bytes are of that one. */
  ghost predicate StateInv(s: State) {
    && (s.available.Some? ==> Upgrade(s.current, s.channel, s.available.value))
    && (s.pending.Some? ==> s.pending == s.available)
    && (s.bytes.Some? <==> s.phase.Ready?)
    && (s.bytes.Some? ==> s.available == Some(s.bytes.value.of) && s.pending == s.available)
    && (s.phase.Idle? || s.phase.Checking? ==> s.available.None?)
    && (s.phase.Downloading? ==> s.pending.Some?)
    && (s.phase.Installing? ==> s.available.Some? && s.pending == s.available)
  }

  ghost predicate TaskInv(s: State, task: Task) {
    match task
    case Check(on) => s.phase.Checking? && (on.Some? ==> on.value == s.channel)
    case Download(version) => s.phase.Downloading? && s.pending == Some(version)
    case Install(archive, version, _) =>
      s.phase.Installing? && archive.of == version && s.available == Some(version)
  }

  ghost predicate HandedInv(current: Version, h: Handed) {
    h.archive.of == h.version && Upgrade(current, h.channel, h.version)
  }

  ghost predicate Inv(c: Config, s: System) {
    && s.state.current == c.current
    && StateInv(s.state)
    && |s.tasks| <= 1
    && (s.tasks != [] ==> TaskInv(s.state, s.tasks[0]))
    && (forall i :: 0 <= i < |s.handed| ==> HandedInv(c.current, s.handed[i]))
  }

  lemma StepKeepsState(c: Config, s: System, a: Action)
    requires !c.strayFailures.AnyTime? && Inv(c, s) && Enabled(c, s, a)
    ensures Apply(c, s, a).state.current == c.current && StateInv(Apply(c, s, a).state)
  {
    hide Without, HandedInv, Upgrade;
  }

  lemma StepKeepsTasks(c: Config, s: System, a: Action)
    requires !c.strayFailures.AnyTime? && Inv(c, s) && Enabled(c, s, a)
    ensures var t := Apply(c, s, a); |t.tasks| <= 1 && (t.tasks != [] ==> TaskInv(t.state, t.tasks[0]))
  {
    hide HandedInv, Upgrade;
  }

  lemma StepKeepsHanded(c: Config, s: System, a: Action)
    requires Inv(c, s) && Enabled(c, s, a)
    ensures var t := Apply(c, s, a); forall i :: 0 <= i < |t.handed| ==> HandedInv(c.current, t.handed[i])
  {
    hide Without, TaskInv, Upgrade;
  }

  lemma StepKeepsInv(c: Config, s: System, a: Action)
    requires !c.strayFailures.AnyTime? && Inv(c, s) && Enabled(c, s, a)
    ensures Inv(c, Apply(c, s, a))
  {
    hide Enabled, Apply, StateInv, TaskInv, HandedInv;
    StepKeepsState(c, s, a);
    StepKeepsTasks(c, s, a);
    StepKeepsHanded(c, s, a);
  }

  lemma {:induction false} RunKeepsInv(c: Config, run: seq<System>, i: nat)
    requires !c.strayFailures.AnyTime? && Run(c, run) && i < |run|
    ensures Inv(c, run[i])
  {
    if i > 0 {
      RunKeepsInv(c, run, i - 1);
      assert Next(c, run[i - 1], run[i - 1 + 1]);
      var a :| Enabled(c, run[i - 1], a) && run[i] == Apply(c, run[i - 1], a);
      StepKeepsInv(c, run[i - 1], a);
    }
  }

  /**
   What an install is ever handed: in every run, the bytes downloaded for exactly the version handed
   with them, of higher precedence than the app's and accepted by the channel then in force.
   */
  lemma InstallsWhatWasDownloadedForIt(c: Config, run: seq<System>, i: nat, k: nat)
    requires !c.strayFailures.AnyTime? && Run(c, run) && i < |run| && k < |run[i].handed|
    ensures run[i].handed[k].archive.of == run[i].handed[k].version
    ensures Precedes(c.current, run[i].handed[k].version)
    ensures Accepts(run[i].handed[k].channel, run[i].handed[k].version)
  {
    RunKeepsInv(c, run, i);
    assert HandedInv(c.current, run[i].handed[k]);
  }

  /** Bytes are in hand exactly in the ready phase, and are those of the release shown. */
  lemma BytesExactlyWhenReady(c: Config, run: seq<System>, i: nat)
    requires !c.strayFailures.AnyTime? && Run(c, run) && i < |run|
    ensures run[i].state.bytes.Some? <==> run[i].state.phase.Ready?
    ensures run[i].state.phase.Ready? ==>
              && run[i].state.available == Some(run[i].state.bytes.value.of)
              && Upgrade(c.current, run[i].state.channel, run[i].state.bytes.value.of)
  {
    RunKeepsInv(c, run, i);
  }

  /** At most one check, download or install is under way, and the phase says which. */
  lemma AtMostOneUnderWay(c: Config, run: seq<System>, i: nat)
    requires !c.strayFailures.AnyTime? && Run(c, run) && i < |run|
    ensures |run[i].tasks| <= 1
    ensures run[i].tasks != [] ==>
              match run[i].tasks[0]
              case Check(_) => run[i].state.phase.Checking?
              case Download(_) => run[i].state.phase.Downloading?
              case Install(_, _, _) => run[i].state.phase.Installing?
  {
    RunKeepsInv(c, run, i);
  }

  /** The channel a check read is still the channel in force when what it found is taken in. */
  lemma ChecksAreOfTheChannelInForce(c: Config, run: seq<System>, i: nat, task: nat)
    requires !c.strayFailures.AnyTime? && Run(c, run) && i < |run|
    requires task < |run[i].tasks| && run[i].tasks[task].Check? && run[i].tasks[task].on.Some?
    ensures run[i].tasks[task].on.value == run[i].state.channel
  {
    RunKeepsInv(c, run, i);
  }

  /** A stray failure keeps all this exactly where nothing is under way and no bytes are held. */
  lemma StrayFailureKeepsExactlyWhen(c: Config, s: System)
    requires Inv(c, s)
    ensures Inv(c, s.(state := Errored(s.state))) <==> NothingIs(s)
  {
  }

  /**
   Why only a worker that entered `install` may tell of a failure: one told of while a download is
   under way lets a check begin beside it, and the archive then arrives with no release shown for it.
   */
  lemma StrayFailureBreaksIt(current: Version, release: Version)
    requires Upgrade(current, Stable, release)
    ensures exists run: seq<System> :: Run(Config(current, Some(Stable), AnyTime), run)
              && |run[|run| - 1].tasks| == 1
              && run[|run| - 1].state.phase.Ready? && run[|run| - 1].state.available.None?
  {
    var c := Config(current, Some(Stable), AnyTime);
    var run := DownloadUnderWay(c, release);
    run := Extend(c, run, StrayFailure);
    run := Extend(c, run, StartCheck);
    assert run[|run| - 1] == System(State(current, Stable, Checking, None, None, None),
                                    [Download(release), Check(None)], []);
    run := Extend(c, run, FinishDownload(0, []));
    assert run[|run| - 1].tasks == [Check(None)];
  }

  lemma DownloadUnderWay(c: Config, release: Version) returns (run: seq<System>)
    requires Upgrade(c.current, FirstChannel(c), release)
    ensures Run(c, run)
    ensures run[|run| - 1] ==
            System(State(c.current, FirstChannel(c), Downloading, Some(release), Some(release), None),
                   [Download(release)], [])
  {
    run := [Begin(c)];
    run := Extend(c, run, StartCheck);
    run := Extend(c, run, ReadChannel(0));
    assert run[|run| - 1].tasks == [Check(Some(FirstChannel(c)))];
    run := Extend(c, run, FinishCheck(0, Found(Some(release), Some(release))));
    assert run[|run| - 1] ==
        System(State(c.current, FirstChannel(c), Available, Some(release), Some(release), None), [], []);
    run := Extend(c, run, StartDownload);
  }

  lemma InstallUnderWay(c: Config, release: Version, contents: seq<nat>) returns (run: seq<System>)
    requires Upgrade(c.current, FirstChannel(c), release)
    ensures Run(c, run)
    ensures var archive := Archive(release, contents);
            run[|run| - 1] ==
            System(State(c.current, FirstChannel(c), Installing, Some(release), Some(release), None),
                   [Install(archive, release, false)], [Handed(archive, release, FirstChannel(c))])
  {
    run := DownloadUnderWay(c, release);
    hide Run;
    run := Extend(c, run, FinishDownload(0, contents));
    assert run[|run| - 1].tasks == [];
    run := Extend(c, run, StartInstall(true));
  }

  /**
   Whatever upgrade the channel accepts can be installed: found, downloaded and handed to the install, with
   just what was downloaded. An install undone is ready to be tried again, with the same archive.
   */
  lemma AnUpgradeCanBeInstalled(c: Config, release: Version, contents: seq<nat>)
    requires Upgrade(c.current, FirstChannel(c), release)
    ensures exists run: seq<System> :: Run(c, run)
              && run[|run| - 1].handed == [Handed(Archive(release, contents), release, FirstChannel(c))]
              && run[|run| - 1].state.phase.Ready?
              && run[|run| - 1].state.bytes == Some(Archive(release, contents))
              && run[|run| - 1].state.available == Some(release)
  {
    var run := InstallUnderWay(c, release, contents);
    hide Run;
    run := Extend(c, run, UndoInstall(0));
    assert run[|run| - 1].tasks == [];
  }

  /** Whatever fails can be tried again: a check always, and a download of the same release. */
  lemma AFailureCanBeTriedAgain(c: Config, run: seq<System>, i: nat, a: Action)
    requires !c.strayFailures.AnyTime? && Run(c, run) && i < |run| && Enabled(c, run[i], a)
    requires a.FailCheck? || a.FailDownload? || a.JoinFails?
    ensures var t := Apply(c, run[i], a);
            && t.state.phase.Failed? && t.tasks == []
            && Apply(c, t, StartCheck).tasks == [Check(None)]
            && Apply(c, t, StartCheck).state.phase.Checking?
            && (a.FailDownload? ==>
                  && Apply(c, t, StartDownload).tasks == run[i].tasks
                  && Apply(c, t, StartDownload).state == run[i].state)
  {
    RunKeepsInv(c, run, i);
  }

  /** What was downloaded is kept, ready, until it is installed or another channel is set. */
  lemma ReadyIsLeftOnlyFor(c: Config, run: seq<System>, i: nat, a: Action)
    requires !c.strayFailures.AnyTime? && Run(c, run) && i < |run|
    requires run[i].state.phase.Ready? && Enabled(c, run[i], a)
    requires !a.SetChannel? && a != StartInstall(true)
    ensures Apply(c, run[i], a).state == run[i].state
  {
    RunKeepsInv(c, run, i);
  }

  lemma Extend(c: Config, run: seq<System>, a: Action) returns (longer: seq<System>)
    requires Run(c, run) && Enabled(c, run[|run| - 1], a)
    ensures Run(c, longer) && longer == run + [Apply(c, run[|run| - 1], a)]
  {
    longer := run + [Apply(c, run[|run| - 1], a)];
    forall i | 0 <= i < |longer| - 1
      ensures Next(c, longer[i], longer[i + 1])
    {
      if i < |run| - 1 {
        assert Next(c, run[i], run[i + 1]);
      }
    }
  }
}
