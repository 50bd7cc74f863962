/**
 What is typed across page reloads (app/ui/terminal-link.js, crates/cf-panes/src/input_queue.rs and
 subscribe_output, app/src-tauri/src/commands.rs): each page counts a pane's chunks from 1, and the host
 from the moment a page's task has it begin. Chunks of pages that have gone, and tasks of theirs, may still
 be on their way; a page's own chunks arrive in the order it sent them, as TerminalInput has them sent.
 */
module InputReloads {
  import opened Prelude
  import TerminalInput

  /**
   `last` is the number the host counted last; `sent` how many chunks the page there now has sent, the
   last `onWay` of them not arrived; `strays` the numbers of older pages' chunks still on their way.
   `asked` is whether the page has subscribed, `begins` whether its task has yet to have the host begin,
   `olderBegins` how many older pages' tasks have.
   */
  datatype Counts = Counts(
    last: nat,
    sent: nat,
    onWay: nat,
    strays: seq<nat>,
    asked: bool,
    begins: bool,
    olderBegins: nat)

  datatype Step =
    | Send
    | Arrive
    | StrayArrives(which: nat)
    | Reload
    | Subscribe
    | BeginPage
    | OlderBegins

  function Start(): Counts {
    Counts(0, 0, 0, [], false, false, 0)
  }

  /** The number of the page's next chunk to arrive. */
  function NextNumber(s: Counts): nat
    requires s.onWay <= s.sent
  {
    s.sent - s.onWay + 1
  }

  /** The last number counted once a chunk of `number` arrived. */
  function Counted(last: nat, number: nat): nat {
    if number == last + 1 then number else last
  }

  /** Only the very next number is counted, whatever else the host has to say of a chunk. */
  lemma CountedIsByVerdict(last: nat, number: nat, size: nat, takes: bool)
    ensures var verdict := TerminalInput.Verdict(last, number, size, takes);
            (verdict.Admitted? || verdict.Refused? <==> number == last + 1)
            && Counted(last, number) == if verdict.Admitted? || verdict.Refused? then number else last
  {
  }

  /** The numbers of the chunks on their way, in order. */
  function OnWay(sent: nat, onWay: nat): seq<nat>
    requires onWay <= sent
  {
    if onWay == 0 then [] else [sent - onWay + 1] + OnWay(sent, onWay - 1)
  }

  predicate Can(s: Counts, a: Step) {
    match a
    case Arrive => 0 < s.onWay <= s.sent
    case StrayArrives(i) => i < |s.strays|
    case Reload => s.onWay <= s.sent
    case Subscribe => !s.asked
    case BeginPage => s.begins
    case OlderBegins => s.olderBegins > 0
    case Send => true
  }

  function Then(s: Counts, a: Step): Counts
    requires Can(s, a)
  {
    match a
    case Send => s.(sent := s.sent + 1, onWay := s.onWay + 1)
    case Arrive => s.(last := Counted(s.last, NextNumber(s)), onWay := s.onWay - 1)
    case StrayArrives(i) =>
      s.(last := Counted(s.last, s.strays[i]), strays := s.strays[..i] + s.strays[i + 1..])
    case Reload =>
      Counts(s.last, 0, 0, s.strays + OnWay(s.sent, s.onWay), false, false,
             s.olderBegins + if s.begins then 1 else 0)
    case Subscribe => s.(asked := true, begins := true)
    case BeginPage => s.(last := 0, begins := false)
    case OlderBegins => s.(last := 0, olderBegins := s.olderBegins - 1)
  }

  /** Steps taken in order; none where one of them cannot be. */
  function After(s: Counts, steps: seq<Step>): Option<Counts> {
    if steps == [] then Some(s)
    else
      var last := |steps| - 1;
      var before := After(s, steps[..last]);
      if before.Some? && Can(before.value, steps[last]) then Some(Then(before.value, steps[last])) else None
  }

  ghost predicate Reachable(s: Counts) {
    exists steps :: After(Start(), steps) == Some(s)
  }

  lemma AfterOneMore(s: Counts, steps: seq<Step>, a: Step)
    requires After(s, steps).Some? && Can(After(s, steps).value, a)
    ensures After(s, steps + [a]) == Some(Then(After(s, steps).value, a))
  {
    hide Can, Then;
    assert (steps + [a])[..|steps|] == steps;
  }

  /** The host has counted just what arrived of the page's own. */
  predicate InStep(s: Counts) {
    s.onWay <= s.sent && s.last == s.sent - s.onWay
  }

  /** A chunk of the page's is counted exactly where the host is in step: else it is a gap or a regression. */
  lemma CountedExactlyInStep(s: Counts, size: nat, takes: bool)
    requires Can(s, Arrive)
    ensures var verdict := TerminalInput.Verdict(s.last, NextNumber(s), size, takes);
            (verdict.Gap? || verdict.Regression?) <==> !InStep(s)
  {
  }

  /** A stray that is counted, or a begin where something was. */
  predicate Disturbs(s: Counts, a: Step)
    requires Can(s, a)
  {
    match a
    case StrayArrives(i) => s.strays[i] == s.last + 1
    case BeginPage => s.last != 0
    case OlderBegins => s.last != 0
    case _ => false
  }

  /** While a page stays, the host falls out of step exactly at such a one. */
  lemma StaysInStepExactlyWhen(s: Counts, a: Step)
    requires Can(s, a) && InStep(s) && !a.Reload?
    ensures InStep(Then(s, a)) <==> !Disturbs(s, a)
  {
  }

  /** Whether such a one can still come. */
  ghost predicate MayBeDisturbed(s: Counts) {
    !s.asked || s.begins || s.olderBegins > 0 || exists i :: 0 <= i < |s.strays| && s.strays[i] > s.last
  }

  /** `steps` lead, with the page staying, to a chunk of its own that is turned away for its number. */
  ghost predicate TurnsAway(s: Counts, steps: seq<Step>) {
    && (forall a :: a in steps ==> !a.Reload?)
    && After(s, steps).Some? && Can(After(s, steps).value, Arrive) && !InStep(After(s, steps).value)
  }

  lemma CalmStays(s: Counts, a: Step)
    requires Can(s, a) && !a.Reload? && InStep(s) && !MayBeDisturbed(s)
    ensures InStep(Then(s, a)) && !MayBeDisturbed(Then(s, a))
  {
    var t := Then(s, a);
    if a.StrayArrives? {
      forall i | 0 <= i < |t.strays| ensures t.strays[i] <= t.last {
        assert t.strays[i] == s.strays[if i < a.which then i else i + 1];
      }
    }
  }

  lemma {:induction false} CalmThroughout(s: Counts, steps: seq<Step>)
    requires InStep(s) && !MayBeDisturbed(s)
    requires After(s, steps).Some? && forall a :: a in steps ==> !a.Reload?
    ensures InStep(After(s, steps).value) && !MayBeDisturbed(After(s, steps).value)
  {
    hide Can, Then, InStep, MayBeDisturbed;
    if steps != [] {
      var last := |steps| - 1;
      CalmThroughout(s, steps[..last]);
      CalmStays(After(s, steps[..last]).value, steps[last]);
    }
  }

  /** What was sent counted, so that `number` is the next one. */
  lemma CountUpTo(s: Counts, done: seq<Step>, t: Counts, number: nat) returns (steps: seq<Step>, u: Counts)
    requires After(s, done) == Some(t) && (forall a :: a in done ==> !a.Reload?)
    requires InStep(t) && t.last < number
    ensures After(s, steps) == Some(u) && (forall a :: a in steps ==> !a.Reload?)
    ensures InStep(u) && u.last + 1 == number && u.strays == t.strays
    ensures u.begins == t.begins && u.olderBegins == t.olderBegins
    decreases number - t.last, if t.onWay > 0 then 0 else 1
  {
    if t.last + 1 == number {
      steps, u := done, t;
    } else {
      var a := if t.onWay > 0 then Arrive else Send;
      AfterOneMore(s, done, a);
      steps, u := CountUpTo(s, done + [a], Then(t, a), number);
    }
  }

  /** Out of step, the page's next chunk to arrive is turned away. */
  lemma OutOfStep(s: Counts, done: seq<Step>, t: Counts, a: Step) returns (steps: seq<Step>)
    requires After(s, done) == Some(t) && (forall a :: a in done ==> !a.Reload?)
    requires InStep(t) && Can(t, a) && !a.Reload? && Disturbs(t, a)
    ensures TurnsAway(s, steps)
  {
    AfterOneMore(s, done, a);
    var u := Then(t, a);
    steps := done + [a];
    if u.onWay == 0 {
      AfterOneMore(s, steps, Send);
      steps := steps + [Send];
    }
  }

  /**
   While a page stays that is in step with the host, a chunk of its own can come to be turned away for its
   number exactly when the host is still to begin for it or for a page before it, or a chunk of a page before
   it is still to come under a number not yet counted.
   */
  lemma TurnedAwayExactlyWhen(s: Counts)
    requires InStep(s)
    ensures (exists steps :: TurnsAway(s, steps)) <==> MayBeDisturbed(s)
  {
    if !MayBeDisturbed(s) {
      forall steps | TurnsAway(s, steps) ensures false {
        CalmThroughout(s, steps);
      }
    } else {
      assert After(s, []) == Some(s) && [] + [Subscribe] == [Subscribe];
      var asks, t, number, a := [], s, s.last + 2, if s.begins || !s.asked then BeginPage else OlderBegins;
      if !s.asked {
        AfterOneMore(s, [], Subscribe);
        asks, t := [Subscribe], Then(s, Subscribe);
      } else if !s.begins && s.olderBegins == 0 {
        var i :| 0 <= i < |s.strays| && s.strays[i] > s.last;
        number, a := s.strays[i], StrayArrives(i);
      }
      var done, u := CountUpTo(s, asks, t, number);
      var steps := OutOfStep(s, done, u, a);
    }
  }

  /** A page that begins as the first does, or with nothing left of those before it, is never turned away. */
  lemma CleanStartIsNeverTurnedAway(s: Counts, steps: seq<Step>)
    requires s.asked && InStep(s) && !s.begins && s.olderBegins == 0 && s.strays == []
    ensures !TurnsAway(s, steps)
  {
    TurnedAwayExactlyWhen(s);
  }

  lemma Goes(s: Counts, a: Step) returns (t: Counts)
    requires Reachable(s) && Can(s, a)
    ensures t == Then(s, a) && Reachable(t)
  {
    var steps :| After(Start(), steps) == Some(s);
    AfterOneMore(Start(), steps, a);
    t := Then(s, a);
  }

  /**
   A first chunk still on its way at a reload takes the place of the new page's: it arrives once the host has
   begun, is counted as 1, and the new page's own first chunk is turned away as a regression.
   */
  lemma OldChunkTakesThePlace(size: nat, takes: bool)
    ensures exists s :: Reachable(s) && Can(s, Arrive) && s.sent == 1
                        && TerminalInput.Verdict(s.last, NextNumber(s), size, takes).Regression?
  {
    var s := Start();
    assert After(s, []) == Some(s);
    s := Goes(s, Subscribe);
    s := Goes(s, BeginPage);
    s := Goes(s, Send);
    s := Goes(s, Reload);
    assert OnWay(1, 1) == [1] + OnWay(1, 0) && s.strays == [1];
    s := Goes(s, Subscribe);
    s := Goes(s, BeginPage);
    s := Goes(s, StrayArrives(0));
    s := Goes(s, Send);
    assert s.last == 1 && NextNumber(s) == 1;
  }

  /** A begin that comes late forgets what was counted: the page's next chunk is a gap. */
  lemma LateBeginForgetsTheCount(size: nat, takes: bool)
    ensures exists s :: Reachable(s) && Can(s, Arrive) && s.strays == []
                        && TerminalInput.Verdict(s.last, NextNumber(s), size, takes).Gap?
  {
    var s := Start();
    assert After(s, []) == Some(s);
    s := Goes(s, Subscribe);
    s := Goes(s, Reload);
    s := Goes(s, Subscribe);
    s := Goes(s, BeginPage);
    s := Goes(s, Send);
    s := Goes(s, Arrive);
    s := Goes(s, OlderBegins);
    s := Goes(s, Send);
    assert s.last == 0 && NextNumber(s) == 2;
  }
}
