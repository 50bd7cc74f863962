/**
 A terminal's size as the page keeps the host's at it (app/ui/terminal-link.js, resize and #syncSize): one
 call on its way at a time, each for the last size asked when it goes. One pane is followed, through any mix
 of resizes, answers, refusals and its retirement.
 */
module TerminalSize {
  import opened Prelude

  datatype Dimensions = Dimensions(cols: nat, rows: nat)

  /** What the page keeps of a pane's size: what it last asked for, and what the host last accepted. */
  datatype Size = Size(running: bool, applied: Option<Dimensions>, desired: Dimensions)

  /** A size in sync, and what is asked of the host for it. */
  function Synced(size: Size): (Size, Option<Dimensions>) {
    if size.running || size.applied == Some(size.desired) then (size, None)
    else (size.(running := true), Some(size.desired))
  }

  function Resized(size: Option<Size>, wanted: Dimensions): (Size, Option<Dimensions>) {
    Synced(if size.Some? then size.value.(desired := wanted) else Size(false, None, wanted))
  }

  /** A size once its call for `sent` is answered: synced again where another was asked since. */
  function Answered(size: Size, sent: Dimensions, accepted: bool): (Size, Option<Dimensions>) {
    var after := size.(running := false, applied := if accepted then Some(sent) else size.applied);
    if size.desired != sent then Synced(after) else (after, None)
  }

  class PaneSize {
    var size: Option<Size>
    var retired: bool

    constructor ()
      ensures size == None && !retired
    {
      size, retired := None, false;
    }

    method Resize(wanted: Dimensions) returns (ask: Option<Dimensions>)
      modifies this
      ensures retired == old(retired)
      ensures if retired then size == old(size) && ask == None
              else (size, ask) == (Some(Resized(old(size), wanted).0), Resized(old(size), wanted).1)
    {
      if retired {
        return None;
      }
      var now := if size.Some? then size.value.(desired := wanted) else Size(false, None, wanted);
      size := Some(now);
      ask := SyncSize();
    }

    method SyncSize() returns (ask: Option<Dimensions>)
      modifies this`size
      ensures if old(size).None? then size == None && ask == None
              else (size, ask) == (Some(Synced(old(size).value).0), Synced(old(size).value).1)
    {
      if size.None? || size.value.running || size.value.applied == Some(size.value.desired) {
        return None;
      }
      ask := Some(size.value.desired);
      size := Some(size.value.(running := true));
    }

    /** The rest of a sync, once the host answered; nothing where the pane was let go of meanwhile. */
    method Settle(sent: Dimensions, accepted: bool) returns (ask: Option<Dimensions>)
      modifies this`size
      ensures if old(size).None? then size == None && ask == None
              else (size, ask) ==
                   (Some(Answered(old(size).value, sent, accepted).0), Answered(old(size).value, sent, accepted).1)
    {
      if size.None? {
        return None;
      }
      var desired := size.value.desired;
      if accepted {
        size := Some(size.value.(applied := Some(sent)));
      }
      size := Some(size.value.(running := false));
      if desired != sent {
        ask := SyncSize();
      } else {
        ask := None;
      }
    }

    method Retire()
      modifies this
      ensures size == None && retired
    {
      size, retired := None, true;
    }
  }

  // ---------------------------------------------------------------------------------------
  // The page and the host
  // ---------------------------------------------------------------------------------------

  /** How a call went: the host took the size, or did not. */
  datatype Outcome = Accepted | Refused

  datatype System = System(
    size: Option<Size>,
    retired: bool,
    onItsWay: Option<Dimensions>,
    host: Option<Dimensions>,
    asked: Option<Dimensions>,
    last: Option<(Dimensions, Outcome)>)

  datatype Action = Resize(wanted: Dimensions) | Answer(outcome: Outcome) | Retire

  function Begin(): System {
    System(None, false, None, None, None, None)
  }

  predicate Enabled(s: System, a: Action) {
    a.Answer? ==> s.onItsWay.Some?
  }

  function AfterResize(s: System, wanted: Dimensions): System {
    if s.retired then s
    else
      var (size, ask) := Resized(s.size, wanted);
      s.(size := Some(size), onItsWay := if ask.Some? then ask else s.onItsWay, asked := Some(wanted))
  }

  function AfterAnswer(s: System, outcome: Outcome): System
    requires s.onItsWay.Some?
  {
    var sent := s.onItsWay.value;
    var t := s.(host := if outcome == Accepted then Some(sent) else s.host, last := Some((sent, outcome)));
    if s.size.None? then t.(onItsWay := None)
    else
      var (size, ask) := Answered(s.size.value, sent, outcome == Accepted);
      t.(size := Some(size), onItsWay := ask)
  }

  function Apply(s: System, a: Action): System
    requires Enabled(s, a)
  {
    match a
    case Resize(wanted) => AfterResize(s, wanted)
    case Answer(outcome) => AfterAnswer(s, outcome)
    case Retire => s.(size := None, retired := true)
  }

  ghost predicate Next(s: System, t: System) {
    exists a :: Enabled(s, a) && t == Apply(s, a)
  }

  ghost predicate Run(run: seq<System>) {
    && run != [] && run[0] == Begin()
    && forall i :: 0 <= i < |run| - 1 ==> Next(run[i], run[i + 1])
  }

  ghost predicate Inv(s: System) {
    && (s.retired ==> s.size.None?)
    && (!s.retired && s.size.None? ==> s.onItsWay.None? && s.asked.None? && s.host.None?)
    && (s.size.Some? ==>
          && s.asked == Some(s.size.value.desired)
          && (s.size.value.running <==> s.onItsWay.Some?)
          && s.size.value.applied == s.host
          && (!s.size.value.running ==>
                s.host == s.asked || s.last == Some((s.size.value.desired, Refused))))
    && (s.last.Some? && s.last.value.1 == Accepted ==> s.host == Some(s.last.value.0))
    && (s.last.Some? && s.last.value.1 == Refused ==> s.host != Some(s.last.value.0))
    && (s.onItsWay.Some? ==> s.onItsWay != s.host)
  }

  lemma {:induction false} RunKeepsInv(run: seq<System>, i: nat)
    requires Run(run) && i < |run|
    ensures Inv(run[i])
  {
    if i > 0 {
      RunKeepsInv(run, i - 1);
      assert Next(run[i - 1], run[i]);
    }
  }

  /** Whether the last thing the host did was to refuse the size last asked. */
  predicate LastWasRefused(s: System) {
    s.asked.Some? && s.last == Some((s.asked.value, Refused))
  }

  /**
   With no call on its way, a pane the page still has is at the size last asked exactly where the last
   thing the host did was not to refuse that very size.
   */
  lemma SettledSizeIsTheLastAsked(run: seq<System>, i: nat)
    requires Run(run) && i < |run| && !run[i].retired && run[i].onItsWay.None?
    ensures run[i].host == run[i].asked <==> !LastWasRefused(run[i])
  {
    RunKeepsInv(run, i);
  }

  /** However many sizes are asked while a call is on its way, the next call is for the last of them. */
  lemma OneCallAtATime(run: seq<System>, i: nat, wanted: Dimensions)
    requires Run(run) && i < |run| && !run[i].retired && run[i].onItsWay.Some?
    ensures Apply(run[i], Resize(wanted)).onItsWay == run[i].onItsWay
    ensures forall outcome ::
      var t := Apply(Apply(run[i], Resize(wanted)), Answer(outcome));
      t.onItsWay == if t.host == Some(wanted) || Some(wanted) == run[i].onItsWay
                    then None else Some(wanted)
  {
    RunKeepsInv(run, i);
  }

  /** A size the host refused is not sent again until another is asked: it stays as it was. */
  lemma RefusedIsNotSentAgain(first: Dimensions, wanted: Dimensions)
    requires first != wanted
    ensures exists run: seq<System> ::
      && Run(run) && |run| == 5
      && var s := run[4];
         s.onItsWay.None? && !s.retired && s.host == Some(first) && s.asked == Some(wanted)
         && forall a :: Enabled(s, a) && !a.Resize? ==> Apply(s, a).onItsWay.None?
  {
    var a := Apply(Begin(), Resize(first));
    var b := Apply(a, Answer(Accepted));
    var c := Apply(b, Resize(wanted));
    var d := Apply(c, Answer(Refused));
    var run := [Begin(), a, b, c, d];
    assert Next(Begin(), a) && Next(a, b) && Next(b, c) && Next(c, d);
    assert Run(run);
  }

  /** A pane retired is sent no size again. */
  lemma RetiredIsSentNoSize(run: seq<System>, i: nat, a: Action)
    requires Run(run) && i < |run| && run[i].retired && Enabled(run[i], a)
    ensures Apply(run[i], a).retired
    ensures Apply(run[i], a).onItsWay.Some? ==> Apply(run[i], a).onItsWay == run[i].onItsWay
  {
    RunKeepsInv(run, i);
  }
}
