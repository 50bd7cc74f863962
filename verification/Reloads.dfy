/**
 How often a page whose process failed is loaded again (app/src-tauri/src/page_reloads.rs): loads kept
 apart, and given up on after too many within a while. Times are counts of nanoseconds.
 */
module Reloads {
  const SECOND := 1_000_000_000
  const APART := 5 * SECOND
  const AT_MOST := 5
  const WITHIN := 60 * SECOND

  datatype Reload = Now | After(wait: int) | Due | GivenUp | GaveUp

  datatype State = State(at: seq<int>, givenUp: bool)

  function Latest(a: int, b: int): int {
    if a < b then b else a
  }

  /** The loads left once those long enough before `now` are dropped from the front. */
  function Pruned(at: seq<int>, now: int): seq<int> {
    if at != [] && now - at[0] >= WITHIN then Pruned(at[1..], now) else at
  }

  /** When the load after those in `at` is made. */
  function NextLoad(at: seq<int>, now: int): (load: int)
    ensures load >= now
  {
    if at == [] then now else Latest(now, at[|at| - 1] + APART)
  }

  function Outcome(load: int, now: int): Reload {
    if load <= now then Now else After(load - now)
  }

  function OnFailure(s: State, now: int): (Reload, State) {
    if s.givenUp then (GaveUp, s)
    else if s.at != [] && s.at[|s.at| - 1] > now then (Due, s)
    else
      var at := Pruned(s.at, now);
      if |at| >= AT_MOST then (GivenUp, State(at, true))
      else
        var load := NextLoad(at, now);
        (Outcome(load, now), State(at + [load], false))
  }

  class PageReloads {
    var at: seq<int>
    var givenUp: bool

    function Value(): State
      reads this
    {
      State(at, givenUp)
    }

    constructor ()
      ensures Value() == State([], false)
    {
      at, givenUp := [], false;
    }

    method Failed(now: int) returns (reload: Reload)
      modifies this
      ensures (reload, Value()) == OnFailure(old(Value()), now)
    {
      if givenUp {
        return GaveUp;
      }
      if at != [] && at[|at| - 1] > now {
        return Due;
      }
      while at != [] && now - at[0] >= WITHIN
        invariant Pruned(at, now) == Pruned(old(at), now) && !givenUp
        decreases |at|
      {
        at := at[1..];
      }
      if |at| >= AT_MOST {
        givenUp := true;
        return GivenUp;
      }
      var load := if at == [] then now else Latest(now, at[|at| - 1] + APART);
      at := at + [load];
      reload := if load - now <= 0 then Now else After(load - now);
    }
  }

  // ---------------------------------------------------------------------------------------
  // Runs
  // ---------------------------------------------------------------------------------------

  /** A clock never goes back. */
  predicate InTime(times: seq<int>) {
    forall i, j :: 0 <= i < j < |times| ==> times[i] <= times[j]
  }

  /** The limiter after failures at `times`. */
  function StateAfter(times: seq<int>): State {
    if times == [] then State([], false)
    else OnFailure(StateAfter(times[..|times| - 1]), times[|times| - 1]).1
  }

  /** What is done with the failure at `times[i]`. */
  function Said(times: seq<int>, i: nat): Reload
    requires i < |times|
  {
    OnFailure(StateAfter(times[..i]), times[i]).0
  }

  function LoadsOf(reload: Reload, now: int): seq<int> {
    match reload
    case Now => [now]
    case After(wait) => [now + wait]
    case _ => []
  }

  /** Every load made after failures at `times`, the ones long gone too. */
  function Loads(times: seq<int>): seq<int> {
    if times == [] then []
    else Loads(times[..|times| - 1]) + LoadsOf(Said(times, |times| - 1), times[|times| - 1])
  }

  ghost predicate Apart(loads: seq<int>) {
    forall i, j :: 0 <= i < j < |loads| ==> loads[i] + APART <= loads[j]
  }

  /** Loads that are all long enough before `now`. */
  ghost predicate LongBefore(loads: seq<int>, now: int) {
    forall i :: 0 <= i < |loads| ==> now - loads[i] >= WITHIN
  }

  /** The queue is the last of the loads, and what is gone from it is long before the last failure. */
  ghost predicate Holds(s: State, loads: seq<int>, last: int) {
    && Apart(loads)
    && |s.at| <= |loads| && s.at == loads[|loads| - |s.at|..]
    && LongBefore(loads[..|loads| - |s.at|], last)
    && (!s.givenUp ==> s.at == [] ==> loads == [])
  }

  lemma {:induction false} PrunedIsTheLast(at: seq<int>, now: int)
    ensures |Pruned(at, now)| <= |at| && Pruned(at, now) == at[|at| - |Pruned(at, now)|..]
    ensures LongBefore(at[..|at| - |Pruned(at, now)|], now)
    ensures Pruned(at, now) != [] ==> now - Pruned(at, now)[0] < WITHIN
  {
    if at != [] && now - at[0] >= WITHIN {
      PrunedIsTheLast(at[1..], now);
      var gone := |at| - |Pruned(at, now)|;
      assert at[..gone] == [at[0]] + at[1..][..gone - 1];
    }
  }

  /** What a pruned queue has lost is long before `now` too. */
  lemma PrunedHolds(s: State, loads: seq<int>, last: int, now: int)
    requires Holds(s, loads, last) && last <= now
    ensures Holds(State(Pruned(s.at, now), true), loads, now)
  {
    PrunedIsTheLast(s.at, now);
    var at := Pruned(s.at, now);
    hide Pruned;
    var gone, dropped := |loads| - |s.at|, |loads| - |at|;
    assert loads[dropped..] == loads[gone..][dropped - gone..];
    forall i | 0 <= i < dropped
      ensures now - loads[..dropped][i] >= WITHIN
    {
      if i < gone {
        assert loads[..gone][i] == loads[i];
      } else {
        assert s.at[..|s.at| - |at|][i - gone] == loads[gone..][i - gone] == loads[i];
      }
    }
  }

  lemma ApartWithOneMore(loads: seq<int>, load: int)
    requires Apart(loads) && forall i :: 0 <= i < |loads| ==> loads[i] + APART <= load
    ensures Apart(loads + [load])
  {
  }

  lemma LastWithOneMore(loads: seq<int>, at: seq<int>, load: int)
    requires |at| <= |loads| && at == loads[|loads| - |at|..]
    ensures var more, gone := loads + [load], |loads| - |at|;
            at + [load] == more[gone..] && more[..gone] == loads[..gone]
  {
    var more, gone := loads + [load], |loads| - |at|;
    assert more[gone..] == loads[gone..] + [load];
  }

  /** A load made keeps the queue the last of them. */
  lemma LoadHolds(loads: seq<int>, at: seq<int>, now: int)
    requires Holds(State(at, true), loads, now) && (at == [] ==> LongBefore(loads, now))
    ensures Holds(State(at + [NextLoad(at, now)], false), loads + [NextLoad(at, now)], now)
  {
    hide Apart, LongBefore, NextLoad;
    var load := NextLoad(at, now);
    if loads != [] {
      LoadIsApart(loads, at, now);
    }
    ApartWithOneMore(loads, load);
    LastWithOneMore(loads, at, load);
  }

  lemma StepHolds(s: State, loads: seq<int>, last: int, now: int)
    requires Holds(s, loads, last) && last <= now
    ensures Holds(OnFailure(s, now).1, loads + LoadsOf(OnFailure(s, now).0, now), now)
  {
    hide Holds, Pruned, NextLoad, LongBefore;
    PrunedHolds(s, loads, last, now);
    HoldsLater(s, loads, last, now);
    var at := Pruned(s.at, now);
    if at == [] {
      AllGone(loads, now);
    }
    LoadHolds(loads, at, now);
    assert loads + [] == loads;
  }

  lemma AllGone(loads: seq<int>, now: int)
    requires Holds(State([], true), loads, now)
    ensures LongBefore(loads, now)
  {
    assert loads[..|loads|] == loads;
  }

  lemma HoldsLater(s: State, loads: seq<int>, last: int, now: int)
    requires Holds(s, loads, last) && last <= now
    ensures Holds(s, loads, now)
  {
  }

  /** The load made next is the same by the queue as by all loads, and apart from all of them. */
  lemma LoadIsApart(loads: seq<int>, at: seq<int>, now: int)
    requires loads != [] && Apart(loads) && |at| <= |loads| && at == loads[|loads| - |at|..]
    requires LongBefore(loads[..|loads| - |at|], now)
    ensures NextLoad(at, now) == NextLoad(loads, now)
    ensures forall i :: 0 <= i < |loads| ==> loads[i] + APART <= NextLoad(at, now)
  {
    var last := |loads| - 1;
    if at == [] {
      assert loads[..|loads|][last] == loads[last];
    } else {
      assert at[|at| - 1] == loads[last];
    }
    assert loads[last] + APART <= NextLoad(loads, now) == NextLoad(at, now);
    hide NextLoad, LongBefore;
    forall i | 0 <= i < last ensures loads[i] + APART <= loads[last] {
    }
  }

  lemma {:induction false} AlwaysHolds(times: seq<int>, last: int)
    requires InTime(times) && (forall i :: 0 <= i < |times| ==> times[i] <= last)
    ensures Holds(StateAfter(times), Loads(times), last)
  {
    hide OnFailure, LoadsOf;
    if times != [] {
      var now := times[|times| - 1];
      var before := times[..|times| - 1];
      AlwaysHolds(before, now);
      StepHolds(StateAfter(before), Loads(before), now, now);
      hide Holds;
      HoldsLater(StateAfter(times), Loads(times), now, last);
    }
  }

  /** No two loads are closer than the least time between them. */
  lemma LoadsAreApart(times: seq<int>)
    requires InTime(times)
    ensures Apart(Loads(times))
  {
    if times != [] {
      AlwaysHolds(times, times[|times| - 1]);
    }
  }

  // ---------------------------------------------------------------------------------------
  // The queue decides as the whole history would
  // ---------------------------------------------------------------------------------------

  /** How many loads are within the while before `now`. */
  function CountWithin(loads: seq<int>, now: int): nat {
    if loads == [] then 0
    else CountWithin(loads[..|loads| - 1], now) + if now - loads[|loads| - 1] < WITHIN then 1 else 0
  }

  /** What a limiter that kept every load it made would do. */
  function FailedByHistory(loads: seq<int>, givenUp: bool, now: int): (Reload, bool) {
    if givenUp then (GaveUp, true)
    else if loads != [] && loads[|loads| - 1] > now then (Due, false)
    else if CountWithin(loads, now) >= AT_MOST then (GivenUp, true)
    else (Outcome(NextLoad(loads, now), now), false)
  }

  lemma {:induction false} CountIsOfTheLast(loads: seq<int>, gone: nat, now: int)
    requires gone <= |loads| && LongBefore(loads[..gone], now)
    requires forall i :: gone <= i < |loads| ==> now - loads[i] < WITHIN
    ensures CountWithin(loads, now) == |loads| - gone
  {
    if loads != [] {
      var front := loads[..|loads| - 1];
      if gone == |loads| {
        assert loads[..gone][gone - 1] == loads[gone - 1];
        assert front[..gone - 1] == loads[..gone][..gone - 1];
        CountIsOfTheLast(front, gone - 1, now);
      } else {
        assert front[..gone] == loads[..gone];
        CountIsOfTheLast(front, gone, now);
      }
    }
  }

  lemma LastAreWithin(loads: seq<int>, at: seq<int>, now: int)
    requires Apart(loads) && |at| <= |loads| && at == loads[|loads| - |at|..]
    requires at != [] ==> now - at[0] < WITHIN
    ensures forall i :: |loads| - |at| <= i < |loads| ==> now - loads[i] < WITHIN
  {
    var gone := |loads| - |at|;
    forall i | gone <= i < |loads| ensures now - loads[i] < WITHIN {
      assert loads[gone] == at[0] && loads[gone] <= loads[i];
    }
  }

  lemma CountIsPruned(s: State, loads: seq<int>, last: int, now: int)
    requires Holds(s, loads, last) && last <= now
    ensures CountWithin(loads, now) == |Pruned(s.at, now)|
    ensures Holds(State(Pruned(s.at, now), true), loads, now)
  {
    hide Pruned, CountWithin, Apart, LongBefore;
    PrunedHolds(s, loads, last, now);
    PrunedIsTheLast(s.at, now);
    var at := Pruned(s.at, now);
    LastAreWithin(loads, at, now);
    CountIsOfTheLast(loads, |loads| - |at|, now);
  }

  /** Dropping old loads changes no decision. */
  lemma QueueDecidesAsHistory(times: seq<int>, i: nat)
    requires InTime(times) && i < |times|
    ensures var s := StateAfter(times[..i]);
            (Said(times, i), StateAfter(times[..i + 1]).givenUp)
            == FailedByHistory(Loads(times[..i]), s.givenUp, times[i])
  {
    var now, before := times[i], times[..i];
    assert times[..i + 1][..i] == before;
    AlwaysHolds(before, now);
    StepDecidesAsHistory(StateAfter(before), Loads(before), now);
    hide OnFailure, FailedByHistory, Loads;
  }

  lemma StepDecidesAsHistory(s: State, loads: seq<int>, now: int)
    requires Holds(s, loads, now)
    ensures (OnFailure(s, now).0, OnFailure(s, now).1.givenUp) == FailedByHistory(loads, s.givenUp, now)
  {
    hide Pruned, CountWithin, NextLoad, Apart, LongBefore;
    if !s.givenUp {
      CountIsPruned(s, loads, now, now);
      if loads != [] {
        assert s.at[|s.at| - 1] == loads[|loads| - 1];
        LoadIsApart(loads, Pruned(s.at, now), now);
      } else {
        assert s.at == [];
      }
    }
    hide Holds;
  }

  // ---------------------------------------------------------------------------------------
  // What the limits mean
  // ---------------------------------------------------------------------------------------

  lemma {:induction false} CountOfApart(loads: seq<int>, now: int, k: nat)
    requires Apart(loads) && k <= |loads|
    ensures CountWithin(loads, now) > k <==> |loads| > k && now - loads[|loads| - 1 - k] < WITHIN
  {
    if loads != [] {
      var front := loads[..|loads| - 1];
      if k > 0 {
        CountOfApart(front, now, k - 1);
        if |loads| > k {
          assert loads[|loads| - 1 - k] < loads[|loads| - 1];
        }
      } else if now - loads[|loads| - 1] >= WITHIN && front != [] {
        CountOfApart(front, now, 0);
        assert loads[|loads| - 2] < loads[|loads| - 1];
      }
    }
  }

  /** Any six loads in a row take the whole while or longer. */
  lemma {:induction false} SixLoadsTakeTheWhile(times: seq<int>, i: nat)
    requires InTime(times) && i + AT_MOST < |Loads(times)|
    ensures Loads(times)[i + AT_MOST] - Loads(times)[i] >= WITHIN
  {
    hide OnFailure, StateAfter, CountWithin, Said, Apart;
    var n := |times| - 1;
    var before, now := times[..n], times[n];
    var loads := Loads(before);
    if i + AT_MOST < |loads| {
      SixLoadsTakeTheWhile(before, i);
    } else {
      QueueDecidesAsHistory(times, n);
      LoadsAreApart(before);
      CountOfApart(loads, now, AT_MOST - 1);
      assert loads == Loads(times)[..|loads|];
    }
  }

  lemma {:induction false} GivenUpStays(times: seq<int>, i: nat, j: nat)
    requires i <= j <= |times| && StateAfter(times[..i]).givenUp
    ensures StateAfter(times[..j]).givenUp
    decreases j
  {
    if i < j {
      GivenUpStays(times, i, j - 1);
      assert times[..j][..j - 1] == times[..j - 1];
    }
  }

  /** The page is given up on once, and at every failure after that was before. */
  lemma GivenUpIsSaidOnce(times: seq<int>, i: nat, j: nat)
    requires i < j < |times| && Said(times, i) == GivenUp
    ensures Said(times, j) == GaveUp
  {
    assert times[..i + 1][..i] == times[..i];
    GivenUpStays(times, i + 1, j);
  }

  /**
   The page is given up on exactly at a failure that comes, with no load due and none given up on before,
   less than the while after the last load but four.
   */
  lemma GivenUpExactlyWhen(times: seq<int>, i: nat)
    requires InTime(times) && i < |times|
    ensures var loads := Loads(times[..i]);
            Said(times, i) == GivenUp <==>
              && !StateAfter(times[..i]).givenUp
              && |loads| >= AT_MOST && loads[|loads| - 1] <= times[i]
              && times[i] - loads[|loads| - AT_MOST] < WITHIN
  {
    hide Said, StateAfter, Loads, CountWithin, Apart, OnFailure, NextLoad;
    var loads := Loads(times[..i]);
    QueueDecidesAsHistory(times, i);
    LoadsAreApart(times[..i]);
    if |loads| >= AT_MOST - 1 {
      CountOfApart(loads, times[i], AT_MOST - 1);
    } else {
      CountIsAtMost(loads, times[i]);
    }
  }

  /** One failure more adds the load it led to. */
  lemma LoadsGrow(times: seq<int>, i: nat)
    requires i < |times|
    ensures Loads(times[..i + 1]) == Loads(times[..i]) +
              match Said(times, i) case Now => [times[i]] case After(wait) => [times[i] + wait] case _ => []
  {
    hide StateAfter, OnFailure;
    var more := times[..i + 1];
    assert more[..i] == times[..i] && |more| - 1 == i;
    assert Said(more, i) == Said(times, i);
  }

  /** What the history decides, where it is known whether it gives up. */
  lemma DecidedBy(loads: seq<int>, now: int)
    ensures var decided := FailedByHistory(loads, false, now).0;
            var next := if loads == [] then now else loads[|loads| - 1] + 5_000_000_000;
            && (decided == Due <==> loads != [] && loads[|loads| - 1] > now)
            && (decided == Due || decided == GivenUp
                || decided == if next <= now then Now else After(next - now))
  {
    hide CountWithin;
  }

  /**
   What is done with each failure, by the loads made so far: nothing more where one is due, none again where
   the fifth last was within a minute, else a load at once or five seconds after the last, the later of the two.
   */
  lemma SaidExactly(times: seq<int>, i: nat)
    requires InTime(times) && i < |times| && !StateAfter(times[..i]).givenUp
    ensures var loads, now := Loads(times[..i]), times[i];
            var due := loads != [] && loads[|loads| - 1] > now;
            var crowded := |loads| >= 5 && now - loads[|loads| - 5] < 60_000_000_000;
            var next := if loads == [] then now else loads[|loads| - 1] + 5_000_000_000;
            Said(times, i) == if due then Due else if crowded then GivenUp
                              else if next <= now then Now else After(next - now)
  {
    GivenUpExactlyWhen(times, i);
    QueueDecidesAsHistory(times, i);
    DecidedBy(Loads(times[..i]), times[i]);
    hide *;
  }

  lemma {:induction false} CountIsAtMost(loads: seq<int>, now: int)
    ensures CountWithin(loads, now) <= |loads|
  {
    if loads != [] {
      CountIsAtMost(loads[..|loads| - 1], now);
    }
  }

  ghost predicate Spaced(times: seq<int>, gap: int) {
    forall i :: 0 <= i < |times| - 1 ==> times[i] + gap <= times[i + 1]
  }

  lemma {:induction false} SpacedBy(times: seq<int>, gap: int, i: nat, j: nat)
    requires Spaced(times, gap) && i <= j < |times|
    ensures times[j] - times[i] >= gap * (j - i)
  {
    if i < j {
      SpacedBy(times, gap, i, j - 1);
      assert gap * (j - i) == gap * (j - 1 - i) + gap;
    }
  }

  const SLOW := WITHIN / AT_MOST

  ghost predicate Even(times: seq<int>, gap: int) {
    forall i :: 0 <= i < |times| - 1 ==> times[i] + gap == times[i + 1]
  }

  lemma {:induction false} SpacedInOrder(times: seq<int>, gap: int, i: nat, j: nat)
    requires Spaced(times, gap) && gap >= 0 && i <= j < |times|
    ensures times[i] <= times[j]
  {
    if i < j {
      SpacedInOrder(times, gap, i, j - 1);
      assert times[j - 1] + gap <= times[j - 1 + 1];
    }
  }

  lemma SpacedIsInTime(times: seq<int>, gap: int)
    requires Spaced(times, gap) && gap >= 0
    ensures InTime(times)
  {
    hide Spaced;
    forall i, j | 0 <= i < j < |times| ensures times[i] <= times[j] {
      SpacedInOrder(times, gap, i, j);
    }
  }

  /** By the history, a failure is loaded at once where no load is near and not too many are recent. */
  lemma DecidedAtOnce(loads: seq<int>, now: int)
    requires loads != [] ==> loads[|loads| - 1] + APART <= now
    requires CountWithin(loads, now) < AT_MOST
    ensures FailedByHistory(loads, false, now) == (Now, false)
  {
    hide CountWithin;
  }

  lemma LastIsSpaced(before: seq<int>, now: int, gap: int)
    requires Spaced(before + [now], gap)
    ensures before != [] ==> before[|before| - 1] + gap <= now
  {
    var times := before + [now];
    assert before != [] ==> times[|before| - 1] + gap <= times[|before| - 1 + 1];
  }

  /** While every failure was loaded at once, one that no five loads crowd is too. */
  lemma LoadedAtOnce(before: seq<int>, now: int)
    requires Spaced(before + [now], APART) && !StateAfter(before).givenUp && Loads(before) == before
    requires |before| >= AT_MOST ==> now - before[|before| - AT_MOST] >= WITHIN
    ensures var times := before + [now];
            Loads(times) == times && Said(times, |before|) == Now && !StateAfter(times).givenUp
  {
    hide OnFailure, CountWithin, StateAfter, Said, InTime, Spaced, FailedByHistory;
    var times, n := before + [now], |before|;
    SpacedIsInTime(times, APART);
    LastIsSpaced(before, now, APART);
    assert times[..n] == before && times[..n + 1] == times && times[n] == now;
    FewerThan(before, times);
    DecidedAtOnce(before, now);
    QueueDecidesAsHistory(times, n);
  }

  lemma FewerThan(before: seq<int>, times: seq<int>)
    requires |times| == |before| + 1 && times[..|before|] == before
    requires InTime(times) && Loads(before) == before
    requires |before| >= AT_MOST ==> times[|before|] - before[|before| - AT_MOST] >= WITHIN
    ensures CountWithin(before, times[|before|]) < AT_MOST
  {
    hide CountWithin, Loads, Apart;
    assert InTime(before) by {
      assert forall i :: 0 <= i < |before| ==> before[i] == times[i];
    }
    LoadsAreApart(before);
    if |before| >= AT_MOST {
      CountOfApart(before, times[|before|], AT_MOST - 1);
    } else {
      CountIsAtMost(before, times[|before|]);
    }
  }

  lemma NoFailures()
    ensures Loads([]) == [] && StateAfter([]) == State([], false)
  {
  }

  lemma SpacedWider(times: seq<int>, gap: int, less: int)
    requires Spaced(times, gap) && less <= gap
    ensures Spaced(times, less)
  {
  }

  lemma SpacedBefore(times: seq<int>, gap: int, n: nat)
    requires Spaced(times, gap) && n <= |times|
    ensures Spaced(times[..n], gap)
  {
  }

  lemma FiveSlow(times: seq<int>, i: nat)
    requires Spaced(times, SLOW) && i + 5 < |times|
    ensures times[i + 5] - times[i] >= WITHIN
  {
    hide Spaced;
    SpacedBy(times, SLOW, i, i + 5);
  }

  lemma SlowIsSpaced(times: seq<int>)
    requires Spaced(times, SLOW) && times != []
    ensures var n := |times| - 1;
            && Spaced(times[..n], SLOW) && Spaced(times, APART)
            && (n >= AT_MOST ==> times[n] - times[n - AT_MOST] >= WITHIN)
  {
    hide Spaced;
    var n := |times| - 1;
    SpacedWider(times, SLOW, APART);
    SpacedBefore(times, SLOW, n);
    if n >= AT_MOST {
      FiveSlow(times, n - AT_MOST);
    }
  }

  /** Failures far enough apart are each loaded again at once: the page is never given up on. */
  lemma {:induction false} SlowFailuresAreLoadedAtOnce(times: seq<int>)
    requires Spaced(times, SLOW)
    ensures Loads(times) == times && !StateAfter(times).givenUp
    ensures forall i :: 0 <= i < |times| ==> Said(times, i) == Now
  {
    hide OnFailure, LoadsOf, StateAfter, Loads, Spaced;
    NoFailures();
    if times != [] {
      var n := |times| - 1;
      var before := times[..n];
      SlowIsSpaced(times);
      SlowFailuresAreLoadedAtOnce(before);
      assert times == before + [times[n]];
      LoadedAtOnce(before, times[n]);
      forall i | 0 <= i < n ensures Said(times, i) == Now {
        assert Said(before, i) == Now;
        assert before[..i] == times[..i];
      }
    }
  }

  lemma {:induction false} FewAreLoadedAtOnce(times: seq<int>)
    requires Spaced(times, APART) && |times| <= AT_MOST
    ensures Loads(times) == times && !StateAfter(times).givenUp
  {
    hide OnFailure, LoadsOf, StateAfter, Loads;
    NoFailures();
    if times != [] {
      FewAreLoadedAtOnce(times[..|times| - 1]);
      LoadedAtOnce(times[..|times| - 1], times[|times| - 1]);
      assert times == times[..|times| - 1] + [times[|times| - 1]];
    }
  }

  /** No failures closer together do: six of them, evenly spaced, are given up on at the sixth. */
  lemma FasterFailuresAreGivenUpOn(times: seq<int>, gap: int)
    requires Even(times, gap) && APART <= gap < SLOW && |times| == AT_MOST + 1
    ensures Said(times, AT_MOST) == GivenUp
  {
    SpacedIsInTime(times, APART);
    FewAreLoadedAtOnce(times[..AT_MOST]);
    GivenUpExactlyWhen(times, AT_MOST);
    assert times[0] + gap == times[1] && times[1] + gap == times[2] && times[2] + gap == times[3];
    assert times[3] + gap == times[4] && times[4] + gap == times[5];
  }
}
