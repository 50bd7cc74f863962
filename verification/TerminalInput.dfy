/**
 What is typed into a terminal: cut in chunks, numbered and chained by the page
 (app/ui/terminal-link.js), admitted by number at the host (crates/cf-panes/src/input_queue.rs).
 One pane is followed from the start of a page (begin_page) on, through any mix of keystrokes,
 pastes, emulator replies, refusals and retirements.
 */
module TerminalInput {
  import opened Prelude

  const INPUT_CHUNK_BYTES: nat := 32 * 1024
  const MAX_INPUT_BYTES: nat := 64 * 1024

  // ---------------------------------------------------------------------------------------
  // Chunks
  // ---------------------------------------------------------------------------------------

  function Chunks(bytes: seq<Byte>): seq<seq<Byte>>
    decreases |bytes|
  {
    if bytes == [] then []
    else
      var size := Min(INPUT_CHUNK_BYTES, |bytes|);
      [bytes[..size]] + Chunks(bytes[size..])
  }

  /**
   Chunks put together are what was cut, none is empty or too big for the host to take, and each but the
   last is full.
   */
  lemma {:induction false} ChunksAreWhole(bytes: seq<Byte>)
    ensures Flat(Chunks(bytes)) == bytes
    ensures forall c :: c in Chunks(bytes) ==> 0 < |c| <= INPUT_CHUNK_BYTES < MAX_INPUT_BYTES
    ensures |bytes| <= INPUT_CHUNK_BYTES ==> |Chunks(bytes)| <= 1
    ensures forall i :: 0 <= i < |Chunks(bytes)| - 1 ==> |Chunks(bytes)[i]| == 32 * 1024
    decreases |bytes|
  {
    if bytes != [] {
      var size := Min(INPUT_CHUNK_BYTES, |bytes|);
      ChunksAreWhole(bytes[size..]);
      assert Chunks(bytes)[1..] == Chunks(bytes[size..]);
      assert bytes == bytes[..size] + bytes[size..];
    }
  }

  /** The first chunks of a call are the first of its bytes. */
  lemma ChunkPrefix(bytes: seq<Byte>, k: nat)
    requires k <= |Chunks(bytes)|
    ensures Flat(Chunks(bytes)[..k]) <= bytes
  {
    ChunksAreWhole(bytes);
    assert Chunks(bytes) == Chunks(bytes)[..k] + Chunks(bytes)[k..];
    FlatAppend(Chunks(bytes)[..k], Chunks(bytes)[k..]);
  }

  // ---------------------------------------------------------------------------------------
  // The two sides' own state
  // ---------------------------------------------------------------------------------------

  datatype Admission = Admitted | Refused | Gap | Regression

  /** The host's answer to a chunk: its number first, which is used up even by a chunk refused. */
  function Verdict(last: nat, number: nat, size: nat, takes: bool): Admission {
    if number < last + 1 then Regression
    else if number > last + 1 then Gap
    else if size > MAX_INPUT_BYTES || !takes then Refused
    else Admitted
  }

  /** The host's count of each pane's input. */
  class InputQueue<Key(==)> {
    var lastSequences: map<Key, nat>

    function Last(key: Key): nat
      reads this
    {
      if key in lastSequences then lastSequences[key] else 0
    }

    constructor ()
      ensures lastSequences == map[]
    {
      lastSequences := map[];
    }

    /** `takes`: whether there is a ticket to give, and the pane's queue takes the chunk. */
    method EnqueuePage(key: Key, sequence: nat, size: nat, takes: bool) returns (answer: Admission)
      modifies this
      ensures answer == Verdict(old(Last(key)), sequence, size, takes)
      ensures lastSequences ==
              if answer.Admitted? || answer.Refused? then old(lastSequences)[key := sequence]
              else old(lastSequences)
      ensures answer.Regression? <==> sequence <= old(Last(key))
      ensures answer.Gap? <==> sequence > old(Last(key)) + 1
      ensures answer.Admitted? <==> sequence == old(Last(key)) + 1 && size <= 64 * 1024 && takes
    {
      var expected := Last(key) + 1;
      if sequence < expected {
        return Regression;
      }
      if sequence > expected {
        return Gap;
      }
      lastSequences := lastSequences[key := sequence];
      if size > MAX_INPUT_BYTES {
        return Refused;
      }
      answer := if takes then Admitted else Refused;
    }

    method BeginPage()
      modifies this
      ensures lastSequences == map[]
    {
      lastSequences := map[];
    }

    method Retire(key: Key)
      modifies this
      ensures lastSequences == old(lastSequences) - {key}
    {
      lastSequences := lastSequences - {key};
    }
  }

  /** The page's input maps: by pane the stream later input waits behind, and the last number used. */
  class InputStreams<Key(==)> {
    var inputs: map<Key, nat>
    var sequences: map<Key, nat>
    var retired: set<Key>

    constructor ()
      ensures inputs == map[] && sequences == map[] && retired == {}
    {
      inputs, sequences, retired := map[], map[], {};
    }

    /** The start of `#stream` for call `call` of `size` bytes: sent at once, or chained. */
    method Stream(key: Key, call: nat, size: nat) returns (direct: bool)
      modifies this`inputs
      ensures direct <==> GoesAtOnce(if key in old(inputs) then Some(old(inputs)[key]) else None, size)
      ensures direct <==> key !in old(inputs) && size <= 32 * 1024
      ensures inputs == if direct then old(inputs) else old(inputs)[key := call]
    {
      if key !in inputs && size <= INPUT_CHUNK_BYTES {
        return true;
      }
      inputs := inputs[key := call];
      direct := false;
    }

    /** Its end: the stream is let go of, unless later input has chained another behind it. */
    method Settled(key: Key, call: nat)
      modifies this`inputs
      ensures inputs == if key in old(inputs) && old(inputs)[key] == call
                        then old(inputs) - {key} else old(inputs)
    {
      if key in inputs && inputs[key] == call {
        inputs := inputs - {key};
      }
    }

    method NextSequence(key: Key) returns (sequence: nat)
      modifies this`sequences
      ensures sequence == (if key in old(sequences) then old(sequences)[key] else 0) + 1
      ensures sequences == old(sequences)[key := sequence]
    {
      sequence := (if key in sequences then sequences[key] else 0) + 1;
      sequences := sequences[key := sequence];
    }

    method Retire(key: Key)
      modifies this
      ensures retired == old(retired) + {key}
      ensures inputs == old(inputs) - {key} && sequences == old(sequences) - {key}
    {
      retired := retired + {key};
      inputs := inputs - {key};
      sequences := sequences - {key};
    }
  }

  predicate GoesAtOnce(previous: Option<nat>, size: nat) {
    previous.None? && size <= INPUT_CHUNK_BYTES
  }

  // ---------------------------------------------------------------------------------------
  // One pane, from the start of a page
  // ---------------------------------------------------------------------------------------

  /**
   Where a call is: its next chunk may go, one is on its way to the host, the host has answered it,
   or the call is over.
   */
  datatype Stage = Ready | Out | Answered(admitted: bool) | Over

  /**
   A call of `input` or `reply`: how many of its chunks were sent and how many of those admitted,
   and whether it was cut short, by a refusal or because the pane is gone.
   */
  datatype Call = Call(data: seq<Byte>, chunks: seq<seq<Byte>>, posted: nat, admitted: nat, stage: Stage, cut: bool)

  /** A chunk on its way to the host, by its call; the chunk is the last its call sent. */
  datatype Post = Post(number: nat, call: nat)

  /**
   `used` is how many numbers the page has used. `chain` is the calls chained and not over, in order:
   the first runs, the others wait behind it. `inputs` is the last call chained, until it is let go
   of. At the host, `last` is the pane's count, `gone` whether the pane has left it, and `taken` the
   bytes admitted.
   */
  datatype System = System(
    calls: seq<Call>,
    chain: seq<nat>,
    inputs: Option<nat>,
    sequence: nat,
    retired: bool,
    used: nat,
    posts: seq<Post>,
    last: nat,
    gone: bool,
    taken: seq<Byte>)

  function Made(data: seq<Byte>): Call {
    Call(data, Chunks(data), 0, 0, Ready, false)
  }

  function Begin(): System {
    System([], [], None, 0, false, 0, [], 0, false, [])
  }

  datatype Action =
    | Enter(data: seq<Byte>)
    | Advance(call: nat)
    | Arrive(takes: bool)
    | Settle(call: nat, waited: bool)
    | LetGo
    | Retire
    | Leave

  predicate Enabled(s: System, a: Action) {
    match a
    case Enter(_) => true
    case Advance(i) => s.chain != [] && i == s.chain[0] && i < |s.calls| && s.calls[i].stage.Ready?
    case Arrive(_) => s.posts != [] && s.posts[0].call < |s.calls|
    case Settle(i, _) => i < |s.calls| && s.calls[i].stage.Answered?
    case LetGo => s.inputs.Some? && s.inputs.value < |s.calls| && s.calls[s.inputs.value].stage.Over?
    case Retire => !s.retired
    case Leave => !s.gone
  }

  /** A call's next chunk sent, under the next number. */
  function Sent(s: System, i: nat): System
    requires i < |s.calls|
  {
    s.(calls := s.calls[i := s.calls[i].(posted := s.calls[i].posted + 1, stage := Out)],
       sequence := s.sequence + 1, used := s.used + 1,
       posts := s.posts + [Post(s.sequence + 1, i)])
  }

  /** A call over: what is chained behind it may run. */
  function Done(s: System, i: nat, cut: bool): System
    requires i < |s.calls|
  {
    s.(calls := s.calls[i := s.calls[i].(stage := Over, cut := cut)],
       chain := if s.chain != [] && s.chain[0] == i then s.chain[1..] else s.chain)
  }

  /** One turn of a call's loop over its chunks. */
  function Turn(s: System, i: nat): System
    requires i < |s.calls|
  {
    if s.calls[i].posted >= |s.calls[i].chunks| then Done(s, i, false)
    else if s.retired then Done(s, i, true)
    else Sent(s, i)
  }

  function Entered(s: System, data: seq<Byte>): System {
    var i := |s.calls|;
    var t := s.(calls := s.calls + [Made(data)]);
    if GoesAtOnce(s.inputs, |data|) then Turn(t, i)
    else t.(inputs := Some(i), chain := s.chain + [i])
  }

  function Arrived(s: System, takes: bool): System
    requires s.posts != [] && s.posts[0].call < |s.calls|
  {
    var p := s.posts[0];
    var call := s.calls[p.call];
    var chunk := LastSent(call);
    var verdict := Verdict(s.last, p.number, |chunk|, takes && !s.gone);
    var admitted := if verdict.Admitted? then 1 else 0;
    s.(posts := s.posts[1..],
       last := if verdict.Admitted? || verdict.Refused? then p.number else s.last,
       calls := s.calls[p.call := call.(admitted := call.admitted + admitted,
                                        stage := Answered(verdict.Admitted?))],
       taken := if verdict.Admitted? then s.taken + chunk else s.taken)
  }

  function LastSent(call: Call): seq<Byte> {
    if 1 <= call.posted <= |call.chunks| then call.chunks[call.posted - 1] else []
  }

  /** The page has the host's answer, and where it admitted the chunk, what came of the wait for it. */
  function AfterAnswer(s: System, i: nat, waited: bool): System
    requires i < |s.calls| && s.calls[i].stage.Answered?
  {
    if s.calls[i].stage.admitted && waited
    then Turn(s.(calls := s.calls[i := s.calls[i].(stage := Ready)]), i)
    else Done(s, i, true)
  }

  function Apply(s: System, a: Action): System
    requires Enabled(s, a)
  {
    match a
    case Enter(data) => Entered(s, data)
    case Advance(i) => Turn(s, i)
    case Arrive(takes) => Arrived(s, takes)
    case Settle(i, waited) => AfterAnswer(s, i, waited)
    case LetGo => s.(inputs := None)
    case Retire => s.(retired := true, inputs := None, sequence := 0)
    case Leave => s.(gone := true, last := 0)
  }

  ghost predicate Next(s: System, t: System) {
    exists a :: Enabled(s, a) && t == Apply(s, a)
  }

  ghost predicate Run(run: seq<System>) {
    && |run| > 0
    && run[0] == Begin()
    && forall i :: 0 <= i < |run| - 1 ==> Next(run[i], run[i + 1])
  }

  // ---------------------------------------------------------------------------------------
  // What every step keeps
  // ---------------------------------------------------------------------------------------

  ghost predicate CallInv(c: Call) {
    && c.chunks == Chunks(c.data)
    && c.posted <= |c.chunks|
    && match c.stage
       case Ready => c.admitted == c.posted && !c.cut
       case Out => c.admitted + 1 == c.posted && !c.cut
       case Answered(admitted) => c.admitted == (if admitted then c.posted else c.posted - 1) && !c.cut
       case Over => (c.cut ==> c.admitted <= c.posted <= c.admitted + 1)
                    && (!c.cut ==> c.admitted == c.posted == |c.chunks|)
  }

  ghost predicate CallsInv(calls: seq<Call>) {
    forall i :: 0 <= i < |calls| ==> CallInv(calls[i])
  }

  /** The calls whose chunk is on its way, in order, under numbers one after the other. */
  ghost predicate PostInv(calls: seq<Call>, posts: seq<Post>, used: nat) {
    && |posts| <= used
    && (forall k :: 0 <= k < |posts| ==> posts[k].call < |calls| && calls[posts[k].call].stage.Out?)
    && (forall k :: 0 <= k < |posts| ==> posts[k].number == used - |posts| + k + 1)
    && (forall j, k :: 0 <= j < k < |posts| ==> posts[j].call < posts[k].call)
    && (forall i :: 0 <= i < |calls| && calls[i].stage.Out? ==> exists k :: 0 <= k < |posts| && posts[k].call == i)
  }

  /** While a call's chunk is on its way, no later call has had more than a first chunk on its way. */
  ghost predicate BehindInv(calls: seq<Call>) {
    forall i, j :: 0 <= i < j < |calls| && calls[i].stage.Out? && calls[j].posted > 0 ==>
      calls[j].stage.Out? && calls[j].posted == 1
  }

  /**
   The chained calls are the last calls made, and of those the ones that wait have sent nothing;
   every call before them has sent all it will, but for `but`, whose turn it is.
   */
  ghost predicate ChainInv(s: System, but: nat) {
    && |s.chain| <= |s.calls|
    && (forall k :: 0 <= k < |s.chain| ==> s.chain[k] == |s.calls| - |s.chain| + k)
    && (forall i :: |s.calls| - |s.chain| <= i < |s.calls| ==> !s.calls[i].stage.Over?)
    && (forall i :: |s.calls| - |s.chain| < i < |s.calls| ==>
          s.calls[i].posted == 0 && s.calls[i].stage.Ready?)
    && (forall i :: 0 <= i < |s.calls| - |s.chain| && i != but ==>
          s.calls[i].stage.Over?
          || (s.calls[i].posted == |s.calls[i].chunks| && !s.calls[i].stage.Ready?))
    && (s.inputs.None? ==> s.chain == [])
    && (s.inputs.Some? ==> s.inputs.value < |s.calls|)
    && (s.chain != [] ==> s.inputs == Some(|s.calls| - 1))
  }

  /** What the host has admitted of `calls`: of each in turn, its first chunks. */
  function AdmittedOf(calls: seq<Call>): seq<Byte> {
    if calls == [] then []
    else
      var last := calls[|calls| - 1];
      AdmittedOf(calls[..|calls| - 1]) + Flat(last.chunks[..Min(last.admitted, |last.chunks|)])
  }

  ghost predicate InvBut(s: System, but: nat) {
    && CallsInv(s.calls)
    && PostInv(s.calls, s.posts, s.used)
    && BehindInv(s.calls)
    && (!s.retired ==> ChainInv(s, but) && s.sequence == s.used)
    && (!s.gone ==> s.last == s.used - |s.posts|)
    && s.taken == AdmittedOf(s.calls)
  }

  ghost predicate Inv(s: System) {
    InvBut(s, |s.calls|)
  }

  lemma {:induction false} AdmittedSame(a: seq<Call>, b: seq<Call>)
    requires |a| == |b|
    requires forall i :: 0 <= i < |a| ==> a[i].chunks == b[i].chunks && a[i].admitted == b[i].admitted
    ensures AdmittedOf(a) == AdmittedOf(b)
  {
    if a != [] {
      AdmittedSame(a[..|a| - 1], b[..|b| - 1]);
    }
  }

  lemma {:induction false} AdmittedNothingAfter(calls: seq<Call>, n: nat)
    requires n <= |calls| && forall i :: n <= i < |calls| ==> calls[i].admitted == 0
    ensures AdmittedOf(calls) == AdmittedOf(calls[..n])
  {
    if n < |calls| {
      var shorter := calls[..|calls| - 1];
      AdmittedNothingAfter(shorter, n);
      assert shorter[..n] == calls[..n];
      assert AdmittedOf(calls) == AdmittedOf(shorter) + [];
    } else {
      assert calls[..n] == calls;
    }
  }

  /** Whether call `i` may take its turn: nothing after it has sent anything, or it is past sending. */
  ghost predicate MayTurn(s: System, i: nat) {
    && i < |s.calls| && s.calls[i].stage.Ready?
    && (|| s.calls[i].posted >= |s.calls[i].chunks|
        || s.retired
        || (s.chain != [] && s.chain[0] == i)
        || (s.chain == [] && i == |s.calls| - 1))
  }

  lemma ReplacedKeepsCalls(calls: seq<Call>, i: nat, call: Call)
    requires CallsInv(calls) && i < |calls| && CallInv(call)
    ensures CallsInv(calls[i := call])
  {
  }

  lemma ReplacedKeepsAdmitted(calls: seq<Call>, i: nat, call: Call)
    requires i < |calls| && call.chunks == calls[i].chunks && call.admitted == calls[i].admitted
    ensures AdmittedOf(calls[i := call]) == AdmittedOf(calls)
  {
    AdmittedSame(calls, calls[i := call]);
  }

  lemma ReplacedKeepsPosts(calls: seq<Call>, i: nat, call: Call, posts: seq<Post>, used: nat)
    requires PostInv(calls, posts, used) && i < |calls| && !calls[i].stage.Out? && !call.stage.Out?
    ensures PostInv(calls[i := call], posts, used)
  {
    PostsUnchanged(calls, calls[i := call], posts, used);
  }

  lemma DoneKeepsChain(s: System, i: nat, cut: bool)
    requires ChainInv(s, i) && i < |s.calls|
    requires s.calls[i].stage.Ready? || s.calls[i].stage.Answered?
    requires i >= |s.calls| - |s.chain| ==> i == |s.calls| - |s.chain|
    ensures ChainInv(Done(s, i, cut), |s.calls|)
  {
  }

  lemma ReplacedKeepsBehind(calls: seq<Call>, i: nat, call: Call)
    requires BehindInv(calls) && i < |calls| && !call.stage.Out?
    requires !calls[i].stage.Out? && call.posted == calls[i].posted
    ensures BehindInv(calls[i := call])
  {
  }

  lemma WaitingCallsAreReady(s: System, i: nat)
    requires ChainInv(s, i) && i < |s.calls| && s.calls[i].stage.Answered? && CallInv(s.calls[i])
    ensures i >= |s.calls| - |s.chain| ==> i == |s.calls| - |s.chain| && s.chain[0] == i
  {
  }

  lemma DoneKeepsInv(s: System, i: nat, cut: bool)
    requires InvBut(s, i) && i < |s.calls|
    requires s.calls[i].stage.Ready? || s.calls[i].stage.Answered?
    requires !s.retired ==> (i >= |s.calls| - |s.chain| ==> i == |s.calls| - |s.chain|)
    requires !cut ==> s.calls[i].admitted == s.calls[i].posted == |s.calls[i].chunks|
    ensures Inv(Done(s, i, cut))
  {
    var t := Done(s, i, cut);
    var call := s.calls[i].(stage := Over, cut := cut);
    assert CallInv(s.calls[i]) && CallInv(call);
    ReplacedKeepsCalls(s.calls, i, call);
    ReplacedKeepsAdmitted(s.calls, i, call);
    ReplacedKeepsPosts(s.calls, i, call, s.posts, s.used);
    ReplacedKeepsBehind(s.calls, i, call);
    if !s.retired {
      DoneKeepsChain(s, i, cut);
    }
  }

  /** What is on its way is the same where the same calls wait for it. */
  lemma PostsUnchanged(a: seq<Call>, b: seq<Call>, posts: seq<Post>, used: nat)
    requires PostInv(a, posts, used) && |a| <= |b|
    requires forall i :: 0 <= i < |a| ==> (a[i].stage.Out? <==> b[i].stage.Out?)
    requires forall i :: |a| <= i < |b| ==> !b[i].stage.Out?
    ensures PostInv(b, posts, used)
  {
  }

  lemma SentKeepsInv(s: System, i: nat)
    requires InvBut(s, i) && MayTurn(s, i) && !s.retired
    requires s.calls[i].posted < |s.calls[i].chunks|
    requires s.chain == [] ==> |s.calls[i].chunks| <= 1
    ensures Inv(Sent(s, i))
  {
    LaterSentNothing(s, i);
    SentKeepsCalls(s, i);
    SentKeepsOrder(s, i);
    SentKeepsChain(s, i);
  }

  lemma SentIsACall(call: Call)
    requires CallInv(call) && call.stage.Ready? && call.posted < |call.chunks|
    ensures CallInv(call.(posted := call.posted + 1, stage := Out))
  {
    hide Chunks;
  }

  lemma SentKeepsCalls(s: System, i: nat)
    requires CallsInv(s.calls) && i < |s.calls| && s.calls[i].stage.Ready?
    requires s.calls[i].posted < |s.calls[i].chunks|
    ensures CallsInv(Sent(s, i).calls) && AdmittedOf(Sent(s, i).calls) == AdmittedOf(s.calls)
  {
    hide CallInv, AdmittedOf, Chunks, Flat;
    var call := s.calls[i].(posted := s.calls[i].posted + 1, stage := Out);
    SentIsACall(s.calls[i]);
    ReplacedKeepsCalls(s.calls, i, call);
    ReplacedKeepsAdmitted(s.calls, i, call);
  }

  lemma SentKeepsOrder(s: System, i: nat)
    requires PostInv(s.calls, s.posts, s.used) && BehindInv(s.calls) && s.sequence == s.used
    requires i < |s.calls| && s.calls[i].stage.Ready?
    requires forall j :: i < j < |s.calls| ==> s.calls[j].posted == 0 && s.calls[j].stage.Ready?
    ensures PostInv(Sent(s, i).calls, Sent(s, i).posts, Sent(s, i).used)
    ensures BehindInv(Sent(s, i).calls)
  {
    hide PostInv, BehindInv;
    var call := s.calls[i].(posted := s.calls[i].posted + 1, stage := Out);
    SentKeepsPosts(s.calls, s.posts, s.used, i, call);
    SentKeepsBehind(s.calls, i, call);
  }

  lemma LaterSentNothing(s: System, i: nat)
    requires ChainInv(s, i) && MayTurn(s, i) && !s.retired
    requires s.calls[i].posted < |s.calls[i].chunks|
    ensures forall j :: i < j < |s.calls| ==> s.calls[j].posted == 0 && s.calls[j].stage.Ready?
  {
  }

  lemma SentKeepsChain(s: System, i: nat)
    requires ChainInv(s, i) && MayTurn(s, i) && !s.retired
    requires s.calls[i].posted < |s.calls[i].chunks|
    requires s.chain == [] ==> |s.calls[i].chunks| <= 1
    ensures ChainInv(Sent(s, i), |s.calls|)
  {
  }

  lemma SentKeepsPosts(calls: seq<Call>, posts: seq<Post>, used: nat, i: nat, call: Call)
    requires PostInv(calls, posts, used) && i < |calls| && call.stage.Out?
    requires forall j :: i <= j < |calls| ==> !calls[j].stage.Out?
    ensures PostInv(calls[i := call], posts + [Post(used + 1, i)], used + 1)
  {
    var after, more := calls[i := call], posts + [Post(used + 1, i)];
    forall k | 0 <= k < |posts|
      ensures more[k] == posts[k] && more[k].call < i && after[more[k].call] == calls[posts[k].call]
    {
    }
    forall j | 0 <= j < |after| && after[j].stage.Out?
      ensures exists k :: 0 <= k < |more| && more[k].call == j
    {
      if j == i {
        assert more[|posts|].call == i;
      } else {
        var k :| 0 <= k < |posts| && posts[k].call == j;
        assert more[k].call == j;
      }
    }
  }

  lemma SentKeepsBehind(calls: seq<Call>, i: nat, call: Call)
    requires BehindInv(calls) && i < |calls| && calls[i].stage.Ready?
    requires forall j :: i < j < |calls| ==> calls[j].posted == 0
    requires call.stage.Out? && call.posted == calls[i].posted + 1
    ensures BehindInv(calls[i := call])
  {
  }

  lemma TurnKeepsInv(s: System, i: nat)
    requires InvBut(s, i) && MayTurn(s, i)
    requires s.chain == [] ==>
               (|s.calls[i].chunks| <= 1 || s.retired
                || s.calls[i].posted >= |s.calls[i].chunks|)
    requires !s.retired ==> (i >= |s.calls| - |s.chain| ==> i == |s.calls| - |s.chain|)
    ensures Inv(Turn(s, i))
  {
    assert CallInv(s.calls[i]);
    if s.calls[i].posted >= |s.calls[i].chunks| {
      DoneKeepsInv(s, i, false);
    } else if s.retired {
      DoneKeepsInv(s, i, true);
    } else {
      SentKeepsInv(s, i);
    }
  }

  /** A call made, before its turn. */
  lemma MadeKeepsInv(s: System, data: seq<Byte>)
    requires Inv(s)
    ensures var t := s.(calls := s.calls + [Made(data)]);
            && CallsInv(t.calls) && PostInv(t.calls, t.posts, t.used) && BehindInv(t.calls)
            && t.taken == AdmittedOf(t.calls)
  {
    var i := |s.calls|;
    var t := s.(calls := s.calls + [Made(data)]);
    AdmittedNothingAfter(t.calls, i);
    assert t.calls[..i] == s.calls;
    PostsUnchanged(s.calls, t.calls, s.posts, s.used);
  }

  lemma MadeKeepsChain(s: System, data: seq<Byte>)
    requires ChainInv(s, |s.calls|)
    ensures var i := |s.calls|;
            var t := s.(calls := s.calls + [Made(data)]);
            && (GoesAtOnce(s.inputs, |data|) ==> ChainInv(t, i))
            && (!GoesAtOnce(s.inputs, |data|) ==>
                  ChainInv(t.(inputs := Some(i), chain := s.chain + [i]), i + 1))
  {
  }

  lemma EnteredKeepsInv(s: System, data: seq<Byte>)
    requires Inv(s)
    ensures Inv(Entered(s, data))
  {
    var i := |s.calls|;
    var t := s.(calls := s.calls + [Made(data)]);
    MadeKeepsInv(s, data);
    if !s.retired {
      MadeKeepsChain(s, data);
    }
    if GoesAtOnce(s.inputs, |data|) {
      ChunksAreWhole(data);
      TurnKeepsInv(t, i);
    }
  }

  lemma SettledKeepsInv(s: System, i: nat, waited: bool)
    requires Inv(s) && i < |s.calls| && s.calls[i].stage.Answered?
    ensures Inv(AfterAnswer(s, i, waited))
  {
    assert CallInv(s.calls[i]);
    if !s.retired {
      WaitingCallsAreReady(s, i);
    }
    if s.calls[i].stage.admitted && waited {
      var call := s.calls[i].(stage := Ready);
      var t := s.(calls := s.calls[i := call]);
      assert CallInv(call);
      ReplacedKeepsCalls(s.calls, i, call);
      ReplacedKeepsAdmitted(s.calls, i, call);
      ReplacedKeepsPosts(s.calls, i, call, s.posts, s.used);
      ReplacedKeepsBehind(s.calls, i, call);
      if !s.retired {
        AgainKeepsChain(s, i);
      }
      TurnKeepsInv(t, i);
    } else {
      DoneKeepsInv(s, i, true);
    }
  }

  lemma AgainKeepsChain(s: System, i: nat)
    requires ChainInv(s, |s.calls|) && i < |s.calls| && s.calls[i].stage.Answered?
    ensures ChainInv(s.(calls := s.calls[i := s.calls[i].(stage := Ready)]), i)
    ensures i < |s.calls| - |s.chain| ==> s.calls[i].posted == |s.calls[i].chunks|
  {
  }

  /** The chunk that arrives is the next number, and no later call has had any admitted. */
  lemma FirstPostIsNext(s: System)
    requires Inv(s) && s.posts != []
    ensures var p := s.posts[0];
            && (!s.gone ==> p.number == s.last + 1)
            && forall j :: p.call < j < |s.calls| ==> s.calls[j].admitted == 0
  {
    var p := s.posts[0];
    assert s.calls[p.call].stage.Out?;
    forall j | p.call < j < |s.calls|
      ensures s.calls[j].admitted == 0
    {
      assert CallInv(s.calls[j]);
    }
  }

  lemma ArrivedKeepsPosts(s: System, takes: bool)
    requires Inv(s) && s.posts != []
    ensures PostInv(Arrived(s, takes).calls, Arrived(s, takes).posts, s.used)
  {
    hide CallsInv, BehindInv, ChainInv, AdmittedOf, Verdict;
    var t := Arrived(s, takes);
    forall k | 0 <= k < |t.posts|
      ensures t.posts[k] == s.posts[k + 1] && t.posts[k].call != s.posts[0].call
    {
    }
    forall j | 0 <= j < |t.calls| && t.calls[j].stage.Out?
      ensures exists k :: 0 <= k < |t.posts| && t.posts[k].call == j
    {
      var k :| 0 <= k < |s.posts| && s.posts[k].call == j;
      assert t.posts[k - 1].call == j;
    }
  }

  /** What is admitted of all the calls, where one call's is changed and those after it have none. */
  lemma AdmittedUpTo(calls: seq<Call>, i: nat)
    requires i < |calls| && forall j :: i < j < |calls| ==> calls[j].admitted == 0
    ensures AdmittedOf(calls) == AdmittedOf(calls[..i])
            + Flat(calls[i].chunks[..Min(calls[i].admitted, |calls[i].chunks|)])
  {
    AdmittedNothingAfter(calls, i + 1);
    assert calls[..i + 1][..i] == calls[..i];
  }

  lemma OneMoreChunk(call: Call)
    requires CallInv(call) && call.stage.Out?
    ensures var chunks := call.chunks;
            call.admitted < |chunks| &&
            Flat(chunks[..call.admitted + 1]) == Flat(chunks[..call.admitted]) + LastSent(call)
  {
    var chunks := call.chunks;
    assert chunks[..call.admitted + 1] == chunks[..call.admitted] + [LastSent(call)];
    FlatAppend(chunks[..call.admitted], [LastSent(call)]);
    assert Flat([LastSent(call)]) == LastSent(call) + Flat([]);
  }

  lemma ArrivedKeepsTaken(s: System, takes: bool)
    requires Inv(s) && s.posts != []
    ensures Arrived(s, takes).taken == AdmittedOf(Arrived(s, takes).calls)
  {
    FirstPostIsNext(s);
    var i := s.posts[0].call;
    assert CallInv(s.calls[i]);
    OneMoreAdmitted(s.calls, i, Arrived(s, takes).calls[i]);
  }

  /** One call admitted one more of its chunks, or none: what all have had admitted is that longer. */
  lemma OneMoreAdmitted(calls: seq<Call>, i: nat, call: Call)
    requires i < |calls| && forall j :: i < j < |calls| ==> calls[j].admitted == 0
    requires CallInv(calls[i]) && calls[i].stage.Out? && call.chunks == calls[i].chunks
    requires call.admitted == calls[i].admitted || call.admitted == calls[i].admitted + 1
    ensures AdmittedOf(calls[i := call]) ==
            AdmittedOf(calls) + (if call.admitted == calls[i].admitted then [] else LastSent(calls[i]))
  {
    AdmittedUpTo(calls, i);
    AdmittedUpTo(calls[i := call], i);
    assert calls[..i] == calls[i := call][..i];
    OneMoreChunk(calls[i]);
  }

  lemma ArrivedKeepsChain(s: System, i: nat, call: Call)
    requires ChainInv(s, |s.calls|) && i < |s.calls| && s.calls[i].stage.Out?
    requires call.stage.Answered? && call.posted == s.calls[i].posted && call.chunks == s.calls[i].chunks
    ensures ChainInv(s.(calls := s.calls[i := call]), |s.calls|)
  {
  }

  lemma FirstPostIsEarliest(calls: seq<Call>, posts: seq<Post>, used: nat)
    requires PostInv(calls, posts, used) && posts != []
    ensures forall j :: 0 <= j < |calls| && calls[j].stage.Out? ==> posts[0].call <= j
  {
    forall j | 0 <= j < |calls| && calls[j].stage.Out?
      ensures posts[0].call <= j
    {
      var k :| 0 <= k < |posts| && posts[k].call == j;
    }
  }

  lemma ArrivedKeepsBehind(calls: seq<Call>, posts: seq<Post>, used: nat, call: Call)
    requires BehindInv(calls) && PostInv(calls, posts, used) && posts != []
    requires !call.stage.Out? && call.posted == calls[posts[0].call].posted
    ensures BehindInv(calls[posts[0].call := call])
  {
    FirstPostIsEarliest(calls, posts, used);
  }

  lemma ArrivedKeepsInv(s: System, takes: bool)
    requires Inv(s) && s.posts != []
    ensures Inv(Arrived(s, takes))
  {
    hide BehindInv, AdmittedOf, Chunks, Flat;
    var t := Arrived(s, takes);
    var i := s.posts[0].call;
    assert t.calls == s.calls[i := t.calls[i]];
    assert CallsInv(t.calls) by {
      assert CallInv(s.calls[i]) && CallInv(t.calls[i]);
      ReplacedKeepsCalls(s.calls, i, t.calls[i]);
    }
    assert !s.gone ==> t.last == t.used - |t.posts| by {
      FirstPostIsNext(s);
    }
    ArrivedKeepsPosts(s, takes);
    ArrivedKeepsTaken(s, takes);
    ArrivedKeepsBehind(s.calls, s.posts, s.used, t.calls[i]);
    if !s.retired {
      ArrivedKeepsChain(s, i, t.calls[i]);
    }
  }

  /** A stream let go of was the last: nothing is chained any more. */
  lemma LetGoKeepsChain(s: System)
    requires ChainInv(s, |s.calls|) && Enabled(s, LetGo)
    ensures ChainInv(s.(inputs := None), |s.calls|)
  {
  }

  lemma StepKeepsInv(s: System, a: Action)
    requires Inv(s) && Enabled(s, a)
    ensures Inv(Apply(s, a))
  {
    hide CallsInv, PostInv, BehindInv, AdmittedOf, Entered, Turn, Arrived, AfterAnswer;
    match a
    case Enter(data) => EnteredKeepsInv(s, data);
    case Advance(i) => TurnKeepsInv(s, i);
    case Arrive(takes) => ArrivedKeepsInv(s, takes);
    case Settle(i, waited) => SettledKeepsInv(s, i, waited);
    case LetGo => if !s.retired { LetGoKeepsChain(s); }
    case _ =>
  }

  lemma BeginHolds()
    ensures Inv(Begin())
  {
  }

  lemma {:induction false} RunKeepsInv(run: seq<System>, i: nat)
    requires Run(run) && i < |run|
    ensures Inv(run[i])
  {
    hide Apply, Enabled, Inv;
    if i == 0 {
      BeginHolds();
    } else {
      RunKeepsInv(run, i - 1);
      assert Next(run[i - 1], run[i - 1 + 1]);
      var a :| Enabled(run[i - 1], a) && run[i] == Apply(run[i - 1], a);
      StepKeepsInv(run[i - 1], a);
    }
  }

  // ---------------------------------------------------------------------------------------
  // What reaches the pane
  // ---------------------------------------------------------------------------------------

  /**
   What the host has admitted, at any moment of any run: of each call in turn, in the order the calls
   were made, its first chunks, a prefix of its bytes. A call over and not cut short is there whole,
   and one cut short lacks no more than what it did not send and the one chunk refused.
   */
  lemma AdmittedIsAPrefixOfEachCall(run: seq<System>, i: nat)
    requires Run(run) && i < |run|
    ensures run[i].taken == AdmittedOf(run[i].calls)
    ensures forall c :: c in run[i].calls ==>
              && c.admitted <= c.posted <= c.admitted + 1 && c.posted <= |c.chunks|
              && Flat(c.chunks[..c.admitted]) <= c.data
              && (c.stage.Over? && !c.cut ==> Flat(c.chunks[..c.admitted]) == c.data)
  {
    RunKeepsInv(run, i);
    forall c | c in run[i].calls
      ensures c.admitted <= c.posted <= c.admitted + 1 && c.posted <= |c.chunks|
      ensures Flat(c.chunks[..c.admitted]) <= c.data
      ensures c.stage.Over? && !c.cut ==> Flat(c.chunks[..c.admitted]) == c.data
    {
      assert CallInv(c);
      ChunkPrefix(c.data, c.admitted);
      ChunksAreWhole(c.data);
      assert c.chunks[..|c.chunks|] == c.chunks;
    }
  }

  /**
   The host never meets a gap or a regression: each chunk that reaches a pane it still has is the
   very next number, so only a chunk the host will not take is turned away.
   */
  lemma NumbersHaveNoGapOrRepeat(run: seq<System>, i: nat, takes: bool)
    requires Run(run) && i < |run| && run[i].posts != [] && !run[i].gone
    ensures var s := run[i];
            && s.posts[0].number == s.last + 1
            && s.posts[0].call < |s.calls|
            && Verdict(s.last, s.posts[0].number, |LastSent(s.calls[s.posts[0].call])|, takes)
               == (if takes then Admitted else Refused)
    ensures forall k :: 0 <= k < |run[i].posts| ==> run[i].posts[k].number == run[i].last + 1 + k
  {
    RunKeepsInv(run, i);
    FirstPostIsNext(run[i]);
    var call := run[i].calls[run[i].posts[0].call];
    assert CallInv(call);
    ChunksAreWhole(call.data);
  }

  /**
   What is typed is sent at once exactly where no earlier input waits and it is one chunk; else it is
   chained behind all that waits.
   */
  lemma TypedGoesAtOnceExactlyWhen(s: System, data: seq<Byte>)
    requires data != [] && !s.retired
    ensures var t := Apply(s, Enter(data));
            && |t.calls| == |s.calls| + 1 && t.calls[..|s.calls|] == s.calls && t.calls[|s.calls|].data == data
            && (s.inputs.None? && |data| <= 32 * 1024 ==>
                  && t.posts == s.posts + [Post(s.sequence + 1, |s.calls|)] && t.sequence == s.sequence + 1
                  && LastSent(t.calls[|s.calls|]) == data && t.chain == s.chain && t.inputs == s.inputs)
            && (s.inputs.Some? || |data| > 32 * 1024 ==>
                  && t.posts == s.posts && t.sequence == s.sequence
                  && t.chain == s.chain + [|s.calls|] && t.inputs == Some(|s.calls|))
  {
    ChunksAreWhole(data);
    if s.inputs.None? && |data| <= INPUT_CHUNK_BYTES {
      assert data[..|data|] == data;
    }
  }

  /** A call goes on with its next chunk exactly where the last was admitted and waited for, and one is left. */
  lemma CallGoesOnExactlyWhen(s: System, i: nat, waited: bool)
    requires Enabled(s, Settle(i, waited))
    ensures var call, t := s.calls[i], Apply(s, Settle(i, waited));
            var taken := call.stage.admitted && waited;
            var left := call.posted < |call.chunks|;
            && (taken && left && !s.retired ==>
                  && t.posts == s.posts + [Post(s.sequence + 1, i)] && t.calls[i].stage.Out?
                  && LastSent(t.calls[i]) == call.chunks[call.posted])
            && (!taken || !left || s.retired ==>
                  && t.posts == s.posts && t.calls[i].stage.Over? && (t.calls[i].cut <==> !taken || left))
  {
  }

  /** Once every call is over, what is typed next goes at once: the stream is let go of, or can be. */
  lemma IdlePaneLetsGo(run: seq<System>, i: nat)
    requires Run(run) && i < |run| && !run[i].retired
    requires forall call :: call in run[i].calls ==> call.stage.Over?
    ensures run[i].inputs.None? || (Enabled(run[i], LetGo) && Apply(run[i], LetGo).inputs.None?)
  {
    RunKeepsInv(run, i);
    if run[i].inputs.Some? {
      assert run[i].calls[run[i].inputs.value] in run[i].calls;
    }
  }

  /** No call waits for ever: while one is not over, some step of a call's own can be taken. */
  lemma NoCallIsStuck(run: seq<System>, i: nat, call: nat)
    requires Run(run) && i < |run| && !run[i].retired
    requires call < |run[i].calls| && !run[i].calls[call].stage.Over?
    ensures exists a: Action :: Enabled(run[i], a) && (a.Advance? || a.Arrive? || a.Settle?)
  {
    RunKeepsInv(run, i);
    var s := run[i];
    var k := if s.calls[call].stage.Ready? then s.chain[0] else call;
    match s.calls[k].stage
    case Ready => assert Enabled(s, Advance(k));
    case Out => assert Enabled(s, Arrive(true));
    case Answered(_) => assert Enabled(s, Settle(k, true));
  }

  /** A pane retired is sent nothing more, whatever was under way or is typed after. */
  lemma RetiredIsSentNothing(s: System, a: Action)
    requires s.retired && Enabled(s, a)
    ensures Apply(s, a).retired && Apply(s, a).used == s.used
    ensures forall p :: p in Apply(s, a).posts ==> p in s.posts
  {
  }

  /** What is admitted stays: later steps only add to it. */
  lemma {:induction false} AdmittedOnlyGrows(run: seq<System>, i: nat, j: nat)
    requires Run(run) && i <= j < |run|
    ensures run[i].taken <= run[j].taken
    decreases j - i
  {
    hide Apply, Enabled;
    if i < j {
      AdmittedOnlyGrows(run, i, j - 1);
      assert Next(run[j - 1], run[j - 1 + 1]);
      var a :| Enabled(run[j - 1], a) && run[j] == Apply(run[j - 1], a);
      StepAddsToAdmitted(run[j - 1], a);
    }
  }

  lemma StepAddsToAdmitted(s: System, a: Action)
    requires Enabled(s, a)
    ensures s.taken <= Apply(s, a).taken
  {
    hide Chunks, LastSent;
  }
}
