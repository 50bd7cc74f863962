/**
 The terminals' output: the host's window of unacknowledged bytes (crates/cf-panes/src/pty.rs), the
 page's side that draws and acknowledges (app/ui/terminal-link.js), and the order in which a page
 takes over from the one before (subscribe_output, app/src-tauri/src/commands.rs). One pane's
 output is followed from the host's read to its acknowledgement, across page reloads.
 */
module TerminalOutput {
  import opened Prelude

  const MAX_CHUNK_BYTES: nat := 8 * 1024

  // ---------------------------------------------------------------------------------------
  // The host's window
  // ---------------------------------------------------------------------------------------

  /** A message sent and not acknowledged: its number, and how many bytes it holds. */
  datatype Owed = Owed(number: nat, size: nat)

  datatype Flow = Flow(next: nat, unacked: seq<Owed>, bytes: nat)

  function Total(owed: seq<Owed>): nat {
    if owed == [] then 0 else owed[0].size + Total(owed[1..])
  }

  /** What is still owed once everything up to `number` is acknowledged. */
  function Later(owed: seq<Owed>, number: nat): seq<Owed> {
    if owed == [] || owed[0].number > number then owed else Later(owed[1..], number)
  }

  function Recorded(f: Flow, size: nat): Flow {
    Flow(f.next + 1, f.unacked + [Owed(f.next, size)], f.bytes + size)
  }

  function AckedTo(f: Flow, number: nat): Flow {
    if number >= f.next then f
    else var later := Later(f.unacked, number); Flow(f.next, later, Total(later))
  }

  function AckedAll(f: Flow): Flow {
    Flow(f.next, [], 0)
  }

  ghost predicate Ordered(owed: seq<Owed>) {
    forall i, j :: 0 <= i < j < |owed| ==> owed[i].number < owed[j].number
  }

  /** The window's own invariant: its count is the bytes it is owed, at most the backlog. */
  ghost predicate FlowInv(f: Flow, backlog: nat) {
    && f.next >= 1
    && f.bytes == Total(f.unacked) <= backlog
    && Ordered(f.unacked)
    && forall o :: o in f.unacked ==> 1 <= o.number < f.next
  }

  lemma {:induction false} TotalAppend(owed: seq<Owed>, o: Owed)
    ensures Total(owed + [o]) == Total(owed) + o.size
  {
    if owed == [] {
      assert owed + [o] == [o];
    } else {
      assert (owed + [o])[1..] == owed[1..] + [o];
      TotalAppend(owed[1..], o);
    }
  }

  /** Of what is owed in order, exactly the messages past `number` stay owed. */
  lemma {:induction false} LaterIsExactlyWhatIsPast(owed: seq<Owed>, number: nat)
    requires Ordered(owed)
    ensures Ordered(Later(owed, number))
    ensures forall o :: o in Later(owed, number) <==> o in owed && o.number > number
    ensures Total(Later(owed, number)) <= Total(owed)
  {
    if owed != [] && owed[0].number <= number {
      LaterIsExactlyWhatIsPast(owed[1..], number);
      assert forall o :: o in owed <==> o == owed[0] || o in owed[1..];
    } else {
      assert forall o :: o in owed ==> owed[0] == o || owed[0].number < o.number;
    }
  }

  lemma RecordKeepsInv(f: Flow, backlog: nat, size: nat)
    requires FlowInv(f, backlog) && f.bytes + size <= backlog
    ensures FlowInv(Recorded(f, size), backlog)
  {
    TotalAppend(f.unacked, Owed(f.next, size));
  }

  lemma AcknowledgeKeepsInv(f: Flow, backlog: nat, number: nat)
    requires FlowInv(f, backlog)
    ensures FlowInv(AckedTo(f, number), backlog)
  {
    LaterIsExactlyWhatIsPast(f.unacked, number);
  }

  class OutputFlow {
    const backlog: nat
    var next: nat
    var unacked: seq<Owed>
    var bytes: nat

    ghost function View(): Flow
      reads this
    {
      Flow(next, unacked, bytes)
    }

    constructor (backlog: nat)
      ensures this.backlog == backlog && View() == Flow(1, [], 0)
      ensures FlowInv(View(), backlog)
    {
      this.backlog := backlog;
      next, unacked, bytes := 1, [], 0;
    }

    /** How many bytes may be read; the read waits while there are none. */
    method ReadAllowance() returns (allowance: Option<nat>)
      requires FlowInv(View(), backlog)
      ensures allowance.None? <==> bytes >= backlog
      ensures allowance.Some? ==> allowance.value > 0 && allowance.value + bytes == backlog
    {
      allowance := if bytes >= backlog then None else Some(backlog - bytes);
    }

    method Record(size: nat) returns (number: nat)
      requires FlowInv(View(), backlog) && bytes + size <= backlog
      modifies this
      ensures View() == Recorded(old(View()), size)
      ensures number == old(next) && next == number + 1
      ensures unacked == old(unacked) + [Owed(number, size)] && bytes == old(bytes) + size
      ensures FlowInv(View(), backlog)
    {
      RecordKeepsInv(View(), backlog, size);
      number := next;
      next := next + 1;
      unacked := unacked + [Owed(number, size)];
      bytes := bytes + size;
    }

    /** Frees everything up to `number`; one never issued is refused, and frees nothing. */
    method Acknowledge(number: nat) returns (taken: bool)
      requires FlowInv(View(), backlog)
      modifies this
      ensures View() == AckedTo(old(View()), number)
      ensures taken <==> number < old(next)
      ensures !taken ==> View() == old(View())
      ensures taken ==> forall o :: o in unacked <==> o in old(unacked) && o.number > number
      ensures bytes == Total(unacked) && next == old(next)
      ensures FlowInv(View(), backlog)
    {
      if number >= next {
        return false;
      }
      AcknowledgeKeepsInv(View(), backlog, number);
      LaterIsExactlyWhatIsPast(unacked, number);
      while unacked != [] && unacked[0].number <= number
        invariant bytes == Total(unacked)
        invariant Later(unacked, number) == Later(old(unacked), number)
        invariant next == old(next)
        decreases |unacked|
      {
        bytes := bytes - unacked[0].size;
        unacked := unacked[1..];
      }
      taken := true;
    }

    method AcknowledgeAll()
      modifies this
      ensures View() == AckedAll(old(View()))
      ensures unacked == [] && bytes == 0 && next == old(next)
    {
      unacked := [];
      bytes := 0;
    }
  }

  // ---------------------------------------------------------------------------------------
  // The page's acknowledgements
  // ---------------------------------------------------------------------------------------

  /** By pane: the last message drawn, the last acknowledged, and whether one is on its way. */
  datatype Ack = Ack(drawn: nat, sent: nat, sending: bool)

  const NO_ACK := Ack(0, 0, false)

  /** One turn of the loop that acknowledges: what it asks the host, or that it is done. */
  function Turned(ack: Ack): (Ack, Option<nat>) {
    if ack.sent < ack.drawn then (ack.(sending := true), Some(ack.drawn))
    else (ack.(sending := false), None)
  }

  /** A message drawn: the acknowledgement after it, and what is asked of the host now, if anything. */
  function DrawnTo(ack: Ack, number: nat): (Ack, Option<nat>) {
    var drawn := ack.(drawn := Max(ack.drawn, number));
    if ack.sending then (drawn, None) else Turned(drawn)
  }

  /** The host answered the acknowledgement of `number`. */
  function AnsweredTo(ack: Ack, number: nat): (Ack, Option<nat>) {
    Turned(ack.(sent := number))
  }

  /** The page's link, for every pane; `asked` is the acknowledgements asked of the host, in order. */
  class TerminalLink<Key(==)> {
    var acks: map<Key, Ack>
    var retired: set<Key>
    ghost var asked: seq<(Key, nat)>

    function AckOf(key: Key): Ack
      reads this
    {
      if key in acks then acks[key] else NO_ACK
    }

    constructor ()
      ensures acks == map[] && retired == {} && asked == []
    {
      acks, retired, asked := map[], {}, [];
    }

    /** A message from the host: drawn nowhere for a retired pane, else written to its emulator. */
    method Output(key: Key, number: nat, emulator: bool) returns (written: bool)
      modifies this
      ensures retired == old(retired)
      ensures written <==> key !in retired && emulator
      ensures key in retired ==> acks == old(acks)[key := DrawnTo(old(AckOf(key)), number).0]
      ensures key in retired ==>
                asked == old(asked) + Asks(key, DrawnTo(old(AckOf(key)), number).1)
      ensures key !in retired ==> acks == old(acks) && asked == old(asked)
    {
      if key in retired {
        Drawn(key, number);
        return false;
      }
      written := emulator;
    }

    method Drawn(key: Key, number: nat)
      modifies this
      ensures retired == old(retired)
      ensures acks == old(acks)[key := DrawnTo(old(AckOf(key)), number).0]
      ensures asked == old(asked) + Asks(key, DrawnTo(old(AckOf(key)), number).1)
      ensures var was, ack := old(AckOf(key)), AckOf(key);
              && ack.drawn == (if was.drawn < number then number else was.drawn) && ack.sent == was.sent
              && (ack.sending <==> was.sending || was.sent < ack.drawn)
              && asked == old(asked) + if !was.sending && ack.sending then [(key, ack.drawn)] else []
    {
      var ack := AckOf(key);
      ack := ack.(drawn := Max(ack.drawn, number));
      acks := acks[key := ack];
      if !ack.sending {
        Acknowledge(key, ack);
      }
    }

    /** The loop of `#acknowledge`, up to its next await or its end. */
    method Acknowledge(key: Key, ack: Ack)
      modifies this
      ensures retired == old(retired)
      ensures acks == old(acks)[key := Turned(ack).0]
      ensures asked == old(asked) + Asks(key, Turned(ack).1)
      ensures AckOf(key) == ack.(sending := ack.sent < ack.drawn)
      ensures asked == old(asked) + if ack.sent < ack.drawn then [(key, ack.drawn)] else []
    {
      if ack.sent < ack.drawn {
        acks := acks[key := ack.(sending := true)];
        asked := asked + [(key, ack.drawn)];
      } else {
        acks := acks[key := ack.(sending := false)];
      }
    }

    /** The await of an acknowledgement of `number` over. */
    method Answered(key: Key, number: nat)
      modifies this
      ensures retired == old(retired)
      ensures acks == old(acks)[key := AnsweredTo(old(AckOf(key)), number).0]
      ensures asked == old(asked) + Asks(key, AnsweredTo(old(AckOf(key)), number).1)
      ensures var was, ack := old(AckOf(key)), AckOf(key);
              && ack.drawn == was.drawn && ack.sent == number && (ack.sending <==> number < ack.drawn)
              && asked == old(asked) + if number < ack.drawn then [(key, ack.drawn)] else []
    {
      Acknowledge(key, AckOf(key).(sent := number));
    }

    method Retire(key: Key)
      modifies this
      ensures retired == old(retired) + {key} && acks == old(acks) && asked == old(asked)
    {
      retired := retired + {key};
    }
  }

  function Asks<Key>(key: Key, ask: Option<nat>): seq<(Key, nat)> {
    if ask.Some? then [(key, ask.value)] else []
  }

  // ---------------------------------------------------------------------------------------
  // One pane, its host, and the pages that come and go
  // ---------------------------------------------------------------------------------------

  /** An acknowledgement on its way: to the host, or its answer back. */
  datatype Post = NoPost | Going(number: nat) | Back(number: nat)

  /**
   The page there now: `channel` are the messages sent to it and not yet handled, `writing` those its
   emulator has and has not drawn, `output` all it was handed, in order.
   */
  datatype Page = Page(
    channel: seq<nat>,
    writing: seq<nat>,
    output: seq<nat>,
    ack: Ack,
    post: Post,
    retired: bool)

  const NEW_PAGE := Page([], [], [], NO_ACK, NoPost, false)

  function Asking(p: Page, turn: (Ack, Option<nat>)): Page {
    p.(ack := turn.0, post := if turn.1.Some? then Going(turn.1.value) else p.post)
  }

  /** The next message handled: drawn nowhere where the pane is retired, else given its emulator. */
  function Delivered(p: Page): Page
    requires p.channel != []
  {
    var handed := p.(channel := p.channel[1..], output := p.output + [p.channel[0]]);
    if p.retired then Asking(handed, DrawnTo(p.ack, p.channel[0]))
    else handed.(writing := p.writing + [p.channel[0]])
  }

  function Committed(p: Page): Page
    requires p.writing != []
  {
    Asking(p.(writing := p.writing[1..]), DrawnTo(p.ack, p.writing[0]))
  }

  function AckTaken(p: Page): Page
    requires p.post.Going?
  {
    p.(post := Back(p.post.number))
  }

  function AckBack(p: Page): Page
    requires p.post.Back?
  {
    Asking(p.(post := NoPost), AnsweredTo(p.ack, p.post.number))
  }

  /**
   What the host runs for a page that subscribed, between its locked steps: each on a task of its own,
   so that one of a page that has gone may still run beside the next page's.
   */
  datatype Job = Begun(serial: nat) | Halfway(serial: nat)

  /**
   `recorded` are the messages numbered and not yet published, `pending` those published while no
   page was ever registered, `registered` the pages registered so far, in order: what is published goes
   to the last. `serial` is the page there now, `asked` whether it has subscribed, `jobs` what the host
   still runs for it and for pages before it. `stray` are acknowledgements a page sent before it went.
   A message published to a page that has gone is lost.
   */
  datatype System = System(
    flow: Flow,
    recorded: seq<nat>,
    pending: seq<nat>,
    registered: seq<nat>,
    serial: nat,
    asked: bool,
    jobs: seq<Job>,
    stray: seq<nat>,
    page: Page)

  /** The pane's window, and whether the host acknowledges all before it registers the new page. */
  datatype Config = Config(backlog: nat, ackFirst: bool)

  function Begin(): System {
    System(Flow(1, [], 0), [], [], [], 0, false, [], [], NEW_PAGE)
  }

  datatype Action =
    | Print(size: nat)
    | Reload
    | Retire
    | Publish
    | Subscribe
    | Register(job: nat)
    | AckAll(job: nat)
    | Deliver
    | Commit
    | AckArrives
    | AckAnswered
    | StrayArrives

  /** The host holds the pane: it reads no more of it until something is acknowledged. */
  predicate Held(c: Config, s: System) {
    s.flow.bytes >= c.backlog
  }

  predicate Enabled(c: Config, s: System, a: Action) {
    match a
    case Print(size) => !Held(c, s) && size <= Min(c.backlog - s.flow.bytes, MAX_CHUNK_BYTES)
    case Reload => true
    case Retire => !s.page.retired
    case Publish => s.recorded != []
    case Subscribe => !s.asked
    case Register(j) => j < |s.jobs| && if c.ackFirst then s.jobs[j].Halfway? else s.jobs[j].Begun?
    case AckAll(j) => j < |s.jobs| && if c.ackFirst then s.jobs[j].Begun? else s.jobs[j].Halfway?
    case Deliver => s.page.channel != []
    case Commit => s.page.writing != []
    case AckArrives => s.page.post.Going?
    case AckAnswered => s.page.post.Back?
    case StrayArrives => s.stray != []
  }

  /** A step that neither prints more nor takes the page away. */
  predicate Progress(a: Action) {
    !a.Print? && !a.Reload? && !a.Retire?
  }

  /** A job one step further: from its middle to its end, where it is no more. */
  function Further(jobs: seq<Job>, j: nat): seq<Job>
    requires j < |jobs|
  {
    if jobs[j].Begun? then jobs[j := Halfway(jobs[j].serial)] else jobs[..j] + jobs[j + 1..]
  }

  /** The page what is published goes to; none where none was registered. */
  function Sink(registered: seq<nat>): Option<nat> {
    if registered == [] then None else Some(registered[|registered| - 1])
  }

  function Printed(s: System, size: nat): System {
    s.(flow := Recorded(s.flow, size), recorded := s.recorded + [s.flow.next])
  }

  function Reloaded(s: System): System {
    s.(serial := s.serial + 1, asked := false, page := NEW_PAGE,
       stray := if s.page.post.Going? then s.stray + [s.page.post.number] else s.stray)
  }

  function Published(s: System): System
    requires s.recorded != []
  {
    var rest := s.(recorded := s.recorded[1..]);
    if s.registered == [] then rest.(pending := s.pending + [s.recorded[0]])
    else if Sink(s.registered) == Some(s.serial)
    then rest.(page := s.page.(channel := s.page.channel + [s.recorded[0]]))
    else rest
  }

  function RegisteredBy(s: System, j: nat): System
    requires j < |s.jobs|
  {
    var serial := s.jobs[j].serial;
    s.(registered := s.registered + [serial], jobs := Further(s.jobs, j), pending := [],
       page := if serial == s.serial
               then s.page.(channel := s.page.channel + s.pending) else s.page)
  }

  function Apply(c: Config, s: System, a: Action): System
    requires Enabled(c, s, a)
  {
    match a
    case Print(size) => Printed(s, size)
    case Reload => Reloaded(s)
    case Retire => s.(page := s.page.(retired := true))
    case Publish => Published(s)
    case Subscribe => s.(asked := true, jobs := s.jobs + [Begun(s.serial)])
    case Register(j) => RegisteredBy(s, j)
    case AckAll(j) => s.(flow := AckedAll(s.flow), jobs := Further(s.jobs, j))
    case Deliver => s.(page := Delivered(s.page))
    case Commit => s.(page := Committed(s.page))
    case AckArrives => s.(flow := AckedTo(s.flow, s.page.post.number), page := AckTaken(s.page))
    case AckAnswered => s.(page := AckBack(s.page))
    case StrayArrives => s.(flow := AckedTo(s.flow, s.stray[0]), stray := s.stray[1..])
  }

  /** A page before the one there now was registered after it: what is published goes to no page. */
  predicate Overtaken(s: System) {
    s.serial in s.registered && Sink(s.registered) != Some(s.serial)
  }

  /** A page that has gone is still to be registered. */
  ghost predicate OlderToCome(s: System) {
    exists j :: 0 <= j < |s.jobs| && s.jobs[j].Begun? && s.jobs[j].serial < s.serial
  }

  /** `actions` taken in order from `s`; none where one of them is not enabled. */
  function Exec(c: Config, s: System, actions: seq<Action>): Option<System> {
    if actions == [] then Some(s)
    else
      var last := |actions| - 1;
      var before := Exec(c, s, actions[..last]);
      if before.Some? && Enabled(c, before.value, actions[last])
      then Some(Apply(c, before.value, actions[last])) else None
  }

  ghost predicate Reachable(c: Config, s: System) {
    exists actions :: Exec(c, Begin(), actions) == Some(s)
  }

  // ---------------------------------------------------------------------------------------
  // What every step keeps
  // ---------------------------------------------------------------------------------------

  /** Numbers one after the other, the last of them just below `next`. */
  ghost predicate RunsTo(numbers: seq<nat>, next: nat) {
    && |numbers| < next
    && forall i :: 0 <= i < |numbers| ==> numbers[i] + |numbers| == next + i
  }

  /** What the page was handed and is still to be, in order. */
  function Stream(p: Page, recorded: seq<nat>): seq<nat> {
    p.output + p.channel + recorded
  }

  /** Numbers one after the other, from 1 on and all below `next`. */
  ghost predicate Whole(numbers: seq<nat>, next: int) {
    forall i :: 0 <= i < |numbers| ==> 1 <= numbers[i] == numbers[0] + i < next
  }

  /** Whether the page there now is the last registered and the host is done with it. */
  ghost predicate Settled(s: System) {
    && Sink(s.registered) == Some(s.serial)
    && forall j :: 0 <= j < |s.jobs| ==> s.jobs[j].serial != s.serial
  }

  /** Each page is registered once, by its own job, and no page is asked for before it is there. */
  ghost predicate JobsInv(jobs: seq<Job>, registered: seq<nat>, serial: nat, asked: bool) {
    && (forall i, j :: 0 <= i < j < |jobs| ==> jobs[i].serial < jobs[j].serial)
    && (forall j :: 0 <= j < |jobs| ==> jobs[j].serial <= serial)
    && (forall j :: 0 <= j < |jobs| ==> (jobs[j].Begun? <==> jobs[j].serial !in registered))
    && (forall k :: k in registered ==> k <= serial)
    && (!asked ==> serial !in registered && forall j :: 0 <= j < |jobs| ==> jobs[j].serial < serial)
    && (asked && serial !in registered ==> Begun(serial) in jobs)
  }

  ghost predicate OrderInv(s: System) {
    && RunsTo(s.recorded, s.flow.next)
    && (s.registered == [] ==> RunsTo(s.pending + s.recorded, s.flow.next))
    && (s.registered != [] ==> s.pending == [])
    && (Sink(s.registered) == Some(s.serial) ==> RunsTo(Stream(s.page, s.recorded), s.flow.next))
    && (s.serial !in s.registered ==> s.page.output == [] && s.page.channel == [])
    && Whole(s.page.output + s.page.channel, s.flow.next - |s.recorded|)
  }

  ghost predicate PageInv(p: Page, next: nat) {
    && p.ack.sent <= p.ack.drawn < next
    && (p.ack.sending <==> !p.post.NoPost?)
    && (!p.post.NoPost? ==> p.ack.sent < p.post.number <= p.ack.drawn)
    && (p.post.NoPost? ==> p.ack.sent == p.ack.drawn)
    && (p.ack.drawn != 0 ==> p.ack.drawn in p.output)
    && (forall i :: 0 <= i < |p.writing| ==> p.writing[i] in p.output)
    && (forall i, j :: 0 <= i < j < |p.writing| ==> p.writing[i] < p.writing[j])
    && (!p.retired ==> forall i :: 0 <= i < |p.writing| ==> p.ack.drawn < p.writing[i])
    && (forall k :: k in p.output ==> k < next)
  }

  ghost predicate StrayInv(stray: seq<nat>, next: nat) {
    forall i :: 0 <= i < |stray| ==> stray[i] < next
  }

  /** Where a message owed is: on its way to being drawn, or drawn and to be acknowledged. */
  ghost predicate Covered(p: Page, recorded: seq<nat>, number: nat) {
    || number in recorded || number in p.channel || number in p.writing
    || number <= p.ack.drawn
  }

  /** Nothing owed was acknowledged, nor is covered by an acknowledgement the host has taken. */
  ghost predicate Unanswered(p: Page, number: nat) {
    p.ack.sent < number && (p.post.Back? ==> p.post.number < number)
  }

  ghost predicate CoverInv(f: Flow, recorded: seq<nat>, p: Page) {
    forall o :: o in f.unacked ==> Covered(p, recorded, o.number) && Unanswered(p, o.number)
  }

  ghost predicate Inv(c: Config, s: System) {
    && FlowInv(s.flow, c.backlog)
    && JobsInv(s.jobs, s.registered, s.serial, s.asked)
    && OrderInv(s)
    && PageInv(s.page, s.flow.next)
    && StrayInv(s.stray, s.flow.next)
    && (Settled(s) ==> CoverInv(s.flow, s.recorded, s.page))
  }

  lemma FlowStep(c: Config, s: System, a: Action)
    requires FlowInv(s.flow, c.backlog) && Enabled(c, s, a)
    ensures FlowInv(Apply(c, s, a).flow, c.backlog)
  {
    match a
    case Print(size) => RecordKeepsInv(s.flow, c.backlog, size);
    case AckArrives => AcknowledgeKeepsInv(s.flow, c.backlog, s.page.post.number);
    case StrayArrives => AcknowledgeKeepsInv(s.flow, c.backlog, s.stray[0]);
    case _ =>
  }

  lemma RunsToAppend(numbers: seq<nat>, next: nat)
    requires RunsTo(numbers, next)
    ensures RunsTo(numbers + [next], next + 1)
  {
  }

  lemma RunsToTail(numbers: seq<nat>, next: nat)
    requires RunsTo(numbers, next) && numbers != []
    ensures RunsTo(numbers[1..], next)
  {
  }

  lemma JobOver(jobs: seq<Job>, registered: seq<nat>, serial: nat, asked: bool, j: nat)
    requires JobsInv(jobs, registered, serial, asked) && j < |jobs| && jobs[j].Halfway?
    ensures JobsInv(Further(jobs, j), registered, serial, asked)
  {
    var rest := Further(jobs, j);
    assert forall i :: 0 <= i < |rest| ==> rest[i] == jobs[if i < j then i else i + 1];
    if asked && serial !in registered {
      var i :| 0 <= i < |jobs| && jobs[i] == Begun(serial);
      assert rest[if i < j then i else i - 1] == Begun(serial);
    }
  }

  lemma JobRegistered(jobs: seq<Job>, registered: seq<nat>, serial: nat, asked: bool, j: nat)
    requires JobsInv(jobs, registered, serial, asked) && j < |jobs| && jobs[j].Begun?
    ensures JobsInv(Further(jobs, j), registered + [jobs[j].serial], serial, asked)
  {
    var after, more := Further(jobs, j), registered + [jobs[j].serial];
    assert forall k :: k in more <==> k in registered || k == jobs[j].serial;
    assert forall i :: 0 <= i < |jobs| && i != j ==> after[i] == jobs[i];
    if asked && serial !in more {
      var i :| 0 <= i < |jobs| && jobs[i] == Begun(serial);
      assert after[i] == Begun(serial);
    }
  }

  lemma JobsSubscribe(jobs: seq<Job>, registered: seq<nat>, serial: nat)
    requires JobsInv(jobs, registered, serial, false)
    ensures JobsInv(jobs + [Begun(serial)], registered, serial, true)
  {
    assert (jobs + [Begun(serial)])[|jobs|] == Begun(serial);
  }

  lemma JobsStep(c: Config, s: System, a: Action)
    requires !c.ackFirst && Enabled(c, s, a) && JobsInv(s.jobs, s.registered, s.serial, s.asked)
    ensures var t := Apply(c, s, a); JobsInv(t.jobs, t.registered, t.serial, t.asked)
  {
    match a
    case Subscribe => JobsSubscribe(s.jobs, s.registered, s.serial);
    case Register(j) => JobRegistered(s.jobs, s.registered, s.serial, s.asked, j);
    case AckAll(j) => JobOver(s.jobs, s.registered, s.serial, s.asked, j);
    case _ =>
  }

  lemma WholeIsRun(numbers: seq<nat>, rest: seq<nat>, next: nat)
    requires RunsTo(numbers + rest, next)
    ensures Whole(numbers, next - |rest|)
  {
    var all := numbers + rest;
    forall i | 0 <= i < |numbers| ensures 1 <= numbers[i] == numbers[0] + i < next - |rest| {
      assert all[i] == numbers[i] && all[0] == numbers[0];
    }
  }

  lemma OrderPrint(s: System, size: nat)
    requires OrderInv(s)
    ensures OrderInv(Printed(s, size))
  {
    var t := Printed(s, size);
    RunsToAppend(s.recorded, s.flow.next);
    if s.registered == [] {
      RunsToAppend(s.pending + s.recorded, s.flow.next);
      assert t.pending + t.recorded == (s.pending + s.recorded) + [s.flow.next];
    } else if Sink(s.registered) == Some(s.serial) {
      RunsToAppend(Stream(s.page, s.recorded), s.flow.next);
      assert Stream(t.page, t.recorded) == Stream(s.page, s.recorded) + [s.flow.next];
    }
  }

  lemma WholeWider(numbers: seq<nat>, next: int, more: int)
    requires Whole(numbers, next) && next <= more
    ensures Whole(numbers, more)
  {
    forall i | 0 <= i < |numbers| ensures 1 <= numbers[i] == numbers[0] + i < more {
      assert numbers[i] == numbers[0] + i;
    }
  }

  lemma OrderPublish(s: System)
    requires OrderInv(s) && s.recorded != []
    ensures OrderInv(Published(s))
  {
    hide RunsTo, Whole;
    var t := Published(s);
    RunsToTail(s.recorded, s.flow.next);
    assert s.recorded == [s.recorded[0]] + s.recorded[1..];
    if s.registered == [] {
      assert t.pending + t.recorded == s.pending + s.recorded;
      WholeWider(t.page.output + t.page.channel, s.flow.next - |s.recorded|, s.flow.next - |t.recorded|);
    } else if Sink(s.registered) == Some(s.serial) {
      assert Stream(t.page, t.recorded) == Stream(s.page, s.recorded);
      WholeIsRun(t.page.output + t.page.channel, t.recorded, s.flow.next);
    } else {
      WholeWider(t.page.output + t.page.channel, s.flow.next - |s.recorded|, s.flow.next - |t.recorded|);
    }
  }

  lemma OrderRegister(s: System, j: nat)
    requires OrderInv(s) && JobsInv(s.jobs, s.registered, s.serial, s.asked)
    requires j < |s.jobs| && s.jobs[j].Begun?
    ensures OrderInv(RegisteredBy(s, j))
  {
    var t := RegisteredBy(s, j);
    if s.jobs[j].serial == s.serial {
      assert Stream(t.page, t.recorded) == s.pending + s.recorded;
      if s.registered != [] {
        assert s.pending + s.recorded == s.recorded;
      }
      WholeIsRun(t.page.output + t.page.channel, t.recorded, s.flow.next);
    }
  }

  lemma OrderDeliver(s: System)
    requires OrderInv(s) && s.page.channel != []
    ensures OrderInv(s.(page := Delivered(s.page)))
  {
    var q := Delivered(s.page);
    assert s.page.channel == [s.page.channel[0]] + s.page.channel[1..];
    assert q.output + q.channel == s.page.output + s.page.channel;
    assert Stream(q, s.recorded) == Stream(s.page, s.recorded);
  }

  lemma OrderStep(c: Config, s: System, a: Action)
    requires !c.ackFirst && OrderInv(s) && JobsInv(s.jobs, s.registered, s.serial, s.asked)
    requires Enabled(c, s, a)
    ensures OrderInv(Apply(c, s, a))
  {
    hide RunsTo, Whole;
    match a
    case Print(size) => OrderPrint(s, size);
    case Publish => OrderPublish(s);
    case Register(j) => OrderRegister(s, j);
    case Deliver => OrderDeliver(s);
    case Reload => OrderReload(s);
    case _ =>
  }

  lemma OrderReload(s: System)
    requires OrderInv(s) && JobsInv(s.jobs, s.registered, s.serial, s.asked)
    ensures OrderInv(Reloaded(s))
  {
    hide RunsTo;
    var t := Reloaded(s);
    assert t.page.output + t.page.channel == [];
    assert t.serial !in t.registered;
  }

  /** The next message to be handed to the page is past all it was handed before. */
  lemma NextIsNewest(s: System)
    requires OrderInv(s) && PageInv(s.page, s.flow.next) && s.page.channel != []
    ensures s.page.ack.drawn < s.page.channel[0] < s.flow.next
    ensures forall k :: k in s.page.output ==> k < s.page.channel[0]
  {
    var all := s.page.output + s.page.channel;
    assert s.page.channel[0] == all[|s.page.output|];
    forall k | k in s.page.output
      ensures k < s.page.channel[0]
    {
      var i :| 0 <= i < |s.page.output| && s.page.output[i] == k;
      assert all[i] == k;
    }
  }

  lemma DeliverKeepsPage(p: Page, next: nat)
    requires PageInv(p, next) && p.channel != [] && p.ack.drawn < p.channel[0] < next
    requires forall k :: k in p.output ==> k < p.channel[0]
    ensures PageInv(Delivered(p), next)
  {
    var q := Delivered(p);
    assert q.output[|p.output|] == p.channel[0];
    assert forall k :: k in p.output ==> k in q.output;
  }

  lemma CommitKeepsPage(p: Page, next: nat)
    requires PageInv(p, next) && p.writing != []
    ensures PageInv(Committed(p), next)
  {
    var q := Committed(p);
    assert forall i :: 0 <= i < |q.writing| ==> q.writing[i] == p.writing[i + 1];
    assert p.writing[0] in p.output;
  }

  lemma AckKeepsPage(p: Page, next: nat)
    requires PageInv(p, next)
    ensures p.post.Going? ==> PageInv(AckTaken(p), next)
    ensures p.post.Back? ==> PageInv(AckBack(p), next)
  {
  }

  /** What the host sends a page, and counts on beside it, changes none of what the page has done. */
  lemma HostKeepsPage(p: Page, next: nat, later: nat, more: seq<nat>)
    requires PageInv(p, next) && next <= later
    ensures PageInv(p.(channel := more), later)
  {
  }

  lemma PageStep(c: Config, s: System, a: Action)
    requires OrderInv(s) && PageInv(s.page, s.flow.next) && Enabled(c, s, a)
    ensures PageInv(Apply(c, s, a).page, Apply(c, s, a).flow.next)
  {
    var t := Apply(c, s, a);
    assert t.flow.next >= s.flow.next;
    match a {
      case Deliver =>
        NextIsNewest(s);
        DeliverKeepsPage(s.page, s.flow.next);
      case Commit => CommitKeepsPage(s.page, s.flow.next);
      case Reload =>
      case Retire => RetireKeepsPage(s.page, s.flow.next);
      case AckArrives => AckKeepsPage(s.page, s.flow.next);
      case AckAnswered => AckKeepsPage(s.page, s.flow.next);
      case _ =>
        hide PageInv, OrderInv;
        HostKeepsPage(s.page, s.flow.next, t.flow.next, t.page.channel);
        assert t.page == s.page.(channel := t.page.channel);
    }
  }

  lemma RetireKeepsPage(p: Page, next: nat)
    requires PageInv(p, next)
    ensures PageInv(p.(retired := true), next)
  {
  }

  lemma StrayStep(c: Config, s: System, a: Action)
    requires PageInv(s.page, s.flow.next) && StrayInv(s.stray, s.flow.next) && Enabled(c, s, a)
    ensures StrayInv(Apply(c, s, a).stray, Apply(c, s, a).flow.next)
  {
    hide Delivered, Committed, AckBack, Further;
    var t := Apply(c, s, a);
    assert t.flow.next >= s.flow.next;
    if a.Reload? {
      assert forall i :: 0 <= i < |s.stray| ==> t.stray[i] == s.stray[i];
    } else if a.StrayArrives? {
      assert forall i :: 0 <= i < |t.stray| ==> t.stray[i] == s.stray[i + 1];
    } else {
      assert t.stray == s.stray;
    }
  }

  /** A message stays covered by whatever a page does with it. */
  lemma PageKeepsCovered(p: Page, recorded: seq<nat>, number: nat)
    requires Covered(p, recorded, number)
    ensures p.channel != [] ==> Covered(Delivered(p), recorded, number)
    ensures p.writing != [] ==> Covered(Committed(p), recorded, number)
  {
    assert p.channel != [] ==> p.channel == [p.channel[0]] + p.channel[1..];
    assert p.writing != [] ==> p.writing == [p.writing[0]] + p.writing[1..];
  }

  lemma PrintKeepsCover(f: Flow, recorded: seq<nat>, p: Page, size: nat)
    requires CoverInv(f, recorded, p) && p.ack.sent < f.next && (p.post.Back? ==> p.post.number < f.next)
    ensures CoverInv(Recorded(f, size), recorded + [f.next], p)
  {
    assert f.next in recorded + [f.next];
  }

  lemma PublishKeepsCover(f: Flow, recorded: seq<nat>, p: Page)
    requires CoverInv(f, recorded, p) && recorded != []
    ensures CoverInv(f, recorded[1..], p.(channel := p.channel + [recorded[0]]))
  {
    assert recorded == [recorded[0]] + recorded[1..];
  }

  lemma AckKeepsCover(f: Flow, recorded: seq<nat>, p: Page, number: nat)
    requires CoverInv(f, recorded, p) && Ordered(f.unacked)
    ensures CoverInv(AckedTo(f, number), recorded, p)
    ensures p.post == Going(number) && number < f.next ==>
      CoverInv(AckedTo(f, number), recorded, AckTaken(p))
  {
    LaterIsExactlyWhatIsPast(f.unacked, number);
  }

  lemma AnswerKeepsCover(f: Flow, recorded: seq<nat>, p: Page)
    requires CoverInv(f, recorded, p) && p.post.Back?
    ensures CoverInv(f, recorded, AckBack(p))
  {
  }

  lemma CoverStep(c: Config, s: System, a: Action)
    requires !c.ackFirst && Inv(c, s) && Enabled(c, s, a)
    requires Settled(s) && Settled(Apply(c, s, a)) && !a.Reload?
    ensures CoverInv(Apply(c, s, a).flow, Apply(c, s, a).recorded, Apply(c, s, a).page)
  {
    hide CoverInv, Delivered, Committed, AckTaken, AckBack, OrderInv, JobsInv, StrayInv, AckedTo;
    match a
    case Print(size) => PrintKeepsCover(s.flow, s.recorded, s.page, size);
    case Publish => PublishKeepsCover(s.flow, s.recorded, s.page);
    case AckArrives => AckKeepsCover(s.flow, s.recorded, s.page, s.page.post.number);
    case AckAnswered => AnswerKeepsCover(s.flow, s.recorded, s.page);
    case StrayArrives => AckKeepsCover(s.flow, s.recorded, s.page, s.stray[0]);
    case Deliver => PageKeepsCover(s.flow, s.recorded, s.page);
    case Commit => PageKeepsCover(s.flow, s.recorded, s.page);
    case AckAll(j) => NothingIsCovered(Apply(c, s, a));
    case Retire => RetireKeepsCover(s.flow, s.recorded, s.page);
    case Subscribe => SubscribeUnsettles(s);
    case Register(j) => RegisterUnsettles(s, j);
  }

  lemma RetireKeepsCover(f: Flow, recorded: seq<nat>, p: Page)
    requires CoverInv(f, recorded, p)
    ensures CoverInv(f, recorded, p.(retired := true))
  {
  }

  lemma PageKeepsCover(f: Flow, recorded: seq<nat>, p: Page)
    requires CoverInv(f, recorded, p)
    ensures p.channel != [] ==> CoverInv(f, recorded, Delivered(p))
    ensures p.writing != [] ==> CoverInv(f, recorded, Committed(p))
  {
    forall o | o in f.unacked
      ensures p.channel != [] ==> Covered(Delivered(p), recorded, o.number)
      ensures p.writing != [] ==> Covered(Committed(p), recorded, o.number)
    {
      PageKeepsCovered(p, recorded, o.number);
    }
  }

  lemma InvStep(c: Config, s: System, a: Action)
    requires !c.ackFirst && Inv(c, s) && Enabled(c, s, a)
    ensures Inv(c, Apply(c, s, a))
  {
    hide FlowInv, JobsInv, OrderInv, PageInv, StrayInv, CoverInv;
    FlowStep(c, s, a);
    JobsStep(c, s, a);
    OrderStep(c, s, a);
    PageStep(c, s, a);
    StrayStep(c, s, a);
    if Settled(Apply(c, s, a)) {
      if Settled(s) && !a.Reload? {
        CoverStep(c, s, a);
      } else {
        NewlySettledOwesNothing(c, s, a);
        NothingIsCovered(Apply(c, s, a));
      }
    }
  }

  lemma NothingIsCovered(s: System)
    requires s.flow.unacked == []
    ensures CoverInv(s.flow, s.recorded, s.page)
  {
  }

  /** A page just registered has its job to end, and one just loaded is not registered. */
  lemma RegisterUnsettles(s: System, j: nat)
    requires j < |s.jobs| && s.jobs[j].Begun?
    ensures !Settled(RegisteredBy(s, j))
  {
    assert RegisteredBy(s, j).jobs[j].serial == s.jobs[j].serial;
  }

  lemma SubscribeUnsettles(s: System)
    ensures !Settled(s.(asked := true, jobs := s.jobs + [Begun(s.serial)]))
  {
    assert (s.jobs + [Begun(s.serial)])[|s.jobs|].serial == s.serial;
  }

  lemma ReloadUnsettles(s: System)
    requires JobsInv(s.jobs, s.registered, s.serial, s.asked)
    ensures !Settled(Reloaded(s))
  {
    assert s.registered != [] ==> s.registered[|s.registered| - 1] in s.registered;
  }

  lemma NewlySettledOwesNothing(c: Config, s: System, a: Action)
    requires !c.ackFirst && JobsInv(s.jobs, s.registered, s.serial, s.asked) && Enabled(c, s, a)
    requires (!Settled(s) || a.Reload?) && Settled(Apply(c, s, a))
    ensures Apply(c, s, a).flow.unacked == []
  {
    hide Delivered, Committed, AckBack, JobsInv;
    match a
    case Register(j) => RegisterUnsettles(s, j);
    case Reload => ReloadUnsettles(s);
    case Subscribe => SubscribeUnsettles(s);
    case _ =>
  }

  lemma BeginHolds(c: Config)
    ensures Inv(c, Begin())
  {
    var s := Begin();
    assert FlowInv(s.flow, c.backlog) && StrayInv(s.stray, s.flow.next) && PageInv(s.page, s.flow.next);
    assert JobsInv(s.jobs, s.registered, s.serial, s.asked);
    assert OrderInv(s) by {
      assert s.page.output + s.page.channel == [] && s.pending + s.recorded == [];
    }
    hide *;
    NothingIsCovered(s);
    assert Settled(s) ==> CoverInv(s.flow, s.recorded, s.page);
    InvIs(c, s);
  }

  lemma InvIs(c: Config, s: System)
    requires FlowInv(s.flow, c.backlog) && OrderInv(s) && PageInv(s.page, s.flow.next)
    requires JobsInv(s.jobs, s.registered, s.serial, s.asked) && StrayInv(s.stray, s.flow.next)
    requires Settled(s) ==> CoverInv(s.flow, s.recorded, s.page)
    ensures Inv(c, s)
  {
  }

  lemma {:induction false} ExecKeepsInv(c: Config, actions: seq<Action>)
    requires !c.ackFirst && Exec(c, Begin(), actions).Some?
    ensures Inv(c, Exec(c, Begin(), actions).value)
  {
    hide Apply, Enabled, Inv;
    if actions == [] {
      BeginHolds(c);
    } else {
      var last := |actions| - 1;
      ExecKeepsInv(c, actions[..last]);
      InvStep(c, Exec(c, Begin(), actions[..last]).value, actions[last]);
    }
  }

  lemma ReachableInv(c: Config, s: System)
    requires !c.ackFirst && Reachable(c, s)
    ensures Inv(c, s)
  {
    var actions :| Exec(c, Begin(), actions) == Some(s);
    ExecKeepsInv(c, actions);
  }

  // ---------------------------------------------------------------------------------------
  // No deadlock, no loss, no early acknowledgement
  // ---------------------------------------------------------------------------------------

  function PostCost(p: Page): nat {
    (match p.post case NoPost => 0 case Going(_) => 2 case Back(_) => 1)
    + (if !p.post.NoPost? && p.ack.drawn > p.post.number then 3 else 0)
  }

  function PageCost(p: Page): nat {
    8 * |p.channel| + 7 * |p.writing| + PostCost(p)
  }

  function JobCost(job: Job): nat {
    if job.Begun? then 2 else 1
  }

  function JobsCost(jobs: seq<Job>): nat {
    if jobs == [] then 0 else JobCost(jobs[0]) + JobsCost(jobs[1..])
  }

  /** How far the pane is from having nothing on its way: what every step of progress lowers. */
  function Distance(s: System): nat {
    10 * |s.recorded| + 9 * |s.pending| + PageCost(s.page) + |s.stray| + JobsCost(s.jobs)
    + if s.asked then 0 else 3
  }

  lemma {:induction false} JobsCostAppend(jobs: seq<Job>, job: Job)
    ensures JobsCost(jobs + [job]) == JobsCost(jobs) + JobCost(job)
  {
    if jobs == [] {
      assert jobs + [job] == [job];
    } else {
      assert (jobs + [job])[1..] == jobs[1..] + [job];
      JobsCostAppend(jobs[1..], job);
    }
  }

  lemma {:induction false} JobsCostFalls(jobs: seq<Job>, j: nat)
    requires j < |jobs|
    ensures JobsCost(Further(jobs, j)) + 1 == JobsCost(jobs)
  {
    var after := Further(jobs, j);
    if j == 0 {
      assert jobs[0].Begun? ==> after[1..] == jobs[1..];
      assert jobs[0].Halfway? ==> after == jobs[1..];
    } else {
      JobsCostFalls(jobs[1..], j - 1);
      assert after[0] == jobs[0] && after[1..] == Further(jobs[1..], j - 1);
    }
  }

  lemma PageCostFalls(p: Page, next: nat)
    requires PageInv(p, next)
    ensures p.channel != [] ==> PageCost(Delivered(p)) < PageCost(p)
    ensures p.writing != [] ==> PageCost(Committed(p)) < PageCost(p)
    ensures p.post.Going? ==> PageCost(AckTaken(p)) < PageCost(p)
    ensures p.post.Back? ==> PageCost(AckBack(p)) < PageCost(p)
  {
  }

  lemma PublishLowersDistance(s: System)
    requires s.recorded != []
    ensures Distance(Published(s)) < Distance(s)
  {
    hide JobsCost;
    assert PageCost(Published(s).page) <= PageCost(s.page) + 8;
  }

  lemma RegisterLowersDistance(s: System, j: nat)
    requires j < |s.jobs|
    ensures Distance(RegisteredBy(s, j)) < Distance(s)
  {
    JobsCostFalls(s.jobs, j);
    hide JobsCost, Further;
    assert PageCost(RegisteredBy(s, j).page) <= PageCost(s.page) + 8 * |s.pending|;
  }

  lemma ProgressLowersDistance(c: Config, s: System, a: Action)
    requires PageInv(s.page, s.flow.next) && Enabled(c, s, a) && Progress(a)
    ensures Distance(Apply(c, s, a)) < Distance(s)
  {
    hide PageInv, PageCost, JobsCost, Further, Delivered, Committed, AckTaken, AckBack, Published;
    match a
    case Publish => PublishLowersDistance(s);
    case Register(j) => RegisterLowersDistance(s, j);
    case Subscribe => JobsCostAppend(s.jobs, Begun(s.serial));
    case AckAll(j) => JobsCostFalls(s.jobs, j);
    case StrayArrives =>
    case _ => PageCostFalls(s.page, s.flow.next);
  }

  ghost predicate Quiet(c: Config, s: System) {
    forall a: Action :: Progress(a) ==> !Enabled(c, s, a)
  }

  /** A step of progress, where there is one. */
  function NextStep(s: System): Action {
    if s.jobs != [] then if s.jobs[0].Begun? then Register(0) else AckAll(0)
    else if !s.asked then Subscribe
    else if s.recorded != [] then Publish
    else if s.page.channel != [] then Deliver
    else if s.page.writing != [] then Commit
    else if s.page.post.Going? then AckArrives
    else if s.stray != [] then StrayArrives
    else AckAnswered
  }

  lemma NextStepIsProgress(c: Config, s: System)
    requires !c.ackFirst
    ensures Progress(NextStep(s))
    ensures Quiet(c, s) <==> !Enabled(c, s, NextStep(s))
  {
  }

  /** While anything is owed and no older page was registered last, some step of progress can be taken. */
  lemma OwedMeansProgress(c: Config, s: System, o: Owed)
    requires !c.ackFirst && Inv(c, s) && !Overtaken(s) && o in s.flow.unacked
    ensures !Quiet(c, s)
  {
    hide FlowInv, OrderInv;
    NextStepIsProgress(c, s);
    if s.jobs == [] && s.asked {
      assert Settled(s);
      assert Covered(s.page, s.recorded, o.number) && Unanswered(s.page, o.number);
    }
  }

  /** Where nothing is on its way any more, nothing is owed: the whole window is free. */
  lemma QuietOwesNothing(c: Config, s: System)
    requires !c.ackFirst && Reachable(c, s) && Quiet(c, s) && !Overtaken(s)
    ensures s.flow.unacked == [] && s.flow.bytes == 0
  {
    ReachableInv(c, s);
    if s.flow.unacked != [] {
      OwedMeansProgress(c, s, s.flow.unacked[0]);
    }
  }

  /**
   In every reachable state the host holds, progress can be made, unless a page that has gone was
   registered after the one there now.
   */
  lemma HeldPaneIsFreed(c: Config, s: System)
    requires c.backlog > 0 && !c.ackFirst && Reachable(c, s) && Held(c, s) && !Overtaken(s)
    ensures exists a: Action :: Progress(a) && Enabled(c, s, a)
  {
    ReachableInv(c, s);
    OwedMeansProgress(c, s, s.flow.unacked[0]);
  }

  /**
   And the progress ends: from a reachable state, however its steps are ordered, no more of them are
   taken than the state's distance, and where no more can be, the pane's whole window is free, unless a
   page that has gone was registered last.
   */
  lemma {:induction false} ProgressEndsFree(c: Config, s: System, actions: seq<Action>)
    requires c.backlog > 0 && !c.ackFirst && Reachable(c, s)
    requires Exec(c, s, actions).Some? && forall a :: a in actions ==> Progress(a)
    ensures Reachable(c, Exec(c, s, actions).value)
    ensures |actions| + Distance(Exec(c, s, actions).value) <= Distance(s)
    ensures var t := Exec(c, s, actions).value;
            Quiet(c, t) && !Overtaken(t) ==> !Held(c, t) && t.flow.unacked == []
  {
    hide Distance, Apply, Enabled, Inv, PageInv;
    var t := Exec(c, s, actions).value;
    if actions != [] {
      var last := |actions| - 1;
      ProgressEndsFree(c, s, actions[..last]);
      var before := Exec(c, s, actions[..last]).value;
      ReachablePage(c, before);
      ProgressLowersDistance(c, before, actions[last]);
      ReachesFurther(c, before, actions[last]);
    }
    if Quiet(c, t) && !Overtaken(t) {
      QuietOwesNothing(c, t);
    }
  }

  lemma ReachablePage(c: Config, s: System)
    requires !c.ackFirst && Reachable(c, s)
    ensures PageInv(s.page, s.flow.next)
  {
    ReachableInv(c, s);
  }

  lemma ReachesFurther(c: Config, s: System, a: Action)
    requires Reachable(c, s) && Enabled(c, s, a)
    ensures Reachable(c, Apply(c, s, a))
  {
    hide Apply, Enabled;
    var actions :| Exec(c, Begin(), actions) == Some(s);
    ExecOneMore(c, Begin(), actions, a);
  }

  lemma ExecOneMore(c: Config, s: System, actions: seq<Action>, a: Action)
    requires Exec(c, s, actions).Some? && Enabled(c, Exec(c, s, actions).value, a)
    ensures Exec(c, s, actions + [a]) == Some(Apply(c, Exec(c, s, actions).value, a))
  {
    hide Apply, Enabled;
    assert (actions + [a])[..|actions|] == actions;
  }

  // ---------------------------------------------------------------------------------------
  // When a pane is held for good
  // ---------------------------------------------------------------------------------------

  /** `actions` lead, with the page staying, to a pane that is held and nothing on its way to free it. */
  ghost predicate Strands(c: Config, s: System, actions: seq<Action>) {
    && (forall a :: a in actions ==> !a.Reload?)
    && Exec(c, s, actions).Some?
    && Held(c, Exec(c, s, actions).value) && Quiet(c, Exec(c, s, actions).value)
  }

  /** No page that has gone is registered after the one there now, or is to be. */
  ghost predicate Orderly(s: System) {
    !Overtaken(s) && !OlderToCome(s)
  }

  /** Where an older page is still to be registered, it was before. */
  lemma OlderWasToCome(c: Config, s: System, a: Action)
    requires Enabled(c, s, a) && !a.Reload? && OlderToCome(Apply(c, s, a))
    ensures OlderToCome(s)
  {
    var t := Apply(c, s, a);
    var j :| 0 <= j < |t.jobs| && t.jobs[j].Begun? && t.jobs[j].serial < t.serial;
    var i := if |t.jobs| < |s.jobs| && j >= a.job then j + 1 else j;
    assert s.jobs[i] == t.jobs[j];
  }

  lemma OrderlyStays(c: Config, s: System, a: Action)
    requires !c.ackFirst && JobsInv(s.jobs, s.registered, s.serial, s.asked)
    requires Orderly(s) && Enabled(c, s, a) && !a.Reload?
    ensures Orderly(Apply(c, s, a))
  {
    var t := Apply(c, s, a);
    if OlderToCome(t) {
      OlderWasToCome(c, s, a);
    }
  }

  lemma {:induction false} OrderlyThroughout(c: Config, s: System, actions: seq<Action>)
    requires !c.ackFirst && Reachable(c, s) && Orderly(s)
    requires Exec(c, s, actions).Some? && forall a :: a in actions ==> !a.Reload?
    ensures Reachable(c, Exec(c, s, actions).value) && Orderly(Exec(c, s, actions).value)
  {
    hide Apply, Enabled, Orderly, JobsInv;
    if actions != [] {
      var last := |actions| - 1;
      OrderlyThroughout(c, s, actions[..last]);
      var before := Exec(c, s, actions[..last]).value;
      ReachableJobs(c, before);
      OrderlyStays(c, before, actions[last]);
      ReachesFurther(c, before, actions[last]);
    }
  }

  lemma ReachableJobs(c: Config, s: System)
    requires !c.ackFirst && Reachable(c, s)
    ensures JobsInv(s.jobs, s.registered, s.serial, s.asked)
  {
    ReachableInv(c, s);
  }

  /** The next step that brings an older page's registration past the one there now. */
  lemma TowardsOvertaken(c: Config, s: System) returns (a: Action)
    requires !c.ackFirst && JobsInv(s.jobs, s.registered, s.serial, s.asked)
    requires !Overtaken(s) && OlderToCome(s)
    ensures Progress(a) && Enabled(c, s, a)
    ensures !Orderly(Apply(c, s, a))
  {
    var older :| 0 <= older < |s.jobs| && s.jobs[older].Begun? && s.jobs[older].serial < s.serial;
    if !s.asked {
      a := Subscribe;
      assert Apply(c, s, a).jobs[older] == s.jobs[older];
    } else if s.serial !in s.registered {
      var own :| 0 <= own < |s.jobs| && s.jobs[own] == Begun(s.serial);
      a := Register(own);
      assert Apply(c, s, a).jobs[older] == s.jobs[older];
    } else {
      a := Register(older);
    }
  }

  /** Overtaken, a page stays so. */
  lemma OvertakenStays(c: Config, s: System, a: Action)
    requires !c.ackFirst && JobsInv(s.jobs, s.registered, s.serial, s.asked)
    requires Overtaken(s) && Enabled(c, s, a) && !a.Reload?
    ensures Overtaken(Apply(c, s, a))
  {
  }

  lemma QuietIs(c: Config, s: System)
    requires !c.ackFirst
    ensures Quiet(c, s) <==>
      && s.jobs == [] && s.asked && s.recorded == [] && s.stray == []
      && s.page.channel == [] && s.page.writing == [] && s.page.post.NoPost?
  {
    NextStepIsProgress(c, s);
  }

  /** Overtaken and with nothing on its way, a pane prints to no page until it is held. */
  lemma FillWindow(c: Config, s: System, done: seq<Action>, t: System) returns (actions: seq<Action>)
    requires c.backlog > 0 && !c.ackFirst && Exec(c, s, done) == Some(t)
    requires (forall a :: a in done ==> !a.Reload?) && Overtaken(t) && Quiet(c, t)
    ensures Strands(c, s, actions)
    decreases c.backlog - t.flow.bytes
  {
    if Held(c, t) {
      actions := done;
    } else {
      var size := Min(c.backlog - t.flow.bytes, MAX_CHUNK_BYTES);
      QuietIs(c, t);
      ExecOneMore(c, s, done, Print(size));
      var printed := Apply(c, t, Print(size));
      ExecOneMore(c, s, done + [Print(size)], Publish);
      var published := Apply(c, printed, Publish);
      assert published == t.(flow := printed.flow);
      QuietIs(c, published);
      actions := FillWindow(c, s, done + [Print(size)] + [Publish], published);
    }
  }

  lemma Strand(c: Config, s: System, done: seq<Action>, t: System) returns (actions: seq<Action>)
    requires c.backlog > 0 && !c.ackFirst && Reachable(c, t) && Exec(c, s, done) == Some(t)
    requires (forall a :: a in done ==> !a.Reload?) && !Orderly(t)
    ensures Strands(c, s, actions)
    decreases Distance(t)
  {
    hide Distance, Apply, Enabled, PageInv, JobsInv, Overtaken, OlderToCome;
    ReachableJobs(c, t);
    ReachablePage(c, t);
    if Overtaken(t) && Quiet(c, t) {
      actions := FillWindow(c, s, done, t);
    } else {
      var a: Action;
      if Overtaken(t) {
        NextStepIsProgress(c, t);
        a := NextStep(t);
        OvertakenStays(c, t, a);
      } else {
        a := TowardsOvertaken(c, t);
      }
      ProgressLowersDistance(c, t, a);
      ReachesFurther(c, t, a);
      ExecOneMore(c, s, done, a);
      actions := Strand(c, s, done + [a], Apply(c, t, a));
    }
  }

  /**
   While a page stays, its pane can come to be held for good exactly when a page before it was
   registered after it, or can still be. A new page frees it again.
   */
  lemma HeldForGoodExactlyWhen(c: Config, s: System)
    requires c.backlog > 0 && !c.ackFirst && Reachable(c, s)
    ensures (exists actions :: Strands(c, s, actions)) <==> Overtaken(s) || OlderToCome(s)
  {
    if Orderly(s) {
      forall actions | Strands(c, s, actions)
        ensures false
      {
        OrderlyThroughout(c, s, actions);
        HeldPaneIsFreed(c, Exec(c, s, actions).value);
      }
    } else {
      assert Exec(c, s, []) == Some(s);
      var actions := Strand(c, s, [], s);
    }
  }

  /** The window is never overrun, and no acknowledgement asked of the host is one it refuses. */
  lemma WindowIsNeverOverrun(c: Config, s: System)
    requires !c.ackFirst && Reachable(c, s)
    ensures Total(s.flow.unacked) == s.flow.bytes <= c.backlog
    ensures s.page.post.Going? ==> s.page.post.number < s.flow.next
    ensures forall i :: 0 <= i < |s.stray| ==> s.stray[i] < s.flow.next
  {
    ReachableInv(c, s);
  }

  /**
   A page is handed a pane's messages with none lost, repeated or out of order from the first it is
   handed on; and up to the last the host has numbered, unless a page that has gone was registered last.
   */
  lemma OutputIsWhole(c: Config, s: System)
    requires !c.ackFirst && Reachable(c, s) && s.page.output != []
    ensures forall i :: 0 <= i < |s.page.output| ==> s.page.output[i] == s.page.output[0] + i
    ensures s.page.channel == [] && s.recorded == [] && !Overtaken(s) ==>
              s.page.output[|s.page.output| - 1] == s.flow.next - 1
  {
    ReachableInv(c, s);
    var all := s.page.output + s.page.channel;
    assert forall i :: 0 <= i < |s.page.output| ==> all[i] == s.page.output[i];
    if s.page.channel == [] && s.recorded == [] && !Overtaken(s) {
      assert Stream(s.page, s.recorded) == s.page.output;
    }
  }

  /** The page there now was the first of all to be registered. */
  predicate IsFirst(s: System) {
    s.registered != [] && s.registered[0] == s.serial
  }

  predicate StartsAtOne(numbers: seq<nat>) {
    numbers != [] ==> numbers[0] == 1
  }

  /** What was printed before any page was registered waits whole, and is the first page's. */
  ghost predicate FirstInv(s: System) {
    && (s.registered == [] ==> |s.pending + s.recorded| == s.flow.next - 1)
    && (IsFirst(s) && Sink(s.registered) == Some(s.serial) ==>
          |Stream(s.page, s.recorded)| == s.flow.next - 1)
    && (IsFirst(s) ==> StartsAtOne(s.page.output + s.page.channel))
  }

  lemma RunStartsAtOne(numbers: seq<nat>, rest: seq<nat>, next: nat)
    requires RunsTo(numbers + rest, next) && |numbers + rest| == next - 1
    ensures StartsAtOne(numbers)
  {
    if numbers != [] {
      assert (numbers + rest)[0] == numbers[0];
    }
  }

  lemma FirstPublish(s: System)
    requires OrderInv(s) && FirstInv(s) && s.recorded != []
    ensures FirstInv(Published(s))
  {
    hide RunsTo, Whole, StartsAtOne;
    var t := Published(s);
    OrderPublish(s);
    if s.registered == [] {
      assert t.pending + t.recorded == s.pending + s.recorded;
    } else if Sink(s.registered) == Some(s.serial) {
      assert Stream(t.page, t.recorded) == Stream(s.page, s.recorded);
      if IsFirst(s) {
        RunStartsAtOne(t.page.output + t.page.channel, t.recorded, t.flow.next);
      }
    }
  }

  lemma FirstRegister(s: System, j: nat)
    requires OrderInv(s) && FirstInv(s) && JobsInv(s.jobs, s.registered, s.serial, s.asked)
    requires j < |s.jobs| && s.jobs[j].Begun?
    ensures FirstInv(RegisteredBy(s, j))
  {
    hide RunsTo, Whole, StartsAtOne;
    var t := RegisteredBy(s, j);
    OrderRegister(s, j);
    if s.jobs[j].serial == s.serial {
      assert Stream(t.page, t.recorded) == s.pending + s.recorded;
      if s.registered == [] {
        RunStartsAtOne(t.page.output + t.page.channel, t.recorded, t.flow.next);
      }
    } else if s.registered != [] {
      assert t.registered[0] == s.registered[0];
    }
  }

  lemma FirstStep(c: Config, s: System, a: Action)
    requires !c.ackFirst && Inv(c, s) && FirstInv(s) && Enabled(c, s, a)
    ensures FirstInv(Apply(c, s, a))
  {
    hide RunsTo, Whole, StartsAtOne, CoverInv, PageInv, FlowInv, StrayInv, OrderInv, Later, DrawnTo, AnsweredTo;
    match a
    case Publish => FirstPublish(s);
    case Register(j) => FirstRegister(s, j);
    case Deliver =>
      var q := Delivered(s.page);
      assert s.page.channel == [s.page.channel[0]] + s.page.channel[1..];
      assert q.output + q.channel == s.page.output + s.page.channel;
    case Reload => assert s.registered != [] ==> s.registered[0] in s.registered;
    case _ =>
  }

  lemma {:induction false} ExecKeepsFirst(c: Config, actions: seq<Action>)
    requires !c.ackFirst && Exec(c, Begin(), actions).Some?
    ensures FirstInv(Exec(c, Begin(), actions).value)
  {
    hide Apply, Enabled, Inv;
    if actions != [] {
      var last := |actions| - 1;
      ExecKeepsFirst(c, actions[..last]);
      ExecKeepsInv(c, actions[..last]);
      FirstStep(c, Exec(c, Begin(), actions[..last]).value, actions[last]);
    }
  }

  lemma ReachableFirst(c: Config, s: System)
    requires !c.ackFirst && Reachable(c, s)
    ensures FirstInv(s)
  {
    hide FirstInv, Exec;
    var actions :| Exec(c, Begin(), actions) == Some(s);
    ExecKeepsFirst(c, actions);
  }

  /**
   The first page registered is handed a pane's output from its first message on, what was printed before
   it was there too; and while no other is registered, all of it.
   */
  lemma FirstPageIsHandedAll(c: Config, s: System)
    requires !c.ackFirst && Reachable(c, s) && IsFirst(s)
    ensures forall i :: 0 <= i < |s.page.output| ==> s.page.output[i] == i + 1
    ensures |s.registered| == 1 && s.page.channel == [] && s.recorded == [] ==>
              |s.page.output| == s.flow.next - 1
  {
    ReachableFirst(c, s);
    hide Reachable;
    if s.page.output != [] {
      OutputIsWhole(c, s);
      assert (s.page.output + s.page.channel)[0] == s.page.output[0];
    }
  }

  /** The acknowledgements on their way to the host: the page's own, and those of pages that have gone. */
  function OnTheirWay(stray: seq<nat>, post: Post): multiset<nat> {
    multiset(stray) + if post.Going? then multiset{post.number} else multiset{}
  }

  /** The acknowledgement a step takes in at the host, if it takes one. */
  function TakenIn(s: System, a: Action): Option<nat>
    requires a.AckArrives? ==> s.page.post.Going?
    requires a.StrayArrives? ==> s.stray != []
  {
    if a.AckArrives? then Some(s.page.post.number)
    else if a.StrayArrives? then Some(s.stray[0])
    else None
  }

  /** What a page asked and the host has not taken, it goes on asking. */
  lemma AskedStaysAsked(p: Page, next: nat)
    requires PageInv(p, next) && p.post.Going?
    ensures p.channel != [] ==> Delivered(p).post == p.post
    ensures p.writing != [] ==> Committed(p).post == p.post
  {
  }

  /** Where a step leaves what was asked: only a reload adds a stray, only its arrival takes one. */
  lemma StepLeavesPosts(c: Config, s: System, a: Action)
    requires PageInv(s.page, s.flow.next) && Enabled(c, s, a)
    ensures var t := Apply(c, s, a);
            && (!a.Reload? && !a.StrayArrives? ==> t.stray == s.stray)
            && (a.StrayArrives? ==> t.stray == s.stray[1..] && t.page.post == s.page.post)
            && (a.AckArrives? ==> s.page.post.Going? && t.page.post.Back?)
            && (a.Reload? ==> t.page.post.NoPost?)
            && (a.Reload? ==> t.stray == if s.page.post.Going? then s.stray + [s.page.post.number] else s.stray)
            && (a.AckAnswered? ==> !s.page.post.Going?)
            && ((a.Commit? || a.Deliver?) && s.page.post.Going? ==> t.page.post == s.page.post)
            && (!a.Reload? && !a.AckArrives? && !a.Commit? && !a.Deliver? && !a.AckAnswered? ==>
                  t.page.post == s.page.post)
  {
    if s.page.post.Going? {
      AskedStaysAsked(s.page, s.flow.next);
    }
    hide PageInv, Later, Delivered, Committed, AckBack;
  }

  lemma OneStray(stray: seq<nat>, number: nat, post: Post)
    ensures OnTheirWay(stray + [number], NoPost) == OnTheirWay(stray, Going(number))
    ensures stray != [] ==> OnTheirWay(stray, post) == OnTheirWay(stray[1..], post) + multiset{stray[0]}
  {
    if stray != [] {
      assert stray == [stray[0]] + stray[1..];
    }
  }

  lemma TakenFromPage(stray: seq<nat>, number: nat)
    ensures OnTheirWay(stray, Going(number)) == OnTheirWay(stray, Back(number)) + multiset{number}
  {
  }

  lemma MoreOnTheirWay(stray: seq<nat>, post: Post, later: Post)
    requires !post.Going? || later == post
    ensures OnTheirWay(stray, post) <= OnTheirWay(stray, later)
    ensures !post.Going? && !later.Going? ==> OnTheirWay(stray, post) == OnTheirWay(stray, later)
  {
  }

  /** No acknowledgement is lost or made up on its way, though its page goes: it stays until the host takes it. */
  lemma AcksAreConserved(c: Config, s: System, a: Action)
    requires !c.ackFirst && Reachable(c, s) && Enabled(c, s, a)
    ensures var t, taken := Apply(c, s, a), TakenIn(s, a);
            var was, now := OnTheirWay(s.stray, s.page.post), OnTheirWay(t.stray, t.page.post);
            var asked := a.Commit? || a.Deliver? || a.AckAnswered?;
            && (taken.Some? ==> was == now + multiset{taken.value})
            && (taken.None? && !asked ==> now == was)
            && (asked ==> was <= now)
  {
    ReachablePage(c, s);
    StepLeavesPosts(c, s, a);
    var t := Apply(c, s, a);
    var post, now := s.page.post, t.page.post;
    OneStray(s.stray, if post.Going? then post.number else 0, post);
    if a.AckArrives? {
      assert now == Back(post.number);
      TakenFromPage(s.stray, post.number);
    } else if !a.StrayArrives? && (a.Commit? || a.Deliver? || a.AckAnswered?) {
      MoreOnTheirWay(s.stray, post, now);
    } else if a.Reload? && !post.Going? {
      MoreOnTheirWay(s.stray, post, now);
    }
    hide *;
  }

  /** The host frees just what is up to the number it takes in; else only a page taking over frees any. */
  lemma FreedExactly(c: Config, s: System, a: Action)
    requires !c.ackFirst && Reachable(c, s) && Enabled(c, s, a) && !a.AckAll?
    ensures var t, taken := Apply(c, s, a), TakenIn(s, a);
            forall o :: o in s.flow.unacked ==>
              (o in t.flow.unacked <==> taken.None? || o.number > taken.value)
  {
    ReachableInv(c, s);
    hide Reachable, Later, JobsInv, OrderInv, CoverInv, Delivered, Committed, AckBack;
    match a
    case AckArrives => LaterIsExactlyWhatIsPast(s.flow.unacked, s.page.post.number);
    case StrayArrives => LaterIsExactlyWhatIsPast(s.flow.unacked, s.stray[0]);
    case _ =>
  }

  /** What the page newly asks the host to free is up to the last message drawn, whatever was asked before. */
  lemma AsksUpToTheLastDrawn(c: Config, s: System, a: Action)
    requires !c.ackFirst && Reachable(c, s) && Enabled(c, s, a)
    ensures var was, page := s.page, Apply(c, s, a).page;
            && (page.post.Going? && page.post != was.post ==>
                  page.post.number == page.ack.drawn > was.ack.sent)
            && (a.Commit? ==> page.ack.drawn >= was.writing[0])
            && (a.Deliver? && was.retired ==> page.ack.drawn >= was.channel[0])
  {
    ReachablePage(c, s);
  }

  /**
   A live pane's page acknowledges its output only once it is drawn: the acknowledgement on its way
   covers none of what its emulator still holds or is yet to be handed.
   */
  lemma NothingUndrawnIsAcknowledged(c: Config, s: System, number: nat)
    requires !c.ackFirst && Reachable(c, s) && !s.page.retired && s.page.post.Going?
    requires number in s.page.writing || number in s.page.channel || number in s.recorded
    ensures s.page.post.number < number
  {
    ReachableInv(c, s);
    var p := s.page;
    if number !in p.writing {
      var all := p.output + p.channel;
      var i :| 0 <= i < |p.output| && p.output[i] == p.ack.drawn;
      assert all[i] == p.ack.drawn;
      if number in p.channel {
        var j :| 0 <= j < |p.channel| && p.channel[j] == number;
        assert all[|p.output| + j] == number;
      }
    }
  }

  // ---------------------------------------------------------------------------------------
  // Two orders that strand a pane
  // ---------------------------------------------------------------------------------------

  /**
   A page's task that registers it late, once the next page is registered and all is acknowledged, takes
   the output to the page that has gone: a window of it holds the pane.
   */
  lemma LateRegistrationStrandsAPane(backlog: nat)
    requires 1 <= backlog <= MAX_CHUNK_BYTES
    ensures exists s :: Reachable(Config(backlog, false), s) && Held(Config(backlog, false), s)
                        && Quiet(Config(backlog, false), s)
  {
    var c := Config(backlog, false);
    var s := TwoPages(c);
    s := LateRegistration(c, s);
    s := Take(c, s, Print(backlog));
    s := Take(c, s, Publish);
    assert s == System(Flow(2, [Owed(1, backlog)], backlog), [], [], [1, 0], 1, true, [], [], NEW_PAGE);
    QuietIs(c, s);
  }

  /** The second page registered and all acknowledged, the first one's task only begun. */
  lemma TwoPages(c: Config) returns (s: System)
    requires !c.ackFirst
    ensures Reachable(c, s)
    ensures s == System(Flow(1, [], 0), [], [], [1], 1, true, [Begun(0)], [], NEW_PAGE)
  {
    s := Begin();
    assert Exec(c, s, []) == Some(s);
    s := Take(c, s, Subscribe);
    s := Take(c, s, Reload);
    s := Take(c, s, Subscribe);
    s := Take(c, s, Register(1));
    s := Take(c, s, AckAll(1));
  }

  lemma LateRegistration(c: Config, s: System) returns (t: System)
    requires !c.ackFirst && Reachable(c, s)
    requires s == System(Flow(1, [], 0), [], [], [1], 1, true, [Begun(0)], [], NEW_PAGE)
    ensures Reachable(c, t)
    ensures t == System(Flow(1, [], 0), [], [], [1, 0], 1, true, [], [], NEW_PAGE)
  {
    t := Take(c, s, Register(0));
    t := Take(c, t, AckAll(0));
  }

  /**
   Why everything is acknowledged after the new page is registered: the other way round, what is
   printed between the two goes to the page that has gone, and a window of it holds the pane for
   good, though the new page is the last registered. One page, then a reload; the new page subscribes,
   and the window fills before it is registered.
   */
  lemma AckAllFirstWouldStrandAPane(backlog: nat)
    requires 1 <= backlog <= MAX_CHUNK_BYTES
    ensures exists s :: Reachable(Config(backlog, true), s) && Held(Config(backlog, true), s)
                        && Quiet(Config(backlog, true), s) && !Overtaken(s)
  {
    var c := Config(backlog, true);
    var s := Reloads(c);
    s := Take(c, s, Print(backlog));
    assert s == System(Flow(2, [Owed(1, backlog)], backlog), [1], [], [0], 1, true,
                       [Halfway(1)], [], NEW_PAGE);
    s := Take(c, s, Publish);
    s := Take(c, s, Register(0));
    assert s == System(Flow(2, [Owed(1, backlog)], backlog), [], [], [0, 1], 1, true,
                       [], [], NEW_PAGE);
    assert Held(c, s) && Quiet(c, s);
  }

  /** A second page halfway through subscribing, nothing printed yet. */
  lemma Reloads(c: Config) returns (s: System)
    requires c.ackFirst
    ensures Reachable(c, s)
    ensures s == System(Flow(1, [], 0), [], [], [0], 1, true, [Halfway(1)], [], NEW_PAGE)
  {
    s := Begin();
    assert Exec(c, s, []) == Some(s);
    s := Take(c, s, Subscribe);
    s := Take(c, s, AckAll(0));
    s := Take(c, s, Register(0));
    assert s == System(Flow(1, [], 0), [], [], [0], 0, true, [], [], NEW_PAGE);
    s := Take(c, s, Reload);
    s := Take(c, s, Subscribe);
    s := Take(c, s, AckAll(0));
  }

  lemma Take(c: Config, s: System, a: Action) returns (t: System)
    requires Reachable(c, s) && Enabled(c, s, a)
    ensures t == Apply(c, s, a) && Reachable(c, t)
  {
    t := Apply(c, s, a);
    ReachesFurther(c, s, a);
  }
}
