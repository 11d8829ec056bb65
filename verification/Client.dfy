// The multiplexing RPC client (crates/repomon-core/src/client.rs).
//
// Many calls share one connection. `State` holds the fields of the client, the tasks that are
// inside `call`, and the connections; `Next` is one atomic step of one task, of a connection's
// reader or of its writer. A step that is not possible leaves the state unchanged.
module Client {
  import opened Prelude
  import Text

  // ---------------------------------------------------------------- requests

  // The parts of a request's JSON parameters that the client reads; `rest` is everything else.
  datatype Params = Params(window: Option<string>, lane: Option<int>, on: Option<bool>, rest: nat)

  datatype Method = Subscribe | WatchBytes | TranscriptWatch | Other(name: string)

  datatype Request = Request(verb: Method, params: Option<Params>)

  datatype Response = Response(id: nat, error: bool, body: nat)

  function LaneName(lane: int): string {
    "lane-" + if lane < 0 then "-" + Text.Decimal(-lane) else Text.Decimal(lane)
  }

  // The registry key of a watch: its window, or a name made from its lane.
  function WatchKey(p: Params): string {
    if p.window.Some? then p.window.value
    else LaneName(if p.lane.Some? then p.lane.value else -1)
  }

  type Registry = map<string, Params>

  predicate IsOn(m: Method, p: Params) {
    if p.on.Some? then p.on.value else m == TranscriptWatch
  }

  // What a successful watch request of method `m` does to the registry of that method.
  function Recorded(r: Registry, m: Method, p: Params): Registry {
    if IsOn(m, p) then r[WatchKey(p) := p]
    else if p.window.Some? then r - {p.window.value}
    else if p.lane.Some? then map k | k in r && r[k].lane != p.lane :: r[k]
    else r
  }

  // ---------------------------------------------------------------- the client's state

  // Who drew a request id (history).
  datatype Origin = FromCall(call: nat) | FromReplay(call: nat)

  datatype Sent = Sent(epoch: nat, id: nat, origin: Origin, request: Request)

  // What the one-shot channel of a request id has been given.
  datatype Mail = Answered(response: Response) | Dropped

  datatype Outcome =
    | Returned(response: Response) | Refused(response: Response)
    | TimedOut | Disconnected | ConnectFailed

  // Where a task is inside `call`; `attempt` is 0 or 1.
  datatype Phase =
    | Start(attempt: nat)
    | WantsLock(attempt: nat)
    | HasLock(attempt: nat)
    | Swapped(attempt: nat)                            // new channel in place, about to set the flag
    | Marked(attempt: nat)                             // about to raise the epoch
    | Subscribing(attempt: nat)                        // connection installed, replay begins
    | Copying(attempt: nat, kind: Method)              // about to copy a watch registry
    | Replaying(attempt: nat, kind: Method, values: seq<Params>, next: nat)
    | Ready(attempt: nat)                              // about to draw an id
    | Registered(attempt: nat, id: nat)                // pending, about to clone the sender
    | Sending(attempt: nat, id: nat, epoch: nat)       // about to enqueue on that connection
    | Waiting(attempt: nat, id: nat)
    | Finished(outcome: Outcome)
  {
    predicate Installing() { Swapped? || Marked? }

    predicate Reconnecting() { HasLock? || Installing() || Subscribing? || Copying? || Replaying? }

    predicate Owns(n: nat) { (Registered? || Sending? || Waiting?) && id == n }
  }

  datatype Task = Task(request: Request, phase: Phase)

  // Ids and frames: every enqueued frame, oldest first, and who drew each id (history).
  datatype Wire = Wire(nextId: nat, sent: seq<Sent>, drawn: map<nat, Origin>)

  // Request ids with their waiting task, and the mail delivered so far.
  datatype Inbox = Inbox(pending: map<nat, nat>, mail: map<nat, Mail>)

  // Connections are numbered. `out` is the one whose channel takes frames and `epoch` the one whose
  // reader is current; then the reconnect lock and the I/O tasks that have ended. A reader that
  // ended as the current one is about to clear the flag, and then to drop the pending calls.
  datatype Link = Link(
    connected: bool, epoch: nat, out: nat, lock: Option<nat>, deadWriters: set<nat>, deadReaders: set<nat>,
    clearing: set<nat>, dropping: set<nat>)

  // What a reconnect replays, and every request answered without error so far (history).
  datatype Memory = Memory(
    subscribed: Option<Option<Params>>, bytes: Registry, transcripts: Registry, succeeded: seq<Request>)

  // History of the readers: those that were the current one when they ended, and for those that
  // have cleaned up, the next id at that time.
  datatype Past = Past(current: set<nat>, drops: map<nat, nat>)

  datatype State = State(
    wire: Wire, inbox: Inbox, link: Link, memory: Memory, tasks: map<nat, Task>, past: Past)

  const INITIAL :=
    State(Wire(1, [], map[]), Inbox(map[], map[]), Link(true, 1, 1, None, {}, {}, {}, {}),
          Memory(None, map[], map[], []), map[], Past({}, map[]))

  datatype Action =
    | Begin(call: nat, request: Request)
    | Advance(call: nat)                               // the task's next step, where it has one
    | Reconnect(call: nat, reachable: bool)
    | Copy(call: nat, order: seq<string>)
    | Timeout(call: nat)
    | Deliver(epoch: nat, response: Response)
    | ReaderEnds(epoch: nat)
    | ReaderClears(epoch: nat)
    | ReaderDrops(epoch: nat)
    | WriterDies(epoch: nat)

  function InPhase(s: State, c: nat, phase: Phase): State
    requires c in s.tasks
  {
    s.(tasks := s.tasks[c := s.tasks[c].(phase := phase)])
  }

  function RegistryOf(m: Memory, kind: Method): Registry {
    if kind == TranscriptWatch then m.transcripts else m.bytes
  }

  function Drew(w: Wire, origin: Origin): Wire {
    w.(nextId := w.nextId + 1, drawn := w.drawn[w.nextId := origin])
  }

  // Draw an id for a replayed request and enqueue it on connection `epoch`; a dead writer loses
  // it silently.
  function ReplayOne(w: Wire, epoch: nat, dead: bool, c: nat, request: Request): Wire {
    var drew := Drew(w, FromReplay(c));
    if dead then drew else drew.(sent := w.sent + [Sent(epoch, w.nextId, FromReplay(c), request)])
  }

  function Replayed(s: State, c: nat, request: Request): State {
    s.(wire := ReplayOne(s.wire, s.link.out, s.link.out in s.link.deadWriters, c, request))
  }

  // The next attempt, or the end of the call after the second.
  function Retry(s: State, c: nat, attempt: nat): State
    requires c in s.tasks
  {
    InPhase(s, c, if attempt == 0 then Start(1) else Finished(Disconnected)).(
      link := s.link.(connected := false))
  }

  function RegisterStep(s: State, c: nat, attempt: nat): State
    requires c in s.tasks
  {
    var id := s.wire.nextId;
    InPhase(s, c, Registered(attempt, id)).(
      inbox := s.inbox.(pending := s.inbox.pending[id := c]),
      wire := Drew(s.wire, FromCall(c)))
  }

  function EnqueueStep(s: State, c: nat, attempt: nat, id: nat, epoch: nat): State
    requires c in s.tasks
  {
    if epoch in s.link.deadWriters then
      Retry(s, c, attempt).(inbox := s.inbox.(pending := s.inbox.pending - {id}))
    else
      InPhase(s, c, Waiting(attempt, id)).(
        wire := s.wire.(sent := s.wire.sent + [Sent(epoch, id, FromCall(c), s.tasks[c].request)]))
  }

  // A successful answer is remembered: the subscription, or the watch.
  function Remember(m: Memory, r: Request): Memory {
    var m' := m.(succeeded := m.succeeded + [r]);
    match r.verb
    case Subscribe => m'.(subscribed := Some(r.params))
    case WatchBytes =>
      if r.params.Some? then m'.(bytes := Recorded(m.bytes, WatchBytes, r.params.value)) else m'
    case TranscriptWatch =>
      if r.params.Some? then m'.(transcripts := Recorded(m.transcripts, TranscriptWatch, r.params.value))
      else m'
    case Other(_) => m'
  }

  function ResumeStep(s: State, c: nat, attempt: nat, id: nat): State
    requires c in s.tasks && id in s.inbox.mail
  {
    match s.inbox.mail[id]
    case Dropped => Retry(s, c, attempt)
    case Answered(r) =>
      if r.error then InPhase(s, c, Finished(Refused(r)))
      else InPhase(s, c, Finished(Returned(r))).(memory := Remember(s.memory, s.tasks[c].request))
  }

  function LockStep(s: State, c: nat, attempt: nat): State
    requires c in s.tasks
  {
    if s.link.lock.None? then InPhase(s, c, HasLock(attempt)).(link := s.link.(lock := Some(c))) else s
  }

  // The recorded subscription goes first onto a new connection.
  function SubscribeStep(s: State, c: nat, attempt: nat): State
    requires c in s.tasks
  {
    var recorded := s.memory.subscribed;
    InPhase(if recorded.Some? then Replayed(s, c, Request(Subscribe, recorded.value)) else s,
            c, Copying(attempt, WatchBytes))
  }

  function ReplayStep(s: State, c: nat, attempt: nat, kind: Method, values: seq<Params>, next: nat): State
    requires c in s.tasks
  {
    if next < |values| then
      InPhase(Replayed(s, c, Request(kind, Some(values[next]))), c, Replaying(attempt, kind, values, next + 1))
    else if kind == WatchBytes then InPhase(s, c, Copying(attempt, TranscriptWatch))
    else InPhase(s, c, Ready(attempt)).(link := s.link.(lock := None))
  }

  function AdvanceStep(s: State, c: nat): State {
    if c !in s.tasks then s
    else
      match s.tasks[c].phase
      case Start(a) => InPhase(s, c, if s.link.connected then Ready(a) else WantsLock(a))
      case WantsLock(a) => LockStep(s, c, a)
      case Swapped(a) => InPhase(s, c, Marked(a)).(link := s.link.(connected := true))
      case Marked(a) => InPhase(s, c, Subscribing(a)).(link := s.link.(epoch := s.link.epoch + 1))
      case Subscribing(a) => SubscribeStep(s, c, a)
      case Replaying(a, kind, values, next) => ReplayStep(s, c, a, kind, values, next)
      case Ready(a) => RegisterStep(s, c, a)
      case Registered(a, id) => InPhase(s, c, Sending(a, id, s.link.out))
      case Sending(a, id, e) => EnqueueStep(s, c, a, id, e)
      case Waiting(a, id) => if id in s.inbox.mail then ResumeStep(s, c, a, id) else s
      case _ => s
  }

  // Under the lock: nothing to do if someone else reconnected; otherwise connect and begin to
  // install the connection.
  function ReconnectStep(s: State, c: nat, reachable: bool): State {
    if c !in s.tasks || !s.tasks[c].phase.HasLock? then s
    else
      var a := s.tasks[c].phase.attempt;
      if s.link.connected then InPhase(s, c, Ready(a)).(link := s.link.(lock := None))
      else if !reachable then InPhase(s, c, Finished(ConnectFailed)).(link := s.link.(lock := None))
      else InPhase(s, c, Swapped(a)).(link := s.link.(out := s.link.epoch + 1))
  }

  // `order` is the order in which the registry yields its keys.
  predicate Enumerates(order: seq<string>, r: Registry) {
    && (forall k :: k in order ==> k in r)
    && (forall k :: k in r ==> k in order)
    && (forall i, j :: 0 <= i < j < |order| ==> order[i] != order[j])
  }

  function Values(order: seq<string>, r: Registry): (values: seq<Params>)
    requires forall k :: k in order ==> k in r
    ensures |values| == |order| && forall i :: 0 <= i < |order| ==> values[i] == r[order[i]]
  {
    seq(|order|, i requires 0 <= i < |order| => r[order[i]])
  }

  function CopyStep(s: State, c: nat, order: seq<string>): State {
    if c !in s.tasks || !s.tasks[c].phase.Copying? then s
    else
      var Copying(a, kind) := s.tasks[c].phase;
      var r := RegistryOf(s.memory, kind);
      if !Enumerates(order, r) then s
      else InPhase(s, c, Replaying(a, kind, Values(order, r), 0))
  }

  function TimeoutStep(s: State, c: nat): State {
    if c in s.tasks && s.tasks[c].phase.Waiting? && s.tasks[c].phase.id !in s.inbox.mail then
      InPhase(s, c, Finished(TimedOut)).(
        inbox := s.inbox.(pending := s.inbox.pending - {s.tasks[c].phase.id}))
    else s
  }

  predicate ReaderAtWork(l: Link, e: nat) { e <= l.epoch && e !in l.deadReaders }

  // Any reader that is still at work, also a superseded one, hands a response to the task that
  // waits for its id.
  function Delivered(b: Inbox, r: Response): Inbox {
    if r.id in b.pending then Inbox(b.pending - {r.id}, b.mail[r.id := Answered(r)]) else b
  }

  function AllDropped(b: Inbox): Inbox {
    Inbox(map[], b.mail + map id | id in b.pending :: Dropped)
  }

  // After a reader's loop: only the reader of the current connection goes on to clean up.
  function ReaderEndsStep(s: State, e: nat): State {
    if !ReaderAtWork(s.link, e) then s
    else
      s.(link := s.link.(
           deadReaders := s.link.deadReaders + {e},
           clearing := if e == s.link.epoch then s.link.clearing + {e} else s.link.clearing),
         past := if e == s.link.epoch then s.past.(current := s.past.current + {e}) else s.past)
  }

  function ReaderClearsStep(s: State, e: nat): State {
    if e !in s.link.clearing then s
    else
      s.(link := s.link.(
           connected := false, clearing := s.link.clearing - {e}, dropping := s.link.dropping + {e}))
  }

  function ReaderDropsStep(s: State, e: nat): State {
    if e !in s.link.dropping then s
    else
      s.(link := s.link.(dropping := s.link.dropping - {e}), inbox := AllDropped(s.inbox),
         past := s.past.(drops := s.past.drops[e := s.wire.nextId]))
  }

  function WriterDiesStep(s: State, e: nat): State {
    if e <= s.link.epoch then s.(link := s.link.(deadWriters := s.link.deadWriters + {e})) else s
  }

  function Next(s: State, a: Action): State {
    match a
    case Begin(c, request) =>
      if c in s.tasks then s else s.(tasks := s.tasks[c := Task(request, Start(0))])
    case Advance(c) => AdvanceStep(s, c)
    case Reconnect(c, reachable) => ReconnectStep(s, c, reachable)
    case Copy(c, order) => CopyStep(s, c, order)
    case Timeout(c) => TimeoutStep(s, c)
    case Deliver(e, r) => if ReaderAtWork(s.link, e) then s.(inbox := Delivered(s.inbox, r)) else s
    case ReaderEnds(e) => ReaderEndsStep(s, e)
    case ReaderClears(e) => ReaderClearsStep(s, e)
    case ReaderDrops(e) => ReaderDropsStep(s, e)
    case WriterDies(e) => WriterDiesStep(s, e)
  }

  function After(s: State, run: seq<Action>): State
    decreases |run|
  {
    if run == [] then s else After(Next(s, run[0]), run[1..])
  }

  lemma {:induction false} AfterOneMore(s: State, run: seq<Action>, a: Action)
    ensures After(s, run + [a]) == Next(After(s, run), a)
    decreases |run|
  {
    if run == [] {
      assert run + [a] == [a];
    } else {
      assert (run + [a])[1..] == run[1..] + [a];
      AfterOneMore(Next(s, run[0]), run[1..], a);
    }
  }
}
