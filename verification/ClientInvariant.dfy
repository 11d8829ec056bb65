// What every interleaving of calls, readers and writers keeps.
module ClientInvariant {
  import opened Prelude
  import opened Client

  // ---------------------------------------------------------------- the invariant

  // Ids are drawn from a counter and never twice, the frames carry drawn ids, and no two frames
  // share one.
  ghost predicate Ids(w: Wire) {
    && (forall id :: id in w.drawn ==> id < w.nextId)
    && (forall i :: 0 <= i < |w.sent| ==>
          w.sent[i].id in w.drawn && w.drawn[w.sent[i].id] == w.sent[i].origin)
    && (forall i, j :: 0 <= i < j < |w.sent| ==> w.sent[i].id != w.sent[j].id)
  }

  predicate DrewIt(w: Wire, id: nat, c: nat) {
    id in w.drawn && w.drawn[id] == FromCall(c)
  }

  // A pending id was drawn by the call it belongs to and has had no mail; mail only ever reaches
  // ids that a call drew, and an answer carries the id it is delivered to.
  ghost predicate Mailboxes(w: Wire, b: Inbox) {
    && (forall id :: id in b.pending ==> id !in b.mail && DrewIt(w, id, b.pending[id]))
    && (forall id :: id in b.mail ==>
          && id in w.drawn && w.drawn[id].FromCall?
          && (b.mail[id].Answered? ==> b.mail[id].response.id == id))
  }

  predicate WasSent(w: Wire, id: nat) {
    exists i :: 0 <= i < |w.sent| && w.sent[i].id == id
  }

  predicate HoldsId(p: Phase) { p.Registered? || p.Sending? || p.Waiting? }

  // The id a task holds is its own, and is still pending unless its mail has come.
  ghost predicate OwnIdOk(w: Wire, b: Inbox, c: nat, p: Phase) {
    HoldsId(p) ==>
      && DrewIt(w, p.id, c)
      && (if p.id in b.pending then b.pending[p.id] == c else p.id in b.mail)
      && (!p.Waiting? ==> !WasSent(w, p.id))
  }

  // A finished call got the answer to an id of its own, or none.
  ghost predicate OutcomeOk(w: Wire, b: Inbox, c: nat, p: Phase) {
    p.Finished? && (p.outcome.Returned? || p.outcome.Refused?) ==>
      var r := p.outcome.response;
      && r.error == p.outcome.Refused?
      && r.id in b.mail && b.mail[r.id] == Answered(r)
      && DrewIt(w, r.id, c)
  }

  // The frames a call has enqueued for itself.
  function CallFrames(sent: seq<Sent>, c: nat): nat {
    if sent == [] then 0
    else CallFrames(sent[..|sent| - 1], c) + if sent[|sent| - 1].origin == FromCall(c) then 1 else 0
  }

  // How many of them a task may have enqueued by now: one per attempt it has sent.
  function Budget(p: Phase): nat {
    match p
    case Finished(_) => 2
    case Waiting(a, _) => a + 1
    case _ => p.attempt
  }

  ghost predicate FramesOk(w: Wire, c: nat, p: Phase) {
    && (!p.Finished? ==> p.attempt <= 1)
    && CallFrames(w.sent, c) <= Budget(p)
  }

  ghost predicate TaskOk(w: Wire, b: Inbox, c: nat, p: Phase) {
    OwnIdOk(w, b, c, p) && OutcomeOk(w, b, c, p) && FramesOk(w, c, p)
  }

  ghost predicate Tasks(s: State) {
    && (forall c :: c in s.tasks ==> TaskOk(s.wire, s.inbox, c, s.tasks[c].phase))
    && (forall c :: c !in s.tasks ==> CallFrames(s.wire.sent, c) == 0)
  }

  // The reconnect lock is held by exactly the task that is reconnecting.
  ghost predicate Locked(s: State) {
    forall c :: (c in s.tasks && s.tasks[c].phase.Reconnecting()) <==> s.link.lock == Some(c)
  }

  // Nothing stays pending for a task that has moved on.
  ghost predicate NoLeaks(s: State) {
    forall id :: id in s.inbox.pending ==>
      s.inbox.pending[id] in s.tasks && s.tasks[s.inbox.pending[id]].phase.Owns(id)
  }

  ghost predicate Inv(s: State) {
    Core(s) && Locked(s) && NoLeaks(s) && OutOk(s) && Epochs(s)
  }

  // The channel is one ahead of the epoch exactly while the holder of the lock installs it.
  ghost predicate OutOk(s: State) {
    var holder := s.link.lock;
    s.link.out == s.link.epoch
                  + if holder.Some? && holder.value in s.tasks && s.tasks[holder.value].phase.Installing() then 1 else 0
  }

  // Frames sit on connections whose channel has been put in place.
  ghost predicate Epochs(s: State) {
    && (forall i :: 0 <= i < |s.wire.sent| ==> s.wire.sent[i].epoch <= s.link.out)
    && (forall c :: c in s.tasks && s.tasks[c].phase.Sending? ==> s.tasks[c].phase.epoch <= s.link.out)
  }

  // Ids, mail and tasks; the lock and the absence of leaks are kept on their own.
  ghost predicate Core(s: State) {
    Ids(s.wire) && Mailboxes(s.wire, s.inbox) && Tasks(s)
  }

  // ---------------------------------------------------------------- ids and frames

  lemma CallFramesAppend(sent: seq<Sent>, f: Sent, c: nat)
    ensures CallFrames(sent + [f], c) == CallFrames(sent, c) + if f.origin == FromCall(c) then 1 else 0
  {
    assert (sent + [f])[..|sent|] == sent;
  }

  lemma DrawIds(w: Wire, origin: Origin)
    requires Ids(w)
    ensures Ids(Drew(w, origin))
    ensures !WasSent(w, w.nextId) && w.nextId !in w.drawn
  {}

  lemma SendIds(w: Wire, f: Sent)
    requires Ids(w) && f.id in w.drawn && w.drawn[f.id] == f.origin && !WasSent(w, f.id)
    ensures Ids(w.(sent := w.sent + [f]))
  {
    var sent := w.sent + [f];
    forall i, j | 0 <= i < j < |sent| ensures sent[i].id != sent[j].id {
      if j == |w.sent| { assert sent[i] == w.sent[i]; }
    }
  }

  lemma ReplayIds(w: Wire, epoch: nat, dead: bool, c: nat, request: Request)
    requires Ids(w)
    ensures Ids(ReplayOne(w, epoch, dead, c, request))
  {
    DrawIds(w, FromReplay(c));
    if !dead {
      SendIds(Drew(w, FromReplay(c)),
              Sent(epoch, w.nextId, FromReplay(c), request));
    }
  }

  // ---------------------------------------------------------------- one task among others

  // Drawing an id, for whomever, does not concern a task that does not hold it.
  lemma DrawTask(w: Wire, b: Inbox, origin: Origin, d: nat, p: Phase)
    requires Ids(w) && TaskOk(w, b, d, p)
    ensures TaskOk(Drew(w, origin), b, d, p)
  {
    DrawIds(w, origin);
  }

  // Nor does a frame of someone else's.
  lemma SendTask(w: Wire, b: Inbox, f: Sent, d: nat, p: Phase)
    requires TaskOk(w, b, d, p)
    requires f.id in w.drawn && w.drawn[f.id] == f.origin && f.origin != FromCall(d)
    ensures TaskOk(w.(sent := w.sent + [f]), b, d, p)
  {
    CallFramesAppend(w.sent, f, d);
    var w' := w.(sent := w.sent + [f]);
    if HoldsId(p) && WasSent(w', p.id) {
      var i :| 0 <= i < |w'.sent| && w'.sent[i].id == p.id;
      assert i == |w.sent| || w.sent[i].id == p.id;
    }
  }

  lemma ReplayTask(w: Wire, b: Inbox, epoch: nat, dead: bool, c: nat, request: Request, d: nat, p: Phase)
    requires Ids(w) && TaskOk(w, b, d, p)
    ensures TaskOk(ReplayOne(w, epoch, dead, c, request), b, d, p)
  {
    DrawTask(w, b, FromReplay(c), d, p);
    if !dead {
      SendTask(Drew(w, FromReplay(c)), b,
               Sent(epoch, w.nextId, FromReplay(c), request), d, p);
    }
  }

  // Mail that arrives, and pending ids of others that go, leave a task as good as it was.
  ghost predicate Arrivals(w: Wire, b: Inbox, b': Inbox, d: nat) {
    && (forall id :: id in b.mail ==> id in b'.mail && b'.mail[id] == b.mail[id])
    && (forall id :: id in b'.pending ==> id in b.pending && b'.pending[id] == b.pending[id])
    && (forall id :: id in b.pending && id !in b'.pending && DrewIt(w, id, d) ==> id in b'.mail)
  }

  lemma ArrivalTask(w: Wire, b: Inbox, b': Inbox, d: nat, p: Phase)
    requires TaskOk(w, b, d, p) && Arrivals(w, b, b', d)
    ensures TaskOk(w, b', d, p)
  {}

  // ---------------------------------------------------------------- steps of a task

  lemma ReplayKeeps(s: State, c: nat, request: Request)
    requires Core(s)
    ensures Core(Replayed(s, c, request))
  {
    var w, e := s.wire, s.link.out;
    var dead := e in s.link.deadWriters;
    ReplayIds(w, e, dead, c, request);
    forall d | d in s.tasks ensures TaskOk(ReplayOne(w, e, dead, c, request), s.inbox, d, s.tasks[d].phase) {
      ReplayTask(w, s.inbox, e, dead, c, request, d, s.tasks[d].phase);
    }
    forall d | d !in s.tasks ensures CallFrames(ReplayOne(w, e, dead, c, request).sent, d) == 0 {
      CallFramesAppend(w.sent, Sent(e, w.nextId, FromReplay(c), request), d);
    }
  }

  // A task may move to any phase that its ids, its outcome and its frames allow.
  lemma PhaseKeeps(s: State, c: nat, p: Phase)
    requires Tasks(s) && c in s.tasks && TaskOk(s.wire, s.inbox, c, p)
    ensures Tasks(InPhase(s, c, p))
  {}

  lemma RegisterKeeps(s: State, c: nat, a: nat)
    requires Core(s) && c in s.tasks && s.tasks[c].phase == Ready(a)
    ensures Core(RegisterStep(s, c, a))
  {
    var s' := RegisterStep(s, c, a);
    DrawIds(s.wire, FromCall(c));
    forall d | d in s'.tasks ensures TaskOk(s'.wire, s'.inbox, d, s'.tasks[d].phase) {
      DrawTask(s.wire, s.inbox, FromCall(c), d, s.tasks[d].phase);
    }
  }

  lemma EnqueueFailsKeeps(s: State, c: nat, a: nat, id: nat, e: nat)
    requires Core(s) && c in s.tasks && s.tasks[c].phase == Sending(a, id, e)
    requires e in s.link.deadWriters
    ensures Core(EnqueueStep(s, c, a, id, e))
  {
    var s' := EnqueueStep(s, c, a, id, e);
    assert TaskOk(s.wire, s.inbox, c, s.tasks[c].phase);
    forall d | d in s'.tasks ensures TaskOk(s'.wire, s'.inbox, d, s'.tasks[d].phase) {
      if d != c { ArrivalTask(s.wire, s.inbox, s'.inbox, d, s.tasks[d].phase); }
    }
  }

  lemma SendOwnFrame(w: Wire, b: Inbox, f: Sent, c: nat, a: nat, id: nat, e: nat)
    requires TaskOk(w, b, c, Sending(a, id, e)) && f.origin == FromCall(c) && f.id == id
    ensures TaskOk(w.(sent := w.sent + [f]), b, c, Waiting(a, id))
  {
    CallFramesAppend(w.sent, f, c);
  }

  lemma EnqueueSendsKeeps(s: State, c: nat, a: nat, id: nat, e: nat)
    requires Core(s) && c in s.tasks && s.tasks[c].phase == Sending(a, id, e)
    requires e !in s.link.deadWriters
    ensures Core(EnqueueStep(s, c, a, id, e))
  {
    var s' := EnqueueStep(s, c, a, id, e);
    assert TaskOk(s.wire, s.inbox, c, s.tasks[c].phase);
    var f := Sent(e, id, FromCall(c), s.tasks[c].request);
    SendIds(s.wire, f);
    SendOwnFrame(s.wire, s.inbox, f, c, a, id, e);
    forall d | d in s.tasks && d != c ensures TaskOk(s'.wire, s'.inbox, d, s.tasks[d].phase) {
      SendTask(s.wire, s.inbox, f, d, s.tasks[d].phase);
    }
    forall d | d !in s'.tasks ensures CallFrames(s'.wire.sent, d) == 0 {
      CallFramesAppend(s.wire.sent, f, d);
    }
  }

  lemma ResumeKeeps(s: State, c: nat, a: nat, id: nat)
    requires Mailboxes(s.wire, s.inbox) && Tasks(s)
    requires c in s.tasks && s.tasks[c].phase == Waiting(a, id) && id in s.inbox.mail
    ensures Tasks(ResumeStep(s, c, a, id))
  {
    assert TaskOk(s.wire, s.inbox, c, s.tasks[c].phase);
    PhaseKeeps(s, c, ResumeStep(s, c, a, id).tasks[c].phase);
  }

  // Moving a task between phases without an id keeps everything, if it stays in its attempt.
  lemma MoveKeeps(s: State, c: nat, p: Phase)
    requires Core(s) && c in s.tasks && !HoldsId(p) && !p.Finished?
    requires CallFrames(s.wire.sent, c) <= p.attempt <= 1
    ensures Core(InPhase(s, c, p))
  {
    PhaseKeeps(s, c, p);
  }

  lemma ReplayStepKeeps(s: State, c: nat, a: nat, kind: Method, values: seq<Params>, next: nat)
    requires Core(s) && c in s.tasks && s.tasks[c].phase == Replaying(a, kind, values, next)
    ensures Core(ReplayStep(s, c, a, kind, values, next))
  {
    assert TaskOk(s.wire, s.inbox, c, s.tasks[c].phase);
    if next < |values| {
      var request := Request(kind, Some(values[next]));
      ReplayKeeps(s, c, request);
      assert TaskOk(Replayed(s, c, request).wire, s.inbox, c, s.tasks[c].phase);
      MoveKeeps(Replayed(s, c, request), c, Replaying(a, kind, values, next + 1));
    } else if kind == WatchBytes {
      MoveKeeps(s, c, Copying(a, TranscriptWatch));
    } else {
      MoveKeeps(s, c, Ready(a));
    }
  }

  lemma SubscribeKeeps(s: State, c: nat, a: nat)
    requires Core(s) && c in s.tasks && s.tasks[c].phase == Subscribing(a)
    ensures Core(SubscribeStep(s, c, a))
  {
    assert TaskOk(s.wire, s.inbox, c, s.tasks[c].phase);
    if s.memory.subscribed.Some? {
      var request := Request(Subscribe, s.memory.subscribed.value);
      ReplayKeeps(s, c, request);
      assert TaskOk(Replayed(s, c, request).wire, s.inbox, c, s.tasks[c].phase);
      MoveKeeps(Replayed(s, c, request), c, Copying(a, WatchBytes));
    } else {
      MoveKeeps(s, c, Copying(a, WatchBytes));
    }
  }

  lemma CloneKeeps(s: State, c: nat, a: nat, id: nat)
    requires Core(s) && c in s.tasks && s.tasks[c].phase == Registered(a, id)
    ensures Core(InPhase(s, c, Sending(a, id, s.link.out)))
  {
    assert TaskOk(s.wire, s.inbox, c, s.tasks[c].phase);
    PhaseKeeps(s, c, Sending(a, id, s.link.out));
  }

  lemma StartKeeps(s: State, c: nat)
    requires Core(s) && c in s.tasks
    requires s.tasks[c].phase.Start? || s.tasks[c].phase.WantsLock? || s.tasks[c].phase.Installing()
    ensures Core(AdvanceStep(s, c))
  {
    assert TaskOk(s.wire, s.inbox, c, s.tasks[c].phase);
    var a := s.tasks[c].phase.attempt;
    MoveKeeps(s, c, AdvanceStep(s, c).tasks[c].phase);
  }

  lemma SendingKeeps(s: State, c: nat)
    requires Core(s) && c in s.tasks && s.tasks[c].phase.Sending?
    ensures Core(AdvanceStep(s, c))
  {
    var Sending(a, id, e) := s.tasks[c].phase;
    if e in s.link.deadWriters {
      EnqueueFailsKeeps(s, c, a, id, e);
    } else {
      EnqueueSendsKeeps(s, c, a, id, e);
    }
  }

  lemma WaitingKeeps(s: State, c: nat)
    requires Core(s) && c in s.tasks && s.tasks[c].phase.Waiting?
    ensures Core(AdvanceStep(s, c))
  {
    var Waiting(a, id) := s.tasks[c].phase;
    if id in s.inbox.mail { ResumeKeeps(s, c, a, id); }
  }

  // The steps between the lock and the first frame of the call's own.
  lemma ReconnectingKeeps(s: State, c: nat)
    requires Core(s) && c in s.tasks && (s.tasks[c].phase.Subscribing? || s.tasks[c].phase.Replaying?)
    ensures Core(AdvanceStep(s, c))
  {
    if s.tasks[c].phase.Subscribing? {
      SubscribeKeeps(s, c, s.tasks[c].phase.attempt);
    } else {
      var Replaying(a, kind, values, next) := s.tasks[c].phase;
      ReplayStepKeeps(s, c, a, kind, values, next);
    }
  }

  lemma AdvanceKeeps(s: State, c: nat)
    requires Core(s)
    ensures Core(AdvanceStep(s, c))
  {
    if c in s.tasks {
      match s.tasks[c].phase
      case Start(_) => StartKeeps(s, c);
      case WantsLock(_) => StartKeeps(s, c);
      case Swapped(_) => StartKeeps(s, c);
      case Marked(_) => StartKeeps(s, c);
      case Subscribing(_) => ReconnectingKeeps(s, c);
      case Replaying(_, _, _, _) => ReconnectingKeeps(s, c);
      case Ready(a) => RegisterKeeps(s, c, a);
      case Registered(a, id) => CloneKeeps(s, c, a, id);
      case Sending(_, _, _) => SendingKeeps(s, c);
      case Waiting(_, _) => WaitingKeeps(s, c);
      case _ =>
    }
  }

  lemma TimeoutKeeps(s: State, c: nat)
    requires Core(s)
    ensures Core(TimeoutStep(s, c))
  {
    var s' := TimeoutStep(s, c);
    if c in s.tasks && s.tasks[c].phase.Waiting? {
      assert TaskOk(s.wire, s.inbox, c, s.tasks[c].phase);
      forall d | d in s'.tasks ensures TaskOk(s'.wire, s'.inbox, d, s'.tasks[d].phase) {
        if d != c { ArrivalTask(s.wire, s.inbox, s'.inbox, d, s.tasks[d].phase); }
      }
    }
  }

  lemma InboxKeeps(s: State, s': State)
    requires Core(s) && Mailboxes(s.wire, s'.inbox)
    requires s'.wire == s.wire && s'.tasks == s.tasks
    requires forall d :: Arrivals(s.wire, s.inbox, s'.inbox, d)
    ensures Core(s')
  {
    forall d | d in s'.tasks ensures TaskOk(s'.wire, s'.inbox, d, s'.tasks[d].phase) {
      ArrivalTask(s.wire, s.inbox, s'.inbox, d, s.tasks[d].phase);
    }
  }

  lemma ReconnectKeeps(s: State, c: nat, reachable: bool)
    requires Core(s)
    ensures Core(ReconnectStep(s, c, reachable))
  {
    if c in s.tasks && s.tasks[c].phase.HasLock? {
      assert TaskOk(s.wire, s.inbox, c, s.tasks[c].phase);
      PhaseKeeps(s, c, ReconnectStep(s, c, reachable).tasks[c].phase);
    }
  }

  lemma CopyKeeps(s: State, c: nat, order: seq<string>)
    requires Core(s)
    ensures Core(CopyStep(s, c, order))
  {
    if c in s.tasks && s.tasks[c].phase.Copying? {
      assert TaskOk(s.wire, s.inbox, c, s.tasks[c].phase);
      PhaseKeeps(s, c, CopyStep(s, c, order).tasks[c].phase);
    }
  }

  lemma BeginKeeps(s: State, c: nat, request: Request)
    requires Core(s)
    ensures Core(Next(s, Begin(c, request)))
  {}

  lemma DeliverKeeps(s: State, e: nat, r: Response)
    requires Core(s)
    ensures Core(Next(s, Deliver(e, r)))
  {
    InboxKeeps(s, Next(s, Deliver(e, r)));
  }

  lemma ReaderDropsKeeps(s: State, e: nat)
    requires Core(s)
    ensures Core(ReaderDropsStep(s, e))
  {
    InboxKeeps(s, ReaderDropsStep(s, e));
  }

  lemma StepCore(s: State, a: Action)
    requires Core(s)
    ensures Core(Next(s, a))
  {
    match a
    case Begin(c, request) => BeginKeeps(s, c, request);
    case Advance(c) => AdvanceKeeps(s, c);
    case Reconnect(c, reachable) => ReconnectKeeps(s, c, reachable);
    case Copy(c, order) => CopyKeeps(s, c, order);
    case Timeout(c) => TimeoutKeeps(s, c);
    case Deliver(e, r) => DeliverKeeps(s, e, r);
    case ReaderEnds(e) => InboxKeeps(s, Next(s, a));
    case ReaderClears(e) => InboxKeeps(s, Next(s, a));
    case ReaderDrops(e) => ReaderDropsKeeps(s, e);
    case WriterDies(e) => InboxKeeps(s, Next(s, a));
  }

  // ---------------------------------------------------------------- the lock and the leaks

  // How one step of task `c` may move the lock: not at all, taken when free, or let go.
  ghost predicate LockMove(s: State, s': State, c: nat) {
    && (forall d :: d != c ==> (d in s.tasks <==> d in s'.tasks) && (d in s.tasks ==> s'.tasks[d] == s.tasks[d]))
    && var was := c in s.tasks && s.tasks[c].phase.Reconnecting();
       var now := c in s'.tasks && s'.tasks[c].phase.Reconnecting();
       || (was == now && s'.link.lock == s.link.lock)
       || (!was && now && s.link.lock == None && s'.link.lock == Some(c))
       || (was && !now && s'.link.lock == None)
  }

  lemma MoveLocked(s: State, s': State, c: nat)
    requires Locked(s) && LockMove(s, s', c)
    ensures Locked(s')
  {}

  // How it may change who waits: only ids of its own come and go, and it waits for those that stay.
  ghost predicate WaitMove(s: State, s': State, c: nat) {
    && (forall d :: d != c && d in s.tasks ==> d in s'.tasks && s'.tasks[d] == s.tasks[d])
    && (forall id :: id in s'.inbox.pending ==>
          || (id in s.inbox.pending && s'.inbox.pending[id] == s.inbox.pending[id])
          || s'.inbox.pending[id] == c)
    && (forall id :: id in s'.inbox.pending && s'.inbox.pending[id] == c ==>
          c in s'.tasks && s'.tasks[c].phase.Owns(id))
  }

  lemma MoveNoLeaks(s: State, s': State, c: nat)
    requires NoLeaks(s) && WaitMove(s, s', c)
    ensures NoLeaks(s')
  {}

  lemma AdvanceLeavesOthers(s: State, c: nat, d: nat)
    requires d != c
    ensures
      var tasks := AdvanceStep(s, c).tasks;
      (d in s.tasks <==> d in tasks) && (d in s.tasks ==> tasks[d] == s.tasks[d])
  {}

  lemma AdvanceMoves(s: State, c: nat)
    ensures LockMove(s, AdvanceStep(s, c), c)
  {
    forall d | d != c
      ensures (d in s.tasks <==> d in AdvanceStep(s, c).tasks)
      ensures d in s.tasks ==> AdvanceStep(s, c).tasks[d] == s.tasks[d]
    {
      AdvanceLeavesOthers(s, c, d);
    }
    if c in s.tasks { AdvanceMovesLock(s, c); }
  }

  lemma AdvanceMovesLock(s: State, c: nat)
    requires c in s.tasks
    ensures
      var s' := AdvanceStep(s, c);
      && c in s'.tasks
      && var was, now := s.tasks[c].phase.Reconnecting(), s'.tasks[c].phase.Reconnecting();
         || (was == now && s'.link.lock == s.link.lock)
         || (!was && now && s.link.lock == None && s'.link.lock == Some(c))
         || (was && !now && s'.link.lock == None)
  {}

  lemma RegisterWaits(s: State, c: nat, a: nat)
    requires NoLeaks(s) && c in s.tasks && s.tasks[c].phase == Ready(a)
    ensures WaitMove(s, RegisterStep(s, c, a), c)
  {}

  lemma EnqueueWaits(s: State, c: nat, a: nat, id: nat, e: nat)
    requires NoLeaks(s) && c in s.tasks && s.tasks[c].phase == Sending(a, id, e)
    ensures WaitMove(s, EnqueueStep(s, c, a, id, e), c)
  {}

  lemma OtherAdvanceOwns(s: State, c: nat, id: nat)
    requires c in s.tasks && !s.tasks[c].phase.Ready? && !s.tasks[c].phase.Sending?
    ensures
      var s' := AdvanceStep(s, c);
      && s'.inbox == s.inbox
      && (s.tasks[c].phase.Owns(id) && id !in s.inbox.mail ==> c in s'.tasks && s'.tasks[c].phase.Owns(id))
  {}

  lemma AdvanceOnly(s: State, c: nat)
    ensures
      var tasks := AdvanceStep(s, c).tasks;
      forall d :: d != c && d in s.tasks ==> d in tasks && tasks[d] == s.tasks[d]
  {}

  lemma OtherAdvanceWaits(s: State, c: nat)
    requires NoLeaks(s) && Mailboxes(s.wire, s.inbox)
    requires c in s.tasks && !s.tasks[c].phase.Ready? && !s.tasks[c].phase.Sending?
    ensures WaitMove(s, AdvanceStep(s, c), c)
  {
    AdvanceOnly(s, c);
    OtherAdvanceOwns(s, c, 0);
    forall id | id in s.inbox.pending && s.inbox.pending[id] == c
      ensures c in AdvanceStep(s, c).tasks && AdvanceStep(s, c).tasks[c].phase.Owns(id)
    {
      OtherAdvanceOwns(s, c, id);
    }
  }

  lemma AdvanceWaits(s: State, c: nat)
    requires NoLeaks(s) && Mailboxes(s.wire, s.inbox)
    ensures WaitMove(s, AdvanceStep(s, c), c)
  {
    if c in s.tasks {
      match s.tasks[c].phase
      case Ready(a) => RegisterWaits(s, c, a);
      case Sending(a, id, e) => EnqueueWaits(s, c, a, id, e);
      case _ => OtherAdvanceWaits(s, c);
    }
  }

  lemma IoLocked(s: State, a: Action)
    requires Locked(s)
    requires a.Deliver? || a.ReaderEnds? || a.ReaderClears? || a.ReaderDrops? || a.WriterDies?
    ensures Locked(Next(s, a))
  {
    assert Next(s, a).tasks == s.tasks && Next(s, a).link.lock == s.link.lock;
  }

  lemma StepLocked(s: State, a: Action)
    requires Locked(s)
    ensures Locked(Next(s, a))
  {
    match a
    case Begin(c, _) => MoveLocked(s, Next(s, a), c);
    case Advance(c) => AdvanceMoves(s, c); MoveLocked(s, AdvanceStep(s, c), c);
    case Reconnect(c, _) => MoveLocked(s, Next(s, a), c);
    case Copy(c, _) => MoveLocked(s, Next(s, a), c);
    case Timeout(c) => MoveLocked(s, Next(s, a), c);
    case _ => IoLocked(s, a);
  }

  // Readers and writers only take pending ids away.
  lemma IoNoLeaks(s: State, a: Action)
    requires NoLeaks(s)
    requires a.Deliver? || a.ReaderEnds? || a.ReaderClears? || a.ReaderDrops? || a.WriterDies?
    ensures NoLeaks(Next(s, a))
  {
    assert Next(s, a).tasks == s.tasks;
    assert forall id :: id in Next(s, a).inbox.pending ==>
             id in s.inbox.pending && Next(s, a).inbox.pending[id] == s.inbox.pending[id];
  }

  lemma StepNoLeaks(s: State, a: Action)
    requires NoLeaks(s) && Mailboxes(s.wire, s.inbox)
    ensures NoLeaks(Next(s, a))
  {
    match a
    case Begin(c, _) => MoveNoLeaks(s, Next(s, a), c);
    case Advance(c) => AdvanceWaits(s, c); MoveNoLeaks(s, AdvanceStep(s, c), c);
    case Reconnect(c, _) => MoveNoLeaks(s, Next(s, a), c);
    case Copy(c, _) => MoveNoLeaks(s, Next(s, a), c);
    case Timeout(c) => MoveNoLeaks(s, Next(s, a), c);
    case _ => IoNoLeaks(s, a);
  }

  lemma AdvanceOut(s: State, c: nat)
    requires Locked(s) && OutOk(s)
    ensures OutOk(AdvanceStep(s, c)) && AdvanceStep(s, c).link.out == s.link.out
  {
    if c in s.tasks { assert s.tasks[c].phase.Reconnecting() <==> s.link.lock == Some(c); }
  }

  lemma ReconnectOut(s: State, c: nat, reachable: bool)
    requires Locked(s) && OutOk(s)
    ensures OutOk(ReconnectStep(s, c, reachable)) && s.link.out <= ReconnectStep(s, c, reachable).link.out
  {
    if c in s.tasks { assert s.tasks[c].phase.Reconnecting() <==> s.link.lock == Some(c); }
  }

  lemma StepOut(s: State, a: Action)
    requires Locked(s) && OutOk(s)
    ensures OutOk(Next(s, a)) && s.link.out <= Next(s, a).link.out
  {
    match a
    case Advance(c) => AdvanceOut(s, c);
    case Reconnect(c, reachable) => ReconnectOut(s, c, reachable);
    case Copy(c, _) => assert Locked(s);
    case _ =>
  }

  lemma AdvanceEpochs(s: State, c: nat)
    requires Epochs(s) && AdvanceStep(s, c).link.out == s.link.out
    ensures Epochs(AdvanceStep(s, c))
  {}

  lemma StepEpochs(s: State, a: Action)
    requires Locked(s) && OutOk(s) && Epochs(s)
    ensures Epochs(Next(s, a))
  {
    StepOut(s, a);
    match a
    case Advance(c) => AdvanceOut(s, c); AdvanceEpochs(s, c);
    case _ =>
  }

  lemma StepInv(s: State, a: Action)
    requires Inv(s)
    ensures Inv(Next(s, a))
  {
    StepCore(s, a);
    StepLocked(s, a);
    StepNoLeaks(s, a);
    StepOut(s, a);
    StepEpochs(s, a);
  }

  // The invariant holds along every run.
  lemma {:induction false} RunInv(s: State, run: seq<Action>)
    requires Inv(s)
    ensures Inv(After(s, run))
    decreases |run|
  {
    if run != [] {
      StepInv(s, run[0]);
      RunInv(Next(s, run[0]), run[1..]);
    }
  }
}
