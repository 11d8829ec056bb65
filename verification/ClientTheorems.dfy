// The theorems about runs of the client.
module ClientTheorems {
  import opened Prelude
  import opened Client
  import opened ClientInvariant

  ghost predicate Reachable(s: State) {
    exists run :: After(INITIAL, run) == s
  }

  lemma ReachableInv(s: State)
    requires Reachable(s)
    ensures Inv(s)
  {
    var run :| After(INITIAL, run) == s;
    RunInv(INITIAL, run);
  }

  // ---------------------------------------------------------------- ids and frames

  // No id is issued twice, pending ids are below the counter, and a call puts at most two frames
  // on the wire.
  lemma FramesAndIds(s: State)
    requires Reachable(s)
    ensures forall i, j :: 0 <= i < j < |s.wire.sent| ==> s.wire.sent[i].id != s.wire.sent[j].id
    ensures forall id :: id in s.inbox.pending ==> id < s.wire.nextId
    ensures forall c :: CallFrames(s.wire.sent, c) <= 2
  {
    ReachableInv(s);
    forall c ensures CallFrames(s.wire.sent, c) <= 2 {
      if c in s.tasks { assert TaskOk(s.wire, s.inbox, c, s.tasks[c].phase); }
    }
  }

  // Along a run, ids keep the task that drew them and frames stay sent.
  ghost predicate WireGrows(w: Wire, w': Wire) {
    && w.nextId <= w'.nextId && w.sent <= w'.sent
    && (forall id :: id in w.drawn ==> id in w'.drawn && w'.drawn[id] == w.drawn[id])
    && (forall id :: id in w'.drawn && id !in w.drawn ==> w.nextId <= id)
  }

  // Mail stays as it was delivered, and a finished call keeps its outcome.
  ghost predicate MailGrows(b: Inbox, b': Inbox) {
    forall id :: id in b.mail ==> id in b'.mail && b'.mail[id] == b.mail[id]
  }

  ghost predicate TasksGrow(tasks: map<nat, Task>, tasks': map<nat, Task>) {
    && (forall c :: c in tasks ==> c in tasks' && tasks'[c].request == tasks[c].request)
    && (forall c :: c in tasks && tasks[c].phase.Finished? ==> tasks'[c] == tasks[c])
  }

  ghost predicate LinkGrows(l: Link, l': Link) {
    l.epoch <= l'.epoch && l.deadWriters <= l'.deadWriters && l.deadReaders <= l'.deadReaders
  }

  ghost predicate HistoryGrows(s: State, s': State) {
    && WireGrows(s.wire, s'.wire) && MailGrows(s.inbox, s'.inbox)
    && TasksGrow(s.tasks, s'.tasks) && LinkGrows(s.link, s'.link)
  }

  lemma AdvanceWire(s: State, c: nat)
    requires Ids(s.wire)
    ensures WireGrows(s.wire, AdvanceStep(s, c).wire)
  {}

  lemma AdvanceTasks(s: State, c: nat)
    ensures TasksGrow(s.tasks, AdvanceStep(s, c).tasks)
  {}

  lemma AdvanceLink(s: State, c: nat)
    ensures AdvanceStep(s, c).inbox.mail == s.inbox.mail
    ensures LinkGrows(s.link, AdvanceStep(s, c).link)
  {}

  lemma OtherStepGrows(s: State, a: Action)
    requires Ids(s.wire) && Mailboxes(s.wire, s.inbox) && !a.Advance?
    ensures WireGrows(s.wire, Next(s, a).wire) && MailGrows(s.inbox, Next(s, a).inbox)
  {}

  lemma OtherTasksGrow(s: State, a: Action)
    requires !a.Advance?
    ensures TasksGrow(s.tasks, Next(s, a).tasks) && LinkGrows(s.link, Next(s, a).link)
  {}

  lemma StepGrows(s: State, a: Action)
    requires Ids(s.wire) && Mailboxes(s.wire, s.inbox)
    ensures HistoryGrows(s, Next(s, a))
  {
    if a.Advance? {
      AdvanceWire(s, a.call);
      AdvanceTasks(s, a.call);
      AdvanceLink(s, a.call);
    } else {
      OtherStepGrows(s, a);
      OtherTasksGrow(s, a);
    }
  }

  lemma {:induction false} HistoryGrowsOn(s: State, t: State, u: State)
    requires HistoryGrows(s, t) && HistoryGrows(t, u)
    ensures HistoryGrows(s, u)
  {}

  // A call is completed at most once: its outcome, like the mail of every id, is final.
  lemma {:induction false} CompletedAtMostOnce(s: State, run: seq<Action>)
    requires Inv(s)
    ensures HistoryGrows(s, After(s, run))
    decreases |run|
  {
    if run != [] {
      StepGrows(s, run[0]);
      StepInv(s, run[0]);
      CompletedAtMostOnce(Next(s, run[0]), run[1..]);
      HistoryGrowsOn(s, Next(s, run[0]), After(s, run));
    }
  }

  // A call that returns a response, or an error response, returns one delivered to an id that it
  // drew itself.
  lemma AnsweredByItsOwnId(s: State, c: nat)
    requires Reachable(s) && c in s.tasks && s.tasks[c].phase.Finished?
    requires s.tasks[c].phase.outcome.Returned? || s.tasks[c].phase.outcome.Refused?
    ensures
      var r := s.tasks[c].phase.outcome.response;
      && DrewIt(s.wire, r.id, c)
      && r.id in s.inbox.mail && s.inbox.mail[r.id] == Answered(r)
      && r.error == s.tasks[c].phase.outcome.Refused?
  {
    ReachableInv(s);
    assert TaskOk(s.wire, s.inbox, c, s.tasks[c].phase);
  }

  // A response to a replayed request, or to an id nobody waits for, changes nothing; one that
  // does complete a call goes to the task that drew its id and holds it.
  lemma ResponsesFindTheirCaller(s: State, e: nat, r: Response)
    requires Reachable(s)
    ensures
      var s' := Next(s, Deliver(e, r));
      && (r.id in s.wire.drawn && s.wire.drawn[r.id].FromReplay? ==> s' == s)
      && (s' != s ==>
            exists c :: c in s.tasks && DrewIt(s.wire, r.id, c) && s.tasks[c].phase.Owns(r.id)
              && s' == s.(inbox := Inbox(s.inbox.pending - {r.id}, s.inbox.mail[r.id := Answered(r)])))
  {
    ReachableInv(s);
  }

  // ---------------------------------------------------------------- the fence

  // A step of the reader of connection `e`.
  ghost predicate ByReader(a: Action, e: nat) {
    a in {ReaderEnds(e), ReaderClears(e), ReaderDrops(e)} || (a.Deliver? && a.epoch == e)
  }

  // It has found its connection current and is about to clean up.
  predicate CleansUp(l: Link, e: nat) { e in l.clearing || e in l.dropping }

  lemma FencedStep(t: State, e: nat, a: Action)
    requires NoLeaks(t) && Mailboxes(t.wire, t.inbox) && e < t.link.epoch && !CleansUp(t.link, e) && ByReader(a, e)
    ensures
      var t' := Next(t, a);
      && t'.link.connected == t.link.connected && t'.link.epoch == t.link.epoch
      && t'.wire == t.wire && t'.tasks == t.tasks && t'.memory == t.memory
      && (t'.inbox.pending != t.inbox.pending
          <==> a.Deliver? && e !in t.link.deadReaders && a.response.id in t.inbox.pending)
      && (t'.inbox != t.inbox ==>
            && a.Deliver? && a.response.id in t.inbox.pending
            && t'.inbox == Inbox(t.inbox.pending - {a.response.id},
                                 t.inbox.mail[a.response.id := Answered(a.response)]))
  {
    if a.Deliver? && a.response.id in t.inbox.pending { assert a.response.id !in t.inbox.pending - {a.response.id}; }
  }

  // Only the reader of the current connection begins to clean up.
  lemma OnlyTheCurrentReaderCleansUp(s: State, a: Action, e: nat)
    requires CleansUp(Next(s, a).link, e) && !CleansUp(s.link, e)
    ensures a == ReaderEnds(e) && e == s.link.epoch && e !in s.link.deadReaders
  {}

  lemma {:induction false} StaysFenced(s: State, run: seq<Action>, e: nat)
    requires e < s.link.epoch && !CleansUp(s.link, e)
    ensures e < After(s, run).link.epoch && !CleansUp(After(s, run).link, e)
    decreases |run|
  {
    if run != [] {
      OtherEpochs(s, run[0]);
      if CleansUp(Next(s, run[0]).link, e) { OnlyTheCurrentReaderCleansUp(s, run[0], e); }
      StaysFenced(Next(s, run[0]), run[1..], e);
    }
  }

  lemma OtherEpochs(s: State, a: Action)
    ensures s.link.epoch <= Next(s, a).link.epoch
  {}

  // Once its connection has been superseded, a reader that had not begun to clean up before never
  // again changes the connection flag, nor anything else but this: while at work, it still
  // completes the call that drew the id of a response, and of the pending ids takes away just that.
  lemma SupersededReaderIsFenced(s: State, run: seq<Action>, e: nat, a: Action)
    requires Inv(s) && e < s.link.epoch && !CleansUp(s.link, e) && ByReader(a, e)
    ensures
      var t, t' := After(s, run), Next(After(s, run), a);
      && e < t.link.epoch && t'.link.connected == t.link.connected && t'.link.epoch == t.link.epoch
      && t'.wire == t.wire && t'.tasks == t.tasks && t'.memory == t.memory
      && (t'.inbox.pending != t.inbox.pending
          <==> a.Deliver? && e !in t.link.deadReaders && a.response.id in t.inbox.pending)
      && (t'.inbox != t.inbox ==>
            exists c :: c in t.tasks && DrewIt(t.wire, a.response.id, c) && t.tasks[c].phase.Owns(a.response.id)
              && t'.inbox == Inbox(t.inbox.pending - {a.response.id},
                                   t.inbox.mail[a.response.id := Answered(a.response)]))
  {
    StaysFenced(s, run, e);
    RunInv(s, run);
    FencedStep(After(s, run), e, a);
  }

  lemma EndDrops(s: State, e: nat, id: nat)
    requires e in s.link.dropping && id in s.inbox.pending
    ensures
      var s' := Next(s, ReaderDrops(e));
      s'.inbox.pending == map[] && id in s'.inbox.mail && s'.inbox.mail[id] == Dropped && s'.tasks == s.tasks
  {}

  // If `c` waits for the mail of `id` its next step is to try again, or to fail if it had before.
  ghost predicate CanOnlyTryAgain(t: State, c: nat, id: nat) {
    && c in t.tasks
    && var p, t' := t.tasks[c].phase, Next(t, Advance(c));
       p.Waiting? && p.id == id ==>
         && Next(t, Timeout(c)) == t && !t'.link.connected && c in t'.tasks
         && t'.tasks[c].phase == if p.attempt == 0 then Start(1) else Finished(Disconnected)
  }

  lemma DroppedCallGoesOn(t: State, c: nat, id: nat)
    requires c in t.tasks && id in t.inbox.mail && t.inbox.mail[id] == Dropped
    ensures CanOnlyTryAgain(t, c, id)
  {}

  // The last step of a reader's cleanup fails every call whose id is pending, whether it waits
  // already or has still to send its frame: whatever happens then, it cannot be answered or time
  // out any more; once it waits it goes on by trying again, or fails if it had before.
  lemma CleanupFailsTheCalls(s: State, run: seq<Action>, e: nat, c: nat, id: nat)
    requires Inv(s) && e in s.link.dropping
    requires c in s.tasks && s.tasks[c].phase.Owns(id) && id !in s.inbox.mail
    ensures
      var s' := Next(s, ReaderDrops(e));
      var t := After(s', run);
      && s'.inbox.pending == map[]
      && id in t.inbox.mail && t.inbox.mail[id] == Dropped && CanOnlyTryAgain(t, c, id)
  {
    var s' := Next(s, ReaderDrops(e));
    var t := After(s', run);
    assert TaskOk(s.wire, s.inbox, c, s.tasks[c].phase);
    EndDrops(s, e, id);
    StepInv(s, ReaderDrops(e));
    CompletedAtMostOnce(s', run);
    DroppedCallGoesOn(t, c, id);
  }

  // Only three things mark a connected client disconnected: a reader that found its connection
  // current when it ended, a caller whose frame met a dead writer, and a caller that finds its
  // request dropped.
  lemma WhoDisconnects(s: State, a: Action)
    requires s.link.connected
    ensures !Next(s, a).link.connected <==>
      || (a.ReaderClears? && a.epoch in s.link.clearing)
      || (a.Advance? && a.call in s.tasks &&
          match s.tasks[a.call].phase
          case Sending(_, _, e) => e in s.link.deadWriters
          case Waiting(_, id) => id in s.inbox.mail && s.inbox.mail[id].Dropped?
          case _ => false)
  {}

  // ---------------------------------------------------------------- the replay

  // At most one task reconnects at a time, and while it does nobody else installs a connection.
  lemma OneReconnectAtATime(s: State, c: nat, d: nat)
    requires Reachable(s) && c in s.tasks && d in s.tasks
    requires s.tasks[c].phase.Reconnecting() && s.tasks[d].phase.Reconnecting()
    ensures c == d
  {
    ReachableInv(s);
    assert s.link.lock == Some(c);
  }

  // The replayed requests that connection `e` has been given, oldest first.
  function ReplaysOn(sent: seq<Sent>, e: nat): seq<Request> {
    if sent == [] then []
    else
      var f := sent[|sent| - 1];
      ReplaysOn(sent[..|sent| - 1], e) + if f.epoch == e && f.origin.FromReplay? then [f.request] else []
  }

  lemma ReplaysAppend(sent: seq<Sent>, f: Sent, e: nat)
    ensures ReplaysOn(sent + [f], e)
      == ReplaysOn(sent, e) + if f.epoch == e && f.origin.FromReplay? then [f.request] else []
  {
    assert (sent + [f])[..|sent|] == sent;
  }

  function SubscribeRequests(m: Memory): seq<Request> {
    if m.subscribed.Some? then [Request(Subscribe, m.subscribed.value)] else []
  }

  function Requests(kind: Method, values: seq<Params>): (requests: seq<Request>)
    ensures |requests| == |values|
    ensures forall i :: 0 <= i < |values| ==> requests[i] == Request(kind, Some(values[i]))
  {
    seq(|values|, i requires 0 <= i < |values| => Request(kind, Some(values[i])))
  }

  // `values` are the values of the registry, each once, in some order.
  ghost predicate Lists(values: seq<Params>, r: Registry) {
    exists order :: Enumerates(order, r) && values == Values(order, r)
  }

  // The recorded subscription, then every recorded byte watch once.
  ghost predicate FirstHalf(given: seq<Request>, m: Memory) {
    exists bytes :: Lists(bytes, m.bytes) && given == SubscribeRequests(m) + Requests(WatchBytes, bytes)
  }

  // What the connection has been given when the task is at `p`.
  ghost predicate GivenSoFar(given: seq<Request>, m: Memory, p: Phase) {
    match p
    case Swapped(_) => given == []
    case Marked(_) => given == []
    case Subscribing(_) => given == []
    case Copying(_, kind) =>
      if kind == WatchBytes then given == SubscribeRequests(m)
      else kind == TranscriptWatch && FirstHalf(given, m)
    case Replaying(_, kind, values, next) =>
      && next <= |values|
      && if kind == WatchBytes then
           Lists(values, m.bytes) && given == SubscribeRequests(m) + Requests(WatchBytes, values[..next])
         else
           && kind == TranscriptWatch && Lists(values, m.transcripts)
           && exists half :: FirstHalf(half, m) && given == half + Requests(TranscriptWatch, values[..next])
    case Ready(_) => Complete(given, m)
    case _ => false
  }

  // The recorded subscription, then every recorded byte watch, then every recorded transcript
  // watch, each exactly once.
  ghost predicate Complete(given: seq<Request>, m: Memory) {
    exists bytes, transcripts :: Lists(bytes, m.bytes) && Lists(transcripts, m.transcripts) &&
      given == SubscribeRequests(m) + Requests(WatchBytes, bytes) + Requests(TranscriptWatch, transcripts)
  }

  ghost predicate NoOwnFrames(sent: seq<Sent>, e: nat, c: nat) {
    forall i :: 0 <= i < |sent| && sent[i].epoch == e ==> sent[i].origin != FromCall(c)
  }

  // The record as far as `c` has read it: the subscription when it starts to replay, and each watch
  // registry when it copies that. Between these steps other calls may change the record.
  function Noted(s: State, a: Action, c: nat, m: Memory): Memory {
    if c !in s.tasks then m
    else if a == Advance(c) && s.tasks[c].phase.Subscribing? then m.(subscribed := s.memory.subscribed)
    else if a.Copy? && a.call == c && s.tasks[c].phase.Copying? then
      var kind := s.tasks[c].phase.kind;
      if !Enumerates(a.order, RegistryOf(s.memory, kind)) then m
      else if kind == TranscriptWatch then m.(transcripts := s.memory.transcripts)
      else m.(bytes := s.memory.bytes)
    else m
  }

  function ReadBy(s: State, run: seq<Action>, c: nat, m: Memory): Memory
    decreases |run|
  {
    if run == [] then m else ReadBy(Next(s, run[0]), run[1..], c, Noted(s, run[0], c, m))
  }

  // Task `c` installed connection `e` and has replayed the record `m` on it as far as its phase.
  ghost predicate Replayer(s: State, c: nat, e: nat, m: Memory) {
    && c in s.tasks && s.link.out == e
    && s.link.epoch + (if s.tasks[c].phase.Installing() then 1 else 0) == e
    && GivenSoFar(ReplaysOn(s.wire.sent, e), m, s.tasks[c].phase)
    && NoOwnFrames(s.wire.sent, e, c)
  }

  lemma RequestsPrefix(kind: Method, values: seq<Params>, next: nat)
    requires next < |values|
    ensures Requests(kind, values[..next + 1]) == Requests(kind, values[..next]) + [Request(kind, Some(values[next]))]
  {}

  // A task that is not reconnecting enqueues at most a frame of its own.
  lemma OtherAdvance(s: State, d: nat)
    requires d in s.tasks ==> !s.tasks[d].phase.Reconnecting()
    ensures
      var s' := AdvanceStep(s, d);
      && s'.link.out == s.link.out && s'.link.epoch == s.link.epoch
      && (forall c :: c != d && c in s.tasks ==> c in s'.tasks && s'.tasks[c] == s.tasks[c])
      && (s'.wire.sent == s.wire.sent || exists f: Sent :: f.origin == FromCall(d) && s'.wire.sent == s.wire.sent + [f])
  {
    if d in s.tasks && s.tasks[d].phase.Sending? && s.tasks[d].phase.epoch !in s.link.deadWriters {
      var Sending(a, id, e) := s.tasks[d].phase;
      assert AdvanceStep(s, d).wire.sent == s.wire.sent + [Sent(e, id, FromCall(d), s.tasks[d].request)];
    }
  }

  // Another actor's step, as seen by the task that is replaying: no replayed frame, no new
  // connection.
  lemma OtherFrames(s: State, a: Action, c: nat, e: nat)
    requires Locked(s) && c in s.tasks && s.tasks[c].phase.Reconnecting()
    requires a.Advance? ==> a.call != c
    ensures ReplaysOn(Next(s, a).wire.sent, e) == ReplaysOn(s.wire.sent, e)
    ensures NoOwnFrames(s.wire.sent, e, c) ==> NoOwnFrames(Next(s, a).wire.sent, e, c)
  {
    if a.Advance? {
      OtherAdvance(s, a.call);
      var s' := AdvanceStep(s, a.call);
      if s'.wire.sent != s.wire.sent {
        var f: Sent :| f.origin == FromCall(a.call) && s'.wire.sent == s.wire.sent + [f];
        ReplaysAppend(s.wire.sent, f, e);
      }
    } else {
      assert Next(s, a).wire == s.wire;
    }
  }

  lemma OtherLink(s: State, a: Action, c: nat)
    requires Locked(s) && c in s.tasks && s.tasks[c].phase.Reconnecting()
    requires a.Advance? || a.Reconnect? || a.Copy? || a.Timeout? || a.Begin? ==> a.call != c
    ensures
      var s' := Next(s, a);
      c in s'.tasks && s'.tasks[c] == s.tasks[c] && s'.link.out == s.link.out && s'.link.epoch == s.link.epoch
  {
    if a.Advance? { OtherAdvance(s, a.call); }
  }

  lemma OthersLeaveTheReplayAlone(s: State, a: Action, c: nat, e: nat, m: Memory)
    requires Locked(s) && Replayer(s, c, e, m) && s.tasks[c].phase.Reconnecting()
    requires a.Advance? || a.Reconnect? || a.Copy? || a.Timeout? || a.Begin? ==> a.call != c
    ensures Replayer(Next(s, a), c, e, m) && Next(s, a).tasks[c] == s.tasks[c]
  {
    OtherFrames(s, a, c, e);
    OtherLink(s, a, c);
  }

  lemma OwnReplay(s: State, c: nat, e: nat, m: Memory, request: Request)
    requires c in s.tasks && s.link.out == e && e !in s.link.deadWriters
    requires NoOwnFrames(s.wire.sent, e, c)
    ensures
      var s' := Replayed(s, c, request);
      && ReplaysOn(s'.wire.sent, e) == ReplaysOn(s.wire.sent, e) + [request]
      && NoOwnFrames(s'.wire.sent, e, c)
  {
    ReplaysAppend(s.wire.sent, Sent(e, s.wire.nextId, FromReplay(c), request), e);
  }

  lemma SubscribingGoesOn(s: State, c: nat, e: nat, m: Memory)
    requires Replayer(s, c, e, m) && s.tasks[c].phase.Subscribing? && e !in s.link.deadWriters
    ensures Replayer(AdvanceStep(s, c), c, e, m.(subscribed := s.memory.subscribed))
  {
    if s.memory.subscribed.Some? { OwnReplay(s, c, e, m, Request(Subscribe, s.memory.subscribed.value)); }
  }

  lemma CopyingGoesOn(s: State, c: nat, order: seq<string>, e: nat, m: Memory)
    requires Replayer(s, c, e, m) && s.tasks[c].phase.Copying?
    ensures Replayer(CopyStep(s, c, order), c, e, Noted(s, Copy(c, order), c, m))
  {
    var Copying(a, kind) := s.tasks[c].phase;
    var r := RegistryOf(s.memory, kind);
    if Enumerates(order, r) {
      var values := Values(order, r);
      assert Lists(values, r);
      assert CopyStep(s, c, order) == InPhase(s, c, Replaying(a, kind, values, 0));
      var more := Noted(s, Copy(c, order), c, m);
      if kind == WatchBytes {
        assert more == m.(bytes := r);
      } else {
        assert more == m.(transcripts := r);
      }
      CopiedSoFar(ReplaysOn(s.wire.sent, e), m, more, a, kind, values);
    }
  }

  // With a registry copied and nothing of it given yet.
  lemma CopiedSoFar(given: seq<Request>, m: Memory, more: Memory, a: nat, kind: Method, values: seq<Params>)
    requires GivenSoFar(given, m, Copying(a, kind)) && more.subscribed == m.subscribed
    requires if kind == WatchBytes then Lists(values, more.bytes)
             else Lists(values, more.transcripts) && more.bytes == m.bytes
    ensures GivenSoFar(given, more, Replaying(a, kind, values, 0))
  {
    assert given == given + Requests(kind, values[..0]);
    if kind == TranscriptWatch {
      var bytes :| Lists(bytes, m.bytes) && given == SubscribeRequests(m) + Requests(WatchBytes, bytes);
      assert SubscribeRequests(more) == SubscribeRequests(m);
      assert FirstHalf(given, more);
    }
  }

  lemma ReplayingGoesOn(s: State, c: nat, e: nat, m: Memory)
    requires Replayer(s, c, e, m) && s.tasks[c].phase.Replaying?
    requires e !in s.link.deadWriters
    ensures Replayer(AdvanceStep(s, c), c, e, m)
  {
    var Replaying(a, kind, values, next) := s.tasks[c].phase;
    var given := ReplaysOn(s.wire.sent, e);
    if next < |values| {
      RequestsPrefix(kind, values, next);
      OwnReplay(s, c, e, m, Request(kind, Some(values[next])));
      if kind == WatchBytes {
        AppendedOne(SubscribeRequests(m), kind, values, next, given);
      } else {
        var half :| FirstHalf(half, m) && given == half + Requests(TranscriptWatch, values[..next]);
        AppendedOne(half, kind, values, next, given);
      }
    } else {
      assert values[..next] == values;
      if kind == WatchBytes {
        assert FirstHalf(given, m);
      } else {
        var half :| FirstHalf(half, m) && given == half + Requests(TranscriptWatch, values);
        var bytes :| Lists(bytes, m.bytes) && half == SubscribeRequests(m) + Requests(WatchBytes, bytes);
        assert Complete(given, m);
      }
    }
  }

  lemma AppendedOne(head: seq<Request>, kind: Method, values: seq<Params>, next: nat, given: seq<Request>)
    requires next < |values| && given == head + Requests(kind, values[..next])
    ensures given + [Request(kind, Some(values[next]))] == head + Requests(kind, values[..next + 1])
  {
    RequestsPrefix(kind, values, next);
  }

  lemma ReplayStepByStep(s: State, a: Action, c: nat, e: nat, m: Memory)
    requires Locked(s) && Ids(s.wire) && Replayer(s, c, e, m)
    requires s.tasks[c].phase.Reconnecting() && e !in s.link.deadWriters
    ensures Replayer(Next(s, a), c, e, Noted(s, a, c, m))
  {
    if a.Advance? && a.call == c {
      if s.tasks[c].phase.Installing() { assert AdvanceStep(s, c).wire == s.wire; }
      else if s.tasks[c].phase.Subscribing? { SubscribingGoesOn(s, c, e, m); }
      else if s.tasks[c].phase.Replaying? { ReplayingGoesOn(s, c, e, m); }
    } else if a.Copy? && a.call == c {
      if s.tasks[c].phase.Copying? { CopyingGoesOn(s, c, a.order, e, m); }
    } else if (a.Reconnect? || a.Timeout? || a.Begin?) && a.call == c {
    } else {
      OthersLeaveTheReplayAlone(s, a, c, e, m);
    }
  }

  // The run up to the step where `c` lets the lock go.
  ghost predicate WhileReconnecting(s: State, run: seq<Action>, c: nat)
    decreases |run|
  {
    run != [] ==>
      c in s.tasks && s.tasks[c].phase.Reconnecting() && WhileReconnecting(Next(s, run[0]), run[1..], c)
  }

  lemma {:induction false} ReplayRun(s: State, run: seq<Action>, c: nat, e: nat, m: Memory)
    requires Inv(s) && Replayer(s, c, e, m) && WhileReconnecting(s, run, c)
    requires e !in After(s, run).link.deadWriters
    ensures Replayer(After(s, run), c, e, ReadBy(s, run, c, m))
    decreases |run|
  {
    if run != [] {
      CompletedAtMostOnce(s, run);
      ReplayStepByStep(s, run[0], c, e, m);
      StepInv(s, run[0]);
      ReplayRun(Next(s, run[0]), run[1..], c, e, Noted(s, run[0], c, m));
    }
  }

  lemma NewConnectionIsEmpty(sent: seq<Sent>, e: nat, c: nat)
    requires forall i :: 0 <= i < |sent| ==> sent[i].epoch < e
    ensures ReplaysOn(sent, e) == [] && NoOwnFrames(sent, e, c)
  {
    if sent != [] {
      var rest := sent[..|sent| - 1];
      assert forall i :: 0 <= i < |rest| ==> rest[i] == sent[i];
      NewConnectionIsEmpty(rest, e, c);
    }
  }

  // Task `c` finds the client disconnected, installs a connection and goes on until it is ready
  // to send its own request, whatever everyone else does meanwhile, also to the record; only the
  // new connection's writer survives. Then the new connection has been given the subscription as
  // it stood when `c` read it, then every byte watch and every transcript watch in the registries
  // as they stood when `c` copied them, each exactly once, and nothing of `c`'s own yet. As all
  // three are read, it does not matter which record `m` stands for the time before.
  lemma ReconnectReplaysTheRecord(s: State, run: seq<Action>, c: nat, m: Memory)
    requires Reachable(s) && c in s.tasks && s.tasks[c].phase.HasLock? && !s.link.connected
    requires WhileReconnecting(ReconnectStep(s, c, true), run, c)
    requires
      var s' := After(ReconnectStep(s, c, true), run);
      c in s'.tasks && s'.tasks[c].phase.Ready? && s.link.epoch + 1 !in s'.link.deadWriters
    ensures
      var s1, e := ReconnectStep(s, c, true), s.link.epoch + 1;
      var s' := After(s1, run);
      && s'.link.epoch == e
      && Complete(ReplaysOn(s'.wire.sent, e), ReadBy(s1, run, c, m))
      && NoOwnFrames(s'.wire.sent, e, c)
  {
    ReachableInv(s);
    var s1, e := ReconnectStep(s, c, true), s.link.epoch + 1;
    StepInv(s, Reconnect(c, true));
    NewConnectionIsEmpty(s.wire.sent, e, c);
    assert Replayer(s1, c, e, m);
    ReplayRun(s1, run, c, e, m);
  }
}
