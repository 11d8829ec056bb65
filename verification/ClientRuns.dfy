// Reachable states of the client that its comments do not lead one to expect.
module ClientRuns {
  import opened Prelude
  import opened Client
  import opened ClientTheorems
  import opened ClientDrops

  lemma ReachableStep(s: State, a: Action)
    requires Reachable(s)
    ensures Reachable(Next(s, a))
  {
    var run :| After(INITIAL, run) == s;
    AfterOneMore(INITIAL, run, a);
  }

  // The first three steps of a call on a live connection, up to having drawn its id.
  lemma UpToRegistered(s: State, c: nat, r: Request) returns (s': State)
    requires Reachable(s) && c !in s.tasks && s.link.connected
    ensures Reachable(s')
    ensures s'.link == s.link && s'.memory == s.memory && s'.past == s.past && s'.wire.sent == s.wire.sent
    ensures s'.wire.nextId == s.wire.nextId + 1
    ensures s'.inbox == s.inbox.(pending := s.inbox.pending[s.wire.nextId := c])
    ensures s'.tasks == s.tasks[c := Task(r, Registered(0, s.wire.nextId))]
  {
    var s1 := Next(s, Begin(c, r));
    ReachableStep(s, Begin(c, r));
    var s2 := Next(s1, Advance(c));
    assert s2 == s.(tasks := s.tasks[c := Task(r, Ready(0))]);
    ReachableStep(s1, Advance(c));
    s' := Next(s2, Advance(c));
    ReachableStep(s2, Advance(c));
  }

  // From there to having cloned the sender of the current connection.
  lemma UpToSending(s: State, c: nat, r: Request) returns (s': State)
    requires Reachable(s) && c !in s.tasks && s.link.connected
    ensures Reachable(s')
    ensures s'.link == s.link && s'.memory == s.memory && s'.past == s.past && s'.wire.sent == s.wire.sent
    ensures s'.wire.nextId == s.wire.nextId + 1
    ensures s'.inbox == s.inbox.(pending := s.inbox.pending[s.wire.nextId := c])
    ensures s'.tasks == s.tasks[c := Task(r, Sending(0, s.wire.nextId, s.link.out))]
  {
    var s1 := UpToRegistered(s, c, r);
    s' := Next(s1, Advance(c));
    ReachableStep(s1, Advance(c));
  }

  // And to having enqueued its frame.
  lemma UpToWaiting(s: State, c: nat, r: Request) returns (s': State)
    requires Reachable(s) && c !in s.tasks && s.link.connected && s.link.out !in s.link.deadWriters
    ensures Reachable(s')
    ensures s'.link == s.link && s'.memory == s.memory && s'.past == s.past && s'.wire.nextId == s.wire.nextId + 1
    ensures s'.wire.sent == s.wire.sent + [Sent(s.link.out, s.wire.nextId, FromCall(c), r)]
    ensures s'.inbox == s.inbox.(pending := s.inbox.pending[s.wire.nextId := c])
    ensures s'.tasks == s.tasks[c := Task(r, Waiting(0, s.wire.nextId))]
  {
    var s1 := UpToSending(s, c, r);
    s' := Next(s1, Advance(c));
    ReachableStep(s1, Advance(c));
  }

  // A call that has to try again takes the free lock and installs a new connection.
  lemma UpToInstalled(s: State, c: nat) returns (s': State)
    requires Reachable(s) && c in s.tasks && s.tasks[c].phase == Start(1)
    requires !s.link.connected && s.link.lock == None
    ensures Reachable(s')
    ensures s'.link == s.link.(epoch := s.link.epoch + 1, out := s.link.epoch + 1, connected := true, lock := Some(c))
    ensures s'.inbox == s.inbox && s'.memory == s.memory && s'.wire == s.wire && s'.past == s.past
    ensures s'.tasks == s.tasks[c := s.tasks[c].(phase := Subscribing(1))]
  {
    var s1 := Next(s, Advance(c));
    ReachableStep(s, Advance(c));
    var s2 := Next(s1, Advance(c));
    assert s2.link == s.link.(lock := Some(c)) && s2.tasks == s.tasks[c := s.tasks[c].(phase := HasLock(1))];
    ReachableStep(s1, Advance(c));
    s' := UpToRaised(s2, c);
  }

  // Under the lock, it puts the new channel in place, sets the flag and raises the epoch.
  lemma UpToRaised(s: State, c: nat) returns (s': State)
    requires Reachable(s) && c in s.tasks && s.tasks[c].phase == HasLock(1) && !s.link.connected
    ensures Reachable(s')
    ensures s'.link == s.link.(epoch := s.link.epoch + 1, out := s.link.epoch + 1, connected := true)
    ensures s'.inbox == s.inbox && s'.memory == s.memory && s'.wire == s.wire && s'.past == s.past
    ensures s'.tasks == s.tasks[c := s.tasks[c].(phase := Subscribing(1))]
  {
    var s1 := Next(s, Reconnect(c, true));
    ReachableStep(s, Reconnect(c, true));
    assert s1 == InPhase(s, c, Swapped(1)).(link := s.link.(out := s.link.epoch + 1));
    var s2 := Next(s1, Advance(c));
    ReachableStep(s1, Advance(c));
    assert s2 == InPhase(s, c, Marked(1)).(link := s.link.(out := s.link.epoch + 1, connected := true));
    s' := Next(s2, Advance(c));
    ReachableStep(s2, Advance(c));
  }

  // A call that finds its first request dropped marks the client disconnected.
  lemma NoticesTheDrop(s: State, c: nat, id: nat)
    requires Reachable(s) && c in s.tasks && s.tasks[c].phase == Waiting(0, id)
    requires id in s.inbox.mail && s.inbox.mail[id] == Dropped
    ensures
      var s' := Next(s, Advance(c));
      && Reachable(s') && s'.inbox == s.inbox && s'.link == s.link.(connected := false)
      && s'.tasks == s.tasks[c := s.tasks[c].(phase := Start(1))]
  {
    ReachableStep(s, Advance(c));
  }

  lemma MeetsADeadWriter(s: State, c: nat, id: nat, e: nat)
    requires Reachable(s) && c in s.tasks && s.tasks[c].phase == Sending(0, id, e)
    requires e in s.link.deadWriters
    ensures
      var s' := Next(s, Advance(c));
      && Reachable(s') && s'.link == s.link.(connected := false)
      && s'.memory == s.memory && s'.wire == s.wire && s'.past == s.past
      && s'.inbox == s.inbox.(pending := s.inbox.pending - {id})
      && s'.tasks == s.tasks[c := s.tasks[c].(phase := Start(1))]
  {
    ReachableStep(s, Advance(c));
  }

  const PING := Request(Other("ping"), None)

  lemma StartIsReachable()
    ensures Reachable(INITIAL)
  {
    assert After(INITIAL, []) == INITIAL;
  }

  // Calls 1 and 2 wait on connection 1 when its reader ends.
  lemma TwoCallsDropped() returns (s: State)
    ensures Reachable(s) && s.link == INITIAL.link.(connected := false, deadReaders := {1})
    ensures 1 in s.tasks && 2 in s.tasks
    ensures s.tasks[1].phase == Waiting(0, 1) && s.tasks[2].phase == Waiting(0, 2)
    ensures s.inbox.mail == map[1 := Dropped, 2 := Dropped]
  {
    StartIsReachable();
    var s1 := UpToWaiting(INITIAL, 1, PING);
    var s2 := UpToWaiting(s1, 2, PING);
    assert s2.inbox.pending == map[1 := 1, 2 := 2];
    s := UpToDropped(s2, 1);
  }

  // The reader of the current connection ends and cleans up.
  lemma UpToDropped(s: State, e: nat) returns (s': State)
    requires Reachable(s) && e == s.link.epoch && s.link == Link(true, e, e, None, {}, {}, {}, {})
    ensures Reachable(s') && s'.tasks == s.tasks && s'.inbox == AllDropped(s.inbox) && s'.wire == s.wire
    ensures s'.past == Past(s.past.current + {e}, s.past.drops[e := s.wire.nextId])
    ensures s'.link == s.link.(connected := false, deadReaders := {e})
  {
    var s1 := Next(s, ReaderEnds(e));
    ReachableStep(s, ReaderEnds(e));
    var s2 := Next(s1, ReaderClears(e));
    ReachableStep(s1, ReaderClears(e));
    assert s2.link == s.link.(connected := false, deadReaders := {e}, dropping := {e});
    s' := Next(s2, ReaderDrops(e));
    ReachableStep(s2, ReaderDrops(e));
  }

  // The epoch fences readers, not callers: two calls lose connection 1 together, the first
  // reconnects, and the second, noticing late, marks the healthy connection 2 disconnected.
  lemma LateCallerDisconnectsAHealthyConnection() returns (s: State)
    ensures Reachable(s) && s.link.epoch == 2 && !s.link.connected
    ensures ReaderAtWork(s.link, 2) && 2 !in s.link.deadWriters
  {
    var s1 := TwoCallsDropped();
    NoticesTheDrop(s1, 1, 1);
    var s2 := UpToInstalled(Next(s1, Advance(1)), 1);
    NoticesTheDrop(s2, 2, 2);
    s := Next(s2, Advance(2));
  }

  // Call 1 waits on connection 1 while call 2 is about to enqueue there and its writer dies.
  lemma OneWaitsAndTheWriterDies() returns (s: State)
    ensures Reachable(s) && s.link == INITIAL.link.(deadWriters := {1})
    ensures 1 in s.tasks && s.tasks[1].phase == Waiting(0, 1)
    ensures 2 in s.tasks && s.tasks[2].phase == Sending(0, 2, 1)
    ensures 1 in s.inbox.pending && 1 !in s.inbox.mail && s.past == INITIAL.past
    ensures s.wire.sent == [Sent(1, 1, FromCall(1), PING)]
  {
    StartIsReachable();
    var s1 := UpToWaiting(INITIAL, 1, PING);
    var s2 := UpToSending(s1, 2, PING);
    s := Next(s2, WriterDies(1));
    ReachableStep(s2, WriterDies(1));
  }

  // Call 2 replaces connection 1, on which call 1 waits, while its reader is still at work.
  lemma OneWaitsOnASupersededConnection() returns (s: State)
    ensures Reachable(s) && 1 in s.tasks && s.tasks[1].phase == Waiting(0, 1)
    ensures 2 in s.tasks && s.tasks[2].phase == Subscribing(1)
    ensures 1 in s.inbox.pending && 1 !in s.inbox.mail && s.past == INITIAL.past
    ensures s.wire.sent == [Sent(1, 1, FromCall(1), PING)]
    ensures s.link == Link(true, 2, 2, Some(2), {1}, {}, {}, {})
  {
    var s1 := OneWaitsAndTheWriterDies();
    MeetsADeadWriter(s1, 2, 2, 1);
    s := UpToInstalled(Next(s1, Advance(2)), 2);
  }

  // The end of a reader does not always fail the calls in flight on its connection. When a caller
  // has replaced the connection first, the others are left waiting for their timeout: call 1 still
  // waits though the reader and the writer of its only connection have both ended.
  lemma CallLeftWaitingOnADeadConnection() returns (s: State)
    ensures Reachable(s) && 1 in s.tasks && s.tasks[1].phase == Waiting(0, 1)
    ensures 1 in s.inbox.pending && 1 !in s.inbox.mail
    ensures s.link.epoch == 2 && s.link.connected && 1 in s.link.deadReaders && 1 in s.link.deadWriters
    ensures WaitsOn(s, 1, 1, 1) && IsOver(s, 1) && WasSuperseded(s, 1)
  {
    s := SupersededReaderIsOver();
  }

  // Nor does it fail a call that has seen the flag before the cleanup and registers after it: call 1
  // waits on connection 1, which was never replaced, though its reader has ended and cleaned up.
  lemma CallRegisteredAfterTheCleanup() returns (s: State)
    ensures Reachable(s) && WaitsOn(s, 1, 1, 1) && IsOver(s, 1)
    ensures 1 in s.inbox.pending && 1 !in s.inbox.mail
    ensures s.link == Link(false, 1, 1, None, {}, {1}, {}, {}) && !WasSuperseded(s, 1)
  {
    StartIsReachable();
    var s1 := Next(INITIAL, Begin(1, PING));
    ReachableStep(INITIAL, Begin(1, PING));
    var s2 := Next(s1, Advance(1));
    ReachableStep(s1, Advance(1));
    assert s2 == INITIAL.(tasks := map[1 := Task(PING, Ready(0))]);
    var s3 := UpToDropped(s2, 1);
    s := UpToSent(s3, 1, 0);
    assert s.wire.sent[|s.wire.sent| - 1].id == 1;
  }

  // A call that has seen the flag draws its id and enqueues its frame while the writer lives.
  lemma UpToSent(s: State, c: nat, attempt: nat) returns (s': State)
    requires Reachable(s) && c in s.tasks && s.tasks[c].phase == Ready(attempt)
    requires s.link.out !in s.link.deadWriters
    ensures Reachable(s') && s'.link == s.link && s'.past == s.past
    ensures s'.inbox == s.inbox.(pending := s.inbox.pending[s.wire.nextId := c])
    ensures s'.wire.sent == s.wire.sent + [Sent(s.link.out, s.wire.nextId, FromCall(c), s.tasks[c].request)]
    ensures s'.tasks == s.tasks[c := s.tasks[c].(phase := Waiting(attempt, s.wire.nextId))]
  {
    var s1 := Next(s, Advance(c));
    ReachableStep(s, Advance(c));
    var s2 := Next(s1, Advance(c));
    ReachableStep(s1, Advance(c));
    assert s2 == InPhase(s1, c, Sending(attempt, s.wire.nextId, s.link.out));
    s' := Next(s2, Advance(c));
    ReachableStep(s2, Advance(c));
  }

  // Then its reader ends, too late.
  lemma SupersededReaderIsOver() returns (s: State)
    ensures Reachable(s) && WaitsOn(s, 1, 1, 1) && 1 in s.inbox.pending && 1 !in s.inbox.mail
    ensures s.tasks[1].phase == Waiting(0, 1)
    ensures s.link == Link(true, 2, 2, Some(2), {1}, {1}, {}, {}) && s.past == INITIAL.past
  {
    var s1 := OneWaitsOnASupersededConnection();
    s := Next(s1, ReaderEnds(1));
    ReachableStep(s1, ReaderEnds(1));
    assert s.wire.sent[0].id == 1;
  }

  // A call on a superseded connection may be failed after all, by the reader of the next one: call
  // 1 waits on connection 1, and the cleanup of reader 2 drops it.
  lemma FailedByTheNextReader() returns (s: State)
    ensures Reachable(s) && WaitsOn(s, 1, 1, 1) && IsOver(s, 1) && WasSuperseded(s, 1)
    ensures 1 !in s.inbox.pending && 1 in s.inbox.mail && s.inbox.mail[1] == Dropped
  {
    var s1 := SupersededReaderIsOver();
    var s2 := Next(s1, ReaderEnds(2));
    ReachableStep(s1, ReaderEnds(2));
    var s3 := Next(s2, ReaderClears(2));
    ReachableStep(s2, ReaderClears(2));
    assert s3.link == s1.link.(connected := false, deadReaders := {1, 2}, dropping := {2});
    assert s3.past == Past({2}, map[]) && s3.wire == s1.wire && s3.tasks == s1.tasks && s3.inbox == s1.inbox;
    s := Next(s3, ReaderDrops(2));
    ReachableStep(s3, ReaderDrops(2));
  }

  // The epoch does not fence the answers: the reader of superseded connection 1 takes an id out of
  // the pending map and completes call 1.
  lemma SupersededReaderAnswers() returns (s: State, s': State)
    ensures Reachable(s) && s.link.epoch == 2 && ReaderAtWork(s.link, 1)
    ensures s' == Next(s, Deliver(1, Response(1, false, 0)))
    ensures 1 in s.inbox.pending && s'.inbox.pending == s.inbox.pending - {1}
    ensures 1 in s'.inbox.mail && s'.inbox.mail[1] == Answered(Response(1, false, 0))
  {
    s := OneWaitsOnASupersededConnection();
    s' := Next(s, Deliver(1, Response(1, false, 0)));
  }

  // With nothing recorded, copying a registry and replaying it gives the new connection nothing.
  lemma UpToCopied(s: State, c: nat, kind: Method) returns (s': State)
    requires Reachable(s) && c in s.tasks && s.tasks[c].phase == Copying(1, kind)
    requires s.memory == INITIAL.memory
    ensures Reachable(s')
    ensures
      s' == if kind == WatchBytes then InPhase(s, c, Copying(1, TranscriptWatch))
            else InPhase(s, c, Ready(1)).(link := s.link.(lock := None))
  {
    var s1 := Next(s, Copy(c, []));
    ReachableStep(s, Copy(c, []));
    assert s1 == InPhase(s, c, Replaying(1, kind, [], 0));
    s' := Next(s1, Advance(c));
    ReachableStep(s1, Advance(c));
  }

  lemma UpToReplayedNothing(s: State, c: nat) returns (s': State)
    requires Reachable(s) && c in s.tasks && s.tasks[c].phase == Subscribing(1)
    requires s.memory == INITIAL.memory
    ensures Reachable(s')
    ensures s' == InPhase(s, c, Ready(1)).(link := s.link.(lock := None))
  {
    var s1 := Next(s, Advance(c));
    ReachableStep(s, Advance(c));
    assert s1 == InPhase(s, c, Copying(1, WatchBytes));
    var s2 := UpToCopied(s1, c, WatchBytes);
    s' := UpToCopied(s2, c, TranscriptWatch);
  }

  const SUBSCRIPTION := Request(Subscribe, None)

  lemma OneWaitsAndAnotherSends() returns (s: State)
    ensures Reachable(s) && s.memory == INITIAL.memory && s.link == INITIAL.link && 1 in s.inbox.pending
    ensures 1 in s.tasks && s.tasks[1] == Task(SUBSCRIPTION, Waiting(0, 1))
    ensures 2 in s.tasks && s.tasks[2].phase == Sending(0, 2, 1)
    ensures forall i :: 0 <= i < |s.wire.sent| ==> s.wire.sent[i].epoch == 1
  {
    StartIsReachable();
    var s1 := UpToWaiting(INITIAL, 1, SUBSCRIPTION);
    s := UpToSending(s1, 2, PING);
  }

  // Call 1 has been answered on connection 1 but has not gone on yet, and call 2 meets the dead
  // writer of that connection.
  lemma AnsweredButNotRecorded() returns (s: State)
    ensures Reachable(s) && s.memory == INITIAL.memory && s.link == INITIAL.link.(deadWriters := {1})
    ensures 1 in s.tasks && s.tasks[1] == Task(SUBSCRIPTION, Waiting(0, 1))
    ensures 2 in s.tasks && s.tasks[2].phase == Sending(0, 2, 1)
    ensures 1 in s.inbox.mail && s.inbox.mail[1] == Answered(Response(1, false, 0))
    ensures forall i :: 0 <= i < |s.wire.sent| ==> s.wire.sent[i].epoch == 1
  {
    var s2 := OneWaitsAndAnotherSends();
    var s3 := Next(s2, Deliver(1, Response(1, false, 0)));
    ReachableStep(s2, Deliver(1, Response(1, false, 0)));
    s := Next(s3, WriterDies(1));
    ReachableStep(s3, WriterDies(1));
  }

  // An answered call goes on and is remembered.
  lemma NoticesTheAnswer(s: State, c: nat, id: nat, r: Response)
    requires Reachable(s) && c in s.tasks && s.tasks[c].phase == Waiting(0, id)
    requires id in s.inbox.mail && s.inbox.mail[id] == Answered(r) && !r.error
    ensures
      var s' := Next(s, Advance(c));
      && Reachable(s') && s'.link == s.link && s'.wire == s.wire
      && s'.memory == Remember(s.memory, s.tasks[c].request)
      && s'.tasks == s.tasks[c := s.tasks[c].(phase := Finished(Returned(r)))]
  {
    ReachableStep(s, Advance(c));
  }

  // A replay misses what succeeded on the old connection but is recorded only afterwards: the
  // client is connected and has a subscription on record, and nothing was ever sent on its current
  // connection.
  lemma SubscriptionMissedByTheReplay() returns (s: State)
    ensures Reachable(s) && s.link == Link(true, 2, 2, None, {1}, {}, {}, {})
    ensures s.memory.subscribed == Some(None)
    ensures 1 in s.tasks && s.tasks[1].phase.Finished? && s.tasks[1].phase.outcome.Returned?
    ensures forall i :: 0 <= i < |s.wire.sent| ==> s.wire.sent[i].epoch != 2
  {
    var s1 := AnsweredButNotRecorded();
    MeetsADeadWriter(s1, 2, 2, 1);
    var s2 := UpToInstalled(Next(s1, Advance(2)), 2);
    var s3 := UpToReplayedNothing(s2, 2);
    NoticesTheAnswer(s3, 1, 1, Response(1, false, 0));
    s := Next(s3, Advance(1));
  }

  lemma OneHasChecked() returns (s: State)
    ensures Reachable(s) && s.link == INITIAL.link.(deadWriters := {1}, deadReaders := {1}, clearing := {1})
    ensures 2 in s.tasks && s.tasks[2].phase == Sending(0, 2, 1)
  {
    var s1 := OneWaitsAndTheWriterDies();
    s := Next(s1, ReaderEnds(1));
    ReachableStep(s1, ReaderEnds(1));
  }

  // The check of the epoch and the cleanup after it are not one step: reader 1 finds its connection
  // current, call 2 installs connection 2, and reader 1 marks that disconnected though its reader
  // and its writer are alive.
  lemma CheckedReaderDisconnectsAHealthyConnection() returns (s: State)
    ensures Reachable(s) && s.link.epoch == 2 && !s.link.connected
    ensures ReaderAtWork(s.link, 2) && 2 !in s.link.deadWriters
    ensures 1 in s.link.dropping && exists c :: c in s.tasks && s.tasks[c].phase == Subscribing(1)
  {
    var s2 := OneHasChecked();
    MeetsADeadWriter(s2, 2, 2, 1);
    var s3 := UpToInstalled(Next(s2, Advance(2)), 2);
    s := Next(s3, ReaderClears(1));
    ReachableStep(s3, ReaderClears(1));
    assert s.tasks[2].phase == Subscribing(1);
  }
}
