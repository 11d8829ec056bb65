// The client as it runs: one object whose fields every clone of the handle shares, updated in
// place by calls, readers and reconnects. Each method is one step of `Client.Next`; the replay
// loop is a whole run of them.
module ClientInner {
  import opened Prelude
  import opened Client

  class Inner {
    var pending: map<nat, nat>
    var mail: map<nat, Mail>
    var nextId: nat
    var sent: seq<Sent>
    ghost var drawn: map<nat, Origin>
    var connected: bool
    var epoch: nat
    var out: nat
    var lock: Option<nat>
    var deadWriters: set<nat>
    var deadReaders: set<nat>
    ghost var clearing: set<nat>
    ghost var dropping: set<nat>
    ghost var past: Past
    var subscribed: Option<Option<Params>>
    var bytes: Registry
    var transcripts: Registry
    ghost var succeeded: seq<Request>
    var tasks: map<nat, Task>

    ghost function View(): State
      reads this
    {
      State(Wire(nextId, sent, drawn), Inbox(pending, mail),
            Link(connected, epoch, out, lock, deadWriters, deadReaders, clearing, dropping),
            Memory(subscribed, bytes, transcripts, succeeded), tasks, past)
    }

    // A client right after its first connection.
    constructor ()
      ensures View() == INITIAL
    {
      pending, mail, nextId, sent, drawn := map[], map[], 1, [], map[];
      connected, epoch, out, lock, deadWriters, deadReaders := true, 1, 1, None, {}, {};
      clearing, dropping, past := {}, {}, Past({}, map[]);
      subscribed, bytes, transcripts, succeeded := None, map[], map[], [];
      tasks := map[];
    }

    // Install a fresh connection: its channel, the live flag, the next epoch.
    method SpawnIo(c: nat)
      requires c in tasks && tasks[c].phase.HasLock? && !connected
      modifies this`connected, this`epoch, this`out, this`tasks
      ensures View() == After(old(View()), [Action.Reconnect(c, true), Advance(c), Advance(c)])
      ensures c in tasks && tasks[c].phase == Subscribing(old(tasks)[c].phase.attempt)
      ensures connected && epoch == out == old(epoch) + 1
    {
      ghost var s := View();
      AfterThree(s, Action.Reconnect(c, true), Advance(c), Advance(c));
      var task := tasks[c];
      out := epoch + 1;
      tasks := tasks[c := task.(phase := Swapped(task.phase.attempt))];
      connected := true;
      tasks := tasks[c := task.(phase := Marked(task.phase.attempt))];
      epoch := epoch + 1;
      tasks := tasks[c := task.(phase := Subscribing(task.phase.attempt))];
    }

    // Under the reconnect lock: look again, connect, install.
    method Reconnect(c: nat, reachable: bool)
      requires c in tasks && tasks[c].phase.HasLock?
      modifies this`connected, this`epoch, this`out, this`lock, this`tasks
      ensures View() == After(
                old(View()),
                if old(connected) || !reachable then [Action.Reconnect(c, reachable)]
                else [Action.Reconnect(c, true), Advance(c), Advance(c)])
      ensures c in tasks && tasks[c].phase == (
                var attempt := old(tasks)[c].phase.attempt;
                if old(connected) then Ready(attempt)
                else if reachable then Subscribing(attempt) else Finished(ConnectFailed))
    {
      var task := tasks[c];
      var attempt := task.phase.attempt;
      AfterOne(View(), Action.Reconnect(c, reachable));
      if connected {
        lock := None;
        tasks := tasks[c := task.(phase := Ready(attempt))];
        return;
      }
      if !reachable {
        lock := None;
        tasks := tasks[c := task.(phase := Finished(ConnectFailed))];
        return;
      }
      SpawnIo(c);
    }

    // Put one replayed request on the current connection.
    method ReplayOne(c: nat, request: Request)
      modifies this`nextId, this`sent, this`drawn
      ensures View() == Replayed(old(View()), c, request)
    {
      var id := nextId;
      nextId := nextId + 1;
      drawn := drawn[id := FromReplay(c)];
      if out !in deadWriters { sent := sent + [Sent(out, id, FromReplay(c), request)]; }
    }

    // Draw an id and wait for it.
    method Register(c: nat) returns (id: nat)
      requires c in tasks && tasks[c].phase.Ready?
      modifies this`nextId, this`drawn, this`pending, this`tasks
      ensures View() == AdvanceStep(old(View()), c)
      ensures id == old(nextId) && pending == old(pending)[id := c]
    {
      RegisterIs(View(), c);
      id := DrawId(c);
      pending := pending[id := c];
      tasks := tasks[c := tasks[c].(phase := Registered(tasks[c].phase.attempt, id))];
    }

    method DrawId(ghost c: nat) returns (id: nat)
      modifies this`nextId, this`drawn
      ensures id == old(nextId)
      ensures View() == old(View()).(wire := Drew(old(View()).wire, FromCall(c)))
    {
      id := nextId;
      nextId := nextId + 1;
      drawn := drawn[id := FromCall(c)];
    }

    // Enqueue the frame, or forget the id and try again on a new connection.
    method Enqueue(c: nat) returns (ok: bool)
      requires c in tasks && tasks[c].phase.Sending?
      modifies this`sent, this`pending, this`connected, this`tasks
      ensures View() == AdvanceStep(old(View()), c)
      ensures ok <==> old(tasks)[c].phase.epoch !in deadWriters
    {
      var Sending(attempt, id, e) := tasks[c].phase;
      if e in deadWriters {
        pending := pending - {id};
        connected := false;
        tasks := tasks[c := tasks[c].(phase := if attempt == 0 then Start(1) else Finished(Disconnected))];
        return false;
      }
      sent := sent + [Sent(e, id, FromCall(c), tasks[c].request)];
      tasks := tasks[c := tasks[c].(phase := Waiting(attempt, id))];
      return true;
    }

    // Take the answer, or the news that the connection is gone.
    method Resume(c: nat)
      requires c in tasks && tasks[c].phase.Waiting? && tasks[c].phase.id in mail
      modifies this`connected, this`subscribed, this`bytes, this`transcripts, this`succeeded, this`tasks
      ensures View() == AdvanceStep(old(View()), c)
    {
      var Waiting(attempt, id) := tasks[c].phase;
      var request := tasks[c].request;
      match mail[id]
      case Dropped =>
        connected := false;
        tasks := tasks[c := tasks[c].(phase := if attempt == 0 then Start(1) else Finished(Disconnected))];
      case Answered(r) =>
        if r.error {
          tasks := tasks[c := tasks[c].(phase := Finished(Refused(r)))];
          return;
        }
        Record(request);
        tasks := tasks[c := tasks[c].(phase := Finished(Returned(r)))];
    }

    // Remember the subscription or the watch of a request that succeeded.
    method Record(request: Request)
      modifies this`subscribed, this`bytes, this`transcripts, this`succeeded
      ensures Memory(subscribed, bytes, transcripts, succeeded)
        == Remember(old(Memory(subscribed, bytes, transcripts, succeeded)), request)
    {
      succeeded := succeeded + [request];
      if request.verb == Subscribe {
        subscribed := Some(request.params);
      } else if request.verb == WatchBytes && request.params.Some? {
        bytes := Track(bytes, WatchBytes, request.params.value);
      } else if request.verb == TranscriptWatch && request.params.Some? {
        transcripts := Track(transcripts, TranscriptWatch, request.params.value);
      }
    }

    // The timeout of a call that has had no mail.
    method TimeOut(c: nat)
      requires c in tasks && tasks[c].phase.Waiting? && tasks[c].phase.id !in mail
      modifies this`pending, this`tasks
      ensures View() == TimeoutStep(old(View()), c)
    {
      pending := pending - {tasks[c].phase.id};
      tasks := tasks[c := tasks[c].(phase := Finished(TimedOut))];
    }

    // A reader hands a response on.
    method Deliver(e: nat, r: Response)
      modifies this`pending, this`mail
      ensures View() == Next(old(View()), Action.Deliver(e, r))
    {
      if e > epoch || e in deadReaders { return; }
      if r.id in pending {
        pending := pending - {r.id};
        mail := mail[r.id := Answered(r)];
      }
    }

    // A reader's loop has ended: clean up, unless a newer connection has been installed.
    method ReaderEnds(e: nat)
      requires e <= epoch && e !in deadReaders
      modifies this`connected, this`pending, this`mail, this`deadReaders, this`clearing, this`dropping, this`past
      ensures View() == After(
                old(View()),
                if e == epoch then [Action.ReaderEnds(e), ReaderClears(e), ReaderDrops(e)] else [Action.ReaderEnds(e)])
      ensures e != epoch ==> connected == old(connected) && pending == old(pending) && mail == old(mail)
    {
      ghost var s := View();
      AfterOne(s, Action.ReaderEnds(e));
      AfterThree(s, Action.ReaderEnds(e), ReaderClears(e), ReaderDrops(e));
      var current := Check(e);
      if current {
        ClearFlag(e);
        DropPending(e);
      }
    }

    // Is it the current connection's reader that has ended?
    method Check(e: nat) returns (current: bool)
      requires e <= epoch && e !in deadReaders
      modifies this`deadReaders, this`clearing, this`past
      ensures current == (e == epoch) && (current ==> e in clearing)
      ensures View() == ReaderEndsStep(old(View()), e)
    {
      current := e == epoch;
      deadReaders := deadReaders + {e};
      if current { clearing, past := clearing + {e}, past.(current := past.current + {e}); }
    }

    method ClearFlag(e: nat)
      requires e in clearing
      modifies this`connected, this`clearing, this`dropping
      ensures View() == ReaderClearsStep(old(View()), e) && e in dropping
    {
      connected, clearing, dropping := false, clearing - {e}, dropping + {e};
    }

    method DropPending(e: nat)
      requires e in dropping
      modifies this`pending, this`mail, this`dropping, this`past
      ensures View() == ReaderDropsStep(old(View()), e)
    {
      ClearPending();
      dropping := dropping - {e};
      past := past.(drops := past.drops[e := nextId]);
    }

    // The dropped senders tell the waiting calls.
    method ClearPending()
      modifies this`pending, this`mail
      ensures Inbox(pending, mail) == AllDropped(old(Inbox(pending, mail)))
    {
      mail := mail + map id | id in pending :: Dropped;
      pending := map[];
    }

    // The keys of a registry in the order in which its map yields them.
    static method Keys(r: Registry) returns (order: seq<string>)
      ensures Enumerates(order, r)
    {
      order := [];
      var todo := r.Keys;
      while todo != {}
        invariant todo <= r.Keys
        invariant forall k :: k in order <==> k in r && k !in todo
        invariant forall i, j :: 0 <= i < j < |order| ==> order[i] != order[j]
        decreases todo
      {
        var k :| k in todo;
        order := order + [k];
        todo := todo - {k};
      }
    }

    // The recorded subscription is the first thing a new connection is given.
    method ReplaySubscription(c: nat)
      requires c in tasks && tasks[c].phase.Subscribing?
      modifies this`nextId, this`sent, this`drawn, this`tasks
      ensures View() == AdvanceStep(old(View()), c)
    {
      var task := tasks[c];
      if subscribed.Some? { ReplayOne(c, Request(Subscribe, subscribed.value)); }
      tasks := tasks[c := task.(phase := Copying(task.phase.attempt, WatchBytes))];
    }

    // Copy one registry's values out of its lock.
    method CopyRegistry(c: nat) returns (order: seq<string>)
      requires c in tasks && tasks[c].phase.Copying?
      modifies this`tasks
      ensures View() == CopyStep(old(View()), c, order)
      ensures c in tasks && tasks[c].phase.Replaying?
      ensures tasks[c].phase.next == 0 && tasks[c].phase.kind == old(tasks)[c].phase.kind
    {
      var Copying(attempt, kind) := tasks[c].phase;
      var r := if kind == TranscriptWatch then transcripts else bytes;
      order := Keys(r);
      tasks := tasks[c := tasks[c].(phase := Replaying(attempt, kind, Values(order, r), 0))];
    }

    method ReplayNext(c: nat)
      requires c in tasks && tasks[c].phase.Replaying?
      modifies this`nextId, this`sent, this`drawn, this`lock, this`tasks
      ensures View() == AdvanceStep(old(View()), c)
    {
      var task := tasks[c];
      var Replaying(attempt, kind, values, next) := task.phase;
      if next < |values| {
        ReplayOne(c, Request(kind, Some(values[next])));
        tasks := tasks[c := task.(phase := Replaying(attempt, kind, values, next + 1))];
      } else if kind == WatchBytes {
        tasks := tasks[c := task.(phase := Copying(attempt, TranscriptWatch))];
      } else {
        lock := None;
        tasks := tasks[c := task.(phase := Ready(attempt))];
      }
    }

    // One registry: copy it, then replay its watches one by one. `run` is the run it amounts to.
    method ReplayRegistry(c: nat) returns (ghost run: seq<Action>)
      requires c in tasks && tasks[c].phase.Copying?
      modifies this`nextId, this`sent, this`drawn, this`lock, this`tasks
      ensures View() == After(old(View()), run)
      ensures c in tasks
      ensures tasks[c].phase == if old(tasks)[c].phase.kind == WatchBytes
                                then Copying(old(tasks)[c].phase.attempt, TranscriptWatch)
                                else Ready(old(tasks)[c].phase.attempt)
    {
      ghost var start := View();
      ghost var attempt, kind := tasks[c].phase.attempt, tasks[c].phase.kind;
      var order := CopyRegistry(c);
      run := [Copy(c, order)];
      AfterOne(start, Copy(c, order));
      ghost var total := |tasks[c].phase.values|;
      while c in tasks && tasks[c].phase.Replaying?
        invariant View() == After(start, run) && c in tasks
        invariant if tasks[c].phase.Replaying? then
                    && tasks[c].phase.attempt == attempt && tasks[c].phase.kind == kind
                    && tasks[c].phase.next <= |tasks[c].phase.values| == total
                  else
                    tasks[c].phase
                    == if kind == WatchBytes then Copying(attempt, TranscriptWatch) else Ready(attempt)
        decreases if tasks[c].phase.Replaying? then total - tasks[c].phase.next + 1 else 0
      {
        AfterOneMore(start, run, Advance(c));
        ReplayNext(c);
        run := run + [Advance(c)];
      }
    }

    // Everything the record holds, onto the connection just installed, and the lock let go.
    method Replay(c: nat) returns (ghost run: seq<Action>)
      requires c in tasks && tasks[c].phase.Subscribing?
      modifies this`nextId, this`sent, this`drawn, this`lock, this`tasks
      ensures View() == After(old(View()), run)
      ensures c in tasks && tasks[c].phase == Ready(old(tasks)[c].phase.attempt)
    {
      ghost var start := View();
      ReplaySubscription(c);
      AfterOne(start, Advance(c));
      ghost var middle := View();
      ghost var first := ReplayRegistry(c);
      AfterAppend(start, [Advance(c)], first);
      ghost var second := ReplayRegistry(c);
      AfterAppend(start, [Advance(c)] + first, second);
      run := [Advance(c)] + first + second;
    }
  }

  lemma {:induction false} AfterAppend(s: State, run: seq<Action>, more: seq<Action>)
    ensures After(s, run + more) == After(After(s, run), more)
    decreases |run|
  {
    if run == [] {
      assert run + more == more;
    } else {
      assert (run + more)[1..] == run[1..] + more;
      AfterAppend(Next(s, run[0]), run[1..], more);
    }
  }

  lemma AfterOne(s: State, a: Action)
    ensures After(s, [a]) == Next(s, a)
  {
    AfterOneMore(s, [], a);
    assert [] + [a] == [a];
  }

  lemma RegisterIs(s: State, c: nat)
    requires c in s.tasks && s.tasks[c].phase.Ready?
    ensures AdvanceStep(s, c) == RegisterStep(s, c, s.tasks[c].phase.attempt)
  {}

  lemma AfterThree(s: State, a: Action, b: Action, c: Action)
    ensures After(s, [a, b, c]) == Next(Next(Next(s, a), b), c)
  {
    AfterOne(s, a);
    AfterOneMore(s, [a], b);
    AfterOneMore(s, [a, b], c);
    assert [a] + [b] == [a, b] && [a, b] + [c] == [a, b, c];
  }

  // What a successful watch request does to its registry: record it, or drop by key or by lane.
  method Track(r: Registry, m: Method, p: Params) returns (r': Registry)
    ensures r' == Recorded(r, m, p)
  {
    r' := r;
    if IsOn(m, p) {
      r' := r'[WatchKey(p) := p];
    } else if p.window.Some? {
      r' := r' - {p.window.value};
    } else if p.lane.Some? {
      r' := map k | k in r' && r'[k].lane != p.lane :: r'[k];
    }
  }
}
