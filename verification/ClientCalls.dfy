// How often a call tries, what it sends, and that without a connection it sends nothing
// (crates/repomon-core/src/client.rs:105-189).
module ClientCalls {
  import opened Prelude
  import opened Client
  import opened ClientInvariant
  import opened ClientTheorems

  // ---------------------------------------------------------------- attempts

  // The ids that a call drew for itself, one for each attempt.
  function Drawn(w: Wire, c: nat): set<nat> { set id | id in w.drawn && w.drawn[id] == FromCall(c) }

  // How many ids a call may have drawn where it is.
  predicate Tried(n: nat, p: Phase) {
    match p
    case Finished(Disconnected) => n == 2
    case Finished(ConnectFailed) => n <= 1
    case Finished(_) => 1 <= n <= 2
    case _ => p.attempt <= 1 && n == p.attempt + if HoldsId(p) then 1 else 0
  }

  ghost predicate AllTried(s: State) {
    && (forall id :: id in s.wire.drawn ==> id < s.wire.nextId)
    && (forall c :: c in s.tasks ==> Tried(|Drawn(s.wire, c)|, s.tasks[c].phase))
    && (forall c :: c !in s.tasks ==> Drawn(s.wire, c) == {})
  }

  predicate DrawsForItself(s: State, a: Action, c: nat) {
    a == Advance(c) && c in s.tasks && s.tasks[c].phase.Ready?
  }

  // A step draws nothing, or one id for a replay, or, out of Ready, one for the call itself.
  lemma StepDraws(s: State, a: Action)
    ensures
      var w, w' := s.wire, Next(s, a).wire;
      if a.Advance? && DrawsForItself(s, a, a.call) then w' == Drew(w, FromCall(a.call))
      else w'.drawn == w.drawn || exists d :: w'.drawn == w.drawn[w.nextId := FromReplay(d)]
  {
    if a.Advance? && a.call in s.tasks && !DrawsForItself(s, a, a.call) { AdvanceDraws(s, a.call); }
  }

  lemma AdvanceDraws(s: State, c: nat)
    requires c in s.tasks && !s.tasks[c].phase.Ready?
    ensures
      var drawn := AdvanceStep(s, c).wire.drawn;
      drawn == s.wire.drawn || drawn == s.wire.drawn[s.wire.nextId := FromReplay(c)]
  {}

  // Only the task that leaves Ready draws an id for itself.
  lemma OnlyReadyDraws(s: State, a: Action, c: nat)
    requires forall id :: id in s.wire.drawn ==> id < s.wire.nextId
    ensures Drawn(Next(s, a).wire, c) == Drawn(s.wire, c) + if DrawsForItself(s, a, c) then {s.wire.nextId} else {}
  {
    StepDraws(s, a);
  }

  lemma IdsStayBelow(s: State, a: Action)
    requires forall id :: id in s.wire.drawn ==> id < s.wire.nextId
    ensures forall id :: id in Next(s, a).wire.drawn ==> id < Next(s, a).wire.nextId
  {}

  lemma OthersStay(s: State, a: Action, c: nat)
    requires c in s.tasks && !(a.Advance? && a.call == c) && !(a.Reconnect? && a.call == c)
    requires !(a.Copy? && a.call == c) && !(a.Timeout? && a.call == c)
    ensures c in Next(s, a).tasks && Next(s, a).tasks[c] == s.tasks[c]
  {
    if a.Advance? { AdvanceOnly(s, a.call); }
  }

  lemma OwnAdvanceTries(s: State, c: nat, n: nat)
    requires c in s.tasks && Tried(n, s.tasks[c].phase)
    ensures
      c in AdvanceStep(s, c).tasks
      && Tried(n + if s.tasks[c].phase.Ready? then 1 else 0, AdvanceStep(s, c).tasks[c].phase)
  {}

  lemma OwnOtherTries(s: State, a: Action, n: nat)
    requires (a.Reconnect? || a.Copy? || a.Timeout?) && a.call in s.tasks && Tried(n, s.tasks[a.call].phase)
    ensures a.call in Next(s, a).tasks && Tried(n, Next(s, a).tasks[a.call].phase)
  {}

  lemma TaskTries(s: State, a: Action, c: nat)
    requires AllTried(s) && c in Next(s, a).tasks
    ensures Tried(|Drawn(Next(s, a).wire, c)|, Next(s, a).tasks[c].phase)
  {
    OnlyReadyDraws(s, a, c);
    if c in s.tasks {
      if a == Advance(c) {
        OwnAdvanceTries(s, c, |Drawn(s.wire, c)|);
      } else if (a.Reconnect? || a.Copy? || a.Timeout?) && a.call == c {
        OwnOtherTries(s, a, |Drawn(s.wire, c)|);
      } else {
        OthersStay(s, a, c);
      }
    } else if a.Advance? {
      NoNewTask(s, a.call, c);
    }
  }

  lemma NoNewTask(s: State, c: nat, d: nat)
    requires d !in s.tasks
    ensures d !in AdvanceStep(s, c).tasks
  {}

  lemma StepTries(s: State, a: Action)
    requires AllTried(s)
    ensures AllTried(Next(s, a))
  {
    var s' := Next(s, a);
    IdsStayBelow(s, a);
    forall c | c in s'.tasks ensures Tried(|Drawn(s'.wire, c)|, s'.tasks[c].phase) { TaskTries(s, a, c); }
    forall c | c !in s'.tasks ensures Drawn(s'.wire, c) == {} {
      OnlyReadyDraws(s, a, c);
      if c in s.tasks { StaysTask(s, a, c); }
    }
  }

  lemma StaysTask(s: State, a: Action, c: nat)
    requires c in s.tasks
    ensures c in Next(s, a).tasks
  {
    if a.Advance? { AdvanceOnly(s, a.call); }
  }

  lemma {:induction false} RunTries(s: State, run: seq<Action>)
    requires AllTried(s)
    ensures AllTried(After(s, run))
    decreases |run|
  {
    if run != [] {
      StepTries(s, run[0]);
      RunTries(Next(s, run[0]), run[1..]);
    }
  }

  // A call that ends as disconnected has tried twice, one that got an answer or timed out once or
  // twice, and one that found nobody to connect to has not tried, or has lost its first attempt.
  lemma TriesExactly(s: State, c: nat)
    requires Reachable(s) && c in s.tasks && s.tasks[c].phase.Finished?
    ensures
      match s.tasks[c].phase.outcome
      case Disconnected => |Drawn(s.wire, c)| == 2
      case ConnectFailed => |Drawn(s.wire, c)| <= 1
      case _ => 1 <= |Drawn(s.wire, c)| <= 2
  {
    var run :| After(INITIAL, run) == s;
    RunTries(INITIAL, run);
  }

  // ---------------------------------------------------------------- what is sent

  ghost predicate FramesCarry(s: State) {
    forall i :: 0 <= i < |s.wire.sent| && s.wire.sent[i].origin.FromCall? ==>
      var c := s.wire.sent[i].origin.call;
      c in s.tasks && s.wire.sent[i].request == s.tasks[c].request
  }

  lemma StepCarries(s: State, a: Action)
    requires FramesCarry(s)
    ensures FramesCarry(Next(s, a))
  {
    var s' := Next(s, a);
    forall c | c in s.tasks ensures c in s'.tasks && s'.tasks[c].request == s.tasks[c].request {
      if a.Advance? { AdvanceOnly(s, a.call); }
    }
  }

  lemma {:induction false} RunCarries(s: State, run: seq<Action>)
    requires FramesCarry(s)
    ensures FramesCarry(After(s, run))
    decreases |run|
  {
    if run != [] {
      StepCarries(s, run[0]);
      RunCarries(Next(s, run[0]), run[1..]);
    }
  }

  // What a call puts on the wire for itself is its request.
  lemma FramesCarryTheRequest(s: State, i: nat)
    requires Reachable(s) && i < |s.wire.sent| && s.wire.sent[i].origin.FromCall?
    ensures
      var c := s.wire.sent[i].origin.call;
      c in s.tasks && s.wire.sent[i].request == s.tasks[c].request
  {
    var run :| After(INITIAL, run) == s;
    RunCarries(INITIAL, run);
  }

  function FramesOn(sent: seq<Sent>, e: nat): seq<Sent> {
    if sent == [] then []
    else FramesOn(sent[..|sent| - 1], e) + if sent[|sent| - 1].epoch == e then [sent[|sent| - 1]] else []
  }

  lemma StepSends(s: State, a: Action)
    ensures
      var sent, more := s.wire.sent, Next(s, a).wire.sent;
      more == sent
      || (|more| == |sent| + 1 && more[..|sent|] == sent && more[|sent|].epoch !in s.link.deadWriters)
  {}

  lemma DeadStaysDead(s: State, a: Action)
    ensures s.link.deadWriters <= Next(s, a).link.deadWriters
  {}

  // Nothing is put on a connection after its writer has died, neither a call's own request nor what a
  // reconnect replays.
  lemma {:induction false} NothingAfterTheWriterDies(s: State, run: seq<Action>, e: nat)
    requires e in s.link.deadWriters
    ensures FramesOn(After(s, run).wire.sent, e) == FramesOn(s.wire.sent, e)
    decreases |run|
  {
    if run != [] {
      StepSends(s, run[0]);
      DeadStaysDead(s, run[0]);
      NothingAfterTheWriterDies(Next(s, run[0]), run[1..], e);
    }
  }

  // ---------------------------------------------------------------- without a connection

  // About to look at the flag, or on the way to a new connection that is not yet marked as one.
  predicate IsDown(p: Phase) { p.Start? || p.WantsLock? || p.HasLock? || p.Swapped? || p == Finished(ConnectFailed) }

  ghost predicate NeverConnected(s: State, run: seq<Action>) {
    forall k :: 0 <= k <= |run| ==> !After(s, run[..k]).link.connected
  }

  lemma StepStaysDown(s: State, a: Action, c: nat)
    requires AllTried(s) && c in s.tasks && IsDown(s.tasks[c].phase)
    requires !s.link.connected && !Next(s, a).link.connected
    ensures c in Next(s, a).tasks && IsDown(Next(s, a).tasks[c].phase)
    ensures Drawn(Next(s, a).wire, c) == Drawn(s.wire, c)
  {
    OnlyReadyDraws(s, a, c);
    if !(a.Advance? || a.Reconnect? || a.Copy? || a.Timeout?) || a.call != c { OthersStay(s, a, c); }
  }

  lemma NeverConnectedStep(s: State, run: seq<Action>)
    requires NeverConnected(s, run) && run != []
    ensures !s.link.connected && !Next(s, run[0]).link.connected && NeverConnected(Next(s, run[0]), run[1..])
  {
    assert run[..0] == [];
    assert run[..1][1..] == [];
    assert After(s, run[..1]) == Next(s, run[0]);
    forall k | 0 <= k <= |run[1..]| ensures !After(Next(s, run[0]), run[1..][..k]).link.connected {
      assert run[..k + 1][1..] == run[1..][..k];
      assert !After(s, run[..k + 1]).link.connected;
    }
  }

  // As long as nobody has put up a new connection, a call that has yet to look at the flag neither
  // draws an id nor ends, unless it finds nobody to connect to.
  lemma {:induction false} NothingIsSentWhileDown(s: State, run: seq<Action>, c: nat)
    requires Reachable(s) && NeverConnected(s, run)
    requires c in s.tasks && (s.tasks[c].phase.Start? || s.tasks[c].phase.WantsLock?)
    ensures c in After(s, run).tasks && IsDown(After(s, run).tasks[c].phase)
    ensures Drawn(After(s, run).wire, c) == Drawn(s.wire, c)
  {
    var before :| After(INITIAL, before) == s;
    RunTries(INITIAL, before);
    StaysDown(s, run, c);
  }

  lemma {:induction false} StaysDown(s: State, run: seq<Action>, c: nat)
    requires AllTried(s) && NeverConnected(s, run) && c in s.tasks && IsDown(s.tasks[c].phase)
    ensures c in After(s, run).tasks && IsDown(After(s, run).tasks[c].phase)
    ensures Drawn(After(s, run).wire, c) == Drawn(s.wire, c)
    decreases |run|
  {
    if run != [] {
      NeverConnectedStep(s, run);
      StepStaysDown(s, run[0], c);
      StepTries(s, run[0]);
      StaysDown(Next(s, run[0]), run[1..], c);
    }
  }
}
