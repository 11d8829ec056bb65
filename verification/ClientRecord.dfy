// What is remembered is what succeeded, and a connection is installed only for one that was lost
// (crates/repomon-core/src/client.rs:118-155, 242-252).
module ClientRecord {
  import opened Prelude
  import opened Client
  import opened ClientInvariant
  import opened ClientTheorems

  // ---------------------------------------------------------------- only answers are remembered

  predicate HasReturned(t: Task) { t.phase.Finished? && t.phase.outcome.Returned? }

  predicate HasFailed(t: Task) { t.phase.Finished? && !t.phase.outcome.Returned? }

  // The step in which a call takes an answer that is no error.
  predicate Succeeds(s: State, a: Action) {
    && a.Advance? && a.call in s.tasks && s.tasks[a.call].phase.Waiting?
    && s.tasks[a.call].phase.id in s.inbox.mail
    && s.inbox.mail[s.tasks[a.call].phase.id].Answered?
    && !s.inbox.mail[s.tasks[a.call].phase.id].response.error
  }

  lemma OnlySuccessIsRemembered(s: State, a: Action)
    ensures
      var s' := Next(s, a);
      if Succeeds(s, a)
      then && s'.memory.succeeded == s.memory.succeeded + [s.tasks[a.call].request]
           && s'.tasks.Keys == s.tasks.Keys
           && (forall c :: c in s.tasks && c != a.call ==> s'.tasks[c] == s.tasks[c])
           && HasReturned(s'.tasks[a.call]) && s'.tasks[a.call].request == s.tasks[a.call].request
      else s'.memory == s.memory
  {}

  lemma OthersDoNotReturn(s: State, a: Action, c: nat)
    requires !Succeeds(s, a)
    ensures
      var s' := Next(s, a);
      && (c in s'.tasks && HasReturned(s'.tasks[c]) <==> c in s.tasks && HasReturned(s.tasks[c]))
      && (c in s.tasks ==> c in s'.tasks && s'.tasks[c].request == s.tasks[c].request)
  {
    if a.Advance? { AdvanceOnly(s, a.call); }
  }

  // A step after which a call is refused, timed out, disconnected or without a connection leaves
  // everything remembered as it was.
  lemma FailureLeavesNoTrace(s: State, a: Action, c: nat)
    requires c in s.tasks && !s.tasks[c].phase.Finished?
    requires c in Next(s, a).tasks && HasFailed(Next(s, a).tasks[c])
    ensures Next(s, a).memory == s.memory
  {
    OnlySuccessIsRemembered(s, a);
  }

  // The calls that returned an answer to `r`.
  function ReturnedWith(s: State, r: Request): set<nat> {
    set c | c in s.tasks && HasReturned(s.tasks[c]) && s.tasks[c].request == r
  }

  ghost predicate RecordOk(s: State) {
    forall r {:trigger ReturnedWith(s, r)} :: multiset(s.memory.succeeded)[r] == |ReturnedWith(s, r)|
  }

  lemma SuccessIsCounted(s: State, a: Action, r: Request)
    requires Succeeds(s, a) && multiset(s.memory.succeeded)[r] == |ReturnedWith(s, r)|
    ensures multiset(Next(s, a).memory.succeeded)[r] == |ReturnedWith(Next(s, a), r)|
  {
    var s' := Next(s, a);
    OnlySuccessIsRemembered(s, a);
    if s.tasks[a.call].request == r {
      assert ReturnedWith(s', r) == ReturnedWith(s, r) + {a.call};
    } else {
      assert ReturnedWith(s', r) == ReturnedWith(s, r);
    }
  }

  lemma StepRecord(s: State, a: Action)
    requires RecordOk(s)
    ensures RecordOk(Next(s, a))
  {
    var s' := Next(s, a);
    forall r ensures multiset(s'.memory.succeeded)[r] == |ReturnedWith(s', r)| {
      assert multiset(s.memory.succeeded)[r] == |ReturnedWith(s, r)|;
      if Succeeds(s, a) {
        SuccessIsCounted(s, a, r);
      } else {
        OnlySuccessIsRemembered(s, a);
        forall c ensures c in ReturnedWith(s', r) <==> c in ReturnedWith(s, r) { OthersDoNotReturn(s, a, c); }
        assert ReturnedWith(s', r) == ReturnedWith(s, r);
      }
    }
  }

  lemma {:induction false} RunRecord(s: State, run: seq<Action>)
    requires RecordOk(s)
    ensures RecordOk(After(s, run))
    decreases |run|
  {
    if run != [] {
      StepRecord(s, run[0]);
      RunRecord(Next(s, run[0]), run[1..]);
    }
  }

  // In every reachable state each request is on record as often as there are calls with that request
  // that returned an answer; calls that failed in whatever way are not on it.
  lemma RecordIsWhatReturned(s: State, r: Request)
    requires Reachable(s)
    ensures multiset(s.memory.succeeded)[r] == |ReturnedWith(s, r)|
  {
    var run :| After(INITIAL, run) == s;
    assert multiset(INITIAL.memory.succeeded) == multiset{};
    assert forall q :: ReturnedWith(INITIAL, q) == {};
    RunRecord(INITIAL, run);
  }

  // ---------------------------------------------------------------- one connection for one lost

  // How often the flag went from set to clear.
  function Losses(s: State, run: seq<Action>): nat
    decreases |run|
  {
    if run == [] then 0
    else
      (if s.link.connected && !Next(s, run[0]).link.connected then 1 else 0) + Losses(Next(s, run[0]), run[1..])
  }

  // The holder of the lock has put a new channel in place but not yet set the flag.
  predicate Swapping(s: State) {
    s.link.lock.Some? && s.link.lock.value in s.tasks && s.tasks[s.link.lock.value].phase.Swapped?
  }

  // Each channel but the first has replaced a connection that was lost, and while the flag is clear
  // there is one more to be replaced.
  ghost predicate Spent(s: State, losses: nat) {
    s.link.out + (if s.link.connected || Swapping(s) then 0 else 1) <= losses + 1
  }

  lemma AdvanceSpends(s: State, c: nat, losses: nat)
    requires Locked(s) && Spent(s, losses)
    ensures
      var s' := AdvanceStep(s, c);
      Spent(s', losses + if s.link.connected && !s'.link.connected then 1 else 0)
  {
    if c in s.tasks { assert s.tasks[c].phase.Reconnecting() <==> s.link.lock == Some(c); }
    AdvanceOnly(s, c);
  }

  lemma ReconnectSpends(s: State, c: nat, reachable: bool, losses: nat)
    requires Locked(s) && OutOk(s) && Spent(s, losses)
    ensures
      var s' := ReconnectStep(s, c, reachable);
      Spent(s', losses + if s.link.connected && !s'.link.connected then 1 else 0)
  {
    if c in s.tasks { assert s.tasks[c].phase.Reconnecting() <==> s.link.lock == Some(c); }
  }

  lemma StepSpends(s: State, a: Action, losses: nat)
    requires Locked(s) && OutOk(s) && Spent(s, losses)
    ensures
      var s' := Next(s, a);
      Spent(s', losses + if s.link.connected && !s'.link.connected then 1 else 0)
  {
    match a
    case Advance(c) => AdvanceSpends(s, c, losses);
    case Reconnect(c, reachable) => ReconnectSpends(s, c, reachable, losses);
    case Copy(c, _) => assert Locked(s);
    case _ =>
  }

  lemma {:induction false} RunSpends(s: State, run: seq<Action>, losses: nat)
    requires Inv(s) && Spent(s, losses)
    ensures Spent(After(s, run), losses + Losses(s, run)) && Inv(After(s, run))
    decreases |run|
  {
    if run != [] {
      StepSpends(s, run[0], losses);
      StepInv(s, run[0]);
      RunSpends(
        Next(s, run[0]), run[1..], losses + if s.link.connected && !Next(s, run[0]).link.connected then 1 else 0);
    }
  }

  // In every run there are at most as many reconnects as the client has lost its connection, however
  // many callers want one; a caller that gets the lock and finds the client connected installs none.
  lemma OneConnectionForOneLost(run: seq<Action>)
    ensures After(INITIAL, run).link.epoch <= 1 + Losses(INITIAL, run)
  {
    RunSpends(INITIAL, run, 0);
  }
}
