// Which calls are left waiting when the reader of their connection has ended
// (crates/repomon-core/src/client.rs:103-105, 208-236).
module ClientDrops {
  import opened Prelude
  import opened Client
  import opened ClientInvariant
  import opened ClientTheorems

  // A cleanup came after the id was drawn.
  ghost predicate DrawnBefore(p: Past, id: nat) { exists e :: e in p.drops && id < p.drops[e] }

  // No pending id was drawn before a cleanup, and the ids dropped all were.
  ghost predicate DropsOk(s: State) {
    && (forall e :: e in s.past.drops ==> s.past.drops[e] <= s.wire.nextId)
    && (forall id :: id in s.inbox.pending ==> !DrawnBefore(s.past, id))
    && (forall id :: id in s.inbox.mail && s.inbox.mail[id].Dropped? ==> DrawnBefore(s.past, id))
  }

  // A reader that was current when it ended is cleaning up or has done so.
  ghost predicate EndsOk(s: State) {
    forall e :: e in s.past.current <==> CleansUp(s.link, e) || e in s.past.drops
  }

  // ---------------------------------------------------------------- kept by every step

  lemma AdvanceDrops(s: State, c: nat)
    requires DropsOk(s)
    ensures DropsOk(AdvanceStep(s, c))
  {
    var s' := AdvanceStep(s, c);
    assert s'.past == s.past && s'.inbox.mail == s.inbox.mail && s.wire.nextId <= s'.wire.nextId;
    forall id | id in s'.inbox.pending ensures !DrawnBefore(s'.past, id) {
      assert id in s.inbox.pending || id == s.wire.nextId;
    }
  }

  lemma ReaderDropsDrops(s: State, e: nat)
    requires DropsOk(s) && Ids(s.wire) && Mailboxes(s.wire, s.inbox)
    ensures DropsOk(ReaderDropsStep(s, e))
  {
    var s' := ReaderDropsStep(s, e);
    if e in s.link.dropping {
      forall id | id in s'.inbox.mail && s'.inbox.mail[id].Dropped? ensures DrawnBefore(s'.past, id) {
        if id in s.inbox.pending {
          assert id < s'.past.drops[e];
        } else {
          var k :| k in s.past.drops && id < s.past.drops[k];
          assert id < s'.past.drops[k];
        }
      }
    }
  }

  lemma OtherDrops(s: State, a: Action)
    requires DropsOk(s) && !a.Advance? && !a.ReaderDrops?
    ensures DropsOk(Next(s, a))
  {
    var s' := Next(s, a);
    assert s'.past.drops == s.past.drops && s'.wire == s.wire;
    assert forall id :: DrawnBefore(s'.past, id) <==> DrawnBefore(s.past, id);
    assert forall id :: id in s'.inbox.pending ==> id in s.inbox.pending;
  }

  lemma StepDrops(s: State, a: Action)
    requires DropsOk(s) && Ids(s.wire) && Mailboxes(s.wire, s.inbox)
    ensures DropsOk(Next(s, a))
  {
    match a
    case Advance(c) => AdvanceDrops(s, c);
    case ReaderDrops(e) => ReaderDropsDrops(s, e);
    case _ => OtherDrops(s, a);
  }

  lemma AdvanceEnds(s: State, c: nat)
    ensures
      var s' := AdvanceStep(s, c);
      s'.past == s.past && s'.link.clearing == s.link.clearing && s'.link.dropping == s.link.dropping
  {}

  lemma StepEnds(s: State, a: Action)
    requires EndsOk(s)
    ensures EndsOk(Next(s, a))
  {
    if a.Advance? { AdvanceEnds(s, a.call); }
  }

  lemma {:induction false} RunDrops(s: State, run: seq<Action>)
    requires Inv(s) && DropsOk(s) && EndsOk(s)
    ensures DropsOk(After(s, run)) && EndsOk(After(s, run))
    decreases |run|
  {
    if run != [] {
      StepDrops(s, run[0]);
      StepEnds(s, run[0]);
      StepInv(s, run[0]);
      RunDrops(Next(s, run[0]), run[1..]);
    }
  }

  lemma ReachableDrops(s: State)
    requires Reachable(s)
    ensures DropsOk(s) && EndsOk(s)
  {
    var run :| After(INITIAL, run) == s;
    RunDrops(INITIAL, run);
  }

  // ---------------------------------------------------------------- who is left waiting

  // Call `c` has sent its frame on connection `e` and waits.
  ghost predicate WaitsOn(s: State, c: nat, id: nat, e: nat) {
    && c in s.tasks && s.tasks[c].phase.Waiting? && s.tasks[c].phase.id == id
    && exists i :: 0 <= i < |s.wire.sent| && s.wire.sent[i].id == id && s.wire.sent[i].epoch == e
  }

  // The reader of `e` has ended and there is nothing left for it to do.
  predicate IsOver(s: State, e: nat) { e in s.link.deadReaders && !CleansUp(s.link, e) }

  // When it ended its connection had been superseded already.
  predicate WasSuperseded(s: State, e: nat) { e in s.link.deadReaders && e !in s.past.current }

  predicate IsAnswered(b: Inbox, id: nat) { id in b.mail && b.mail[id].Answered? }

  // A call whose connection's reader is over, and that has not been answered, is left pending
  // exactly when no reader has cleaned up since its id was drawn. Then its own connection's reader
  // had been superseded when it ended, or had cleaned up before the id was drawn; and if no other
  // reader has cleaned up since, these are the only two ways not to be failed.
  lemma LeftWaitingExactly(s: State, c: nat, id: nat, e: nat)
    requires Reachable(s) && WaitsOn(s, c, id, e) && IsOver(s, e) && !IsAnswered(s.inbox, id)
    ensures id in s.inbox.pending <==> !DrawnBefore(s.past, id)
    ensures id !in s.inbox.pending ==> id in s.inbox.mail && s.inbox.mail[id].Dropped?
    ensures WasSuperseded(s, e) || e in s.past.drops
    ensures id in s.inbox.pending ==> WasSuperseded(s, e) || s.past.drops[e] <= id
    ensures
      (forall k :: k in s.past.drops && k != e ==> s.past.drops[k] <= id) ==>
        (id in s.inbox.pending <==> WasSuperseded(s, e) || s.past.drops[e] <= id)
  {
    ReachableInv(s);
    ReachableDrops(s);
    assert TaskOk(s.wire, s.inbox, c, s.tasks[c].phase);
    if e in s.past.drops && id < s.past.drops[e] { assert DrawnBefore(s.past, id); }
  }

  // The same of every call that has drawn an id, also while it has still to send its frame.
  lemma PendingExactly(s: State, c: nat, id: nat)
    requires Reachable(s) && c in s.tasks && s.tasks[c].phase.Owns(id)
    ensures id in s.inbox.pending <==> !IsAnswered(s.inbox, id) && !DrawnBefore(s.past, id)
  {
    ReachableInv(s);
    ReachableDrops(s);
    assert TaskOk(s.wire, s.inbox, c, s.tasks[c].phase);
  }
}
