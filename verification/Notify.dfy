// The edges between two snapshots of the agents' sessions (crates/repomon-core/src/notify.rs).
module Notify {
  import opened Prelude

  datatype Status = Running | Waiting | RateLimited | Idle | Ended

  datatype Kind = NeedsYou | Limited | Resumed | WentIdle | Stalled

  datatype SessKey = Transcript(id: string) | Fallback

  datatype Key = Key(lane: int, sess: SessKey)

  datatype SessState = SessState(status: Status, stale: bool)

  datatype Session = Session(id: Option<string>, status: Status, stale: bool, inferred: bool)

  type Snapshot = map<Key, SessState>

  // ---------------------------------------------------------------- one snapshot

  // Lower is more urgent.
  function Priority(s: Status): nat {
    match s
    case RateLimited => 0
    case Waiting => 1
    case Running => 2
    case Idle => 3
    case Ended => 4
  }

  function KeyOf(lane: int, s: Session): Key {
    Key(lane, if s.id.Some? then Transcript(s.id.value) else Fallback)
  }

  predicate Counted(s: Session, subagents: bool) { subagents || !s.inferred }

  datatype Pair = Pair(key: Key, state: SessState)

  function MergeInto(st: SessState, s: Session): SessState {
    SessState(if Priority(s.status) < Priority(st.status) then s.status else st.status, st.stale || s.stale)
  }

  ghost predicate KeysDiffer(out: seq<Pair>) {
    forall i, j :: 0 <= i < j < |out| ==> out[i].key != out[j].key
  }

  // `st` is what the sessions say of `key`: the most urgent status of any, stale when one is.
  ghost predicate Sums(st: SessState, lane: int, sessions: seq<Session>, subagents: bool, key: Key) {
    && (exists s :: s in sessions && Counted(s, subagents) && KeyOf(lane, s) == key && s.status == st.status)
    && (forall s :: s in sessions && Counted(s, subagents) && KeyOf(lane, s) == key ==>
          Priority(st.status) <= Priority(s.status))
    && (st.stale <==> exists s :: s in sessions && Counted(s, subagents) && KeyOf(lane, s) == key && s.stale)
  }

  ghost predicate HasKey(lane: int, sessions: seq<Session>, subagents: bool, key: Key) {
    exists s :: s in sessions && Counted(s, subagents) && KeyOf(lane, s) == key
  }

  ghost predicate IsStatuses(out: seq<Pair>, lane: int, sessions: seq<Session>, subagents: bool) {
    && KeysDiffer(out)
    && (forall p {:trigger Sums(p.state, lane, sessions, subagents, p.key)} ::
          p in out ==> Sums(p.state, lane, sessions, subagents, p.key))
    && (forall k {:trigger HasKey(lane, sessions, subagents, k)} ::
          HasKey(lane, sessions, subagents, k) ==> exists p :: p in out && p.key == k)
  }

  lemma SumsMore(st: SessState, lane: int, sessions: seq<Session>, subagents: bool, key: Key, s: Session)
    requires Sums(st, lane, sessions, subagents, key)
    ensures
      Sums(
        if Counted(s, subagents) && KeyOf(lane, s) == key then MergeInto(st, s) else st,
        lane, sessions + [s], subagents, key)
  {
    var more := sessions + [s];
    assert forall x :: x in more <==> x in sessions || x == s;
    var w :| w in sessions && Counted(w, subagents) && KeyOf(lane, w) == key && w.status == st.status;
    assert w in more && s in more;
  }

  lemma SumsOne(lane: int, sessions: seq<Session>, subagents: bool, s: Session)
    requires Counted(s, subagents) && !HasKey(lane, sessions, subagents, KeyOf(lane, s))
    ensures Sums(SessState(s.status, s.stale), lane, sessions + [s], subagents, KeyOf(lane, s))
  {
    var more := sessions + [s];
    assert forall x :: x in more <==> x in sessions || x == s;
    assert s in more;
  }

  // A session goes by its id, or by none in its lane.
  predicate GoesBy(lane: int, s: Session, key: Key) {
    && key.lane == lane
    && match s.id
       case Some(id) => key.sess == Transcript(id)
       case None => key.sess == Fallback
  }

  // A session of that key is in that state; inferred ones count only with subagents.
  ghost predicate OneIs(lane: int, sessions: seq<Session>, subagents: bool, key: Key, status: Status) {
    exists s :: s in sessions && (s.inferred ==> subagents) && GoesBy(lane, s, key) && s.status == status
  }

  ghost predicate OneIsStale(lane: int, sessions: seq<Session>, subagents: bool, key: Key) {
    exists s :: s in sessions && (s.inferred ==> subagents) && GoesBy(lane, s, key) && s.stale
  }

  // Limited if one session is; else waiting if one is; else running; else idle; and ended if all are.
  ghost predicate SaysMostUrgent(st: SessState, lane: int, sessions: seq<Session>, subagents: bool, key: Key) {
    var limited := OneIs(lane, sessions, subagents, key, RateLimited);
    var waiting := OneIs(lane, sessions, subagents, key, Waiting);
    var running := OneIs(lane, sessions, subagents, key, Running);
    var idle := OneIs(lane, sessions, subagents, key, Idle);
    && (st.status == RateLimited <==> limited)
    && (st.status == Waiting <==> waiting && !limited)
    && (st.status == Running <==> running && !waiting && !limited)
    && (st.status == Idle <==> idle && !running && !waiting && !limited)
    && (st.status == Ended <==> !idle && !running && !waiting && !limited)
    && (st.stale <==> OneIsStale(lane, sessions, subagents, key))
  }

  lemma SumsByName(st: SessState, lane: int, sessions: seq<Session>, subagents: bool, key: Key)
    requires Sums(st, lane, sessions, subagents, key)
    ensures SaysMostUrgent(st, lane, sessions, subagents, key)
  {
    assert forall s :: GoesBy(lane, s, key) <==> KeyOf(lane, s) == key;
    assert OneIs(lane, sessions, subagents, key, st.status);
  }

  // One state for each key that a counted session goes by, and what that is.
  ghost predicate IsByName(out: seq<Pair>, lane: int, sessions: seq<Session>, subagents: bool) {
    && KeysDiffer(out)
    && (forall p {:trigger SaysMostUrgent(p.state, lane, sessions, subagents, p.key)} ::
          p in out ==> SaysMostUrgent(p.state, lane, sessions, subagents, p.key))
    && (forall k {:trigger HasName(lane, sessions, subagents, k)} ::
          HasName(lane, sessions, subagents, k) <==> exists p :: p in out && p.key == k)
  }

  ghost predicate HasName(lane: int, sessions: seq<Session>, subagents: bool, key: Key) {
    exists s :: s in sessions && (s.inferred ==> subagents) && GoesBy(lane, s, key)
  }

  lemma StatusesByName(out: seq<Pair>, lane: int, sessions: seq<Session>, subagents: bool)
    requires IsStatuses(out, lane, sessions, subagents)
    ensures IsByName(out, lane, sessions, subagents)
  {
    assert forall k, s :: GoesBy(lane, s, k) <==> KeyOf(lane, s) == k;
    forall p | p in out ensures SaysMostUrgent(p.state, lane, sessions, subagents, p.key) {
      assert Sums(p.state, lane, sessions, subagents, p.key);
      SumsByName(p.state, lane, sessions, subagents, p.key);
    }
    forall k ensures HasName(lane, sessions, subagents, k) <==> exists p :: p in out && p.key == k {
      assert HasName(lane, sessions, subagents, k) <==> HasKey(lane, sessions, subagents, k);
      if p :| p in out && p.key == k { assert Sums(p.state, lane, sessions, subagents, p.key); }
    }
  }

  // What one more session makes of the list.
  function Noted(out: seq<Pair>, i: int, lane: int, s: Session): seq<Pair>
    requires -1 <= i < |out|
  {
    if i >= 0 then out[i := Pair(out[i].key, MergeInto(out[i].state, s))]
    else out + [Pair(KeyOf(lane, s), SessState(s.status, s.stale))]
  }

  lemma NotesOneMore(
      out: seq<Pair>, i: int, lane: int, sessions: seq<Session>, subagents: bool, s: Session)
    requires IsStatuses(out, lane, sessions, subagents) && Counted(s, subagents) && -1 <= i < |out|
    requires i >= 0 ==> out[i].key == KeyOf(lane, s)
    requires i < 0 ==> forall j :: 0 <= j < |out| ==> out[j].key != KeyOf(lane, s)
    ensures IsStatuses(Noted(out, i, lane, s), lane, sessions + [s], subagents)
  {
    var more, all, key := Noted(out, i, lane, s), sessions + [s], KeyOf(lane, s);
    forall p | p in more ensures Sums(p.state, lane, all, subagents, p.key) {
      var j :| 0 <= j < |more| && more[j] == p;
      if j < |out| {
        assert out[j] in out;
        assert Sums(out[j].state, lane, sessions, subagents, out[j].key);
        SumsMore(out[j].state, lane, sessions, subagents, out[j].key, s);
      } else {
        NewKey(out, lane, sessions, subagents, key);
        SumsOne(lane, sessions, subagents, s);
      }
    }
    forall k | HasKey(lane, all, subagents, k) ensures exists p :: p in more && p.key == k {
      KeyStaysOrIsNew(out, more, i, lane, sessions, subagents, s, k);
    }
  }

  lemma NewKey(out: seq<Pair>, lane: int, sessions: seq<Session>, subagents: bool, key: Key)
    requires IsStatuses(out, lane, sessions, subagents) && forall j :: 0 <= j < |out| ==> out[j].key != key
    ensures !HasKey(lane, sessions, subagents, key)
  {}

  lemma KeyStaysOrIsNew(
      out: seq<Pair>, more: seq<Pair>, i: int, lane: int, sessions: seq<Session>, subagents: bool, s: Session, k: Key)
    requires IsStatuses(out, lane, sessions, subagents) && -1 <= i < |out| && more == Noted(out, i, lane, s)
    requires i >= 0 ==> out[i].key == KeyOf(lane, s)
    requires HasKey(lane, sessions + [s], subagents, k)
    ensures exists p :: p in more && p.key == k
  {
    if HasKey(lane, sessions, subagents, k) {
      var p :| p in out && p.key == k;
      var j :| 0 <= j < |out| && out[j] == p;
      assert more[j] in more && more[j].key == k;
    } else {
      assert k == KeyOf(lane, s);
      var j := if i >= 0 then i else |out|;
      assert more[j] in more && more[j].key == k;
    }
  }

  // The list of keys and states is updated in place as the sessions are read.
  method SessionStatuses(lane: int, sessions: seq<Session>, subagents: bool) returns (out: seq<Pair>)
    ensures IsStatuses(out, lane, sessions, subagents) && IsByName(out, lane, sessions, subagents)
  {
    out := [];
    for n := 0 to |sessions|
      invariant IsStatuses(out, lane, sessions[..n], subagents)
    {
      var s := sessions[n];
      assert sessions[..n + 1] == sessions[..n] + [s];
      if Counted(s, subagents) {
        var i := FindKey(out, KeyOf(lane, s));
        NotesOneMore(out, i, lane, sessions[..n], subagents, s);
        out := Noted(out, i, lane, s);
      } else {
        NotCounted(out, lane, sessions[..n], subagents, s);
      }
    }
    assert sessions[..|sessions|] == sessions;
    StatusesByName(out, lane, sessions, subagents);
  }

  method FindKey(out: seq<Pair>, key: Key) returns (i: int)
    ensures -1 <= i < |out|
    ensures i >= 0 ==> out[i].key == key
    ensures i < 0 ==> forall j :: 0 <= j < |out| ==> out[j].key != key
  {
    i := 0;
    while i < |out|
      invariant 0 <= i <= |out|
      invariant forall j :: 0 <= j < i ==> out[j].key != key
    {
      if out[i].key == key { return; }
      i := i + 1;
    }
    i := -1;
  }

  lemma NotCounted(out: seq<Pair>, lane: int, sessions: seq<Session>, subagents: bool, s: Session)
    requires IsStatuses(out, lane, sessions, subagents) && !Counted(s, subagents)
    ensures IsStatuses(out, lane, sessions + [s], subagents)
  {
    var all := sessions + [s];
    forall p | p in out ensures Sums(p.state, lane, all, subagents, p.key) {
      SumsMore(p.state, lane, sessions, subagents, p.key, s);
    }
    forall k | HasKey(lane, all, subagents, k) ensures HasKey(lane, sessions, subagents, k) {
      var w :| w in all && Counted(w, subagents) && KeyOf(lane, w) == k;
      assert w in sessions;
    }
  }

  // A state is determined by the sessions.
  lemma SumsAreUnique(
      a: SessState, b: SessState, lane: int, x: seq<Session>, y: seq<Session>, subagents: bool, key: Key)
    requires Sums(a, lane, x, subagents, key) && Sums(b, lane, y, subagents, key)
    requires forall s :: s in x <==> s in y
    ensures a == b
  {
    assert Priority(a.status) == Priority(b.status);
  }

  // The sessions in another order, or repeated, give the same pairs.
  lemma SessionOrderDoesNotMatter(
      a: seq<Pair>, b: seq<Pair>, lane: int, x: seq<Session>, y: seq<Session>, subagents: bool, p: Pair)
    requires IsStatuses(a, lane, x, subagents) && IsStatuses(b, lane, y, subagents)
    requires (forall s :: s in x <==> s in y) && p in a
    ensures p in b
  {
    assert Sums(p.state, lane, x, subagents, p.key);
    var s :| s in x && Counted(s, subagents) && KeyOf(lane, s) == p.key && s.status == p.state.status;
    assert HasKey(lane, y, subagents, p.key);
    var q :| q in b && q.key == p.key;
    assert Sums(q.state, lane, y, subagents, q.key);
    SumsAreUnique(p.state, q.state, lane, x, y, subagents, p.key);
  }

  // ---------------------------------------------------------------- two snapshots

  function TransitionKind(was: Option<Status>, now: Option<Status>): Option<Kind> {
    if now == Some(RateLimited) && was != Some(RateLimited) then Some(Limited)
    else if was == Some(RateLimited) && now == Some(Running) then Some(Resumed)
    else if now == Some(Waiting) && was != Some(Waiting) then Some(NeedsYou)
    else if was.Some? && now.None? then Some(WentIdle)
    else if was.Some? && now == Some(Ended) && was != Some(Ended) then Some(WentIdle)
    else None
  }

  function Get(m: Snapshot, k: Key): Option<SessState> { if k in m then Some(m[k]) else None }

  function StatusIn(m: Snapshot, k: Key): Option<Status> { if k in m then Some(m[k].status) else None }

  predicate StalledIn(m: Snapshot, k: Key) { k in m && m[k].stale }

  // The alert for one key, if any.
  function AlertFor(prev: Snapshot, now: Snapshot, live: set<int>, managed: set<int>, k: Key): Option<Kind> {
    if k in now then
      if Get(prev, k) == Some(now[k]) then None
      else if now[k].stale && !StalledIn(prev, k) then Some(Stalled)
      else TransitionKind(StatusIn(prev, k), Some(now[k].status))
    else if k !in prev || k.lane !in live || (k.sess == Fallback && k.lane in managed) then None
    else TransitionKind(Some(prev[k].status), None)
  }

  datatype Alert = Alert(key: Key, kind: Kind)

  ghost predicate OncePerKey(out: seq<Alert>) {
    forall i, j :: 0 <= i < j < |out| ==> out[i].key != out[j].key
  }

  // `out` has exactly the alerts of the keys in `done`.
  ghost predicate AlertsOf(
      out: seq<Alert>, prev: Snapshot, now: Snapshot, live: set<int>, managed: set<int>, done: set<Key>)
  {
    && OncePerKey(out)
    && (forall a :: a in out <==> a.key in done && AlertFor(prev, now, live, managed, a.key) == Some(a.kind))
  }

  lemma OneMoreAlert(
      out: seq<Alert>, prev: Snapshot, now: Snapshot, live: set<int>, managed: set<int>, done: set<Key>, k: Key)
    requires AlertsOf(out, prev, now, live, managed, done) && k !in done
    ensures
      var kind := AlertFor(prev, now, live, managed, k);
      AlertsOf(
        if kind.Some? then out + [Alert(k, kind.value)] else out, prev, now, live, managed, done + {k})
  {
    forall i | 0 <= i < |out| ensures out[i].key in done { assert out[i] in out; }
  }

  // The maps are walked in an arbitrary order.
  method Diff(prev: Snapshot, now: Snapshot, live: set<int>, managed: set<int>) returns (out: seq<Alert>)
    ensures OncePerKey(out)
    ensures forall a :: a in out <==> AlertFor(prev, now, live, managed, a.key) == Some(a.kind)
  {
    out := [];
    var left := now.Keys;
    ghost var done: set<Key> := {};
    while left != {}
      invariant done + left == now.Keys && done !! left
      invariant AlertsOf(out, prev, now, live, managed, done)
    {
      var k :| k in left;
      OneMoreAlert(out, prev, now, live, managed, done, k);
      var st := now[k];
      if Get(prev, k) == Some(st) {
      } else if st.stale && !(k in prev && prev[k].stale) {
        out := out + [Alert(k, Stalled)];
      } else {
        var kind := TransitionKind(StatusIn(prev, k), Some(st.status));
        if kind.Some? { out := out + [Alert(k, kind.value)]; }
      }
      left := left - {k};
      done := done + {k};
    }
    left := prev.Keys - now.Keys;
    while left != {}
      invariant done + left == now.Keys + prev.Keys && done !! left && now.Keys <= done
      invariant AlertsOf(out, prev, now, live, managed, done)
    {
      var k :| k in left;
      OneMoreAlert(out, prev, now, live, managed, done, k);
      if k.lane in live && !(k.sess == Fallback && k.lane in managed) {
        var kind := TransitionKind(Some(prev[k].status), None);
        if kind.Some? { out := out + [Alert(k, kind.value)]; }
      }
      left := left - {k};
      done := done + {k};
    }
  }
}
