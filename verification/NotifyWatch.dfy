// The watcher that turns edges into alerts (crates/repomon-daemon/src/notify_watch.rs:37-217): it
// re-seeds, waits out flapping and asks for new activity before it repeats itself. Times are
// milliseconds.
module NotifyWatch {
  import opened Prelude
  import opened Notify

  const DEBOUNCE := 30_000
  const LATCH_GRACE := 6 * 60 * 60 * 1000

  // The message activity an alert was about, and when it was given.
  datatype Latched = Latched(activity: int, seen: int)

  datatype Memory = Memory(debounce: map<Alert, int>, latch: map<Alert, Latched>)

  // An alert that was given.
  datatype Fire = Fire(alert: Alert, at: int, activity: Option<int>)

  // `log` holds the alerts given.
  datatype State = State(
    prev: Snapshot, seeded: bool, subagents: bool, memory: Memory, log: seq<Fire>)

  // What one tick reads: the clock, the settings, the snapshot, its lanes and the last message of
  // each session.
  datatype Reading = Reading(
    settings: Settings, now: Snapshot, live: set<int>, managed: set<int>, activity: map<Key, int>)

  datatype Settings = Settings(clock: int, on: bool, subagents: bool, kinds: set<Kind>)

  function Start(): State { State(map[], false, false, Memory(map[], map[]), []) }

  function Activity(r: Reading, k: Key): Option<int> { if k in r.activity then Some(r.activity[k]) else None }

  predicate ActivityAllowsRefire(fired: Option<int>, current: Option<int>) {
    fired.None? || (current.Some? && current.value > fired.value)
  }

  function LatchedActivity(m: Memory, a: Alert): Option<int> {
    if a in m.latch then Some(m.latch[a].activity) else None
  }

  // What is remembered of one alert.
  function DebounceOf(m: Memory, a: Alert): Option<int> { if a in m.debounce then Some(m.debounce[a]) else None }

  function LatchOf(m: Memory, a: Alert): Option<Latched> { if a in m.latch then Some(m.latch[a]) else None }

  // Whether an edge is worth an alert now.
  predicate Fires(m: Memory, r: Reading, a: Alert) {
    && a.kind in r.settings.kinds
    && !(a in m.debounce && r.settings.clock - m.debounce[a] < DEBOUNCE)
    && (a.kind == WentIdle || ActivityAllowsRefire(LatchedActivity(m, a), Activity(r, a.key)))
  }

  function Remember(m: Memory, r: Reading, a: Alert): Memory {
    Memory(
      m.debounce[a := r.settings.clock],
      if a.kind != WentIdle && a.key in r.activity
      then m.latch[a := Latched(r.activity[a.key], r.settings.clock)] else m.latch)
  }

  function FireOf(r: Reading, a: Alert): Fire { Fire(a, r.settings.clock, Activity(r, a.key)) }

  // One edge after the other.
  function Given(m: Memory, r: Reading, edges: seq<Alert>): seq<Fire> {
    if edges == [] then []
    else
      var rest, a := edges[..|edges| - 1], edges[|edges| - 1];
      Given(m, r, rest) + if Fires(After(m, r, rest), r, a) then [FireOf(r, a)] else []
  }

  function After(m: Memory, r: Reading, edges: seq<Alert>): Memory {
    if edges == [] then m
    else
      var before, a := After(m, r, edges[..|edges| - 1]), edges[|edges| - 1];
      if Fires(before, r, a) then Remember(before, r, a) else before
  }

  // What is forgotten once a session is gone long enough.
  function Retain(m: Memory, now: Snapshot, clock: int): Memory {
    Memory(
      map a | a in m.debounce && (a.key in now || clock - m.debounce[a] < DEBOUNCE) :: m.debounce[a],
      map a | a in m.latch && (a.key in now || clock - m.latch[a].seen < LATCH_GRACE) :: m.latch[a])
  }

  // `edges` are the edges of the tick in the order in which the maps yield them.
  function Tick(s: State, r: Reading, edges: seq<Alert>): State {
    if !r.settings.on then State(map[], false, s.subagents, Memory(map[], map[]), s.log)
    else if !s.seeded || r.settings.subagents != s.subagents then
      State(r.now, true, r.settings.subagents, s.memory, s.log)
    else
      State(
        r.now, true, s.subagents, Retain(After(s.memory, r, edges), r.now, r.settings.clock),
        s.log + Given(s.memory, r, edges))
  }

  // ---------------------------------------------------------------- one tick

  // Edges of different keys do not influence each other: an edge fires exactly when it would by
  // itself.
  lemma {:induction false} MemoryOf(m: Memory, r: Reading, edges: seq<Alert>, a: Alert)
    requires a !in edges
    ensures DebounceOf(After(m, r, edges), a) == DebounceOf(m, a)
    ensures LatchOf(After(m, r, edges), a) == LatchOf(m, a)
  {
    if edges != [] { MemoryOf(m, r, edges[..|edges| - 1], a); }
  }

  lemma {:induction false} GivenExactly(m: Memory, r: Reading, edges: seq<Alert>, f: Fire)
    requires OncePerKey(edges)
    ensures f in Given(m, r, edges) <==> f.alert in edges && Fires(m, r, f.alert) && f == FireOf(r, f.alert)
  {
    if edges != [] {
      var rest, a := edges[..|edges| - 1], edges[|edges| - 1];
      GivenExactly(m, r, rest, f);
      assert edges == rest + [a];
      assert forall i :: 0 <= i < |rest| ==> edges[i].key != a.key;
      MemoryOf(m, r, rest, a);
      assert Fires(After(m, r, rest), r, a) <==> Fires(m, r, a);
    }
  }

  // What the edges leave in the memory of one alert.
  function MemoryAfter(m: Memory, r: Reading, edges: seq<Alert>, a: Alert): Memory {
    if a in edges && Fires(m, r, a) then Remember(m, r, a) else m
  }

  lemma LastEdge(m: Memory, r: Reading, rest: seq<Alert>, a: Alert)
    requires a !in rest
    ensures DebounceOf(After(m, r, rest + [a]), a) == DebounceOf(MemoryAfter(m, r, [a], a), a)
    ensures LatchOf(After(m, r, rest + [a]), a) == LatchOf(MemoryAfter(m, r, [a], a), a)
  {
    assert (rest + [a])[..|rest|] == rest;
    MemoryOf(m, r, rest, a);
  }

  lemma OtherEdge(m: Memory, r: Reading, rest: seq<Alert>, last: Alert, a: Alert)
    requires a != last
    ensures DebounceOf(After(m, r, rest + [last]), a) == DebounceOf(After(m, r, rest), a)
    ensures LatchOf(After(m, r, rest + [last]), a) == LatchOf(After(m, r, rest), a)
  {
    assert (rest + [last])[..|rest|] == rest;
  }

  lemma SplitsOff(edges: seq<Alert>, rest: seq<Alert>, last: Alert)
    requires OncePerKey(edges) && edges == rest + [last]
    ensures OncePerKey(rest) && last !in rest
    ensures forall a :: a in edges <==> a in rest || a == last
  {
    forall i, j | 0 <= i < j < |rest| ensures rest[i].key != rest[j].key { assert edges[i].key != edges[j].key; }
    forall i | 0 <= i < |rest| ensures rest[i] != last { assert edges[i].key != edges[|rest|].key; }
  }

  lemma {:induction false} AfterAt(m: Memory, r: Reading, edges: seq<Alert>, a: Alert)
    requires OncePerKey(edges)
    ensures DebounceOf(After(m, r, edges), a) == DebounceOf(MemoryAfter(m, r, edges, a), a)
    ensures LatchOf(After(m, r, edges), a) == LatchOf(MemoryAfter(m, r, edges, a), a)
  {
    if edges != [] {
      var rest, last := edges[..|edges| - 1], edges[|edges| - 1];
      SplitsOff(edges, rest, last);
      if a == last {
        LastEdge(m, r, rest, a);
        assert MemoryAfter(m, r, [a], a) == MemoryAfter(m, r, edges, a);
      } else {
        AfterAt(m, r, rest, a);
        OtherEdge(m, r, rest, last, a);
        assert MemoryAfter(m, r, rest, a) == MemoryAfter(m, r, edges, a);
      }
      assert edges == rest + [last];
    }
  }

  // Every entry into waiting is one edge: a stall when the stall flag rises with it, and "needs
  // you" otherwise; and "needs you" is nothing else.
  lemma EntryIntoWaiting(prev: Snapshot, now: Snapshot, live: set<int>, managed: set<int>, k: Key)
    ensures
      var enters := StatusIn(now, k) == Some(Waiting) && StatusIn(prev, k) != Some(Waiting);
      var stalls := StalledIn(now, k) && !StalledIn(prev, k);
      && (enters ==>
            AlertFor(prev, now, live, managed, k) == Some(if stalls then Stalled else NeedsYou))
      && (AlertFor(prev, now, live, managed, k) == Some(NeedsYou) <==> enters && !stalls)
      && (AlertFor(prev, now, live, managed, k) == Some(Stalled) <==> stalls)
  {}

  // The other alerts: a limit exactly on entering it, a resumption exactly from a limit to
  // running, and idleness exactly on ending, or on vanishing from a lane that lives unless the
  // nameless session of a lane with managed sessions got a name. A rising stall takes precedence.
  lemma OtherAlertsExactly(prev: Snapshot, now: Snapshot, live: set<int>, managed: set<int>, k: Key)
    ensures
      var alert, was, after := AlertFor(prev, now, live, managed, k), StatusIn(prev, k), StatusIn(now, k);
      var stalls := StalledIn(now, k) && !StalledIn(prev, k);
      && (alert == Some(Limited) <==> after == Some(RateLimited) && was != Some(RateLimited) && !stalls)
      && (alert == Some(Resumed) <==> was == Some(RateLimited) && after == Some(Running) && !stalls)
      && (alert == Some(WentIdle) <==>
            || (k in prev && k in now && after == Some(Ended) && was != Some(Ended) && !stalls)
            || (k in prev && k !in now && k.lane in live && !(k.sess == Fallback && k.lane in managed)))
  {}

  // Between two stalls of one key there is a snapshot without it or without the stall.
  lemma StallsAreApart(snapshots: seq<Snapshot>, live: seq<set<int>>, managed: seq<set<int>>, k: Key, i: nat, j: nat)
    requires i < j && j + 1 < |snapshots| && |live| == |snapshots| && |managed| == |snapshots|
    requires AlertFor(snapshots[i], snapshots[i + 1], live[i + 1], managed[i + 1], k) == Some(Stalled)
    requires AlertFor(snapshots[j], snapshots[j + 1], live[j + 1], managed[j + 1], k) == Some(Stalled)
    ensures exists m :: i + 1 < m <= j && !StalledIn(snapshots[m], k)
  {
    assert !StalledIn(snapshots[j], k) && StalledIn(snapshots[i + 1], k);
  }

  // ---------------------------------------------------------------- the watcher

  class Watcher {
    var prev: Snapshot
    var seeded: bool
    var prevSubagents: bool
    var debounce: map<Alert, int>
    var latch: map<Alert, Latched>
    var fired: seq<Fire>

    ghost function View(): State
      reads this
    {
      State(prev, seeded, prevSubagents, Memory(debounce, latch), fired)
    }

    constructor ()
      ensures View() == Start()
    {
      prev, seeded, prevSubagents, debounce, latch, fired := map[], false, false, map[], map[], [];
    }

    // The edges come in the order in which the two snapshots yield them.
    method TickOnce(r: Reading) returns (ghost edges: seq<Alert>)
      modifies this
      ensures View() == Tick(old(View()), r, edges)
      ensures r.settings.on && old(seeded) && r.settings.subagents == old(prevSubagents) ==>
                && OncePerKey(edges)
                && (forall a :: a in edges <==>
                      AlertFor(old(prev), r.now, r.live, r.managed, a.key) == Some(a.kind))
    {
      edges := [];
      if !r.settings.on {
        prev, seeded, debounce, latch := map[], false, map[], map[];
        return;
      }
      if !seeded || r.settings.subagents != prevSubagents {
        prev, seeded, prevSubagents := r.now, true, r.settings.subagents;
        return;
      }
      var out := Diff(prev, r.now, r.live, r.managed);
      edges := out;
      GiveAll(r, out);
      prev := r.now;
      var d, l, clock := debounce, latch, r.settings.clock;
      debounce := map a | a in d && (a.key in r.now || clock - d[a] < DEBOUNCE) :: d[a];
      latch := map a | a in l && (a.key in r.now || clock - l[a].seen < LATCH_GRACE) :: l[a];
    }

    method GiveAll(r: Reading, out: seq<Alert>)
      modifies this`debounce, this`latch, this`fired
      ensures Memory(debounce, latch) == After(old(Memory(debounce, latch)), r, out)
      ensures fired == old(fired) + Given(old(Memory(debounce, latch)), r, out)
    {
      ghost var m, before := Memory(debounce, latch), fired;
      for i := 0 to |out|
        invariant Memory(debounce, latch) == After(m, r, out[..i])
        invariant fired == before + Given(m, r, out[..i])
      {
        assert out[..i + 1][..i] == out[..i];
        var a := out[i];
        if a.kind !in r.settings.kinds {
          continue;
        }
        if a in debounce && r.settings.clock - debounce[a] < DEBOUNCE {
          continue;
        }
        var activity := Activity(r, a.key);
        var prevFired := if a in latch then Some(latch[a].activity) else None;
        if a.kind != WentIdle && !ActivityAllowsRefire(prevFired, activity) {
          continue;
        }
        debounce := debounce[a := r.settings.clock];
        if a.kind != WentIdle && activity.Some? {
          latch := latch[a := Latched(activity.value, r.settings.clock)];
        }
        fired := fired + [Fire(a, r.settings.clock, activity)];
      }
      assert out[..|out|] == out;
    }
  }
}
