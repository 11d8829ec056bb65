// The listing and the invalidation over the cache they update (crates/repomon-core/src/lane.rs:208-281, 332-348).
module LaneList {
  import opened Prelude
  import opened Sorting
  import opened LaneCache
  import opened LaneWalks
  import opened LaneFairness
  import opened LaneOwners

  // What a listing has for one worktree: nothing yet, its state, or a failed walk.
  datatype Slot = Empty | Known(state: WState) | Failed

  function Outcome(r: Reading): Slot { if r.state.Some? then Known(r.state.value) else Failed }

  // What the listing must show at position `i`.
  function Shown(c: Cache, paths: seq<Path>, now: int, readings: Path -> Reading, i: nat): Slot
    requires i < |paths|
  {
    if i in Walk(c, paths, now) then Outcome(readings(paths[i]))
    else if paths[i] in c then Known(c[paths[i]].state)
    else Empty
  }

  // Every position is filled: what is not walked is in the cache.
  lemma NothingIsLeftEmpty(c: Cache, paths: seq<Path>, now: int, readings: Path -> Reading, i: nat)
    requires i < |paths|
    ensures Shown(c, paths, now, readings, i) != Empty
  {
    WalkedExactly(c, paths, now, i);
  }

  // The slots after the classification of the first `n` positions.
  ghost predicate Reused(states: seq<Slot>, c: Cache, paths: seq<Path>, now: int, n: nat) {
    && |states| == |paths| && n <= |paths|
    && (forall i :: 0 <= i < n ==>
          states[i] == if Must(c, paths[i], now) then Empty else Known(c[paths[i]].state))
    && (forall i :: n <= i < |paths| ==> states[i] == Empty)
  }

  // The slots after the first `m` walks.
  ghost predicate Filled(
      states: seq<Slot>, c: Cache, paths: seq<Path>, now: int, walk: seq<nat>, readings: Path -> Reading, m: nat)
  {
    && |states| == |paths| && m <= |walk|
    && (forall i :: 0 <= i < |paths| && i in walk[..m] ==> states[i] == Outcome(readings(paths[i])))
    && (forall i :: 0 <= i < |paths| && i !in walk[..m] ==>
          states[i] == if Must(c, paths[i], now) then Empty else Known(c[paths[i]].state))
  }

  lemma FillsOneMore(
      states: seq<Slot>, c: Cache, paths: seq<Path>, now: int, walk: seq<nat>, readings: Path -> Reading, m: nat)
    requires Filled(states, c, paths, now, walk, readings, m) && m < |walk| && walk[m] < |paths|
    ensures
      Filled(states[walk[m] := Outcome(readings(paths[walk[m]]))], c, paths, now, walk, readings, m + 1)
  {
    assert walk[..m + 1] == walk[..m] + [walk[m]];
  }

  lemma AllFilled(states: seq<Slot>, c: Cache, paths: seq<Path>, now: int, readings: Path -> Reading)
    requires
      var walk := Walk(c, paths, now);
      Filled(states, c, paths, now, walk, readings, |walk|)
    ensures forall i :: 0 <= i < |paths| ==> states[i] == Shown(c, paths, now, readings, i) && states[i] != Empty
  {
    var walk := Walk(c, paths, now);
    assert walk[..|walk|] == walk;
    forall i | 0 <= i < |paths|
      ensures states[i] == Shown(c, paths, now, readings, i) && states[i] != Empty
    {
      WalkedExactly(c, paths, now, i);
      NothingIsLeftEmpty(c, paths, now, readings, i);
    }
  }

  lemma StoresOneMore(c: Cache, paths: seq<Path>, walk: seq<nat>, readings: Path -> Reading, m: nat)
    requires InRange(walk, paths) && m < |walk|
    ensures
      var p := paths[walk[m]];
      Store(c, paths, walk[..m + 1], readings) == StoreOne(Store(c, paths, walk[..m], readings), p, readings(p))
  {
    assert walk[..m + 1][..m] == walk[..m];
  }

  // `best` has the longest text of the cached worktrees in `seen` that contain `root`.
  ghost predicate LongestOf(best: Option<Path>, seen: set<Path>, c: Cache, canon: Canon, root: Path) {
    match best
    case None => forall q :: q in seen ==> !Contains(c, canon, root, q)
    case Some(p) =>
      && p in seen && Contains(c, canon, root, p)
      && forall q :: q in seen && Contains(c, canon, root, q) ==> TextLength(q) <= TextLength(p)
  }

  class Lanes {
    var cache: Cache

    constructor ()
      ensures cache == map[]
    {
      cache := map[];
    }

    // `now` is when the cache is read, `readings` what a walk of each worktree finds, and `during`
    // the changes that others report while this listing walks without the cache's lock.
    method List(paths: seq<Path>, now: int, during: seq<Path>, readings: Path -> Reading)
        returns (states: seq<Slot>)
      modifies this
      ensures cache == AfterList(old(cache), paths, now, during, readings)
      ensures |states| == |paths|
      ensures forall i :: 0 <= i < |paths| && i !in Walk(old(cache), paths, now) ==>
                paths[i] in old(cache) && states[i] == Known(old(cache)[paths[i]].state)
      ensures forall i :: 0 <= i < |paths| && i in Walk(old(cache), paths, now) ==>
                states[i] == match readings(paths[i]).state case Some(st) => Known(st) case None => Failed
    {
      ghost var before := cache;
      WalkInRange(before, paths, now);
      var reused, walk := Plan(paths, now);
      Others(during);
      states := StoreWalks(paths, walk, readings, reused, before, now);
      AllFilled(states, before, paths, now, readings);
    }

    // Invalidations by other callers.
    method Others(roots: seq<Path>)
      modifies this
      ensures cache == InvalidatedAll(old(cache), roots)
    {
      for k := 0 to |roots|
        invariant cache == InvalidatedAll(old(cache), roots[..k])
      {
        ghost var before := cache;
        InvalidateState(roots[k], p => p);
        CanonicalFlags(before, cache, p => p, roots[k]);
        assert roots[..k + 1][..k] == roots[..k];
      }
      assert roots[..|roots|] == roots;
    }

    // The second visit to the cache: what was read is stored and shown. `before` is the cache as
    // it was when the walk was planned.
    method StoreWalks(
        paths: seq<Path>, walk: seq<nat>, readings: Path -> Reading, reused: seq<Slot>, ghost before: Cache,
        ghost now: int)
        returns (states: seq<Slot>)
      requires InRange(walk, paths) && Reused(reused, before, paths, now, |paths|)
      modifies this
      ensures cache == Store(old(cache), paths, walk, readings)
      ensures Filled(states, before, paths, now, walk, readings, |walk|)
    {
      states := reused;
      for m := 0 to |walk|
        invariant cache == Store(old(cache), paths, walk[..m], readings)
        invariant Filled(states, before, paths, now, walk, readings, m)
      {
        var i := walk[m];
        var reading := readings(paths[i]);
        StoresOneMore(old(cache), paths, walk, readings, m);
        FillsOneMore(states, before, paths, now, walk, readings, m);
        if reading.state.Some? {
          cache := cache[paths[i] := Entry(reading.at, false, reading.state.value)];
          states := states[i := Known(reading.state.value)];
        } else {
          states := states[i := Failed];
        }
      }
      assert walk[..|walk|] == walk;
    }

    // Which positions are shown from the cache, and which are walked.
    method Plan(paths: seq<Path>, now: int) returns (states: seq<Slot>, walk: seq<nat>)
      ensures walk == Walk(cache, paths, now)
      ensures Reused(states, cache, paths, now, |paths|)
    {
      states := seq(|paths|, i => Empty);
      var mustWalk: seq<nat> := [];
      var stale: seq<Old> := [];
      for i := 0 to |paths|
        invariant Reused(states, cache, paths, now, i)
        invariant mustWalk == MustWalk(cache, paths, now, i)
        invariant stale == Olds(cache, paths, now, i)
      {
        var p := paths[i];
        if p !in cache {
          mustWalk := mustWalk + [i];
        } else {
          var e := cache[p];
          if e.dirty && Elapsed(now, e.walkedAt) >= DIRTY_DEBOUNCE {
            mustWalk := mustWalk + [i];
          } else if e.dirty {
            states := states[i := Known(e.state)];
            stale := stale + [Old(i, e.walkedAt)];
          } else if Elapsed(now, e.walkedAt) < STATE_TTL {
            states := states[i := Known(e.state)];
          } else {
            states := states[i := Known(e.state)];
            stale := stale + [Old(i, e.walkedAt)];
          }
        }
      }
      stale := SortBy(stale, AtOf);
      walk := mustWalk + Indices(FirstTwo(stale));
    }

    // A change under `root` flags a cached worktree that contains it.
    method InvalidateState(root: Path, canon: Canon)
      modifies this
      ensures FlagsLongest(old(cache), cache, canon, canon(root))
    {
      var changed := canon(root);
      var best: Option<Path> := None;
      var left := cache.Keys;
      while left != {}
        invariant left <= cache.Keys && cache == old(cache)
        invariant LongestOf(best, cache.Keys - left, cache, canon, changed)
      {
        var p :| p in left;
        left := left - {p};
        if IsAncestor(canon(p), changed) && (best.None? || TextLength(p) >= TextLength(best.value)) {
          best := Some(p);
        }
      }
      assert cache.Keys - left == cache.Keys;
      if best.Some? {
        assert Longest(cache, canon, changed, best.value);
        cache := cache[best.value := cache[best.value].(dirty := true)];
      }
    }
  }
}
