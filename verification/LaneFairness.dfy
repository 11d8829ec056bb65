// How soon an eligible worktree is walked (crates/repomon-core/src/lane.rs:213-280) and what
// becomes of an invalidation (crates/repomon-core/src/lane.rs:332-348).
module LaneFairness {
  import opened Prelude
  import opened Counting
  import opened LaneCache
  import opened LaneWalks

  // ---------------------------------------------------------------- what a listing stores

  ghost predicate Walked(paths: seq<Path>, walk: seq<nat>, p: Path)
    requires InRange(walk, paths)
  {
    exists k :: 0 <= k < |walk| && paths[walk[k]] == p
  }

  // Exactly the worktrees whose walk succeeds get a new, clean entry.
  lemma {:induction false} StoredAt(
      c: Cache, paths: seq<Path>, walk: seq<nat>, readings: Path -> Reading, p: Path)
    requires InRange(walk, paths)
    ensures
      var after := Store(c, paths, walk, readings);
      if Walked(paths, walk, p) && readings(p).state.Some?
      then p in after && after[p] == Entry(readings(p).at, false, readings(p).state.value)
      else (p in after <==> p in c) && (p in c ==> after[p] == c[p])
  {
    if walk != [] {
      var rest := walk[..|walk| - 1];
      StoredAt(c, paths, rest, readings, p);
      if Walked(paths, walk, p) && paths[walk[|walk| - 1]] != p {
        var k :| 0 <= k < |walk| && paths[walk[k]] == p;
        assert paths[rest[k]] == p;
      }
    }
  }

  ghost predicate Flagged(c: Cache, roots: seq<Path>, p: Path) {
    exists root :: root in roots && Owns(c, p, root)
  }

  lemma {:induction false} InvalidatedAllAt(c: Cache, roots: seq<Path>, p: Path)
    ensures InvalidatedAll(c, roots).Keys == c.Keys
    ensures p in c ==> InvalidatedAll(c, roots)[p] == c[p].(dirty := c[p].dirty || Flagged(c, roots, p))
  {
    if roots != [] {
      var rest, root := roots[..|roots| - 1], roots[|roots| - 1];
      InvalidatedAllAt(c, rest, p);
      assert roots == rest + [root];
      assert Owns(InvalidatedAll(c, rest), p, root) <==> Owns(c, p, root);
      assert Flagged(c, roots, p) <==> Flagged(c, rest, p) || Owns(c, p, root);
    }
  }

  // ---------------------------------------------------------------- runs of listings

  // A listing reads the cache at `now`, then walks without the cache's lock while the
  // invalidations `during` arrive, and stores what it read.
  datatype Event =
    | List(now: int, during: seq<Path>, readings: Path -> Reading, end: int)
    | Invalidate(root: Path)

  // `clock` is no earlier than any walk so far.
  datatype Run = Run(cache: Cache, clock: int)

  ghost predicate ClockOk(r: Run) { forall p :: p in r.cache ==> r.cache[p].walkedAt <= r.clock }

  // Listings follow each other and their walks happen later than all walks before.
  ghost predicate Timely(r: Run, e: Event, paths: seq<Path>) {
    e.List? ==>
      && r.clock <= e.now <= e.end
      && (forall p :: p in paths ==> r.clock < e.readings(p).at <= e.end)
  }

  ghost function AfterList(
      c: Cache, paths: seq<Path>, now: int, during: seq<Path>, readings: Path -> Reading): Cache
  {
    WalkInRange(c, paths, now);
    Store(InvalidatedAll(c, during), paths, Walk(c, paths, now), readings)
  }

  ghost predicate Steps(r: Run, e: Event, paths: seq<Path>, s: Run) {
    match e
    case List(now, during, readings, end) => s == Run(AfterList(r.cache, paths, now, during, readings), end)
    case Invalidate(root) => s == Run(Invalidated(r.cache, root), r.clock)
  }

  ghost predicate WalksPath(c: Cache, paths: seq<Path>, now: int, p: Path) {
    exists i :: 0 <= i < |paths| && i in Walk(c, paths, now) && paths[i] == p
  }

  // A listing gives exactly the worktrees it walked and could read a new clean entry; all others
  // keep theirs, and the flag from an invalidation in between.
  lemma ListedAt(
      c: Cache, paths: seq<Path>, now: int, during: seq<Path>, readings: Path -> Reading, p: Path)
    ensures
      var after := AfterList(c, paths, now, during, readings);
      if WalksPath(c, paths, now, p) && readings(p).state.Some?
      then p in after && after[p] == Entry(readings(p).at, false, readings(p).state.value)
      else (p in after <==> p in c)
           && (p in c ==> after[p] == c[p].(dirty := c[p].dirty || Flagged(c, during, p)))
  {
    var walk := Walk(c, paths, now);
    WalkInRange(c, paths, now);
    StoredAt(InvalidatedAll(c, during), paths, walk, readings, p);
    InvalidatedAllAt(c, during, p);
    if WalksPath(c, paths, now, p) {
      var i :| 0 <= i < |paths| && i in walk && paths[i] == p;
      var k :| 0 <= k < |walk| && walk[k] == i;
      assert paths[walk[k]] == p;
    }
    if Walked(paths, walk, p) {
      var k :| 0 <= k < |walk| && paths[walk[k]] == p;
      assert walk[k] in walk;
    }
  }

  lemma StepClock(r: Run, e: Event, paths: seq<Path>, s: Run)
    requires ClockOk(r) && Timely(r, e, paths) && Steps(r, e, paths, s)
    ensures ClockOk(s) && r.clock <= s.clock
  {
    if e.List? {
      forall p | p in s.cache ensures s.cache[p].walkedAt <= s.clock {
        ListedAt(r.cache, paths, e.now, e.during, e.readings, p);
      }
    }
  }

  // ---------------------------------------------------------------- progress

  function NotLater(c: Cache, t: int): Path -> bool {
    (p: Path) => p in c && c[p].walkedAt <= t
  }

  // The number of worktrees walked no later than `p`.
  function Rank(c: Cache, paths: seq<Path>, p: Path): nat
    requires p in c
  {
    Count(paths, NotLater(c, c[p].walkedAt))
  }

  ghost predicate Distinct(paths: seq<Path>) {
    forall i, j :: 0 <= i < j < |paths| ==> paths[i] != paths[j]
  }

  ghost predicate WalksNow(r: Run, e: Event, paths: seq<Path>, i: nat) {
    e.List? && i in Walk(r.cache, paths, e.now)
  }

  ghost predicate Succeeds(e: Event, p: Path) { e.List? ==> e.readings(p).state.Some? }

  lemma RankAtLeastOne(c: Cache, paths: seq<Path>, i: nat)
    requires i < |paths| && paths[i] in c
    ensures Rank(c, paths, paths[i]) >= 1
  {
    CountWithout(paths, i, NotLater(c, c[paths[i]].walkedAt));
  }

  // No walk makes another worktree older.
  lemma NotLaterShrinks(r: Run, e: Event, paths: seq<Path>, s: Run, t: int, p: Path)
    requires ClockOk(r) && Timely(r, e, paths) && e.List? && Steps(r, e, paths, s)
    requires t <= r.clock && p in paths && NotLater(s.cache, t)(p)
    ensures NotLater(r.cache, t)(p)
    ensures WalksPath(r.cache, paths, e.now, p) ==> !Succeeds(e, p)
  {
    ListedAt(r.cache, paths, e.now, e.during, e.readings, p);
  }

  lemma PassedOverKeeps(r: Run, e: Event, paths: seq<Path>, s: Run, i: nat)
    requires Distinct(paths) && i < |paths| && e.List? && Steps(r, e, paths, s)
    requires paths[i] in r.cache && !WalksNow(r, e, paths, i)
    ensures paths[i] in s.cache && s.cache[paths[i]].walkedAt == r.cache[paths[i]].walkedAt
    ensures r.cache[paths[i]].dirty ==> s.cache[paths[i]].dirty
  {
    ListedAt(r.cache, paths, e.now, e.during, e.readings, paths[i]);
  }

  // Position `j` can take a place of the cap before `i`.
  ghost predicate GoesFirst(c: Cache, paths: seq<Path>, now: int, j: nat, i: nat)
    requires i < |paths| && j < |paths|
  {
    && paths[i] in c && Stale(c, paths[j], now)
    && Ahead(OldAt(c, paths, j), OldAt(c, paths, i))
  }

  // It does, and cannot be read.
  ghost predicate FailsFirst(r: Run, e: Event, paths: seq<Path>, j: nat, i: nat)
    requires i < |paths| && j < |paths|
  {
    e.List? && GoesFirst(r.cache, paths, e.now, j, i) && !Succeeds(e, paths[j])
  }

  ghost predicate NoneFailsFirst(r: Run, e: Event, paths: seq<Path>, i: nat)
    requires i < |paths|
  {
    forall j: nat :: j < |paths| ==> !FailsFirst(r, e, paths, j, i)
  }

  ghost predicate OneFailsFirst(r: Run, e: Event, paths: seq<Path>, i: nat)
    requires i < |paths|
  {
    forall j: nat, k: nat :: j < k < |paths| ==> !(FailsFirst(r, e, paths, j, i) && FailsFirst(r, e, paths, k, i))
  }

  // What is walked before `i` and read is walked later than `i` from then on.
  lemma Overtaken(r: Run, e: Event, paths: seq<Path>, s: Run, i: nat, j: nat)
    requires ClockOk(r) && Timely(r, e, paths) && e.List? && Steps(r, e, paths, s)
    requires i < |paths| && j < |paths| && WalksNow(r, e, paths, j)
    requires GoesFirst(r.cache, paths, e.now, j, i) && !FailsFirst(r, e, paths, j, i)
    ensures
      var t := r.cache[paths[i]].walkedAt;
      NotLater(r.cache, t)(paths[j]) && !NotLater(s.cache, t)(paths[j])
  {
    var t := r.cache[paths[i]].walkedAt;
    assert WalksPath(r.cache, paths, e.now, paths[j]);
    if NotLater(s.cache, t)(paths[j]) { NotLaterShrinks(r, e, paths, s, t, paths[j]); }
  }

  // Passed over while everything before it can be read, an eligible worktree moves up by two.
  lemma MovesUpTwo(r: Run, e: Event, paths: seq<Path>, s: Run, i: nat)
    requires ClockOk(r) && Timely(r, e, paths) && e.List? && Steps(r, e, paths, s) && Distinct(paths)
    requires i < |paths| && Eligible(r.cache, paths[i], e.now) && !WalksNow(r, e, paths, i)
    requires NoneFailsFirst(r, e, paths, i)
    ensures paths[i] in r.cache && paths[i] in s.cache
    ensures Rank(s.cache, paths, paths[i]) + 2 <= Rank(r.cache, paths, paths[i])
  {
    var j, k := TwoOlderAreWalked(r.cache, paths, e.now, i);
    assert GoesFirst(r.cache, paths, e.now, j, i) && GoesFirst(r.cache, paths, e.now, k, i);
    PassedOverKeeps(r, e, paths, s, i);
    var t := r.cache[paths[i]].walkedAt;
    var p, q := NotLater(r.cache, t), NotLater(s.cache, t);
    forall x | x in paths && q(x) ensures p(x) { NotLaterShrinks(r, e, paths, s, t, x); }
    Overtaken(r, e, paths, s, i, j);
    Overtaken(r, e, paths, s, i, k);
    CountDropsTwice(paths, p, q, j, k);
  }

  // With at most one before it that cannot be read it still moves up by one.
  lemma MovesUpOne(r: Run, e: Event, paths: seq<Path>, s: Run, i: nat)
    requires ClockOk(r) && Timely(r, e, paths) && e.List? && Steps(r, e, paths, s) && Distinct(paths)
    requires i < |paths| && Eligible(r.cache, paths[i], e.now) && !WalksNow(r, e, paths, i)
    requires OneFailsFirst(r, e, paths, i)
    ensures paths[i] in r.cache && paths[i] in s.cache
    ensures Rank(s.cache, paths, paths[i]) + 1 <= Rank(r.cache, paths, paths[i])
  {
    var j, k := TwoOlderAreWalked(r.cache, paths, e.now, i);
    assert GoesFirst(r.cache, paths, e.now, j, i) && GoesFirst(r.cache, paths, e.now, k, i);
    PassedOverKeeps(r, e, paths, s, i);
    var t := r.cache[paths[i]].walkedAt;
    var p, q := NotLater(r.cache, t), NotLater(s.cache, t);
    forall x | x in paths && q(x) ensures p(x) { NotLaterShrinks(r, e, paths, s, t, x); }
    var g := if FailsFirst(r, e, paths, j, i) then k else j;
    Overtaken(r, e, paths, s, i, g);
    CountDrops(paths, p, q, g);
  }

  // ---------------------------------------------------------------- the bound

  ghost predicate Trace(rs: seq<Run>, es: seq<Event>, paths: seq<Path>) {
    && |rs| == |es| + 1 && ClockOk(rs[0]) && Distinct(paths)
    && (forall k {:trigger TraceStep(rs, es, paths, k)} :: 0 <= k < |es| ==> TraceStep(rs, es, paths, k))
  }

  ghost predicate TraceStep(rs: seq<Run>, es: seq<Event>, paths: seq<Path>, k: nat)
    requires |rs| == |es| + 1 && k < |es|
  {
    Timely(rs[k], es[k], paths) && Steps(rs[k], es[k], paths, rs[k + 1])
  }

  function Lists(es: seq<Event>): nat {
    if es == [] then 0 else Lists(es[..|es| - 1]) + if es[|es| - 1].List? then 1 else 0
  }

  // How many places `i` gains when a listing passes it over.
  ghost predicate Gains(r: Run, e: Event, paths: seq<Path>, i: nat, gain: nat)
    requires i < |paths|
  {
    e.List? ==>
      || (gain == 1 && OneFailsFirst(r, e, paths, i))
      || (gain == 2 && NoneFailsFirst(r, e, paths, i))
  }

  ghost predicate GainsAt(
      rs: seq<Run>, es: seq<Event>, paths: seq<Path>, i: nat, gain: nat, since: int, k: nat)
    requires k < |es| == |rs| - 1 && i < |paths|
  {
    Gains(rs[k], es[k], paths, i, gain) && (es[k].List? ==> since <= es[k].now)
  }

  ghost predicate AllGain(
      rs: seq<Run>, es: seq<Event>, paths: seq<Path>, i: nat, gain: nat, since: int)
    requires |es| == |rs| - 1 && i < |paths|
  {
    forall k {:trigger GainsAt(rs, es, paths, i, gain, since, k)} ::
      0 <= k < |es| ==> GainsAt(rs, es, paths, i, gain, since, k)
  }

  // Once eligible, a worktree stays so until it is walked.
  lemma StaysEligible(c: Cache, p: Path, now: int, d: Cache, later: int)
    requires Eligible(c, p, now) && now <= later
    requires p in c ==> p in d && d[p].walkedAt == c[p].walkedAt && (c[p].dirty ==> d[p].dirty)
    requires p !in c ==> p !in d
    ensures Eligible(d, p, later)
  {}

  // The state of an eligible worktree that has been passed over so far.
  ghost predicate Waiting(r: Run, paths: seq<Path>, i: nat, since: int, lists: nat, gain: nat) {
    && i < |paths| && ClockOk(r) && Eligible(r.cache, paths[i], since)
    && (paths[i] in r.cache ==> Rank(r.cache, paths, paths[i]) + gain * lists <= |paths|)
    && (paths[i] !in r.cache ==> lists == 0)
  }

  lemma WaitsThroughList(r: Run, e: Event, paths: seq<Path>, s: Run, i: nat, since: int, lists: nat, gain: nat)
    requires Waiting(r, paths, i, since, lists, gain) && Distinct(paths)
    requires e.List? && since <= e.now && !WalksNow(r, e, paths, i)
    requires Timely(r, e, paths) && Steps(r, e, paths, s) && Gains(r, e, paths, i, gain)
    ensures Waiting(s, paths, i, since, lists + 1, gain)
  {
    StepClock(r, e, paths, s);
    StaysEligible(r.cache, paths[i], since, r.cache, e.now);
    WalkedExactly(r.cache, paths, e.now, i);
    PassedOverKeeps(r, e, paths, s, i);
    MovesUp(r, e, paths, s, i, gain);
    StaysEligible(r.cache, paths[i], since, s.cache, since);
    OneMoreGain(Rank(s.cache, paths, paths[i]), Rank(r.cache, paths, paths[i]), gain, lists, |paths|);
  }

  lemma OneMoreGain(after: nat, before: nat, gain: nat, lists: nat, n: nat)
    requires after + gain <= before && before + gain * lists <= n
    ensures after + gain * (lists + 1) <= n
  {
    assert gain * (lists + 1) == gain * lists + gain;
  }

  lemma WaitsThroughInvalidation(
      r: Run, e: Event, paths: seq<Path>, s: Run, i: nat, since: int, lists: nat, gain: nat)
    requires Waiting(r, paths, i, since, lists, gain)
    requires e.Invalidate? && Timely(r, e, paths) && Steps(r, e, paths, s)
    ensures Waiting(s, paths, i, since, lists, gain)
  {
    StepClock(r, e, paths, s);
    StaysEligible(r.cache, paths[i], since, s.cache, since);
    SameRank(r, e.root, paths, s, i);
  }

  lemma SameRank(r: Run, root: Path, paths: seq<Path>, s: Run, i: nat)
    requires s == Run(Invalidated(r.cache, root), r.clock) && i < |paths|
    ensures paths[i] in s.cache <==> paths[i] in r.cache
    ensures paths[i] in r.cache ==> Rank(s.cache, paths, paths[i]) == Rank(r.cache, paths, paths[i])
  {
    if paths[i] in r.cache {
      var t := r.cache[paths[i]].walkedAt;
      CountSame(paths, NotLater(r.cache, t), NotLater(s.cache, t));
    }
  }

  lemma MovesUp(r: Run, e: Event, paths: seq<Path>, s: Run, i: nat, gain: nat)
    requires ClockOk(r) && Timely(r, e, paths) && e.List? && Steps(r, e, paths, s) && Distinct(paths)
    requires i < |paths| && Eligible(r.cache, paths[i], e.now) && !WalksNow(r, e, paths, i)
    requires Gains(r, e, paths, i, gain)
    ensures paths[i] in r.cache && paths[i] in s.cache
    ensures Rank(s.cache, paths, paths[i]) + gain <= Rank(r.cache, paths, paths[i])
  {
    if gain == 2 {
      MovesUpTwo(r, e, paths, s, i);
    } else {
      MovesUpOne(r, e, paths, s, i);
    }
  }

  lemma StillWaiting(
      rs: seq<Run>, es: seq<Event>, paths: seq<Path>, i: nat, since: int, lists: nat, gain: nat, k: nat)
    requires |rs| == |es| + 1 && k < |es| && i < |paths| && Distinct(paths)
    requires Waiting(rs[k], paths, i, since, lists, gain)
    requires TraceStep(rs, es, paths, k) && GainsAt(rs, es, paths, i, gain, since, k)
    requires !WalksNow(rs[k], es[k], paths, i)
    ensures Waiting(rs[k + 1], paths, i, since, lists + if es[k].List? then 1 else 0, gain)
  {
    if es[k].List? {
      WaitsThroughList(rs[k], es[k], paths, rs[k + 1], i, since, lists, gain);
    } else {
      WaitsThroughInvalidation(rs[k], es[k], paths, rs[k + 1], i, since, lists, gain);
    }
  }

  lemma StartsWaiting(r: Run, paths: seq<Path>, i: nat, since: int, gain: nat)
    requires i < |paths| && ClockOk(r) && Eligible(r.cache, paths[i], since)
    ensures Waiting(r, paths, i, since, 0, gain)
  {
    if paths[i] in r.cache { CountBound(paths, NotLater(r.cache, r.cache[paths[i]].walkedAt)); }
  }

  lemma ListsGrow(es: seq<Event>, m: nat)
    requires m < |es|
    ensures Lists(es[..m + 1]) == Lists(es[..m]) + if es[m].List? then 1 else 0
  {
    assert es[..m + 1][..m] == es[..m];
  }

  lemma {:induction false} WaitingSoFar(
      rs: seq<Run>, es: seq<Event>, paths: seq<Path>, i: nat, since: int, gain: nat, m: nat)
    requires Trace(rs, es, paths) && i < |paths| && Eligible(rs[0].cache, paths[i], since) && m <= |es|
    requires AllGain(rs, es, paths, i, gain, since)
    requires forall k :: 0 <= k < m ==> !WalksNow(rs[k], es[k], paths, i)
    ensures Waiting(rs[m], paths, i, since, Lists(es[..m]), gain)
  {
    if m == 0 {
      StartsWaiting(rs[0], paths, i, since, gain);
    } else {
      WaitingSoFar(rs, es, paths, i, since, gain, m - 1);
      assert TraceStep(rs, es, paths, m - 1) && GainsAt(rs, es, paths, i, gain, since, m - 1);
      WaitingOneMore(rs, es, paths, i, since, gain, m - 1);
    }
  }

  lemma WaitingOneMore(rs: seq<Run>, es: seq<Event>, paths: seq<Path>, i: nat, since: int, gain: nat, n: nat)
    requires |rs| == |es| + 1 && n < |es| && i < |paths| && Distinct(paths)
    requires Waiting(rs[n], paths, i, since, Lists(es[..n]), gain)
    requires TraceStep(rs, es, paths, n) && GainsAt(rs, es, paths, i, gain, since, n)
    requires !WalksNow(rs[n], es[n], paths, i)
    ensures Waiting(rs[n + 1], paths, i, since, Lists(es[..n + 1]), gain)
  {
    var lists, more := Lists(es[..n]), Lists(es[..n + 1]);
    assert more == lists + if es[n].List? then 1 else 0 by { ListsGrow(es, n); }
    StillWaiting(rs, es, paths, i, since, lists, gain, n);
  }

  lemma NotWaitingForever(r: Run, paths: seq<Path>, i: nat, since: int, lists: nat, gain: nat)
    requires Waiting(r, paths, i, since, lists, gain)
    ensures gain * lists < |paths|
  {
    if paths[i] in r.cache { RankAtLeastOne(r.cache, paths, i); }
  }

  lemma WalkedOnceGained(rs: seq<Run>, es: seq<Event>, paths: seq<Path>, i: nat, since: int, gain: nat)
    requires Trace(rs, es, paths) && i < |paths| && Eligible(rs[0].cache, paths[i], since)
    requires AllGain(rs, es, paths, i, gain, since)
    requires gain * Lists(es) >= |paths|
    ensures exists k :: 0 <= k < |es| && WalksNow(rs[k], es[k], paths, i)
  {
    if forall k :: 0 <= k < |es| ==> !WalksNow(rs[k], es[k], paths, i) {
      WaitingSoFar(rs, es, paths, i, since, gain, |es|);
      assert es[..|es|] == es;
      NotWaitingForever(rs[|es|], paths, i, since, Lists(es), gain);
    }
  }

  // With n worktrees, of which those before it can be read, an eligible one is walked within n/2
  // listings, rounded up, whatever is invalidated in between.
  lemma WalkedWithinHalf(rs: seq<Run>, es: seq<Event>, paths: seq<Path>, i: nat, since: int)
    requires Trace(rs, es, paths) && i < |paths| && Eligible(rs[0].cache, paths[i], since)
    requires forall k :: 0 <= k < |es| ==> NoneFailsFirst(rs[k], es[k], paths, i)
    requires forall k :: 0 <= k < |es| && es[k].List? ==> since <= es[k].now
    requires Lists(es) >= (|paths| + 1) / 2
    ensures exists k :: 0 <= k < |es| && WalksNow(rs[k], es[k], paths, i)
  {
    WalkedOnceGained(rs, es, paths, i, since, 2);
  }

  // It is walked within n listings if each finds at most one before it that cannot be read.
  lemma WalkedDespiteOneFailure(rs: seq<Run>, es: seq<Event>, paths: seq<Path>, i: nat, since: int)
    requires Trace(rs, es, paths) && i < |paths| && Eligible(rs[0].cache, paths[i], since)
    requires forall k :: 0 <= k < |es| ==> OneFailsFirst(rs[k], es[k], paths, i)
    requires forall k :: 0 <= k < |es| && es[k].List? ==> since <= es[k].now
    requires Lists(es) >= |paths|
    ensures exists k :: 0 <= k < |es| && WalksNow(rs[k], es[k], paths, i)
  {
    WalkedOnceGained(rs, es, paths, i, since, 1);
  }

  // ---------------------------------------------------------------- starvation

  predicate Clean(c: Cache, p: Path) { p in c && !c[p].dirty }

  // Past its time, or never walked.
  predicate Due(c: Cache, p: Path, now: int) { p in c ==> Elapsed(now, c[p].walkedAt) >= STATE_TTL }

  // An unreadable worktree that was walked before `i`.
  ghost predicate HoldsUp(c: Cache, paths: seq<Path>, bad: set<Path>, j: nat, i: nat)
    requires i < |paths| && j < |paths|
  {
    && paths[j] in bad && Clean(c, paths[j]) && Clean(c, paths[i])
    && Ahead(OldAt(c, paths, j), OldAt(c, paths, i))
  }

  // There are two of them.
  ghost predicate HeldUp(c: Cache, paths: seq<Path>, bad: set<Path>, i: nat)
    requires i < |paths|
  {
    exists j: nat, k: nat :: j < k < |paths| && HoldsUp(c, paths, bad, j, i) && HoldsUp(c, paths, bad, k, i)
  }

  // A listing, with nothing invalidated, that can read exactly the worktrees outside `bad`.
  ghost predicate ReadsAllBut(e: Event, paths: seq<Path>, bad: set<Path>) {
    e.List? && e.during == [] && forall p :: p in paths ==> (Succeeds(e, p) <==> p !in bad)
  }

  ghost predicate OnlyLists(es: seq<Event>, paths: seq<Path>, bad: set<Path>) {
    forall k {:trigger es[k]} :: 0 <= k < |es| ==> ReadsAllBut(es[k], paths, bad)
  }

  // What a listing does not walk, or cannot read, it leaves as it is.
  ghost predicate Unmoved(c: Cache, d: Cache, p: Path) { (p in d <==> p in c) && (p in c ==> d[p] == c[p]) }

  lemma Untouched(r: Run, e: Event, paths: seq<Path>, s: Run, bad: set<Path>, i: nat)
    requires Distinct(paths) && i < |paths| && Steps(r, e, paths, s) && ReadsAllBut(e, paths, bad)
    requires paths[i] in bad || !WalksNow(r, e, paths, i)
    ensures Unmoved(r.cache, s.cache, paths[i])
  {
    UnreadUnmoved(r.cache, paths, e.now, e.readings, paths[i]);
    assert paths[i] in bad ==> !Succeeds(e, paths[i]);
  }

  lemma UnreadUnmoved(c: Cache, paths: seq<Path>, now: int, readings: Path -> Reading, p: Path)
    requires !WalksPath(c, paths, now, p) || readings(p).state.None?
    ensures Unmoved(c, AfterList(c, paths, now, [], readings), p)
  {
    ListedAt(c, paths, now, [], readings, p);
    assert !Flagged(c, [], p);
    assert p in c ==> c[p] == c[p].(dirty := c[p].dirty);
  }

  // `i` is due and everything unreadable stands as at first.
  ghost predicate AsAtFirst(c: Cache, r: Run, paths: seq<Path>, bad: set<Path>, i: nat, since: int)
    requires i < |paths|
  {
    && since <= r.clock && Unmoved(c, r.cache, paths[i])
    && (forall j: nat :: j < |paths| && paths[j] in bad ==> Unmoved(c, r.cache, paths[j]))
  }

  lemma StaysAsAtFirst(
      c: Cache, r: Run, e: Event, paths: seq<Path>, s: Run, bad: set<Path>, i: nat, since: int)
    requires Distinct(paths) && i < |paths| && Steps(r, e, paths, s) && Timely(r, e, paths)
    requires ReadsAllBut(e, paths, bad) && since <= e.now && !WalksNow(r, e, paths, i)
    requires Unmoved(c, r.cache, paths[i])
    requires forall j: nat :: j < |paths| && paths[j] in bad ==> Unmoved(c, r.cache, paths[j])
    ensures AsAtFirst(c, s, paths, bad, i, since)
  {
    Untouched(r, e, paths, s, bad, i);
    forall j: nat | j < |paths| && paths[j] in bad ensures Unmoved(c, s.cache, paths[j]) {
      Untouched(r, e, paths, s, bad, j);
    }
  }

  lemma {:induction false} StuckSoFar(
      rs: seq<Run>, es: seq<Event>, paths: seq<Path>, bad: set<Path>, i: nat, m: nat)
    requires Trace(rs, es, paths) && i < |paths| && OnlyLists(es, paths, bad) && 0 < m <= |es|
    requires forall k :: 0 <= k < m ==> !WalksNow(rs[k], es[k], paths, i)
    ensures AsAtFirst(rs[0].cache, rs[m], paths, bad, i, es[0].now)
  {
    assert TraceStep(rs, es, paths, m - 1);
    if m > 1 { StuckSoFar(rs, es, paths, bad, i, m - 1); }
    StaysAsAtFirst(rs[0].cache, rs[m - 1], es[m - 1], paths, rs[m], bad, i, es[0].now);
  }

  // While `i` waits, it is two that hold it up, and nothing else, that keep a listing from
  // getting further.
  lemma HeldUpExactly(
      c: Cache, r: Run, e: Event, paths: seq<Path>, bad: set<Path>, i: nat, since: int)
    requires i < |paths| && ReadsAllBut(e, paths, bad) && since <= e.now && Due(c, paths[i], since)
    requires Unmoved(c, r.cache, paths[i])
    requires forall j: nat :: j < |paths| && paths[j] in bad ==> Unmoved(c, r.cache, paths[j])
    ensures HeldUp(c, paths, bad, i) ==> !WalksNow(r, e, paths, i)
    ensures !HeldUp(c, paths, bad, i) && Clean(c, paths[i]) ==> OneFailsFirst(r, e, paths, i)
    ensures paths[i] !in c || !Clean(c, paths[i]) ==> WalksNow(r, e, paths, i)
  {
    WalkedExactly(r.cache, paths, e.now, i);
    forall j: nat | j < |paths| && Clean(c, paths[i])
      ensures HoldsUp(c, paths, bad, j, i) <==> FailsFirst(r, e, paths, j, i)
    {
      assert paths[j] in paths;
    }
    if HeldUp(c, paths, bad, i) {
      var j: nat, k: nat :| j < k < |paths| && HoldsUp(c, paths, bad, j, i) && HoldsUp(c, paths, bad, k, i);
      assert FailsFirst(r, e, paths, j, i) && FailsFirst(r, e, paths, k, i);
      assert TwoAhead(r.cache, paths, e.now, i);
    }
  }

  // None of the first `m` listings walks `i`.
  ghost predicate PassedOver(rs: seq<Run>, es: seq<Event>, paths: seq<Path>, i: nat, m: nat)
    requires m <= |es| <= |rs|
  {
    forall k :: 0 <= k < m ==> !WalksNow(rs[k], es[k], paths, i)
  }

  // `i` is past its time and held up when the listings begin.
  ghost predicate Starving(rs: seq<Run>, es: seq<Event>, paths: seq<Path>, bad: set<Path>, i: nat) {
    && Trace(rs, es, paths) && i < |paths| && es != [] && OnlyLists(es, paths, bad)
    && Due(rs[0].cache, paths[i], es[0].now) && HeldUp(rs[0].cache, paths, bad, i)
  }

  lemma NotWalkedNow(rs: seq<Run>, es: seq<Event>, paths: seq<Path>, bad: set<Path>, i: nat, m: nat)
    requires Starving(rs, es, paths, bad, i) && m < |es| && PassedOver(rs, es, paths, i, m)
    ensures PassedOver(rs, es, paths, i, m + 1)
  {
    if m > 0 {
      StuckSoFar(rs, es, paths, bad, i, m);
      assert TraceStep(rs, es, paths, m);
    }
    HeldUpExactly(rs[0].cache, rs[m], es[m], paths, bad, i, es[0].now);
  }

  lemma {:induction false} NeverWalked(
      rs: seq<Run>, es: seq<Event>, paths: seq<Path>, bad: set<Path>, i: nat, m: nat)
    requires Starving(rs, es, paths, bad, i) && m <= |es|
    ensures PassedOver(rs, es, paths, i, m)
  {
    if m > 0 {
      NeverWalked(rs, es, paths, bad, i, m - 1);
      NotWalkedNow(rs, es, paths, bad, i, m - 1);
    }
  }

  lemma ListsOnly(es: seq<Event>)
    requires forall k {:trigger es[k]} :: 0 <= k < |es| ==> es[k].List?
    ensures Lists(es) == |es|
  {
    if es != [] { ListsOnly(es[..|es| - 1]); }
  }

  lemma {:induction false} WalkedUnlessHeldUp(
      rs: seq<Run>, es: seq<Event>, paths: seq<Path>, bad: set<Path>, i: nat)
    requires Trace(rs, es, paths) && i < |paths| <= |es| && OnlyLists(es, paths, bad)
    requires Due(rs[0].cache, paths[i], es[0].now) && !HeldUp(rs[0].cache, paths, bad, i)
    ensures exists k :: 0 <= k < |es| && WalksNow(rs[k], es[k], paths, i)
  {
    if forall k :: 0 <= k < |es| ==> !WalksNow(rs[k], es[k], paths, i) {
      forall k | 0 <= k < |es| ensures GainsAt(rs, es, paths, i, 1, es[0].now, k) {
        assert TraceStep(rs, es, paths, k);
        if k > 0 { StuckSoFar(rs, es, paths, bad, i, k); }
        HeldUpExactly(rs[0].cache, rs[k], es[k], paths, bad, i, es[0].now);
      }
      HeldUpExactly(rs[0].cache, rs[0], es[0], paths, bad, i, es[0].now);
      ListsOnly(es);
      WalkedOnceGained(rs, es, paths, i, es[0].now, 1);
    }
  }

  // When always the same worktrees cannot be read, one that is past its time, or was never
  // walked, is walked by one of the next n listings, or by none ever: by none exactly when two
  // unreadable ones were walked before it.
  lemma StarvesExactly(rs: seq<Run>, es: seq<Event>, paths: seq<Path>, bad: set<Path>, i: nat)
    requires Trace(rs, es, paths) && i < |paths| <= |es| && OnlyLists(es, paths, bad)
    requires Due(rs[0].cache, paths[i], es[0].now)
    ensures
      if HeldUp(rs[0].cache, paths, bad, i)
      then forall k :: 0 <= k < |es| ==> !WalksNow(rs[k], es[k], paths, i)
      else exists k :: 0 <= k < |paths| && WalksNow(rs[k], es[k], paths, i)
  {
    if HeldUp(rs[0].cache, paths, bad, i) {
      NeverWalked(rs, es, paths, bad, i, |es|);
    } else {
      var n := |paths|;
      var first, some := rs[..n + 1], es[..n];
      forall k | 0 <= k < |some| ensures TraceStep(first, some, paths, k) {
        assert TraceStep(rs, es, paths, k);
      }
      WalkedUnlessHeldUp(first, some, paths, bad, i);
      var k :| 0 <= k < |some| && WalksNow(first[k], some[k], paths, i);
      assert WalksNow(rs[k], es[k], paths, i);
    }
  }

  // ---------------------------------------------------------------- a starving run

  const THREE: seq<Path> := [["a"], ["b"], ["c"]]

  const AGED: Cache :=
    map[["a"] := Entry(0, false, ""), ["b"] := Entry(1, false, ""), ["c"] := Entry(2, false, "")]

  function OnlyC(at: int): Path -> Reading {
    (p: Path) => Reading(if p == ["c"] then Some("") else None, at)
  }

  function StarvingRun(n: nat): seq<Run> { seq(n + 1, k => Run(AGED, 200_000 + k)) }

  function StarvingLists(n: nat): seq<Event> {
    seq(n, k => List(200_000 + k, [], OnlyC(200_001 + k), 200_001 + k))
  }

  lemma StarvingStep(n: nat, k: nat)
    requires k < n
    ensures TraceStep(StarvingRun(n), StarvingLists(n), THREE, k)
  {
    var r, e := StarvingRun(n)[k], StarvingLists(n)[k];
    assert Stale(AGED, THREE[0], e.now) && Stale(AGED, THREE[1], e.now);
    assert TwoAhead(AGED, THREE, e.now, 2);
    WalkedExactly(AGED, THREE, e.now, 2);
    var after := AfterList(AGED, THREE, e.now, e.during, e.readings);
    forall p ensures Unmoved(AGED, after, p) {
      UnreadUnmoved(AGED, THREE, e.now, e.readings, p);
    }
    AllUnmoved(AGED, after);
  }

  lemma AllUnmoved(c: Cache, d: Cache)
    requires forall p :: Unmoved(c, d, p)
    ensures c == d
  {
    forall p ensures p in d <==> p in c { assert Unmoved(c, d, p); }
    forall p | p in c ensures d[p] == c[p] { assert Unmoved(c, d, p); }
  }

  // The promise of an eventual refresh fails: in a run of any length "c" is past its time and can
  // be read, and is never walked.
  lemma EventualRefreshFails(n: nat)
    requires n >= 3
    ensures Trace(StarvingRun(n), StarvingLists(n), THREE)
    ensures Due(AGED, THREE[2], StarvingLists(n)[0].now) && HeldUp(AGED, THREE, {THREE[0], THREE[1]}, 2)
    ensures forall k :: 0 <= k < n ==>
              Succeeds(StarvingLists(n)[k], THREE[2]) && !WalksNow(StarvingRun(n)[k], StarvingLists(n)[k], THREE, 2)
  {
    var rs, es, bad := StarvingRun(n), StarvingLists(n), {THREE[0], THREE[1]};
    forall k | 0 <= k < n ensures TraceStep(rs, es, THREE, k) { StarvingStep(n, k); }
    assert HoldsUp(AGED, THREE, bad, 0, 2) && HoldsUp(AGED, THREE, bad, 1, 2);
    StarvesExactly(rs, es, THREE, bad, 2);
  }

  // ---------------------------------------------------------------- invalidation

  // At most one entry is flagged, and one is whenever a cached worktree contains the path.
  lemma OwnerIsUnique(c: Cache, p: Path, q: Path, root: Path)
    requires Owns(c, p, root) && Owns(c, q, root)
    ensures p == q
  {}

  // After a listing a worktree is flagged exactly if it was before or became so in between, and
  // the listing did not walk and read it: a flag set while the worktree is being walked is lost.
  lemma FlagSurvivesExactly(r: Run, e: Event, paths: seq<Path>, s: Run, i: nat)
    requires Distinct(paths) && i < |paths| && e.List? && Steps(r, e, paths, s) && paths[i] in r.cache
    ensures paths[i] in s.cache
    ensures
      s.cache[paths[i]].dirty
      <==> (r.cache[paths[i]].dirty || Flagged(r.cache, e.during, paths[i]))
           && !(WalksNow(r, e, paths, i) && Succeeds(e, paths[i]))
  {
    ListedAt(r.cache, paths, e.now, e.during, e.readings, paths[i]);
  }

  // "a" changes while it is being walked, and is taken for clean afterwards.
  lemma FlagIsLost() returns (r: Run, e: Event, s: Run)
    ensures ClockOk(r) && Timely(r, e, THREE) && Steps(r, e, THREE, s)
    ensures e.List? && Flagged(r.cache, e.during, THREE[0]) && THREE[0] in s.cache && !s.cache[THREE[0]].dirty
  {
    r, e := Run(AGED, 200_000), List(200_000, [THREE[0]], (p: Path) => Reading(Some(""), 200_001), 200_001);
    s := Run(AfterList(r.cache, THREE, e.now, e.during, e.readings), 200_001);
    assert Owns(r.cache, THREE[0], e.during[0]);
    WalkedExactly(AGED, THREE, e.now, 0);
    FlagSurvivesExactly(r, e, THREE, s, 0);
  }

  lemma {:induction false} FlaggedSoFar(rs: seq<Run>, es: seq<Event>, paths: seq<Path>, i: nat, m: nat)
    requires Trace(rs, es, paths) && i < |paths| && m <= |es|
    requires paths[i] in rs[0].cache && rs[0].cache[paths[i]].dirty
    requires forall k :: 0 <= k < m ==> !WalksNow(rs[k], es[k], paths, i)
    ensures paths[i] in rs[m].cache && rs[m].cache[paths[i]].dirty
    ensures rs[m].cache[paths[i]].walkedAt == rs[0].cache[paths[i]].walkedAt
  {
    if m > 0 {
      FlaggedSoFar(rs, es, paths, i, m - 1);
      assert TraceStep(rs, es, paths, m - 1);
      if es[m - 1].List? { PassedOverKeeps(rs[m - 1], es[m - 1], paths, rs[m], i); }
    }
  }

  // A flagged worktree is walked at the latest by the first listing that comes after the debounce,
  // whatever else is invalidated and whatever cannot be read.
  lemma FlaggedIsWalked(rs: seq<Run>, es: seq<Event>, paths: seq<Path>, i: nat, m: nat)
    requires Trace(rs, es, paths) && i < |paths| && m < |es| && es[m].List?
    requires paths[i] in rs[0].cache && rs[0].cache[paths[i]].dirty
    requires Elapsed(es[m].now, rs[0].cache[paths[i]].walkedAt) >= DIRTY_DEBOUNCE
    ensures exists k :: 0 <= k <= m && WalksNow(rs[k], es[k], paths, i)
  {
    if forall k :: 0 <= k < m ==> !WalksNow(rs[k], es[k], paths, i) {
      FlaggedSoFar(rs, es, paths, i, m);
      WalkedExactly(rs[m].cache, paths, es[m].now, i);
      assert WalksNow(rs[m], es[m], paths, i);
    }
  }

  // A change flags the worktree that contains it.
  lemma InvalidationFlags(r: Run, root: Path, paths: seq<Path>, s: Run, p: Path)
    requires Steps(r, Invalidate(root), paths, s) && Owns(r.cache, p, root)
    ensures p in s.cache && s.cache[p] == r.cache[p].(dirty := true)
    ensures forall q :: q in r.cache && q != p ==> q in s.cache && s.cache[q] == r.cache[q]
  {
    forall q | q in r.cache && q != p ensures s.cache[q] == r.cache[q] {
      if Owns(r.cache, q, root) { OwnerIsUnique(r.cache, p, q, root); }
    }
  }
}
