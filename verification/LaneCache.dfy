// The cache of worktree states (crates/repomon-core/src/lane.rs): which worktrees one listing
// walks, what it stores and shows, and which entry an invalidation flags. Times are milliseconds.
module LaneCache {
  import opened Prelude
  import opened Sorting
  import opened Text

  // A path is the sequence of its components, in canonical form.
  type Path = seq<string>

  // A worktree's git state, as read from its files.
  type WState = string

  datatype Entry = Entry(walkedAt: int, dirty: bool, state: WState)

  type Cache = map<Path, Entry>

  // One attempt to walk a worktree: its state, if it can be read, and the time of the walk.
  datatype Reading = Reading(state: Option<WState>, at: int)

  const STATE_TTL := 180_000
  const DIRTY_DEBOUNCE := 2_500
  const WALK_CAP := 2

  function Elapsed(now: int, since: int): int { if now >= since then now - since else 0 }

  // ---------------------------------------------------------------- which worktrees are walked

  // Never walked, or flagged and not walked just now.
  predicate Must(c: Cache, p: Path, now: int) {
    p !in c || (c[p].dirty && Elapsed(now, c[p].walkedAt) >= DIRTY_DEBOUNCE)
  }

  // Shown from the cache for now, but eligible to be walked.
  predicate Stale(c: Cache, p: Path, now: int) {
    && p in c && !Must(c, p, now)
    && (c[p].dirty || Elapsed(now, c[p].walkedAt) >= STATE_TTL)
  }

  predicate Eligible(c: Cache, p: Path, now: int) { Must(c, p, now) || Stale(c, p, now) }

  // A position in the listing and the time of its last walk.
  datatype Old = Old(index: nat, at: int)

  function AtOf(o: Old): int { o.at }

  function MustWalk(c: Cache, paths: seq<Path>, now: int, n: nat): seq<nat>
    requires n <= |paths|
  {
    if n == 0 then []
    else MustWalk(c, paths, now, n - 1) + if Must(c, paths[n - 1], now) then [n - 1] else []
  }

  function Olds(c: Cache, paths: seq<Path>, now: int, n: nat): seq<Old>
    requires n <= |paths|
  {
    if n == 0 then []
    else
      Olds(c, paths, now, n - 1)
      + if Stale(c, paths[n - 1], now) then [Old(n - 1, c[paths[n - 1]].walkedAt)] else []
  }

  function Indices(os: seq<Old>): seq<nat> { seq(|os|, i requires 0 <= i < |os| => os[i].index) }

  function FirstTwo(os: seq<Old>): seq<Old> { if |os| <= WALK_CAP then os else os[..WALK_CAP] }

  // The positions walked: those that must be, then the two walked longest ago.
  function Walk(c: Cache, paths: seq<Path>, now: int): seq<nat> {
    MustWalk(c, paths, now, |paths|) + Indices(FirstTwo(SortBy(Olds(c, paths, now, |paths|), AtOf)))
  }

  // ---------------------------------------------------------------- what is stored and shown

  predicate InRange(walk: seq<nat>, paths: seq<Path>) { forall i :: 0 <= i < |walk| ==> walk[i] < |paths| }

  // A walk that fails leaves the entry as it is.
  function StoreOne(c: Cache, p: Path, r: Reading): Cache {
    if r.state.Some? then c[p := Entry(r.at, false, r.state.value)] else c
  }

  function Store(c: Cache, paths: seq<Path>, walk: seq<nat>, readings: Path -> Reading): Cache
    requires InRange(walk, paths)
  {
    if walk == [] then c
    else
      var p := paths[walk[|walk| - 1]];
      StoreOne(Store(c, paths, walk[..|walk| - 1], readings), p, readings(p))
  }

  // ---------------------------------------------------------------- invalidation

  predicate IsAncestor(p: Path, root: Path) { p <= root }

  // The length of the path's text in bytes.
  function TextLength(p: Path): nat {
    if p == [] then 0 else TextLength(p[..|p| - 1]) + 1 + ByteLength(p[|p| - 1])
  }

  // The innermost cached worktree that contains the changed path.
  ghost predicate Owns(c: Cache, p: Path, root: Path) {
    p in c && IsAncestor(p, root) && forall q :: q in c && IsAncestor(q, root) ==> IsAncestor(q, p)
  }

  // Its entry is flagged and nothing else changes.
  ghost function Invalidated(c: Cache, root: Path): Cache {
    map p | p in c :: if Owns(c, p, root) then c[p].(dirty := true) else c[p]
  }

  // The invalidations that arrive while a listing walks.
  ghost function InvalidatedAll(c: Cache, roots: seq<Path>): Cache {
    if roots == [] then c
    else Invalidated(InvalidatedAll(c, roots[..|roots| - 1]), roots[|roots| - 1])
  }
}
