// Splitting the commits of every repository into runs (crates/repomon-core/src/session.rs:29-64).
module SessionRuns {
  import opened Counting
  import opened Sorting
  import opened Sessions

  // ---------------------------------------------------------------- splitting one repository

  // The times of a repository's commits, in the order in which the commits come.
  function Times(commits: seq<Commit>, r: Repo): seq<int> {
    if commits == [] then []
    else
      var c := commits[|commits| - 1];
      Times(commits[..|commits| - 1], r) + if c.repo == r then [c.time] else []
  }

  lemma {:induction false} InTimes(commits: seq<Commit>, r: Repo, t: int)
    ensures t in Times(commits, r) <==> Commit(r, t) in commits
  {
    if commits != [] {
      var rest := commits[..|commits| - 1];
      InTimes(rest, r, t);
      assert commits == rest + [commits[|commits| - 1]];
    }
  }

  function InSpan(from: int, to: int): int -> bool {
    (t: int) => from <= t <= to
  }

  lemma {:induction false} CountTimes(commits: seq<Commit>, iv: Interval)
    ensures Count(commits, Covers(iv)) == Count(Times(commits, iv.repo), InSpan(iv.from, iv.to))
  {
    if commits != [] {
      var rest, c := commits[..|commits| - 1], commits[|commits| - 1];
      assert commits == rest + [c];
      CountTimes(rest, iv);
      CountAppend(rest, [c], Covers(iv));
      if c.repo == iv.repo {
        CountAppend(Times(rest, iv.repo), [c.time], InSpan(iv.from, iv.to));
      } else {
        assert Times(commits, iv.repo) == Times(rest, iv.repo);
      }
    }
  }

  ghost predicate Ascending(ts: seq<int>) {
    forall i, j :: 0 <= i < j < |ts| ==> ts[i] <= ts[j]
  }

  // ts[lo..hi] is cut off by splitting gaps and has none inside.
  ghost predicate Segment(ts: seq<int>, lo: nat, hi: nat) {
    && lo < hi <= |ts|
    && (forall k :: lo < k < hi ==> !Splits(ts[k] - ts[k - 1]))
    && (lo > 0 ==> Splits(ts[lo] - ts[lo - 1]))
    && (hi < |ts| ==> Splits(ts[hi] - ts[hi - 1]))
  }

  // Interval `i` is the segment of `ts` between the cuts on its two sides.
  ghost predicate Slice(iv: Interval, ts: seq<int>, r: Repo, lo: nat, hi: nat) {
    && Segment(ts, lo, hi)
    && iv == Interval(r, ts[lo], ts[hi - 1], hi - lo)
  }

  ghost predicate Slices(ivs: seq<Interval>, ts: seq<int>, r: Repo, cuts: seq<nat>) {
    && |cuts| == |ivs| + 1 && cuts[0] == 0
    && (forall i {:trigger ivs[i]} :: 0 <= i < |ivs| ==> Slice(ivs[i], ts, r, cuts[i], cuts[i + 1]))
  }

  // `ivs` are the pieces of all of `ts`.
  ghost predicate CutUp(ivs: seq<Interval>, ts: seq<int>, r: Repo) {
    exists cuts: seq<nat> :: Slices(ivs, ts, r, cuts) && cuts[|ivs|] == |ts|
  }

  lemma OneMoreSlice(ivs: seq<Interval>, ts: seq<int>, r: Repo, cuts: seq<nat>, hi: nat, iv: Interval)
    requires Slices(ivs, ts, r, cuts) && Slice(iv, ts, r, cuts[|ivs|], hi)
    ensures Slices(ivs + [iv], ts, r, cuts + [hi])
  {
    forall i | 0 <= i < |ivs + [iv]|
      ensures Slice((ivs + [iv])[i], ts, r, (cuts + [hi])[i], (cuts + [hi])[i + 1])
    {
      if i < |ivs| { assert Slice(ivs[i], ts, r, cuts[i], cuts[i + 1]); }
    }
  }

  // The interval that starts at `lo` and has been followed up to `k`.
  ghost predicate Open(iv: Interval, ts: seq<int>, r: Repo, lo: nat, k: nat) {
    && lo <= k <= |ts| && lo < |ts| && (lo == k ==> k == 0)
    && (lo > 0 ==> Splits(ts[lo] - ts[lo - 1]))
    && (forall j :: lo < j < k ==> !Splits(ts[j] - ts[j - 1]))
    && iv == Interval(r, ts[lo], if k == 0 then ts[0] else ts[k - 1], k - lo)
  }

  lemma GoOn(iv: Interval, ts: seq<int>, r: Repo, lo: nat, k: nat)
    requires Open(iv, ts, r, lo, k) && k < |ts| && !Splits(ts[k] - iv.to)
    ensures Open(Interval(r, iv.from, ts[k], iv.count + 1), ts, r, lo, k + 1)
  {}

  lemma Close(iv: Interval, ts: seq<int>, r: Repo, lo: nat, k: nat)
    requires Open(iv, ts, r, lo, k) && k < |ts| && Splits(ts[k] - iv.to)
    ensures Slice(iv, ts, r, lo, k) && Open(Interval(r, ts[k], ts[k], 1), ts, r, k, k + 1)
  {}

  // One pass over a repository's sorted times, closing an interval at every splitting gap.
  method SplitRuns(r: Repo, times: seq<int>) returns (ivs: seq<Interval>)
    requires times != []
    ensures CutUp(ivs, times, r)
  {
    ivs := [];
    ghost var cuts: seq<nat> := [0];
    var from, last, count := times[0], times[0], 0;
    ghost var start := 0;
    for k := 0 to |times|
      invariant Slices(ivs, times, r, cuts) && cuts[|ivs|] == start
      invariant Open(Interval(r, from, last, count), times, r, start, k)
    {
      var t := times[k];
      ghost var open := Interval(r, from, last, count);
      WholeMinutesDecide(t - last);
      if NumMinutes(t - last) > GAP_MINUTES {
        Close(open, times, r, start, k);
        OneMoreSlice(ivs, times, r, cuts, k, open);
        ivs := ivs + [Interval(r, from, last, count)];
        cuts := cuts + [k];
        start := k;
        from := t;
        count := 0;
      } else {
        GoOn(open, times, r, start, k);
      }
      last := t;
      count := count + 1;
    }
    OneMoreSlice(ivs, times, r, cuts, |times|, Interval(r, from, last, count));
    ivs := ivs + [Interval(r, from, last, count)];
    cuts := cuts + [|times|];
  }

  // ---------------------------------------------------------------- slices are runs

  // `ts` is sorted and holds the times of the commits of `r`, with their multiplicity.
  ghost predicate Sorted(ts: seq<int>, commits: seq<Commit>, r: Repo) {
    && Ascending(ts)
    && multiset(ts) == multiset(Times(commits, r))
  }

  lemma InSorted(ts: seq<int>, commits: seq<Commit>, r: Repo, t: int)
    requires Sorted(ts, commits, r)
    ensures t in ts <==> Commit(r, t) in commits
  {
    SameElements(ts, Times(commits, r));
    InTimes(commits, r, t);
  }

  // Two neighbouring times with `t` from the first up to just before the second.
  lemma Around(ts: seq<int>, lo: nat, hi: nat, t: int) returns (j: nat)
    requires lo < hi <= |ts| && ts[lo] <= t < ts[hi - 1]
    ensures lo <= j && j + 1 < hi && ts[j] <= t < ts[j + 1]
  {
    j := lo;
    while ts[j + 1] <= t
      invariant lo <= j && j + 1 < hi && ts[j] <= t
      decreases hi - j
    {
      j := j + 1;
    }
  }

  lemma NextInSlice(iv: Interval, ts: seq<int>, commits: seq<Commit>, r: Repo, lo: nat, hi: nat, t: int)
    requires Sorted(ts, commits, r) && Slice(iv, ts, r, lo, hi) && iv.from <= t < iv.to
    ensures GoesOn(commits, r, t)
  {
    var j := Around(ts, lo, hi, t);
    InSorted(ts, commits, r, ts[j + 1]);
    assert !Splits(ts[j + 1] - ts[j + 1 - 1]);
  }

  lemma OutsideSlice(iv: Interval, ts: seq<int>, commits: seq<Commit>, r: Repo, lo: nat, hi: nat, t: int)
    requires Sorted(ts, commits, r) && Slice(iv, ts, r, lo, hi) && Commit(r, t) in commits
    ensures t < iv.from ==> Splits(iv.from - t)
    ensures iv.to < t ==> Splits(t - iv.to)
  {
    InSorted(ts, commits, r, t);
    var j :| 0 <= j < |ts| && ts[j] == t;
    if t < iv.from { assert j < lo && ts[j] <= ts[lo - 1]; }
    if iv.to < t { assert hi <= j && ts[hi] <= ts[j]; }
  }

  lemma SliceIsRun(iv: Interval, ts: seq<int>, commits: seq<Commit>, r: Repo, lo: nat, hi: nat)
    requires Sorted(ts, commits, r) && Slice(iv, ts, r, lo, hi)
    ensures IsRun(commits, r, iv.from, iv.to)
  {
    InSorted(ts, commits, r, iv.from);
    InSorted(ts, commits, r, iv.to);
    forall t | Commit(r, t) in commits && iv.from <= t < iv.to
      ensures GoesOn(commits, r, t)
    {
      NextInSlice(iv, ts, commits, r, lo, hi, t);
    }
    forall t | Commit(r, t) in commits
      ensures (t < iv.from ==> Splits(iv.from - t)) && (iv.to < t ==> Splits(t - iv.to))
    {
      OutsideSlice(iv, ts, commits, r, lo, hi, t);
    }
  }

  lemma CountSegment(ts: seq<int>, lo: nat, hi: nat)
    requires Ascending(ts) && Segment(ts, lo, hi)
    ensures Count(ts, InSpan(ts[lo], ts[hi - 1])) == hi - lo
  {
    var p := InSpan(ts[lo], ts[hi - 1]);
    CountCut(ts, hi, p);
    CountCut(ts[..hi], lo, p);
    assert ts[..hi][..lo] == ts[..lo] && ts[..hi][lo..] == ts[lo..hi];
    BeforeSegment(ts, lo, hi);
    CountNone(ts[..lo], p);
    CountAll(ts[lo..hi], p);
    CountNone(ts[hi..], p);
  }

  lemma BeforeSegment(ts: seq<int>, lo: nat, hi: nat)
    requires Ascending(ts) && Segment(ts, lo, hi)
    ensures forall t :: t in ts[..lo] ==> t < ts[lo]
    ensures forall t :: t in ts[lo..hi] ==> ts[lo] <= t <= ts[hi - 1]
    ensures forall t :: t in ts[hi..] ==> ts[hi - 1] < t
  {
    forall t | t in ts[..lo] ensures t < ts[lo] {
      var j :| 0 <= j < lo && ts[j] == t;
      assert ts[j] <= ts[lo - 1];
    }
    forall t | t in ts[hi..] ensures ts[hi - 1] < t {
      var j :| hi <= j < |ts| && ts[j] == t;
      assert ts[hi] <= ts[j];
    }
  }

  lemma SliceCounts(iv: Interval, ts: seq<int>, commits: seq<Commit>, r: Repo, lo: nat, hi: nat)
    requires Sorted(ts, commits, r) && Slice(iv, ts, r, lo, hi)
    ensures iv.count == Count(commits, Covers(iv))
  {
    CountSegment(ts, lo, hi);
    CountPermuted(ts, Times(commits, r), InSpan(iv.from, iv.to));
    CountTimes(commits, iv);
  }

  lemma {:induction false} CutsAscend(ivs: seq<Interval>, ts: seq<int>, r: Repo, cuts: seq<nat>, i: nat, j: nat)
    requires Slices(ivs, ts, r, cuts) && i <= j <= |ivs|
    ensures cuts[i] <= cuts[j]
  {
    if i < j {
      CutsAscend(ivs, ts, r, cuts, i, j - 1);
      assert Slice(ivs[j - 1], ts, r, cuts[j - 1], cuts[j - 1 + 1]);
    }
  }

  lemma SlicesAreApart(ivs: seq<Interval>, ts: seq<int>, r: Repo, cuts: seq<nat>, i: nat, j: nat)
    requires Slices(ivs, ts, r, cuts) && Ascending(ts) && i < j < |ivs|
    ensures ivs[i].to < ivs[j].from
  {
    CutsAscend(ivs, ts, r, cuts, i + 1, j);
    assert Slice(ivs[i], ts, r, cuts[i], cuts[i + 1]);
    assert Slice(ivs[j], ts, r, cuts[j], cuts[j + 1]);
  }

  lemma {:induction false} SliceOf(ivs: seq<Interval>, ts: seq<int>, r: Repo, cuts: seq<nat>, k: nat, n: nat)
    returns (i: nat)
    requires Slices(ivs, ts, r, cuts) && n <= |ivs| && k < cuts[n]
    ensures i < n && cuts[i] <= k < cuts[i + 1]
  {
    if cuts[n - 1] <= k { i := n - 1; } else { i := SliceOf(ivs, ts, r, cuts, k, n - 1); }
  }

  // ---------------------------------------------------------------- all repositories

  // As ListsRuns, for the repositories in `rs` only.
  ghost predicate ListsRunsOf(ivs: seq<Interval>, commits: seq<Commit>, rs: set<Repo>) {
    && AllMeasured(ivs, commits, rs)
    && Once(ivs)
    && AllCovered(ivs, commits, rs)
  }

  ghost predicate AllMeasured(ivs: seq<Interval>, commits: seq<Commit>, rs: set<Repo>) {
    forall iv :: iv in ivs ==> iv.repo in rs && Measured(iv, commits)
  }

  ghost predicate AllCovered(ivs: seq<Interval>, commits: seq<Commit>, rs: set<Repo>) {
    forall c {:trigger Covered(ivs, c)} :: c in commits && c.repo in rs ==> Covered(ivs, c)
  }

  lemma SlicesAreMeasured(ivs: seq<Interval>, ts: seq<int>, commits: seq<Commit>, r: Repo, cuts: seq<nat>)
    requires Sorted(ts, commits, r) && Slices(ivs, ts, r, cuts)
    ensures AllMeasured(ivs, commits, {r})
  {
    forall iv | iv in ivs ensures iv.repo == r && Measured(iv, commits) {
      var i :| 0 <= i < |ivs| && ivs[i] == iv;
      assert Slice(ivs[i], ts, r, cuts[i], cuts[i + 1]);
      SliceIsRun(iv, ts, commits, r, cuts[i], cuts[i + 1]);
      SliceCounts(iv, ts, commits, r, cuts[i], cuts[i + 1]);
    }
  }

  lemma SlicesAreDistinct(ivs: seq<Interval>, ts: seq<int>, r: Repo, cuts: seq<nat>)
    requires Ascending(ts) && Slices(ivs, ts, r, cuts)
    ensures Once(ivs)
  {
    forall i, j | 0 <= i < j < |ivs| ensures ivs[i] != ivs[j] {
      SlicesAreApart(ivs, ts, r, cuts, i, j);
      assert Slice(ivs[i], ts, r, cuts[i], cuts[i + 1]);
    }
    DistinctMeansOnce(ivs);
  }

  lemma SlicesCover(ivs: seq<Interval>, ts: seq<int>, commits: seq<Commit>, r: Repo, cuts: seq<nat>)
    requires Sorted(ts, commits, r) && Slices(ivs, ts, r, cuts) && cuts[|ivs|] == |ts|
    ensures AllCovered(ivs, commits, {r})
  {
    forall c | c in commits && c.repo == r ensures Covered(ivs, c) {
      InSorted(ts, commits, r, c.time);
      var k :| 0 <= k < |ts| && ts[k] == c.time;
      var i := SliceOf(ivs, ts, r, cuts, k, |ivs|);
      assert Slice(ivs[i], ts, r, cuts[i], cuts[i + 1]);
      assert Covers(ivs[i])(c);
    }
  }

  lemma MoreMeasured(a: seq<Interval>, b: seq<Interval>, commits: seq<Commit>, rs: set<Repo>, r: Repo)
    requires AllMeasured(a, commits, rs) && AllMeasured(b, commits, {r})
    ensures AllMeasured(a + b, commits, rs + {r})
  {}

  lemma MoreCovered(a: seq<Interval>, b: seq<Interval>, commits: seq<Commit>, rs: set<Repo>, r: Repo)
    requires AllCovered(a, commits, rs) && AllCovered(b, commits, {r})
    ensures AllCovered(a + b, commits, rs + {r})
  {
    forall c | c in commits && c.repo in rs + {r} ensures Covered(a + b, c) {
      assert c.repo in rs || c.repo in {r};
      assert Covered(a, c) || Covered(b, c);
    }
  }

  lemma StillOnce(a: seq<Interval>, b: seq<Interval>, rs: set<Repo>, r: Repo)
    requires (forall iv :: iv in a ==> iv.repo in rs) && (forall iv :: iv in b ==> iv.repo == r)
    requires r !in rs && Once(a) && Once(b)
    ensures Once(a + b)
  {
    forall iv | iv in a + b ensures multiset(a + b)[iv] == 1 {
      assert multiset(a + b)[iv] == multiset(a)[iv] + multiset(b)[iv];
      assert !(iv in multiset(a) && iv in multiset(b));
    }
  }

  lemma MoreRuns(a: seq<Interval>, b: seq<Interval>, commits: seq<Commit>, rs: set<Repo>, r: Repo)
    requires ListsRunsOf(a, commits, rs) && ListsRunsOf(b, commits, {r}) && r !in rs
    ensures ListsRunsOf(a + b, commits, rs + {r})
  {
    MoreMeasured(a, b, commits, rs, r);
    MoreCovered(a, b, commits, rs, r);
    StillOnce(a, b, rs, r);
  }

  // The times of every repository that has commits.
  ghost predicate Groups(byRepo: map<Repo, seq<int>>, commits: seq<Commit>) {
    && (forall r :: r in byRepo <==> Times(commits, r) != [])
    && (forall r :: r in byRepo ==> byRepo[r] == Times(commits, r))
  }

  method GroupByRepo(commits: seq<Commit>) returns (byRepo: map<Repo, seq<int>>)
    ensures Groups(byRepo, commits)
  {
    byRepo := map[];
    for i := 0 to |commits|
      invariant Groups(byRepo, commits[..i])
    {
      var c := commits[i];
      assert commits[..i + 1][..i] == commits[..i];
      var times := if c.repo in byRepo then byRepo[c.repo] else [];
      byRepo := byRepo[c.repo := times + [c.time]];
    }
    assert commits[..|commits|] == commits;
  }

  function Itself(t: int): int { t }

  lemma SortedTimes(commits: seq<Commit>, r: Repo)
    ensures Sorted(SortBy(Times(commits, r), Itself), commits, r)
  {
    Sorts(Times(commits, r), Itself);
    var ts := SortBy(Times(commits, r), Itself);
    forall i, j | 0 <= i < j < |ts| ensures ts[i] <= ts[j] { assert Itself(ts[i]) <= Itself(ts[j]); }
  }

  lemma AllRuns(ivs: seq<Interval>, byRepo: map<Repo, seq<int>>, commits: seq<Commit>)
    requires Groups(byRepo, commits) && ListsRunsOf(ivs, commits, byRepo.Keys)
    ensures ListsRuns(ivs, commits)
  {
    forall c | c in commits ensures Covered(ivs, c) { InTimes(commits, c.repo, c.time); }
  }

  lemma SomeRepo(rs: set<Repo>)
    ensures rs == {} || exists r :: r in rs
  {
    if forall r :: r !in rs { assert rs == {}; }
  }

  // The map is walked in an arbitrary order.
  method Runs(commits: seq<Commit>) returns (ivs: seq<Interval>)
    ensures ListsRuns(ivs, commits)
  {
    var byRepo := GroupByRepo(commits);
    ivs := [];
    var left := byRepo.Keys;
    ghost var done: set<Repo> := {};
    while left != {}
      invariant done + left == byRepo.Keys && done !! left
      invariant ListsRunsOf(ivs, commits, done)
    {
      SomeRepo(left);
      var r :| r in left;
      var times := SortBy(byRepo[r], Itself);
      Sorts(byRepo[r], Itself);
      SortedTimes(commits, r);
      var more := SplitRuns(r, times);
      ghost var cuts: seq<nat> :| Slices(more, times, r, cuts) && cuts[|more|] == |times|;
      SlicesAreMeasured(more, times, commits, r, cuts);
      SlicesAreDistinct(more, times, r, cuts);
      SlicesCover(more, times, commits, r, cuts);
      MoreRuns(ivs, more, commits, done, r);
      ivs := ivs + more;
      left := left - {r};
      done := done + {r};
    }
    AllRuns(ivs, byRepo, commits);
  }
}
