// Merging the runs of all repositories into sessions (crates/repomon-core/src/session.rs:66-119).
module SessionDetect {
  import opened Prelude
  import opened Counting
  import opened Sorting
  import opened Sessions
  import opened SessionRuns

  function FromOf(iv: Interval): int { iv.from }

  function NewestFirst(s: WorkSession): int { -s.from }

  // The list of all runs, by start.
  ghost predicate Ordered(ivs: seq<Interval>, commits: seq<Commit>) {
    && ListsRuns(ivs, commits)
    && (forall i, j :: 0 <= i < j < |ivs| ==> ivs[i].from <= ivs[j].from)
  }

  lemma SortedRuns(ivs: seq<Interval>, commits: seq<Commit>)
    requires ListsRuns(ivs, commits)
    ensures Ordered(SortBy(ivs, FromOf), commits)
  {
    var s := SortBy(ivs, FromOf);
    Sorts(ivs, FromOf);
    SameElements(s, ivs);
    forall c | c in commits ensures Covered(s, c) { assert Covered(ivs, c); }
    forall i, j | 0 <= i < j < |s| ensures s[i].from <= s[j].from {
      assert FromOf(s[i]) <= FromOf(s[j]);
    }
  }

  // ---------------------------------------------------------------- a growing cluster

  // Some interval of ivs[lo..hi] covers the instant after `x`.
  ghost predicate BridgedBy(ivs: seq<Interval>, lo: nat, hi: nat, x: int)
    requires hi <= |ivs|
  {
    exists j :: lo <= j < hi && ivs[j].from <= x < ivs[j].to
  }

  ghost predicate HasRepo(ivs: seq<Interval>, lo: nat, hi: nat, r: Repo)
    requires hi <= |ivs|
  {
    exists j :: lo <= j < hi && ivs[j].repo == r
  }

  function CoveredIn(ivs: seq<Interval>, lo: nat, hi: nat): Commit -> bool
    requires hi <= |ivs|
  {
    (c: Commit) => exists j :: lo <= j < hi && Covers(ivs[j])(c)
  }

  // `c` is the union of ivs[lo..hi], which hang together.
  ghost predicate Spans(c: Cluster, ivs: seq<Interval>, lo: nat, hi: nat) {
    && lo < hi <= |ivs| && c.from == ivs[lo].from && c.from <= c.to
    && (forall j :: lo <= j < hi ==> c.from <= ivs[j].from && ivs[j].to <= c.to)
    && (exists j :: lo <= j < hi && ivs[j].to == c.to)
    && (forall x {:trigger BridgedBy(ivs, lo, hi, x)} :: c.from <= x < c.to ==> BridgedBy(ivs, lo, hi, x))
  }

  // Repository `a` has an interval among them that starts no later than any of `b`.
  ghost predicate StartsFirst(ivs: seq<Interval>, lo: nat, hi: nat, a: Repo, b: Repo)
    requires hi <= |ivs|
  {
    exists k :: lo <= k < hi && ivs[k].repo == a
                && forall m :: lo <= m < hi && ivs[m].repo == b ==> ivs[k].from <= ivs[m].from
  }

  ghost predicate Gathers(c: Cluster, ivs: seq<Interval>, lo: nat, hi: nat) {
    && hi <= |ivs|
    && (forall r :: r in c.repos <==> HasRepo(ivs, lo, hi, r))
    && (forall i, j :: 0 <= i < j < |c.repos| ==> c.repos[i] != c.repos[j])
    && (forall i, j :: 0 <= i < j < |c.repos| ==> StartsFirst(ivs, lo, hi, c.repos[i], c.repos[j]))
  }

  ghost predicate Tallies(c: Cluster, ivs: seq<Interval>, commits: seq<Commit>, lo: nat, hi: nat) {
    hi <= |ivs| && c.count == Count(commits, CoveredIn(ivs, lo, hi))
  }

  ghost predicate Growing(c: Cluster, ivs: seq<Interval>, commits: seq<Commit>, lo: nat, hi: nat) {
    Spans(c, ivs, lo, hi) && Gathers(c, ivs, lo, hi) && Tallies(c, ivs, commits, lo, hi)
  }

  function Joined(c: Cluster, iv: Interval): Cluster {
    Cluster(
      c.from, if iv.to > c.to then iv.to else c.to,
      if iv.repo in c.repos then c.repos else c.repos + [iv.repo],
      c.count + iv.count)
  }

  function Alone(iv: Interval): Cluster { Cluster(iv.from, iv.to, [iv.repo], iv.count) }

  lemma SpansMore(c: Cluster, ivs: seq<Interval>, commits: seq<Commit>, lo: nat, k: nat)
    requires Ordered(ivs, commits) && Spans(c, ivs, lo, k) && k < |ivs| && ivs[k].from <= c.to
    ensures Spans(Joined(c, ivs[k]), ivs, lo, k + 1)
  {
    var d := Joined(c, ivs[k]);
    assert ivs[lo].from <= ivs[k].from;
    forall x {:trigger BridgedBy(ivs, lo, k + 1, x)} | d.from <= x < d.to ensures BridgedBy(ivs, lo, k + 1, x) {
      if x < c.to {
        assert BridgedBy(ivs, lo, k, x);
        var j :| lo <= j < k && ivs[j].from <= x < ivs[j].to;
        assert lo <= j < k + 1;
      } else {
        assert lo <= k < k + 1 && ivs[k].from <= x < ivs[k].to;
      }
    }
    var j :| lo <= j < k && ivs[j].to == c.to;
    assert ivs[if ivs[k].to > c.to then k else j].to == d.to;
  }

  lemma HasRepoMore(ivs: seq<Interval>, lo: nat, k: nat, r: Repo)
    requires lo <= k < |ivs|
    ensures HasRepo(ivs, lo, k + 1, r) <==> HasRepo(ivs, lo, k, r) || ivs[k].repo == r
  {
    if ivs[k].repo == r { assert lo <= k < k + 1; }
    if HasRepo(ivs, lo, k, r) {
      var j :| lo <= j < k && ivs[j].repo == r;
      assert lo <= j < k + 1;
    }
  }

  lemma StartsFirstMore(ivs: seq<Interval>, commits: seq<Commit>, lo: nat, k: nat, a: Repo, b: Repo)
    requires Ordered(ivs, commits) && lo <= k < |ivs|
    requires StartsFirst(ivs, lo, k, a, b) || (HasRepo(ivs, lo, k, a) && !HasRepo(ivs, lo, k, b))
    ensures StartsFirst(ivs, lo, k + 1, a, b)
  {
    var j :| lo <= j < k && ivs[j].repo == a
             && forall m :: lo <= m < k && ivs[m].repo == b ==> ivs[j].from <= ivs[m].from;
    assert ivs[j].from <= ivs[k].from;
    assert forall m :: lo <= m < k + 1 && ivs[m].repo == b ==> ivs[j].from <= ivs[m].from;
  }

  lemma GathersMore(c: Cluster, ivs: seq<Interval>, commits: seq<Commit>, lo: nat, k: nat)
    requires Ordered(ivs, commits) && Gathers(c, ivs, lo, k) && lo <= k < |ivs|
    ensures Gathers(Joined(c, ivs[k]), ivs, lo, k + 1)
  {
    var d := Joined(c, ivs[k]);
    forall r ensures r in d.repos <==> HasRepo(ivs, lo, k + 1, r) { HasRepoMore(ivs, lo, k, r); }
    forall i, j | 0 <= i < j < |d.repos| ensures StartsFirst(ivs, lo, k + 1, d.repos[i], d.repos[j]) {
      assert d.repos[i] == c.repos[i] && c.repos[i] in c.repos;
      StartsFirstMore(ivs, commits, lo, k, d.repos[i], d.repos[j]);
    }
  }

  lemma CountsMore(ivs: seq<Interval>, commits: seq<Commit>, lo: nat, k: nat)
    requires ListsRuns(ivs, commits) && lo <= k < |ivs|
    ensures Count(commits, CoveredIn(ivs, lo, k + 1)) == Count(commits, CoveredIn(ivs, lo, k)) + ivs[k].count
  {
    var p, q, r := CoveredIn(ivs, lo, k), Covers(ivs[k]), CoveredIn(ivs, lo, k + 1);
    forall c | c in commits ensures !(p(c) && q(c)) && r(c) == (p(c) || q(c)) {
      CoveredMore(ivs, commits, lo, k, c);
    }
    CountSplit(commits, p, q, r);
    assert Measured(ivs[k], commits);
  }

  lemma CoveredMore(ivs: seq<Interval>, commits: seq<Commit>, lo: nat, k: nat, c: Commit)
    requires ListsRuns(ivs, commits) && lo <= k < |ivs|
    ensures !(CoveredIn(ivs, lo, k)(c) && Covers(ivs[k])(c))
    ensures CoveredIn(ivs, lo, k + 1)(c) == (CoveredIn(ivs, lo, k)(c) || Covers(ivs[k])(c))
  {
    if CoveredIn(ivs, lo, k)(c) {
      var j :| lo <= j < k && Covers(ivs[j])(c);
      ListedApart(ivs, commits, j, k, c);
      assert lo <= j < k + 1;
    }
    if Covers(ivs[k])(c) { assert lo <= k < k + 1; }
  }

  lemma GrowsBy(c: Cluster, ivs: seq<Interval>, commits: seq<Commit>, lo: nat, k: nat)
    requires Ordered(ivs, commits) && Growing(c, ivs, commits, lo, k)
    requires k < |ivs| && ivs[k].from <= c.to
    ensures Growing(Joined(c, ivs[k]), ivs, commits, lo, k + 1)
  {
    SpansMore(c, ivs, commits, lo, k);
    GathersMore(c, ivs, commits, lo, k);
    CountsMore(ivs, commits, lo, k);
  }

  lemma StartsAlone(ivs: seq<Interval>, commits: seq<Commit>, k: nat)
    requires ListsRuns(ivs, commits) && k < |ivs|
    ensures Growing(Alone(ivs[k]), ivs, commits, k, k + 1)
  {
    var c := Alone(ivs[k]);
    assert Measured(ivs[k], commits);
    forall x {:trigger BridgedBy(ivs, k, k + 1, x)} | c.from <= x < c.to ensures BridgedBy(ivs, k, k + 1, x) {
      assert k <= k < k + 1;
    }
    forall r ensures r in c.repos <==> HasRepo(ivs, k, k + 1, r) { HasRepoMore(ivs, k, k, r); }
    CountsMore(ivs, commits, k, k);
    CountNone(commits, CoveredIn(ivs, k, k));
  }

  // ---------------------------------------------------------------- a closed cluster

  // Nothing before ivs[lo] reaches the cluster and nothing from ivs[hi] on starts inside it.
  ghost predicate Closed(c: Cluster, ivs: seq<Interval>, lo: nat, hi: nat) {
    && lo <= hi <= |ivs|
    && (forall j :: 0 <= j < lo ==> ivs[j].to < c.from)
    && (forall j :: hi <= j < |ivs| ==> c.to < ivs[j].from)
  }

  lemma RunIsListed(ivs: seq<Interval>, commits: seq<Commit>, r: Repo, f: int, t: int) returns (j: nat)
    requires ListsRuns(ivs, commits) && IsRun(commits, r, f, t)
    ensures j < |ivs| && ivs[j].repo == r && ivs[j].from == f && ivs[j].to == t
  {
    ListIsComplete(ivs, commits, r, f, t);
    var iv :| iv in ivs && iv.repo == r && iv.from == f && iv.to == t;
    j :| 0 <= j < |ivs| && ivs[j] == iv;
  }

  lemma InsideOrApart(
      c: Cluster, ivs: seq<Interval>, commits: seq<Commit>, lo: nat, hi: nat, r: Repo, f: int, t: int)
    requires ListsRuns(ivs, commits) && Spans(c, ivs, lo, hi) && Closed(c, ivs, lo, hi)
    requires IsRun(commits, r, f, t)
    ensures t < c.from || c.to < f || (c.from <= f && t <= c.to)
  {
    var j := RunIsListed(ivs, commits, r, f, t);
  }

  lemma BridgedByARun(ivs: seq<Interval>, commits: seq<Commit>, lo: nat, hi: nat, x: int)
    requires ListsRuns(ivs, commits) && hi <= |ivs| && BridgedBy(ivs, lo, hi, x)
    ensures Bridged(commits, x)
  {
    var j :| lo <= j < hi && ivs[j].from <= x < ivs[j].to;
    assert Measured(ivs[j], commits);
    assert IsRun(commits, ivs[j].repo, ivs[j].from, ivs[j].to);
  }

  lemma ClusterIsComponent(c: Cluster, ivs: seq<Interval>, commits: seq<Commit>, lo: nat, hi: nat)
    requires ListsRuns(ivs, commits) && Spans(c, ivs, lo, hi) && Closed(c, ivs, lo, hi)
    ensures IsComponent(commits, c.from, c.to)
  {
    assert Measured(ivs[lo], commits);
    var j :| lo <= j < hi && ivs[j].to == c.to;
    assert Measured(ivs[j], commits);
    assert IsRun(commits, ivs[j].repo, ivs[j].from, c.to);
    forall r, f, t | IsRun(commits, r, f, t)
      ensures t < c.from || c.to < f || (c.from <= f && t <= c.to)
    {
      InsideOrApart(c, ivs, commits, lo, hi, r, f, t);
    }
    forall x | c.from <= x < c.to ensures Bridged(commits, x) {
      assert BridgedBy(ivs, lo, hi, x);
      BridgedByARun(ivs, commits, lo, hi, x);
    }
  }

  // The commits in the span of a closed cluster are those of its intervals.
  lemma WithinIsCovered(c: Cluster, ivs: seq<Interval>, commits: seq<Commit>, lo: nat, hi: nat, k: Commit)
    requires ListsRuns(ivs, commits) && Spans(c, ivs, lo, hi) && Closed(c, ivs, lo, hi) && k in commits
    ensures Within(c.from, c.to)(k) == CoveredIn(ivs, lo, hi)(k)
  {
    if Within(c.from, c.to)(k) {
      assert Covered(ivs, k);
      var iv :| iv in ivs && Covers(iv)(k);
      var j :| 0 <= j < |ivs| && ivs[j] == iv;
      assert lo <= j < hi;
    }
  }

  lemma HasRepoIsCovered(c: Cluster, ivs: seq<Interval>, commits: seq<Commit>, lo: nat, hi: nat, r: Repo)
    requires ListsRuns(ivs, commits) && Spans(c, ivs, lo, hi) && Closed(c, ivs, lo, hi)
    ensures HasRepo(ivs, lo, hi, r) <==> exists t :: Commit(r, t) in commits && c.from <= t <= c.to
  {
    if HasRepo(ivs, lo, hi, r) {
      var j :| lo <= j < hi && ivs[j].repo == r;
      assert Measured(ivs[j], commits);
      assert Commit(r, ivs[j].from) in commits;
    }
    if t :| Commit(r, t) in commits && c.from <= t <= c.to {
      WithinIsCovered(c, ivs, commits, lo, hi, Commit(r, t));
      var j :| lo <= j < hi && Covers(ivs[j])(Commit(r, t));
      assert ivs[j].repo == r;
    }
  }

  lemma FirstByCommit(
      c: Cluster, ivs: seq<Interval>, commits: seq<Commit>, lo: nat, hi: nat, s: WorkSession, a: Repo, b: Repo)
    requires ListsRuns(ivs, commits) && Spans(c, ivs, lo, hi) && Closed(c, ivs, lo, hi)
    requires StartsFirst(ivs, lo, hi, a, b) && s.from == c.from && s.to == c.to
    ensures IsFirst(s, commits, a, b)
  {
    var k :| lo <= k < hi && ivs[k].repo == a
             && forall m :: lo <= m < hi && ivs[m].repo == b ==> ivs[k].from <= ivs[m].from;
    var t := ivs[k].from;
    assert Measured(ivs[k], commits);
    forall u | Commit(b, u) in commits && c.from <= u <= c.to ensures t <= u {
      WithinIsCovered(c, ivs, commits, lo, hi, Commit(b, u));
      var m :| lo <= m < hi && Covers(ivs[m])(Commit(b, u));
      assert ivs[m].repo == b;
    }
    assert Commit(a, t) in commits && s.from <= t <= s.to;
  }

  function Names(repos: seq<Repo>, names: map<Repo, string>): seq<string> {
    seq(|repos|, i requires 0 <= i < |repos| => if repos[i] in names then names[repos[i]] else "")
  }

  function SessionOf(c: Cluster, names: map<Repo, string>): WorkSession {
    WorkSession(
      c.from, c.to, if |c.repos| > 1 then Parallel else Focused, c.repos, Names(c.repos, names), c.count)
  }

  lemma ClusterIsDescribed(
      c: Cluster, ivs: seq<Interval>, commits: seq<Commit>, lo: nat, hi: nat, names: map<Repo, string>)
    requires ListsRuns(ivs, commits) && Growing(c, ivs, commits, lo, hi) && Closed(c, ivs, lo, hi)
    ensures Describes(SessionOf(c, names), commits, names)
  {
    forall k | k in commits ensures Within(c.from, c.to)(k) == CoveredIn(ivs, lo, hi)(k) {
      WithinIsCovered(c, ivs, commits, lo, hi, k);
    }
    CountSame(commits, Within(c.from, c.to), CoveredIn(ivs, lo, hi));
    forall r ensures r in c.repos <==> exists t :: Commit(r, t) in commits && c.from <= t <= c.to {
      HasRepoIsCovered(c, ivs, commits, lo, hi, r);
    }
    var s := SessionOf(c, names);
    forall i, j | 0 <= i < j < |s.repoIds| ensures IsFirst(s, commits, s.repoIds[i], s.repoIds[j]) {
      FirstByCommit(c, ivs, commits, lo, hi, s, s.repoIds[i], s.repoIds[j]);
    }
  }

  // ---------------------------------------------------------------- the sessions so far

  ghost predicate Session(s: WorkSession, commits: seq<Commit>, names: map<Repo, string>) {
    IsComponent(commits, s.from, s.to) && LongEnough(s.from, s.to) && Describes(s, commits, names)
  }

  ghost predicate Found(out: seq<WorkSession>, f: int, t: int) {
    exists s :: s in out && s.from == f && s.to == t
  }

  // `out` has exactly the sessions that start before `limit`, in the order of time.
  ghost predicate Emitted(out: seq<WorkSession>, commits: seq<Commit>, names: map<Repo, string>, limit: int) {
    && (forall s {:trigger Session(s, commits, names)} :: s in out ==> Session(s, commits, names))
    && (forall s :: s in out ==> s.to < limit)
    && (forall i, j :: 0 <= i < j < |out| ==> out[i].to < out[j].from)
    && (forall f, t {:trigger Found(out, f, t)} ::
          IsComponent(commits, f, t) && LongEnough(f, t) && f < limit ==> Found(out, f, t))
  }

  lemma NothingBefore(ivs: seq<Interval>, commits: seq<Commit>, names: map<Repo, string>)
    requires Ordered(ivs, commits) && ivs != []
    ensures Emitted([], commits, names, ivs[0].from)
  {
    forall f, t | IsComponent(commits, f, t) ensures ivs[0].from <= f {
      var j := StartsWithAListed(ivs, commits, f, t);
    }
  }

  lemma StartsWithAListed(ivs: seq<Interval>, commits: seq<Commit>, f: int, t: int) returns (j: nat)
    requires ListsRuns(ivs, commits) && IsComponent(commits, f, t)
    ensures j < |ivs| && ivs[j].from == f <= ivs[j].to
  {
    var r, u :| IsRun(commits, r, f, u);
    j := RunIsListed(ivs, commits, r, f, u);
  }

  // What emitting a cluster adds.
  function Push(out: seq<WorkSession>, c: Cluster, names: map<Repo, string>): seq<WorkSession> {
    if LongEnough(c.from, c.to) then out + [SessionOf(c, names)] else out
  }

  // No run starts between the end of a closed cluster and `next`.
  ghost predicate NextStart(ivs: seq<Interval>, hi: nat, c: Cluster, next: int) {
    c.to < next && forall j :: hi <= j < |ivs| ==> next <= ivs[j].from
  }

  // A component that starts before `next` starts before the cluster or is the cluster.
  lemma BeforeOrSame(
      c: Cluster, ivs: seq<Interval>, commits: seq<Commit>, lo: nat, hi: nat, next: int, f: int, t: int)
    requires ListsRuns(ivs, commits) && Spans(c, ivs, lo, hi) && Closed(c, ivs, lo, hi)
    requires NextStart(ivs, hi, c, next) && IsComponent(commits, f, t) && f < next
    ensures f < c.from || (f == c.from && t == c.to)
  {
    var j := StartsWithAListed(ivs, commits, f, t);
    ClusterIsComponent(c, ivs, commits, lo, hi);
    if c.from <= f { ComponentsMeetOnlyIfEqual(commits, c.from, c.to, f, t); }
  }

  lemma FoundAfter(
      out: seq<WorkSession>, c: Cluster, ivs: seq<Interval>, commits: seq<Commit>, lo: nat, hi: nat,
      names: map<Repo, string>, next: int, f: int, t: int)
    requires ListsRuns(ivs, commits) && Spans(c, ivs, lo, hi) && Closed(c, ivs, lo, hi)
    requires f < c.from ==> Found(out, f, t)
    requires NextStart(ivs, hi, c, next)
    requires IsComponent(commits, f, t) && LongEnough(f, t) && f < next
    ensures Found(Push(out, c, names), f, t)
  {
    BeforeOrSame(c, ivs, commits, lo, hi, next, f, t);
    if f < c.from {
      var s :| s in out && s.from == f && s.to == t;
      assert s in Push(out, c, names);
    } else {
      assert SessionOf(c, names) in Push(out, c, names);
    }
  }

  lemma EmitsOneMore(
      out: seq<WorkSession>, c: Cluster, ivs: seq<Interval>, commits: seq<Commit>, lo: nat, hi: nat,
      names: map<Repo, string>, next: int)
    requires ListsRuns(ivs, commits) && Growing(c, ivs, commits, lo, hi) && Closed(c, ivs, lo, hi)
    requires NextStart(ivs, hi, c, next) && Emitted(out, commits, names, c.from)
    ensures Emitted(Push(out, c, names), commits, names, next)
  {
    var more := Push(out, c, names);
    ClusterIsComponent(c, ivs, commits, lo, hi);
    ClusterIsDescribed(c, ivs, commits, lo, hi, names);
    forall f, t | IsComponent(commits, f, t) && LongEnough(f, t) && f < next ensures Found(more, f, t) {
      assert f < c.from ==> Found(out, f, t);
      FoundAfter(out, c, ivs, commits, lo, hi, names, next, f, t);
    }
  }

  method PushSession(out: seq<WorkSession>, c: Cluster, names: map<Repo, string>)
      returns (more: seq<WorkSession>)
    ensures more == Push(out, c, names)
  {
    WholeMinutesDecide(c.to - c.from);
    if NumMinutes(c.to - c.from) < MIN_SESSION_MINUTES {
      return out;
    }
    var kind := if |c.repos| > 1 then Parallel else Focused;
    more := out + [WorkSession(c.from, c.to, kind, c.repos, Names(c.repos, names), c.count)];
  }

  // The cluster ends at position `k`: everything from there on starts after it.
  lemma ClosesHere(c: Cluster, ivs: seq<Interval>, commits: seq<Commit>, lo: nat, k: nat)
    requires Ordered(ivs, commits) && Spans(c, ivs, lo, k)
    requires forall j :: 0 <= j < lo ==> ivs[j].to < c.from
    requires k < |ivs| ==> c.to < ivs[k].from
    ensures Closed(c, ivs, lo, k)
    ensures NextStart(ivs, k, c, if k < |ivs| then ivs[k].from else c.to + 1)
    ensures k < |ivs| ==> forall j :: 0 <= j < k ==> ivs[j].to < ivs[k].from
  {
    forall j | k <= j < |ivs| ensures ivs[k].from <= ivs[j].from {}
  }

  lemma PastTheEnd(
      c: Cluster, ivs: seq<Interval>, commits: seq<Commit>, lo: nat, f: int, t: int)
    requires ListsRuns(ivs, commits) && Spans(c, ivs, lo, |ivs|) && Closed(c, ivs, lo, |ivs|)
    requires IsComponent(commits, f, t)
    ensures f < c.to + 1
  {
    var j := StartsWithAListed(ivs, commits, f, t);
  }

  // All the sessions, oldest first.
  ghost predicate AllFound(out: seq<WorkSession>, commits: seq<Commit>, names: map<Repo, string>) {
    && (forall s {:trigger Session(s, commits, names)} :: s in out ==> Session(s, commits, names))
    && (forall i, j :: 0 <= i < j < |out| ==> out[i].to < out[j].from)
    && (forall f, t {:trigger Found(out, f, t)} ::
          IsComponent(commits, f, t) && LongEnough(f, t) ==> Found(out, f, t))
  }

  // The cluster takes in one more interval.
  method Join(c: Cluster, iv: Interval) returns (d: Cluster)
    ensures d == Joined(c, iv)
  {
    d := c;
    if iv.to > d.to { d := d.(to := iv.to); }
    if iv.repo !in d.repos { d := d.(repos := d.repos + [iv.repo]); }
    d := d.(count := d.count + iv.count);
  }

  // The state of the pass after `k` intervals, with the current cluster begun at `lo`.
  ghost predicate Merging(
      out: seq<WorkSession>, c: Cluster, ivs: seq<Interval>, commits: seq<Commit>,
      names: map<Repo, string>, lo: nat, k: nat)
  {
    && Growing(c, ivs, commits, lo, k)
    && (forall j :: 0 <= j < lo ==> ivs[j].to < c.from)
    && Emitted(out, commits, names, c.from)
  }

  lemma MergesFirst(ivs: seq<Interval>, commits: seq<Commit>, names: map<Repo, string>)
    requires Ordered(ivs, commits) && ivs != []
    ensures Merging([], Alone(ivs[0]), ivs, commits, names, 0, 1)
  {
    NothingBefore(ivs, commits, names);
    StartsAlone(ivs, commits, 0);
  }

  lemma MergesInto(
      out: seq<WorkSession>, c: Cluster, ivs: seq<Interval>, commits: seq<Commit>,
      names: map<Repo, string>, lo: nat, k: nat)
    requires Ordered(ivs, commits) && Merging(out, c, ivs, commits, names, lo, k)
    requires k < |ivs| && ivs[k].from <= c.to
    ensures Merging(out, Joined(c, ivs[k]), ivs, commits, names, lo, k + 1)
  {
    GrowsBy(c, ivs, commits, lo, k);
  }

  lemma MergesNext(
      out: seq<WorkSession>, c: Cluster, ivs: seq<Interval>, commits: seq<Commit>,
      names: map<Repo, string>, lo: nat, k: nat)
    requires Ordered(ivs, commits) && Merging(out, c, ivs, commits, names, lo, k)
    requires k < |ivs| && c.to < ivs[k].from
    ensures Merging(Push(out, c, names), Alone(ivs[k]), ivs, commits, names, k, k + 1)
  {
    ClosesHere(c, ivs, commits, lo, k);
    EmitsOneMore(out, c, ivs, commits, lo, k, names, ivs[k].from);
    StartsAlone(ivs, commits, k);
  }

  lemma MergesLast(
      out: seq<WorkSession>, c: Cluster, ivs: seq<Interval>, commits: seq<Commit>,
      names: map<Repo, string>, lo: nat)
    requires Ordered(ivs, commits) && Merging(out, c, ivs, commits, names, lo, |ivs|)
    ensures AllFound(Push(out, c, names), commits, names)
  {
    ClosesHere(c, ivs, commits, lo, |ivs|);
    EmitsOneMore(out, c, ivs, commits, lo, |ivs|, names, c.to + 1);
    EndsBefore(c, ivs, commits, lo);
  }

  // One pass over the intervals by start, growing a cluster while they meet it.
  method Merge(ivs: seq<Interval>, ghost commits: seq<Commit>, names: map<Repo, string>)
      returns (out: seq<WorkSession>)
    requires Ordered(ivs, commits)
    ensures AllFound(out, commits, names)
  {
    out := [];
    var cur: Option<Cluster> := None;
    ghost var lo := 0;
    for k := 0 to |ivs|
      invariant k == 0 ==> cur.None? && out == []
      invariant k > 0 ==> cur.Some? && Merging(out, cur.value, ivs, commits, names, lo, k)
    {
      var iv := ivs[k];
      if cur.Some? && iv.from <= cur.value.to {
        MergesInto(out, cur.value, ivs, commits, names, lo, k);
        var c := Join(cur.value, iv);
        cur := Some(c);
      } else {
        if cur.Some? {
          MergesNext(out, cur.value, ivs, commits, names, lo, k);
          out := PushSession(out, cur.value, names);
        } else {
          MergesFirst(ivs, commits, names);
        }
        lo := k;
        cur := Some(Cluster(iv.from, iv.to, [iv.repo], iv.count));
      }
    }
    if cur.Some? {
      MergesLast(out, cur.value, ivs, commits, names, lo);
      out := PushSession(out, cur.value, names);
    } else {
      NoComponent(ivs, commits);
    }
  }

  lemma EndsBefore(c: Cluster, ivs: seq<Interval>, commits: seq<Commit>, lo: nat)
    requires ListsRuns(ivs, commits) && Spans(c, ivs, lo, |ivs|) && Closed(c, ivs, lo, |ivs|)
    ensures forall f, t :: IsComponent(commits, f, t) ==> f < c.to + 1
  {
    forall f, t | IsComponent(commits, f, t) ensures f < c.to + 1 { PastTheEnd(c, ivs, commits, lo, f, t); }
  }

  lemma NoComponent(ivs: seq<Interval>, commits: seq<Commit>)
    requires ListsRuns(ivs, commits)
    ensures ivs == [] ==> forall f, t :: !IsComponent(commits, f, t)
  {
    forall f, t | IsComponent(commits, f, t) ensures ivs != [] { var j := StartsWithAListed(ivs, commits, f, t); }
  }

  // ---------------------------------------------------------------- newest first

  lemma AllDistinct(out: seq<WorkSession>, commits: seq<Commit>, names: map<Repo, string>)
    requires AllFound(out, commits, names)
    ensures Once(out)
  {
    forall i, j | 0 <= i < j < |out| ensures out[i] != out[j] {
      assert Session(out[i], commits, names);
    }
    DistinctMeansOnce(out);
  }

  lemma StrictlyNewestFirst(
      out: seq<WorkSession>, commits: seq<Commit>, names: map<Repo, string>, s: seq<WorkSession>)
    requires AllFound(out, commits, names) && SortedBy(s, NewestFirst) && multiset(s) == multiset(out)
    ensures forall i, j :: 0 <= i < j < |s| ==> s[j].to < s[i].from
  {
    AllDistinct(out, commits, names);
    SameElements(s, out);
    forall i, j | 0 <= i < j < |s| ensures s[j].to < s[i].from {
      assert NewestFirst(s[i]) <= NewestFirst(s[j]);
      OnceMeansDistinct(s, i, j);
      LaterIsApart(out, commits, names, s[i], s[j]);
    }
  }

  lemma StillFound(out: seq<WorkSession>, s: seq<WorkSession>, f: int, t: int)
    requires Found(out, f, t) && multiset(s) == multiset(out)
    ensures exists i :: 0 <= i < |s| && s[i].from == f && s[i].to == t
  {
    var w :| w in out && w.from == f && w.to == t;
    SameElements(s, out);
    var i :| 0 <= i < |s| && s[i] == w;
  }

  lemma ReversedSessions(out: seq<WorkSession>, commits: seq<Commit>, names: map<Repo, string>)
    requires AllFound(out, commits, names)
    ensures AreSessions(SortBy(out, NewestFirst), commits, names)
  {
    var s := SortBy(out, NewestFirst);
    Sorts(out, NewestFirst);
    SameElements(s, out);
    StrictlyNewestFirst(out, commits, names, s);
    forall i | 0 <= i < |s| ensures Session(s[i], commits, names) { assert s[i] in out; }
    forall f, t | IsComponent(commits, f, t) && LongEnough(f, t)
      ensures exists i :: 0 <= i < |s| && s[i].from == f && s[i].to == t
    {
      assert Found(out, f, t);
      StillFound(out, s, f, t);
    }
  }

  lemma LaterIsApart(
      out: seq<WorkSession>, commits: seq<Commit>, names: map<Repo, string>, a: WorkSession, b: WorkSession)
    requires AllFound(out, commits, names) && a in out && b in out && a != b && b.from <= a.from
    ensures b.to < a.from
  {
    var i :| 0 <= i < |out| && out[i] == a;
    var j :| 0 <= j < |out| && out[j] == b;
    assert Session(a, commits, names);
    assert i < j ==> a.from <= a.to < b.from;
  }

  // The sessions of the commits.
  method Detect(commits: seq<Commit>, names: map<Repo, string>) returns (sessions: seq<WorkSession>)
    ensures AreSessions(sessions, commits, names)
  {
    var ivs := Runs(commits);
    SortedRuns(ivs, commits);
    ivs := SortBy(ivs, FromOf);
    var out := Merge(ivs, commits, names);
    ReversedSessions(out, commits, names);
    sessions := SortBy(out, NewestFirst);
  }
}
