// What the detected sessions owe to nothing but the commits (crates/repomon-core/src/session.rs:28-119).
module SessionTheorems {
  import opened Counting
  import opened Sorting
  import opened Sessions

  lemma SameRun(a: seq<Commit>, b: seq<Commit>, r: Repo, f: int, t: int)
    requires (forall c :: c in a <==> c in b) && IsRun(a, r, f, t)
    ensures IsRun(b, r, f, t)
  {
    forall u {:trigger GoesOn(b, r, u)} | Commit(r, u) in b && f <= u < t ensures GoesOn(b, r, u) {
      assert GoesOn(a, r, u);
    }
  }

  lemma SameBridge(a: seq<Commit>, b: seq<Commit>, x: int)
    requires (forall c :: c in a <==> c in b) && Bridged(a, x)
    ensures Bridged(b, x)
  {
    var r, f, t :| IsRun(a, r, f, t) && f <= x < t;
    SameRun(a, b, r, f, t);
  }

  // Being a component depends on which commits there are, not on their order or number.
  lemma SameComponent(a: seq<Commit>, b: seq<Commit>, from: int, to: int)
    requires (forall c :: c in a <==> c in b) && IsComponent(a, from, to)
    ensures IsComponent(b, from, to)
  {
    var r1, t1 :| IsRun(a, r1, from, t1);
    SameRun(a, b, r1, from, t1);
    var r2, f2 :| IsRun(a, r2, f2, to);
    SameRun(a, b, r2, f2, to);
    forall r, f, t | IsRun(b, r, f, t) ensures t < from || to < f || (from <= f && t <= to) {
      SameRun(b, a, r, f, t);
    }
    forall x | from <= x < to ensures Bridged(b, x) {
      assert Bridged(a, x);
      SameBridge(a, b, x);
    }
  }

  // Two strictly descending lists of disjoint spans that contain the same spans are the same.
  ghost predicate Descending(s: seq<WorkSession>) {
    && (forall i :: 0 <= i < |s| ==> s[i].from <= s[i].to)
    && (forall i, j :: 0 <= i < j < |s| ==> s[j].to < s[i].from)
  }

  ghost predicate SpansOf(a: seq<WorkSession>, b: seq<WorkSession>) {
    forall i {:trigger HasSpan(b, a[i].from, a[i].to)} :: 0 <= i < |a| ==> HasSpan(b, a[i].from, a[i].to)
  }

  ghost predicate HasSpan(s: seq<WorkSession>, f: int, t: int) {
    exists i :: 0 <= i < |s| && s[i].from == f && s[i].to == t
  }

  lemma SpanIn(b: seq<WorkSession>, a: seq<WorkSession>, i: nat) returns (k: nat)
    requires SpansOf(b, a) && i < |b|
    ensures k < |a| && a[k].from == b[i].from && a[k].to == b[i].to
  {
    assert HasSpan(a, b[i].from, b[i].to);
    k :| 0 <= k < |a| && a[k].from == b[i].from && a[k].to == b[i].to;
  }

  lemma SameSpanAt(a: seq<WorkSession>, b: seq<WorkSession>, i: nat)
    requires Descending(a) && Descending(b) && SpansOf(a, b) && SpansOf(b, a) && i < |a| && i < |b|
    requires forall h :: 0 <= h < i ==> a[h].from == b[h].from
    ensures a[i].from == b[i].from && a[i].to == b[i].to
  {
    var j := SpanIn(a, b, i);
    var k := SpanIn(b, a, i);
    assert i <= j && i <= k;
  }

  lemma NotLonger(a: seq<WorkSession>, b: seq<WorkSession>)
    requires Descending(b) && SpansOf(b, a)
    requires forall i :: 0 <= i < |a| && i < |b| ==> a[i].from == b[i].from
    ensures |b| <= |a|
  {
    if |a| < |b| { var k := SpanIn(b, a, |a|); }
  }

  lemma {:induction false} SameSpansUpTo(a: seq<WorkSession>, b: seq<WorkSession>, n: nat)
    requires Descending(a) && Descending(b) && SpansOf(a, b) && SpansOf(b, a) && n <= |a| && n <= |b|
    ensures forall i :: 0 <= i < n ==> a[i].from == b[i].from && a[i].to == b[i].to
  {
    if n > 0 {
      SameSpansUpTo(a, b, n - 1);
      SameSpanAt(a, b, n - 1);
    }
  }

  lemma SameSpans(a: seq<WorkSession>, b: seq<WorkSession>)
    requires Descending(a) && Descending(b) && SpansOf(a, b) && SpansOf(b, a)
    ensures |a| == |b| && forall i :: 0 <= i < |a| ==> a[i].from == b[i].from && a[i].to == b[i].to
  {
    SameSpansUpTo(a, b, if |a| < |b| then |a| else |b|);
    NotLonger(a, b);
    NotLonger(b, a);
  }

  lemma SpansFound(
      x: seq<WorkSession>, y: seq<WorkSession>, a: seq<Commit>, b: seq<Commit>, names: map<Repo, string>)
    requires (forall c :: c in a <==> c in b) && AreSessions(x, a, names) && AreSessions(y, b, names)
    ensures SpansOf(x, y)
  {
    forall i | 0 <= i < |x| ensures HasSpan(y, x[i].from, x[i].to) {
      SameComponent(a, b, x[i].from, x[i].to);
    }
  }

  // Lists without repetition of the same elements are equally long.
  lemma {:induction false} SameLength(a: seq<Repo>, b: seq<Repo>)
    requires (forall i, j :: 0 <= i < j < |a| ==> a[i] != a[j])
    requires (forall i, j :: 0 <= i < j < |b| ==> b[i] != b[j])
    requires forall r :: r in a <==> r in b
    ensures |a| == |b|
  {
    DistinctMeansOnce(a);
    DistinctMeansOnce(b);
    assert forall r :: multiset(a)[r] == multiset(b)[r];
    assert multiset(a) == multiset(b);
    assert |a| == |multiset(a)| && |b| == |multiset(b)|;
  }

  // The same commits in any order, met by any order of the repositories, give the same
  // sessions, up to the order in which a session names its repositories.
  lemma OrderDoesNotMatter(
      a: seq<Commit>, b: seq<Commit>, names: map<Repo, string>, x: seq<WorkSession>, y: seq<WorkSession>)
    requires multiset(a) == multiset(b) && AreSessions(x, a, names) && AreSessions(y, b, names)
    ensures |x| == |y|
    ensures forall i :: 0 <= i < |x| ==>
              && x[i].from == y[i].from && x[i].to == y[i].to && x[i].kind == y[i].kind
              && x[i].commitCount == y[i].commitCount
              && (forall r :: r in x[i].repoIds <==> r in y[i].repoIds)
  {
    SameElements(a, b);
    SpansFound(x, y, a, b, names);
    SpansFound(y, x, b, a, names);
    SameSpans(x, y);
    forall i | 0 <= i < |x|
      ensures x[i].kind == y[i].kind && x[i].commitCount == y[i].commitCount
      ensures forall r :: r in x[i].repoIds <==> r in y[i].repoIds
    {
      SameDescription(x[i], y[i], a, b, names);
    }
  }

  lemma SameDescription(v: WorkSession, w: WorkSession, a: seq<Commit>, b: seq<Commit>, names: map<Repo, string>)
    requires multiset(a) == multiset(b) && (forall c :: c in a <==> c in b)
    requires Describes(v, a, names) && Describes(w, b, names) && v.from == w.from && v.to == w.to
    ensures v.kind == w.kind && v.commitCount == w.commitCount
    ensures forall r :: r in v.repoIds <==> r in w.repoIds
  {
    CountPermuted(a, b, Within(v.from, v.to));
    SameLength(v.repoIds, w.repoIds);
  }

  // A session starts and ends with a commit, lasts ten minutes and has two commits at least.
  lemma SessionsStartAndEndWithCommits(
      sessions: seq<WorkSession>, commits: seq<Commit>, names: map<Repo, string>, i: nat)
    requires AreSessions(sessions, commits, names) && i < |sessions|
    ensures exists r, q :: Commit(r, sessions[i].from) in commits && Commit(q, sessions[i].to) in commits
    ensures sessions[i].to - sessions[i].from >= 600_000_000_000
    ensures sessions[i].repoIds != [] && sessions[i].commitCount >= 2
  {
    var s := sessions[i];
    var r, t :| IsRun(commits, r, s.from, t);
    var q, f :| IsRun(commits, q, f, s.to);
    assert Commit(r, s.from) in commits && Commit(q, s.to) in commits;
    assert r in s.repoIds;
    AtLeastTwo(commits, Commit(r, s.from), Commit(q, s.to), Within(s.from, s.to));
  }

  // Two commits of different repositories within the session.
  ghost predicate HasTwoRepos(s: WorkSession, commits: seq<Commit>) {
    exists c, d :: c in commits && d in commits && c.repo != d.repo
                   && s.from <= c.time <= s.to && s.from <= d.time <= s.to
  }

  lemma TwoRepos(s: WorkSession, commits: seq<Commit>, names: map<Repo, string>)
    requires Describes(s, commits, names) && |s.repoIds| > 1
    ensures HasTwoRepos(s, commits)
  {
    var a, b := s.repoIds[0], s.repoIds[1];
    assert a in s.repoIds && b in s.repoIds;
    var t :| Commit(a, t) in commits && s.from <= t <= s.to;
    var u :| Commit(b, u) in commits && s.from <= u <= s.to;
    var c, d := Commit(a, t), Commit(b, u);
    assert c.repo != d.repo;
  }

  lemma OneRepo(s: WorkSession, commits: seq<Commit>, names: map<Repo, string>, c: Commit)
    requires Describes(s, commits, names) && c in commits && s.from <= c.time <= s.to
    ensures c.repo in s.repoIds
  {
    assert c == Commit(c.repo, c.time);
  }

  // A session is parallel exactly when it has commits of two repositories, and focused otherwise.
  lemma ParallelExactly(sessions: seq<WorkSession>, commits: seq<Commit>, names: map<Repo, string>, i: nat)
    requires AreSessions(sessions, commits, names) && i < |sessions|
    ensures sessions[i].kind == if HasTwoRepos(sessions[i], commits) then Parallel else Focused
  {
    KindTells(sessions[i], commits, names);
  }

  lemma KindTells(s: WorkSession, commits: seq<Commit>, names: map<Repo, string>)
    requires Describes(s, commits, names)
    ensures s.kind == if HasTwoRepos(s, commits) then Parallel else Focused
  {
    if |s.repoIds| > 1 { TwoRepos(s, commits, names); }
    if HasTwoRepos(s, commits) { NotAlone(s, commits, names); }
  }

  lemma NotAlone(s: WorkSession, commits: seq<Commit>, names: map<Repo, string>)
    requires Describes(s, commits, names) && HasTwoRepos(s, commits)
    ensures |s.repoIds| > 1
  {
    var c, d :| c in commits && d in commits && c.repo != d.repo
                && s.from <= c.time <= s.to && s.from <= d.time <= s.to;
    OneRepo(s, commits, names, c);
    OneRepo(s, commits, names, d);
  }

  lemma AtLeastTwo(commits: seq<Commit>, a: Commit, b: Commit, p: Commit -> bool)
    requires a in commits && b in commits && a != b && p(a) && p(b)
    ensures Count(commits, p) >= 2
  {
    var i :| 0 <= i < |commits| && commits[i] == a;
    CountWithout(commits, i, p);
    var rest := commits[..i] + commits[i + 1..];
    assert b in rest by {
      var j :| 0 <= j < |commits| && commits[j] == b;
      assert rest[if j < i then j else j - 1] == b;
    }
    var j :| 0 <= j < |rest| && rest[j] == b;
    CountWithout(rest, j, p);
  }
}
