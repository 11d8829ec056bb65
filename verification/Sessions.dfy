// Work sessions from commits (crates/repomon-core/src/session.rs). Times are nanoseconds.
module Sessions {
  import opened Counting

  type Repo = int

  datatype Commit = Commit(repo: Repo, time: int)

  datatype Interval = Interval(repo: Repo, from: int, to: int, count: nat)

  datatype Cluster = Cluster(from: int, to: int, repos: seq<Repo>, count: nat)

  datatype Kind = Focused | Parallel

  datatype WorkSession = WorkSession(
    from: int, to: int, kind: Kind, repoIds: seq<Repo>, repoNames: seq<string>, commitCount: nat)

  const MINUTE := 60_000_000_000
  const GAP_MINUTES := 30
  const MIN_SESSION_MINUTES := 10

  // Whole minutes, rounded towards zero.
  function NumMinutes(nanos: int): int {
    if nanos >= 0 then nanos / MINUTE else -((-nanos) / MINUTE)
  }

  // A gap that ends a run: 31 minutes or more.
  predicate Splits(gap: int) { gap >= 1_860_000_000_000 }

  // Ten minutes or more.
  predicate LongEnough(from: int, to: int) { to - from >= 600_000_000_000 }

  // What the source compares, the whole minutes, decides both.
  lemma WholeMinutesDecide(nanos: int)
    ensures NumMinutes(nanos) > GAP_MINUTES <==> Splits(nanos)
    ensures NumMinutes(nanos) < MIN_SESSION_MINUTES <==> !LongEnough(0, nanos)
  {}

  // ---------------------------------------------------------------- what a session is

  // The repository has a commit after `t` with no splitting gap in between.
  ghost predicate GoesOn(commits: seq<Commit>, r: Repo, t: int) {
    exists u :: Commit(r, u) in commits && t < u && !Splits(u - t)
  }

  // [from, to] spans a run of repository `r`: from one of its commits to another with no
  // splitting gap in between, and a splitting gap (or nothing) on either side.
  ghost predicate IsRun(commits: seq<Commit>, r: Repo, from: int, to: int) {
    && from <= to && Commit(r, from) in commits && Commit(r, to) in commits
    && (forall t {:trigger GoesOn(commits, r, t)} ::
          Commit(r, t) in commits && from <= t < to ==> GoesOn(commits, r, t))
    && (forall t :: Commit(r, t) in commits && t < from ==> Splits(from - t))
    && (forall t :: Commit(r, t) in commits && to < t ==> Splits(t - to))
  }

  // Some run covers both sides of the instant after `x`.
  ghost predicate Bridged(commits: seq<Commit>, x: int) {
    exists r, f, t :: IsRun(commits, r, f, t) && f <= x < t
  }

  // [from, to] is a connected component of the runs: it starts and ends with a run, every run
  // is inside it or apart from it, and it cannot be cut in two.
  ghost predicate IsComponent(commits: seq<Commit>, from: int, to: int) {
    && from <= to
    && (exists r, t :: IsRun(commits, r, from, t))
    && (exists r, f :: IsRun(commits, r, f, to))
    && (forall r, f, t :: IsRun(commits, r, f, t) ==> t < from || to < f || (from <= f && t <= to))
    && (forall x :: from <= x < to ==> Bridged(commits, x))
  }

  function Within(from: int, to: int): Commit -> bool {
    (c: Commit) => from <= c.time <= to
  }

  // The number of commits whose time lies in [from, to].
  function CountIn(commits: seq<Commit>, from: int, to: int): nat {
    Count(commits, Within(from, to))
  }

  // `a` has a commit in the session that is no later than any of `b`.
  ghost predicate IsFirst(s: WorkSession, commits: seq<Commit>, a: Repo, b: Repo) {
    exists t :: Commit(a, t) in commits && s.from <= t <= s.to
                && forall u :: Commit(b, u) in commits && s.from <= u <= s.to ==> t <= u
  }

  ghost predicate Describes(s: WorkSession, commits: seq<Commit>, names: map<Repo, string>) {
    && s.commitCount == CountIn(commits, s.from, s.to)
    && (forall r :: r in s.repoIds <==> exists t :: Commit(r, t) in commits && s.from <= t <= s.to)
    && (forall i, j :: 0 <= i < j < |s.repoIds| ==> s.repoIds[i] != s.repoIds[j])
    && (forall i, j :: 0 <= i < j < |s.repoIds| ==> IsFirst(s, commits, s.repoIds[i], s.repoIds[j]))
    && s.kind == (if |s.repoIds| > 1 then Parallel else Focused)
    && |s.repoNames| == |s.repoIds|
    && (forall i :: 0 <= i < |s.repoIds| ==>
          s.repoNames[i] == if s.repoIds[i] in names then names[s.repoIds[i]] else "")
  }

  // The sessions of the commits: exactly the components that are long enough, strictly newest
  // first, each with its commits and repositories.
  ghost predicate AreSessions(sessions: seq<WorkSession>, commits: seq<Commit>, names: map<Repo, string>) {
    && (forall i :: 0 <= i < |sessions| ==>
          && IsComponent(commits, sessions[i].from, sessions[i].to)
          && LongEnough(sessions[i].from, sessions[i].to)
          && Describes(sessions[i], commits, names))
    && (forall i, j :: 0 <= i < j < |sessions| ==> sessions[j].to < sessions[i].from)
    && (forall f, t :: IsComponent(commits, f, t) && LongEnough(f, t) ==>
          exists i :: 0 <= i < |sessions| && sessions[i].from == f && sessions[i].to == t)
  }

  // ---------------------------------------------------------------- components

  lemma Bridge(commits: seq<Commit>, from: int, to: int, x: int)
    requires IsComponent(commits, from, to) && from <= x < to
    ensures Bridged(commits, x)
  {}

  // A component cannot reach past the ends of another that it meets.
  lemma NotBeyond(commits: seq<Commit>, a1: int, a2: int, b1: int, b2: int)
    requires IsComponent(commits, a1, a2) && IsComponent(commits, b1, b2)
    requires a1 <= b2 && b1 <= a2
    ensures b2 <= a2 && a1 <= b1
  {
    if a2 < b2 { Bridge(commits, b1, b2, a2); }
    if b1 < a1 { Bridge(commits, b1, b2, a1 - 1); }
  }

  lemma ComponentsMeetOnlyIfEqual(commits: seq<Commit>, a1: int, a2: int, b1: int, b2: int)
    requires IsComponent(commits, a1, a2) && IsComponent(commits, b1, b2)
    requires a1 <= b2 && b1 <= a2
    ensures a1 == b1 && a2 == b2
  {
    NotBeyond(commits, a1, a2, b1, b2);
    NotBeyond(commits, b1, b2, a1, a2);
  }

  // ---------------------------------------------------------------- runs

  function Covers(iv: Interval): Commit -> bool {
    (c: Commit) => c.repo == iv.repo && iv.from <= c.time <= iv.to
  }

  // An interval that spans a run and has its number of commits.
  ghost predicate Measured(iv: Interval, commits: seq<Commit>) {
    && IsRun(commits, iv.repo, iv.from, iv.to)
    && iv.count == Count(commits, Covers(iv))
  }

  ghost predicate Covered(ivs: seq<Interval>, c: Commit) {
    exists iv :: iv in ivs && Covers(iv)(c)
  }

  // `ivs` lists the runs of the commits, each once and with its number of commits.
  ghost predicate ListsRuns(ivs: seq<Interval>, commits: seq<Commit>) {
    && (forall iv :: iv in ivs ==> Measured(iv, commits))
    && Once(ivs)
    && (forall c {:trigger Covered(ivs, c)} :: c in commits ==> Covered(ivs, c))
  }

  // Two runs of a repository that share an instant are the same run.
  lemma RunsMeetOnlyIfEqual(commits: seq<Commit>, r: Repo, a1: int, a2: int, b1: int, b2: int)
    requires IsRun(commits, r, a1, a2) && IsRun(commits, r, b1, b2)
    requires a1 <= b2 && b1 <= a2
    ensures a1 == b1 && a2 == b2
  {
    RunNotBeyond(commits, r, a1, a2, b1, b2);
    RunNotBeyond(commits, r, b1, b2, a1, a2);
  }

  lemma RunNotBeyond(commits: seq<Commit>, r: Repo, a1: int, a2: int, b1: int, b2: int)
    requires IsRun(commits, r, a1, a2) && IsRun(commits, r, b1, b2)
    requires a1 <= b2 && b1 <= a2
    ensures b2 <= a2 && a1 <= b1
  {
    if a2 < b2 { NextInRun(commits, r, b1, b2, a2); }
    if b1 < a1 { ShortlyBefore(commits, r, b1, b2, a1); }
  }

  lemma NextInRun(commits: seq<Commit>, r: Repo, from: int, to: int, t: int)
    requires IsRun(commits, r, from, to) && Commit(r, t) in commits && from <= t < to
    ensures exists u :: Commit(r, u) in commits && t < u && !Splits(u - t)
  {
    assert GoesOn(commits, r, t);
  }

  // Walking a run from its start one meets a commit shortly before any later instant of it.
  lemma ShortlyBefore(commits: seq<Commit>, r: Repo, from: int, to: int, t: int)
    requires IsRun(commits, r, from, to) && from < t <= to
    ensures exists u :: Commit(r, u) in commits && u < t && !Splits(t - u)
  {
    var at := from;
    while Splits(t - at)
      invariant Commit(r, at) in commits && from <= at < t
      decreases t - at
    {
      assert GoesOn(commits, r, at);
      var next :| Commit(r, next) in commits && at < next && !Splits(next - at);
      at := next;
    }
  }

  // A list of runs that covers every commit has them all.
  lemma ListIsComplete(ivs: seq<Interval>, commits: seq<Commit>, r: Repo, f: int, t: int)
    requires ListsRuns(ivs, commits) && IsRun(commits, r, f, t)
    ensures exists iv :: iv in ivs && iv.repo == r && iv.from == f && iv.to == t
  {
    assert Covered(ivs, Commit(r, f));
    var iv :| iv in ivs && Covers(iv)(Commit(r, f));
    assert Measured(iv, commits);
    RunsMeetOnlyIfEqual(commits, r, f, t, iv.from, iv.to);
  }

  // Two different intervals of a list have no commit in common.
  lemma ListedApart(ivs: seq<Interval>, commits: seq<Commit>, i: nat, j: nat, c: Commit)
    requires ListsRuns(ivs, commits) && i < |ivs| && j < |ivs| && i != j
    ensures !(Covers(ivs[i])(c) && Covers(ivs[j])(c))
  {
    var a, b := ivs[i], ivs[j];
    OnceMeansDistinct(ivs, i, j);
    assert Measured(a, commits) && Measured(b, commits);
    if Covers(a)(c) && Covers(b)(c) { RunsMeetOnlyIfEqual(commits, a.repo, a.from, a.to, b.from, b.to); }
  }
}
