// Counting commits in time buckets (crates/repomon-core/src/analytics.rs:13-28, 46-70). Instants
// are nanoseconds.
module Timeline {
  import opened Arithmetic
  import opened Counting

  type Repo = int

  datatype Commit = Commit(repo: Repo, time: int)

  // The half-open range and the width of a bucket in seconds.
  datatype Window = Window(from: int, to: int, bucketSecs: int)

  const SECOND := 1_000_000_000

  // Whole seconds of a span of time that is not negative.
  function Seconds(nanos: int): int
    requires nanos >= 0
  {
    nanos / SECOND
  }

  function Span(w: Window): nat { if w.to < w.from then 0 else Seconds(w.to - w.from) }

  function Bucket(w: Window): nat
    ensures Bucket(w) > 0
  {
    if w.bucketSecs < 1 then 1 else w.bucketSecs
  }

  // The number of buckets, at least one.
  function Buckets(w: Window): nat
    ensures Buckets(w) > 0
  {
    var n := (Span(w) + Bucket(w) - 1) / Bucket(w);
    if n < 1 then 1 else n
  }

  predicate InRange(w: Window, t: int) { w.from <= t < w.to }

  function IndexOf(w: Window, t: int): nat
    requires w.from <= t
  {
    Seconds(t - w.from) / Bucket(w)
  }

  // The commits of a repository that fall into bucket `i`.
  function InBucket(w: Window, r: Repo, i: nat): Commit -> bool {
    (c: Commit) => c.repo == r && InRange(w, c.time) && IndexOf(w, c.time) == i
  }

  function OfRepo(w: Window, r: Repo): Commit -> bool {
    (c: Commit) => c.repo == r && InRange(w, c.time)
  }

  // A commit in range for which there is no bucket.
  predicate Dropped(w: Window, t: int) { InRange(w, t) && IndexOf(w, t) >= Buckets(w) }

  function DroppedOf(w: Window, r: Repo): Commit -> bool {
    (c: Commit) => c.repo == r && Dropped(w, c.time)
  }

  // ---------------------------------------------------------------- counting

  // A repository has a row exactly when one of its commits is counted; its cells hold the number
  // of its commits in each bucket.
  ghost predicate Counted(counts: map<Repo, seq<nat>>, w: Window, commits: seq<Commit>) {
    forall r {:trigger RowOk(counts, w, commits, r)} :: RowOk(counts, w, commits, r)
  }

  ghost predicate RowOk(counts: map<Repo, seq<nat>>, w: Window, commits: seq<Commit>, r: Repo) {
    && (r in counts ==> |counts[r]| == Buckets(w))
    && (forall i: nat {:trigger InBucket(w, r, i)} :: i < Buckets(w) ==>
          Count(commits, InBucket(w, r, i)) == if r in counts then counts[r][i] else 0)
    && (r in counts <==> exists c :: c in commits && OfRepo(w, r)(c) && !Dropped(w, c.time))
  }

  function Add(counts: map<Repo, seq<nat>>, r: Repo, n: nat, i: nat): map<Repo, seq<nat>>
    requires i < n && (r in counts ==> |counts[r]| == n)
  {
    var row := if r in counts then counts[r] else seq(n, _ => 0);
    counts[r := row[i := row[i] + 1]]
  }

  lemma CountOne(commits: seq<Commit>, c: Commit, p: Commit -> bool)
    ensures Count(commits + [c], p) == Count(commits, p) + if p(c) then 1 else 0
  {
    CountAppend(commits, [c], p);
  }

  lemma RowMore(counts: map<Repo, seq<nat>>, w: Window, commits: seq<Commit>, c: Commit, r: Repo)
    requires RowOk(counts, w, commits, r) && RowOk(counts, w, commits, c.repo)
    ensures
      var more := if InRange(w, c.time) && !Dropped(w, c.time)
                  then Add(counts, c.repo, Buckets(w), IndexOf(w, c.time)) else counts;
      RowOk(more, w, commits + [c], r)
  {
    var all := commits + [c];
    forall i: nat {:trigger InBucket(w, r, i)} | i < Buckets(w)
      ensures Count(all, InBucket(w, r, i)) == Count(commits, InBucket(w, r, i)) + if InBucket(w, r, i)(c) then 1 else 0
    {
      CountOne(commits, c, InBucket(w, r, i));
    }
    assert forall x :: x in all <==> x in commits || x == c;
    assert c in all;
  }

  lemma CountedMore(counts: map<Repo, seq<nat>>, w: Window, commits: seq<Commit>, c: Commit)
    requires Counted(counts, w, commits)
    ensures c.repo in counts ==> |counts[c.repo]| == Buckets(w)
    ensures
      Counted(
        if InRange(w, c.time) && !Dropped(w, c.time)
        then Add(counts, c.repo, Buckets(w), IndexOf(w, c.time)) else counts, w, commits + [c])
  {
    assert RowOk(counts, w, commits, c.repo);
    var more := if InRange(w, c.time) && !Dropped(w, c.time)
                then Add(counts, c.repo, Buckets(w), IndexOf(w, c.time)) else counts;
    forall r {:trigger RowOk(more, w, commits + [c], r)} ensures RowOk(more, w, commits + [c], r) {
      assert RowOk(counts, w, commits, r);
      RowMore(counts, w, commits, c, r);
    }
  }

  method CountCommits(commits: seq<Commit>, w: Window) returns (counts: map<Repo, seq<nat>>)
    ensures Counted(counts, w, commits)
  {
    counts := map[];
    var buckets := Buckets(w);
    for k := 0 to |commits|
      invariant Counted(counts, w, commits[..k])
    {
      var c := commits[k];
      assert commits[..k + 1] == commits[..k] + [c];
      CountedMore(counts, w, commits[..k], c);
      if w.from <= c.time < w.to {
        var i := Seconds(c.time - w.from) / Bucket(w);
        if i < buckets {
          var row := if c.repo in counts then counts[c.repo] else seq(buckets, _ => 0);
          counts := counts[c.repo := row[i := row[i] + 1]];
        }
      }
    }
    assert commits[..|commits|] == commits;
  }

  // ---------------------------------------------------------------- conservation

  // A commit in range is dropped exactly when the range ends with a part of a second, its whole
  // seconds fill whole buckets, and the commit lies in that part.
  lemma DroppedExactly(w: Window, t: int)
    requires InRange(w, t)
    ensures
      Dropped(w, t)
      <==> Span(w) > 0 && Span(w) % Bucket(w) == 0 && Seconds(t - w.from) == Span(w)
  {
    var e, span, b := Seconds(t - w.from), Span(w), Bucket(w);
    assert e <= span;
    Ceiling(e, span, b);
  }

  // Division against the number of buckets.
  lemma Ceiling(e: nat, span: nat, b: nat)
    requires b > 0 && e <= span
    ensures
      var n := (span + b - 1) / b;
      e / b >= (if n < 1 then 1 else n) <==> span > 0 && span % b == 0 && e == span
  {
    var q, r := span / b, span % b;
    assert span == q * b + r;
    CeilingIs(q, r, b);
    if e < span {
      FloorBelow(e, span, b);
    }
  }

  lemma CeilingIs(q: nat, r: nat, b: nat)
    requires b > 0 && r < b
    ensures (q * b + r + b - 1) / b == if r == 0 then q else q + 1
  {
    if r == 0 { Quotient(q, b - 1, b); } else { Quotient(q + 1, r - 1, b); }
    assert (q + 1) * b == q * b + b;
  }

  lemma FloorBelow(e: nat, span: nat, b: nat)
    requires b > 0 && e < span
    ensures e / b <= span / b && (span % b == 0 ==> e / b < span / b)
  {
    var d, q := e / b, span / b;
    assert e == d * b + e % b && span == q * b + span % b;
    if q <= d { Mono(q, d, b); }
  }

  // Bucket `i` holds the seconds from `i` widths after the start up to the next.
  lemma BucketCovers(w: Window, t: int, i: nat)
    requires w.from <= t
    ensures
      IndexOf(w, t) == i <==>
      i * Bucket(w) <= Seconds(t - w.from) && Seconds(t - w.from) < i * Bucket(w) + Bucket(w)
  {
    var e, b := Seconds(t - w.from), Bucket(w);
    assert e == (e / b) * b + e % b;
    if i * b <= e < i * b + b { Quotient(i, e - i * b, b); }
  }

  // The commit of that repository lies in the half-open range and in the seconds of bucket `i`; a
  // bucket has at least one second.
  predicate LiesIn(w: Window, r: Repo, i: nat, c: Commit) {
    var bucket := if w.bucketSecs < 1 then 1 else w.bucketSecs;
    && c.repo == r && w.from <= c.time < w.to
    && w.from + i * bucket * 1_000_000_000 <= c.time < w.from + (i + 1) * bucket * 1_000_000_000
  }

  lemma BucketsAreSpans(w: Window, r: Repo, i: nat, c: Commit)
    ensures InBucket(w, r, i)(c) <==> LiesIn(w, r, i, c)
  {
    if w.from <= c.time {
      var b := Bucket(w);
      BucketCovers(w, c.time, i);
      assert (i + 1) * b == i * b + b;
      WholeSeconds(c.time - w.from, i * b);
      WholeSeconds(c.time - w.from, i * b + b);
    }
  }

  lemma WholeSeconds(nanos: nat, n: int)
    ensures n <= Seconds(nanos) <==> n * 1_000_000_000 <= nanos
  {}

  // There is one bucket, and one more for each that a whole second of the range is in.
  lemma BucketsCoverWholeSeconds(w: Window, i: nat)
    ensures
      var bucket := if w.bucketSecs < 1 then 1 else w.bucketSecs;
      i < Buckets(w) <==> i == 0 || w.from + (i * bucket + 1) * 1_000_000_000 <= w.to
  {
    var b := Bucket(w);
    FillsUpTo(Span(w), b, i);
    Mono(0, i, b);
    var n := i * b + 1;
    if w.from <= w.to { WholeSeconds(w.to - w.from, n); }
  }

  lemma FillsUpTo(span: nat, b: nat, i: nat)
    requires b > 0
    ensures i < (span + b - 1) / b <==> i * b + 1 <= span
  {
    assert (i + 1) * b == i * b + b;
    if i * b + 1 <= span { DivAtLeast(span + b - 1, i + 1, b); } else { DivBelow(span + b - 1, i + 1, b); }
  }

  // In whole seconds nothing in range is dropped.
  lemma WholeSecondsDropNothing(w: Window, t: int)
    requires InRange(w, t) && (w.to - w.from) % SECOND == 0
    ensures IndexOf(w, t) < Buckets(w)
  {
    DroppedExactly(w, t);
  }

  function UpTo(w: Window, r: Repo, n: nat): Commit -> bool {
    (c: Commit) => c.repo == r && InRange(w, c.time) && IndexOf(w, c.time) < n
  }

  function Sum(row: seq<nat>): nat { if row == [] then 0 else Sum(row[..|row| - 1]) + row[|row| - 1] }

  lemma {:induction false} SumIsCount(row: seq<nat>, w: Window, commits: seq<Commit>, r: Repo, n: nat)
    requires n <= |row|
    requires forall i: nat {:trigger InBucket(w, r, i)} :: i < n ==> row[i] == Count(commits, InBucket(w, r, i))
    ensures Sum(row[..n]) == Count(commits, UpTo(w, r, n))
  {
    if n == 0 {
      CountNone(commits, UpTo(w, r, 0));
    } else {
      SumIsCount(row, w, commits, r, n - 1);
      assert row[..n][..n - 1] == row[..n - 1];
      assert row[n - 1] == Count(commits, InBucket(w, r, n - 1));
      CountSplit(commits, UpTo(w, r, n - 1), InBucket(w, r, n - 1), UpTo(w, r, n));
    }
  }

  // A repository's cells add up to its commits in range less those that are dropped.
  lemma CountsAreConserved(counts: map<Repo, seq<nat>>, w: Window, commits: seq<Commit>, r: Repo)
    requires Counted(counts, w, commits) && r in counts
    ensures Sum(counts[r]) + Count(commits, DroppedOf(w, r)) == Count(commits, OfRepo(w, r))
  {
    assert RowOk(counts, w, commits, r);
    var row, n := counts[r], Buckets(w);
    SumIsCount(row, w, commits, r, n);
    assert row[..n] == row;
    CountSplit(commits, UpTo(w, r, n), DroppedOf(w, r), OfRepo(w, r));
  }

  // A repository's cells add up to all its commits in range exactly when none of them is dropped.
  lemma NothingIsLostExactly(counts: map<Repo, seq<nat>>, w: Window, commits: seq<Commit>, r: Repo)
    requires Counted(counts, w, commits) && r in counts
    ensures Sum(counts[r]) == Count(commits, OfRepo(w, r)) <==>
            forall c :: c in commits && c.repo == r ==> !Dropped(w, c.time)
  {
    CountsAreConserved(counts, w, commits, r);
    if forall c :: c in commits && c.repo == r ==> !Dropped(w, c.time) {
      CountNone(commits, DroppedOf(w, r));
    } else {
      var c :| c in commits && c.repo == r && Dropped(w, c.time);
      var i :| 0 <= i < |commits| && commits[i] == c;
      CountWithout(commits, i, DroppedOf(w, r));
    }
  }

  // ---------------------------------------------------------------- density

  function DensityLevel(count: nat): nat {
    if count == 0 then 0
    else if count == 1 then 1
    else if count <= 3 then 2
    else if count <= 7 then 3
    else if count <= 15 then 4
    else 5
  }

  function PowerOfTwo(n: nat): nat { if n == 0 then 1 else 2 * PowerOfTwo(n - 1) }

  // A level below the top is the number of binary digits of the count; the top is all the rest.
  lemma LevelIsBinaryDigits(count: nat)
    ensures
      var l := DensityLevel(count);
      && l <= 5
      && (0 < l ==> PowerOfTwo(l - 1) <= count)
      && (l < 5 ==> count < PowerOfTwo(l))
  {
    assert PowerOfTwo(0) == 1 && PowerOfTwo(1) == 2 && PowerOfTwo(2) == 4;
    assert PowerOfTwo(3) == 8 && PowerOfTwo(4) == 16;
  }
}
