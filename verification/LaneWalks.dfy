// Which positions one listing walks (crates/repomon-core/src/lane.rs:216-252).
module LaneWalks {
  import opened Sorting
  import opened LaneCache

  // ---------------------------------------------------------------- the lists of positions

  lemma {:induction false} InMustWalk(c: Cache, paths: seq<Path>, now: int, n: nat, i: nat)
    requires n <= |paths|
    ensures i in MustWalk(c, paths, now, n) <==> i < n && Must(c, paths[i], now)
  {
    if n > 0 { InMustWalk(c, paths, now, n - 1, i); }
  }

  lemma {:induction false} InOlds(c: Cache, paths: seq<Path>, now: int, n: nat, o: Old)
    requires n <= |paths|
    ensures
      o in Olds(c, paths, now, n)
      <==> o.index < n && Stale(c, paths[o.index], now) && o.at == c[paths[o.index]].walkedAt
  {
    if n > 0 { InOlds(c, paths, now, n - 1, o); }
  }

  // By position, each once.
  ghost predicate Rising(os: seq<Old>) {
    forall i, j :: 0 <= i < j < |os| ==> os[i].index < os[j].index
  }

  lemma {:induction false} OldsRise(c: Cache, paths: seq<Path>, now: int, n: nat)
    requires n <= |paths|
    ensures Rising(Olds(c, paths, now, n))
  {
    if n > 0 {
      OldsRise(c, paths, now, n - 1);
      var before := Olds(c, paths, now, n - 1);
      forall i | 0 <= i < |before| ensures before[i].index < n - 1 {
        InOlds(c, paths, now, n - 1, before[i]);
      }
    }
  }

  // Walked longer ago, or at the same time and listed before.
  predicate Ahead(a: Old, b: Old) { a.at < b.at || (a.at == b.at && a.index < b.index) }

  ghost predicate InOrder(os: seq<Old>) {
    forall i, j :: 0 <= i < j < |os| ==> Ahead(os[i], os[j])
  }

  lemma ByAt(a: Old, b: Old)
    ensures ByKey(AtOf)(a, b) <==> a.at <= b.at
  {
    assert AtOf(a) == a.at && AtOf(b) == b.at;
  }

  lemma {:induction false} InsertInOrder(x: Old, os: seq<Old>)
    requires InOrder(os) && forall i :: 0 <= i < |os| ==> x.index < os[i].index
    ensures InOrder(Insert(x, os, ByKey(AtOf)))
  {
    var le := ByKey(AtOf);
    if os != [] { ByAt(x, os[0]); }
    if os != [] && !le(x, os[0]) {
      var rest := Insert(x, os[1..], ByKey(AtOf));
      InsertInOrder(x, os[1..]);
      InsertKeeps(x, os[1..], ByKey(AtOf));
      forall i | 0 <= i < |rest| ensures Ahead(os[0], rest[i]) {
        assert rest[i] in multiset(rest);
        assert rest[i] == x || rest[i] in os[1..];
      }
    }
  }

  // The sort is stable: positions walked at the same time stay in the order of the listing.
  lemma {:induction false} SortedInOrder(os: seq<Old>)
    requires Rising(os)
    ensures InOrder(SortBy(os, AtOf))
  {
    if os != [] {
      var rest := SortBy(os[1..], AtOf);
      SortedInOrder(os[1..]);
      Sorts(os[1..], AtOf);
      SameElements(rest, os[1..]);
      forall i | 0 <= i < |rest| ensures os[0].index < rest[i].index { assert rest[i] in os[1..]; }
      InsertInOrder(os[0], rest);
    }
  }

  function Queue(c: Cache, paths: seq<Path>, now: int): seq<Old> {
    SortBy(Olds(c, paths, now, |paths|), AtOf)
  }

  lemma QueueIs(c: Cache, paths: seq<Path>, now: int)
    ensures InOrder(Queue(c, paths, now))
    ensures forall o :: o in Queue(c, paths, now) <==> o in Olds(c, paths, now, |paths|)
  {
    var os := Olds(c, paths, now, |paths|);
    OldsRise(c, paths, now, |paths|);
    SortedInOrder(os);
    Sorts(os, AtOf);
    SameElements(SortBy(os, AtOf), os);
  }

  // ---------------------------------------------------------------- exactly what is walked

  function OldAt(c: Cache, paths: seq<Path>, i: nat): Old
    requires i < |paths| && paths[i] in c
  {
    Old(i, c[paths[i]].walkedAt)
  }

  // Two other positions that may be shown from the cache go first.
  ghost predicate TwoAhead(c: Cache, paths: seq<Path>, now: int, i: nat)
    requires i < |paths| && paths[i] in c
  {
    exists j: nat, k: nat ::
      && j < k < |paths| && Stale(c, paths[j], now) && Stale(c, paths[k], now)
      && Ahead(OldAt(c, paths, j), OldAt(c, paths, i)) && Ahead(OldAt(c, paths, k), OldAt(c, paths, i))
  }

  lemma PositionInQueue(q: seq<Old>, o: Old) returns (k: nat)
    requires o in q
    ensures k < |q| && q[k] == o
  {
    k :| 0 <= k < |q| && q[k] == o;
  }

  lemma InFirstTwo(q: seq<Old>, i: nat)
    ensures i in Indices(FirstTwo(q)) <==> exists k :: 0 <= k < |q| && k < WALK_CAP && q[k].index == i
  {
    var f := FirstTwo(q);
    if i in Indices(f) {
      var k :| 0 <= k < |f| && Indices(f)[k] == i;
      assert q[k].index == i;
    }
    if k :| 0 <= k < |q| && k < WALK_CAP && q[k].index == i {
      assert Indices(f)[k] == i;
    }
  }

  lemma QueuedAt(c: Cache, paths: seq<Path>, now: int, k: nat)
    requires k < |Queue(c, paths, now)|
    ensures
      var o := Queue(c, paths, now)[k];
      o.index < |paths| && Stale(c, paths[o.index], now) && o == OldAt(c, paths, o.index)
  {
    QueueIs(c, paths, now);
    var o := Queue(c, paths, now)[k];
    assert o in Queue(c, paths, now);
    InOlds(c, paths, now, |paths|, o);
  }

  lemma QueuePlace(c: Cache, paths: seq<Path>, now: int, i: nat) returns (k: nat)
    requires i < |paths| && Stale(c, paths[i], now)
    ensures k < |Queue(c, paths, now)| && Queue(c, paths, now)[k] == OldAt(c, paths, i)
  {
    QueueIs(c, paths, now);
    InOlds(c, paths, now, |paths|, OldAt(c, paths, i));
    k := PositionInQueue(Queue(c, paths, now), OldAt(c, paths, i));
  }

  lemma LateHasTwoAhead(c: Cache, paths: seq<Path>, now: int, i: nat, k: nat)
    requires i < |paths| && Stale(c, paths[i], now) && k < |Queue(c, paths, now)|
    requires Queue(c, paths, now)[k] == OldAt(c, paths, i) && k >= 2
    ensures TwoAhead(c, paths, now, i)
  {
    var q := Queue(c, paths, now);
    QueueIs(c, paths, now);
    QueuedAt(c, paths, now, 0);
    QueuedAt(c, paths, now, 1);
    var a, b := q[0].index, q[1].index;
    assert Ahead(q[0], q[1]) && Ahead(q[0], q[k]) && Ahead(q[1], q[k]);
    assert a != b;
    assert if a < b then Stale(c, paths[a], now) else Stale(c, paths[b], now);
  }

  lemma AheadIsEarlier(q: seq<Old>, h: nat, k: nat)
    requires InOrder(q) && h < |q| && k < |q| && Ahead(q[h], q[k])
    ensures h < k
  {
    assert !Ahead(q[k], q[h]);
  }

  lemma SamePlace(q: seq<Old>, k: nat, h: nat)
    requires InOrder(q) && k < |q| && h < |q| && q[k] == q[h]
    ensures k == h
  {
    assert !Ahead(q[k], q[h]) && !Ahead(q[h], q[k]);
  }

  lemma EarlyHasNotTwoAhead(c: Cache, paths: seq<Path>, now: int, i: nat, k: nat)
    requires i < |paths| && Stale(c, paths[i], now) && k < |Queue(c, paths, now)|
    requires Queue(c, paths, now)[k] == OldAt(c, paths, i) && k < 2
    ensures !TwoAhead(c, paths, now, i)
  {
    var q := Queue(c, paths, now);
    QueueIs(c, paths, now);
    forall a: nat | a < |paths| && Stale(c, paths[a], now) && Ahead(OldAt(c, paths, a), OldAt(c, paths, i))
      ensures k == 1 && q[0].index == a
    {
      var h := QueuePlace(c, paths, now, a);
      AheadIsEarlier(q, h, k);
    }
  }

  // Never walked, or flagged and not walked in the last two and a half seconds.
  predicate WalksAtOnce(c: Cache, p: Path, now: int) {
    p !in c || (c[p].dirty && now - c[p].walkedAt >= 2_500)
  }

  // Flagged and just walked, or not walked for three minutes: shown from the cache, but next in line.
  predicate WaitsInLine(c: Cache, p: Path, now: int) {
    && p in c && !WalksAtOnce(c, p, now)
    && (c[p].dirty || now - c[p].walkedAt >= 180_000)
  }

  // Walked longer ago, or as long ago and listed before.
  predicate LongerAgo(c: Cache, paths: seq<Path>, j: nat, i: nat)
    requires j < |paths| && i < |paths| && paths[j] in c && paths[i] in c
  {
    var a, b := c[paths[j]].walkedAt, c[paths[i]].walkedAt;
    a < b || (a == b && j < i)
  }

  // Next in line, and before `i`.
  predicate GoesFirst(c: Cache, paths: seq<Path>, now: int, j: nat, i: nat)
    requires i < |paths| && paths[i] in c
  {
    j < |paths| && WaitsInLine(c, paths[j], now) && LongerAgo(c, paths, j, i)
  }

  ghost predicate TwoGoFirst(c: Cache, paths: seq<Path>, now: int, i: nat)
    requires i < |paths| && paths[i] in c
  {
    exists j: nat, k: nat :: j < k && GoesFirst(c, paths, now, j, i) && GoesFirst(c, paths, now, k, i)
  }

  // A listing walks exactly what is to be walked at once, and of those in line the first two.
  lemma ListingWalksExactly(c: Cache, paths: seq<Path>, now: int, i: nat)
    requires i < |paths|
    ensures
      i in Walk(c, paths, now)
      <==> WalksAtOnce(c, paths[i], now)
           || (WaitsInLine(c, paths[i], now) && !TwoGoFirst(c, paths, now, i))
  {
    WalkedExactly(c, paths, now, i);
    forall p ensures Must(c, p, now) <==> WalksAtOnce(c, p, now) {}
    forall p ensures Stale(c, p, now) <==> WaitsInLine(c, p, now) {}
    if paths[i] in c { SameTwoGoFirst(c, paths, now, i); }
  }

  lemma SameTwoGoFirst(c: Cache, paths: seq<Path>, now: int, i: nat)
    requires i < |paths| && paths[i] in c
    ensures TwoAhead(c, paths, now, i) <==> TwoGoFirst(c, paths, now, i)
  {
    forall j: nat
      ensures GoesFirst(c, paths, now, j, i)
              <==> j < |paths| && Stale(c, paths[j], now) && Ahead(OldAt(c, paths, j), OldAt(c, paths, i)) {}
    if TwoAhead(c, paths, now, i) {
      var j: nat, k: nat :|
        && j < k < |paths| && Stale(c, paths[j], now) && Stale(c, paths[k], now)
        && Ahead(OldAt(c, paths, j), OldAt(c, paths, i)) && Ahead(OldAt(c, paths, k), OldAt(c, paths, i));
      assert GoesFirst(c, paths, now, j, i) && GoesFirst(c, paths, now, k, i);
    }
    if TwoGoFirst(c, paths, now, i) {
      var j: nat, k: nat :| j < k && GoesFirst(c, paths, now, j, i) && GoesFirst(c, paths, now, k, i);
      assert Stale(c, paths[j], now) && Stale(c, paths[k], now);
    }
  }

  // In terms of the lists the source makes.
  lemma WalkedExactly(c: Cache, paths: seq<Path>, now: int, i: nat)
    requires i < |paths|
    ensures
      i in Walk(c, paths, now)
      <==> Must(c, paths[i], now) || (Stale(c, paths[i], now) && !TwoAhead(c, paths, now, i))
  {
    var q := Queue(c, paths, now);
    InMustWalk(c, paths, now, |paths|, i);
    InFirstTwo(q, i);
    if Stale(c, paths[i], now) {
      var k := QueuePlace(c, paths, now, i);
      PlaceIsUnique(c, paths, now, i, k);
      if k < 2 { EarlyHasNotTwoAhead(c, paths, now, i, k); } else { LateHasTwoAhead(c, paths, now, i, k); }
    } else {
      forall k | 0 <= k < |q| ensures q[k].index != i { QueuedAt(c, paths, now, k); }
    }
  }

  lemma PlaceIsUnique(c: Cache, paths: seq<Path>, now: int, i: nat, k: nat)
    requires i < |paths| && Stale(c, paths[i], now) && k < |Queue(c, paths, now)|
    requires Queue(c, paths, now)[k] == OldAt(c, paths, i)
    ensures forall h :: 0 <= h < |Queue(c, paths, now)| && Queue(c, paths, now)[h].index == i ==> h == k
  {
    var q := Queue(c, paths, now);
    QueueIs(c, paths, now);
    forall h | 0 <= h < |q| && q[h].index == i ensures h == k {
      QueuedAt(c, paths, now, h);
      SamePlace(q, h, k);
    }
  }

  lemma WalkInRange(c: Cache, paths: seq<Path>, now: int)
    ensures InRange(Walk(c, paths, now), paths)
  {
    var walk := Walk(c, paths, now);
    var q := Queue(c, paths, now);
    forall k | 0 <= k < |walk| ensures walk[k] < |paths| {
      InMustWalk(c, paths, now, |paths|, walk[k]);
      assert walk[k] in walk;
      InFirstTwo(q, walk[k]);
      if walk[k] !in MustWalk(c, paths, now, |paths|) {
        var h :| 0 <= h < |q| && h < WALK_CAP && q[h].index == walk[k];
        QueuedAt(c, paths, now, h);
      }
    }
  }

  // An eligible position that is passed over sees two others walked that go first.
  lemma TwoOlderAreWalked(c: Cache, paths: seq<Path>, now: int, i: nat) returns (j: nat, k: nat)
    requires i < |paths| && Eligible(c, paths[i], now) && i !in Walk(c, paths, now)
    ensures j < k < |paths| && j in Walk(c, paths, now) && k in Walk(c, paths, now)
    ensures paths[j] in c && paths[k] in c && paths[i] in c
    ensures Stale(c, paths[j], now) && Ahead(OldAt(c, paths, j), OldAt(c, paths, i))
    ensures Stale(c, paths[k], now) && Ahead(OldAt(c, paths, k), OldAt(c, paths, i))
  {
    var q := Queue(c, paths, now);
    WalkedExactly(c, paths, now, i);
    var h := QueuePlace(c, paths, now, i);
    InFirstTwo(q, i);
    assert h >= 2;
    QueueIs(c, paths, now);
    QueuedAt(c, paths, now, 0);
    QueuedAt(c, paths, now, 1);
    assert Ahead(q[0], q[1]) && Ahead(q[0], q[h]) && Ahead(q[1], q[h]);
    InFirstTwo(q, q[0].index);
    InFirstTwo(q, q[1].index);
    j, k := q[0].index, q[1].index;
    if k < j { j, k := k, j; }
  }
}
