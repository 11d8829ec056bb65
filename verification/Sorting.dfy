// A stable sort by a comparison or by an integer key, as the standard library's `sort_by` and
// `sort_by_key`.
module Sorting {
  ghost predicate TotalPreorder<T(!new)>(le: (T, T) -> bool) {
    && (forall a, b :: le(a, b) || le(b, a))
    && (forall a, b, c :: le(a, b) && le(b, c) ==> le(a, c))
  }

  ghost predicate SortedWith<T>(s: seq<T>, le: (T, T) -> bool) {
    forall i, j :: 0 <= i < j < |s| ==> le(s[i], s[j])
  }

  // `x` goes before the elements that are equal to it.
  function Insert<T>(x: T, s: seq<T>, le: (T, T) -> bool): seq<T> {
    if s == [] then [x]
    else if le(x, s[0]) then [x] + s
    else [s[0]] + Insert(x, s[1..], le)
  }

  function SortWith<T>(s: seq<T>, le: (T, T) -> bool): seq<T> {
    if s == [] then [] else Insert(s[0], SortWith(s[1..], le), le)
  }

  lemma {:induction false} InsertKeeps<T>(x: T, s: seq<T>, le: (T, T) -> bool)
    ensures |Insert(x, s, le)| == |s| + 1
    ensures multiset(Insert(x, s, le)) == multiset(s) + multiset{x}
  {
    if s != [] && !le(x, s[0]) {
      InsertKeeps(x, s[1..], le);
      assert s == [s[0]] + s[1..];
    }
  }

  lemma {:induction false} InsertSorts<T(!new)>(x: T, s: seq<T>, le: (T, T) -> bool)
    requires TotalPreorder(le) && SortedWith(s, le)
    ensures SortedWith(Insert(x, s, le), le)
  {
    if s != [] && !le(x, s[0]) {
      var rest := Insert(x, s[1..], le);
      InsertSorts(x, s[1..], le);
      InsertKeeps(x, s[1..], le);
      forall i | 0 <= i < |rest| ensures le(s[0], rest[i]) {
        assert rest[i] in multiset(rest);
        assert rest[i] == x || rest[i] in s[1..];
      }
    }
  }

  lemma {:induction false} SortKeeps<T>(s: seq<T>, le: (T, T) -> bool)
    ensures |SortWith(s, le)| == |s| && multiset(SortWith(s, le)) == multiset(s)
  {
    if s != [] {
      SortKeeps(s[1..], le);
      InsertKeeps(s[0], SortWith(s[1..], le), le);
      assert s == [s[0]] + s[1..];
    }
  }

  lemma {:induction false} SortSorts<T(!new)>(s: seq<T>, le: (T, T) -> bool)
    requires TotalPreorder(le)
    ensures SortedWith(SortWith(s, le), le)
  {
    if s != [] {
      SortSorts(s[1..], le);
      InsertSorts(s[0], SortWith(s[1..], le), le);
    }
  }

  // ---------------------------------------------------------------- by key

  function ByKey<T>(key: T -> int): (T, T) -> bool { (a, b) => key(a) <= key(b) }

  ghost predicate SortedBy<T>(s: seq<T>, key: T -> int) {
    forall i, j :: 0 <= i < j < |s| ==> key(s[i]) <= key(s[j])
  }

  function SortBy<T>(s: seq<T>, key: T -> int): seq<T> { SortWith(s, ByKey(key)) }

  lemma Sorts<T(!new)>(s: seq<T>, key: T -> int)
    ensures SortedBy(SortBy(s, key), key)
    ensures |SortBy(s, key)| == |s| && multiset(SortBy(s, key)) == multiset(s)
  {
    var le := ByKey(key);
    SortKeeps(s, le);
    SortSorts(s, le);
    forall i, j | 0 <= i < j < |SortBy(s, key)| ensures key(SortBy(s, key)[i]) <= key(SortBy(s, key)[j]) {
      assert le(SortBy(s, key)[i], SortBy(s, key)[j]);
    }
  }

  lemma SameElements<T>(a: seq<T>, b: seq<T>)
    requires multiset(a) == multiset(b)
    ensures forall x :: x in a <==> x in b
  {
    forall x ensures x in a <==> x in b {
      assert x in a <==> x in multiset(a);
      assert x in b <==> x in multiset(b);
    }
  }

  // ---------------------------------------------------------------- without repetitions

  ghost predicate TotalOrder<T(!new)>(le: (T, T) -> bool) {
    TotalPreorder(le) && forall a, b :: le(a, b) && le(b, a) ==> a == b
  }

  ghost predicate StrictlySorted<T>(s: seq<T>, le: (T, T) -> bool) {
    forall i, j :: 0 <= i < j < |s| ==> le(s[i], s[j]) && s[i] != s[j]
  }

  // Neighbours that are equal are joined.
  function Dedup<T(==)>(s: seq<T>): seq<T> {
    if |s| <= 1 then s
    else
      var rest := Dedup(s[..|s| - 1]);
      if s[|s| - 1] == s[|s| - 2] then rest else rest + [s[|s| - 1]]
  }

  lemma {:induction false} DedupIsStrict<T(!new)>(s: seq<T>, le: (T, T) -> bool)
    requires TotalOrder(le) && SortedWith(s, le)
    ensures StrictlySorted(Dedup(s), le) && forall x :: x in Dedup(s) <==> x in s
    ensures s != [] ==> Dedup(s) != [] && Dedup(s)[|Dedup(s)| - 1] == s[|s| - 1]
  {
    if |s| > 1 {
      var front, last := s[..|s| - 1], s[|s| - 1];
      DedupIsStrict(front, le);
      assert s == front + [last];
      if last != front[|front| - 1] {
        forall i | 0 <= i < |Dedup(front)| ensures le(Dedup(front)[i], last) && Dedup(front)[i] != last {
          BeforeLast(front, last, Dedup(front)[i], le);
        }
      }
    }
  }

  lemma BeforeLast<T(!new)>(front: seq<T>, last: T, x: T, le: (T, T) -> bool)
    requires TotalOrder(le) && SortedWith(front, le)
    requires front != [] && last != front[|front| - 1] && le(front[|front| - 1], last)
    requires x in Dedup(front) && forall y :: y in Dedup(front) <==> y in front
    ensures le(x, last) && x != last
  {
    var i :| 0 <= i < |front| && front[i] == x;
    assert i < |front| - 1 ==> le(x, front[|front| - 1]);
  }

  // The elements of a list, sorted and each once.
  function SortedOnce<T(==)>(s: seq<T>, le: (T, T) -> bool): seq<T> { Dedup(SortWith(s, le)) }

  lemma SortedOnceIs<T(!new)>(s: seq<T>, le: (T, T) -> bool)
    requires TotalOrder(le)
    ensures StrictlySorted(SortedOnce(s, le), le) && forall x :: x in SortedOnce(s, le) <==> x in s
  {
    var sorted := SortWith(s, le);
    SortKeeps(s, le);
    SortSorts(s, le);
    SameElements(sorted, s);
    DedupIsStrict(sorted, le);
  }

  lemma OneIsSorted<T>(x: T, le: (T, T) -> bool)
    ensures SortWith([x], le) == [x]
  {
    assert [x][1..] == [];
    assert SortWith([x][1..], le) == [];
  }
}
