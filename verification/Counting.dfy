// Counting the elements of a sequence that satisfy a predicate.
module Counting {
  function Count<T>(s: seq<T>, p: T -> bool): nat {
    if s == [] then 0 else (if p(s[0]) then 1 else 0) + Count(s[1..], p)
  }

  lemma {:induction false} CountAppend<T>(a: seq<T>, b: seq<T>, p: T -> bool)
    ensures Count(a + b, p) == Count(a, p) + Count(b, p)
  {
    if a == [] {
      assert a + b == b;
    } else {
      assert (a + b)[1..] == a[1..] + b;
      CountAppend(a[1..], b, p);
    }
  }

  lemma {:induction false} CountWithout<T>(s: seq<T>, i: nat, p: T -> bool)
    requires i < |s|
    ensures Count(s, p) == Count(s[..i] + s[i + 1..], p) + if p(s[i]) then 1 else 0
  {
    if i == 0 {
      assert s[..0] + s[1..] == s[1..];
    } else {
      var rest := s[1..];
      CountWithout(rest, i - 1, p);
      var without := s[..i] + s[i + 1..];
      assert without[0] == s[0] && without[1..] == rest[..i - 1] + rest[i..];
    }
  }

  lemma MultisetWithout<T>(s: seq<T>, i: nat)
    requires i < |s|
    ensures multiset(s[..i] + s[i + 1..]) == multiset(s) - multiset{s[i]}
  {
    assert s == s[..i] + [s[i]] + s[i + 1..];
  }

  // Counting does not look at the order.
  lemma {:induction false} CountPermuted<T>(a: seq<T>, b: seq<T>, p: T -> bool)
    requires multiset(a) == multiset(b)
    ensures Count(a, p) == Count(b, p)
  {
    if a == [] {
      assert |b| == |multiset(b)|;
    } else {
      assert a[0] in multiset(b);
      var i :| 0 <= i < |b| && b[i] == a[0];
      CountWithout(b, i, p);
      MultisetWithout(b, i);
      assert a == [a[0]] + a[1..];
      CountPermuted(a[1..], b[..i] + b[i + 1..], p);
    }
  }

  lemma {:induction false} CountSame<T>(s: seq<T>, p: T -> bool, q: T -> bool)
    requires forall x :: x in s ==> p(x) == q(x)
    ensures Count(s, p) == Count(s, q)
  {
    if s != [] { CountSame(s[1..], p, q); }
  }

  // What satisfies `r` is what satisfies exactly one of `p` and `q`.
  lemma {:induction false} CountSplit<T>(s: seq<T>, p: T -> bool, q: T -> bool, r: T -> bool)
    requires forall x :: x in s ==> !(p(x) && q(x)) && r(x) == (p(x) || q(x))
    ensures Count(s, r) == Count(s, p) + Count(s, q)
  {
    if s != [] { CountSplit(s[1..], p, q, r); }
  }

  lemma {:induction false} CountNone<T>(s: seq<T>, p: T -> bool)
    requires forall x :: x in s ==> !p(x)
    ensures Count(s, p) == 0
  {
    if s != [] { CountNone(s[1..], p); }
  }

  lemma {:induction false} CountAll<T>(s: seq<T>, p: T -> bool)
    requires forall x :: x in s ==> p(x)
    ensures Count(s, p) == |s|
  {
    if s != [] { CountAll(s[1..], p); }
  }

  lemma CountCut<T>(s: seq<T>, k: nat, p: T -> bool)
    requires k <= |s|
    ensures Count(s, p) == Count(s[..k], p) + Count(s[k..], p)
  {
    CountAppend(s[..k], s[k..], p);
    assert s[..k] + s[k..] == s;
  }

  // No element occurs twice.
  ghost predicate Once<T>(s: seq<T>) {
    forall x :: x in s ==> multiset(s)[x] == 1
  }

  lemma OnceMeansDistinct<T>(s: seq<T>, i: nat, j: nat)
    requires Once(s) && i < |s| && j < |s| && i != j
    ensures s[i] != s[j]
  {
    var lo, hi := if i < j then i else j, if i < j then j else i;
    assert s == s[..hi] + s[hi..];
    assert s[..hi][lo] == s[lo] && s[hi..][0] == s[hi];
    assert multiset(s)[s[lo]] == multiset(s[..hi])[s[lo]] + multiset(s[hi..])[s[lo]];
    assert s[lo] in multiset(s[..hi]) && s[hi] in multiset(s[hi..]);
  }

  lemma {:induction false} DistinctMeansOnce<T>(s: seq<T>)
    requires forall i, j :: 0 <= i < j < |s| ==> s[i] != s[j]
    ensures Once(s)
  {
    if s != [] {
      var rest := s[1..];
      DistinctMeansOnce(rest);
      assert s == [s[0]] + rest;
      assert s[0] !in rest;
      forall x | x in s ensures multiset(s)[x] == 1 {
        assert multiset(s)[x] == multiset([s[0]])[x] + multiset(rest)[x];
        if x == s[0] { assert x !in multiset(rest); }
      }
    }
  }

  lemma {:induction false} CountFewer<T>(s: seq<T>, p: T -> bool, q: T -> bool)
    requires forall x :: x in s && q(x) ==> p(x)
    ensures Count(s, q) <= Count(s, p)
  {
    if s != [] { CountFewer(s[1..], p, q); }
  }

  // A predicate that fails at one more place counts one less.
  lemma CountDrops<T>(s: seq<T>, p: T -> bool, q: T -> bool, i: nat)
    requires (forall x :: x in s && q(x) ==> p(x)) && i < |s| && p(s[i]) && !q(s[i])
    ensures Count(s, q) + 1 <= Count(s, p)
  {
    CountWithout(s, i, p);
    CountWithout(s, i, q);
    CountFewer(s[..i] + s[i + 1..], p, q);
  }

  lemma CountDropsTwice<T>(s: seq<T>, p: T -> bool, q: T -> bool, i: nat, j: nat)
    requires (forall x :: x in s && q(x) ==> p(x)) && i < j < |s|
    requires p(s[i]) && !q(s[i]) && p(s[j]) && !q(s[j])
    ensures Count(s, q) + 2 <= Count(s, p)
  {
    CountWithout(s, j, p);
    CountWithout(s, j, q);
    var rest := s[..j] + s[j + 1..];
    assert rest[i] == s[i];
    CountDrops(rest, p, q, i);
  }

  lemma {:induction false} CountBound<T>(s: seq<T>, p: T -> bool)
    ensures Count(s, p) <= |s|
  {
    if s != [] { CountBound(s[1..], p); }
  }
}
