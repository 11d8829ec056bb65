// Which cached worktree a change flags (crates/repomon-core/src/lane.rs:332-348).
module LaneOwners {
  import opened LaneCache
  import opened Text

  // The canonical form of a path, or the path itself where it has none.
  type Canon = Path -> Path

  // The cached worktree `p` contains `root`, which is canonical.
  predicate Contains(c: Cache, canon: Canon, root: Path, p: Path) { p in c && IsAncestor(canon(p), root) }

  // The source flags one of those whose own text, not that of the canonical form, is the longest.
  ghost predicate Longest(c: Cache, canon: Canon, root: Path, p: Path) {
    Contains(c, canon, root, p)
    && forall q :: Contains(c, canon, root, q) ==> TextLength(q) <= TextLength(p)
  }

  // Meant is one whose canonical form is inside all the others'.
  ghost predicate Innermost(c: Cache, canon: Canon, root: Path, p: Path) {
    Contains(c, canon, root, p)
    && forall q :: Contains(c, canon, root, q) ==> IsAncestor(canon(q), canon(p))
  }

  // The cache after a change under `root`.
  ghost predicate FlagsLongest(c: Cache, after: Cache, canon: Canon, root: Path) {
    if exists p :: Contains(c, canon, root, p)
    then exists p :: Longest(c, canon, root, p) && after == c[p := c[p].(dirty := true)]
    else after == c
  }

  lemma {:induction false} LongerText(p: Path, q: Path)
    requires p <= q && p != q
    ensures TextLength(p) < TextLength(q)
  {
    var r := q[..|q| - 1];
    if p != r {
      assert p <= r;
      LongerText(p, r);
    }
  }

  // ---------------------------------------------------------------- when the innermost is flagged

  // A worktree inside another one is cached by some path with the longer text of the two.
  ghost predicate InnerIsLonger(c: Cache, canon: Canon, p: Path, q: Path) {
    p in c && q in c && IsAncestor(canon(q), canon(p)) && canon(q) != canon(p) ==>
      exists x :: x in c && canon(x) == canon(p) && TextLength(q) < TextLength(x)
  }

  lemma {:induction false} SomeLongest(c: Cache, canon: Canon, root: Path, some: set<Path>, p: Path)
      returns (x: Path)
    requires p in some && forall q :: q in some <==> Contains(c, canon, root, q)
    ensures Longest(c, canon, root, x)
  {
    x := p;
    var left := some;
    while left != {}
      invariant left <= some && x in some
      invariant forall q :: q in some && q !in left ==> TextLength(q) <= TextLength(x)
      decreases left
    {
      var q :| q in left;
      left := left - {q};
      if TextLength(q) > TextLength(x) { x := q; }
    }
  }

  lemma LongestIsInside(c: Cache, canon: Canon, root: Path, p: Path, q: Path)
    requires Longest(c, canon, root, p) && Contains(c, canon, root, q) && InnerIsLonger(c, canon, q, p)
    ensures IsAncestor(canon(q), canon(p))
  {
    assert canon(p) <= canon(q) || canon(q) <= canon(p);
    assert forall x :: x in c && canon(x) == canon(q) ==> Contains(c, canon, root, x);
  }

  lemma LongestIsInnermost(c: Cache, canon: Canon, root: Path, p: Path)
    requires (forall x, y {:trigger InnerIsLonger(c, canon, x, y)} :: InnerIsLonger(c, canon, x, y))
    requires Longest(c, canon, root, p)
    ensures Innermost(c, canon, root, p)
  {
    forall q | Contains(c, canon, root, q) ensures IsAncestor(canon(q), canon(p)) {
      assert InnerIsLonger(c, canon, q, p);
      LongestIsInside(c, canon, root, p, q);
    }
  }

  lemma InnermostNeedsLength(c: Cache, canon: Canon, p: Path, q: Path)
    requires forall x :: Longest(c, canon, canon(p), x) ==> Innermost(c, canon, canon(p), x)
    ensures InnerIsLonger(c, canon, p, q)
  {
    if p in c && q in c && IsAncestor(canon(q), canon(p)) && canon(q) != canon(p) {
      var some := set x | x in c && Contains(c, canon, canon(p), x);
      var x := SomeLongest(c, canon, canon(p), some, p);
      assert Contains(c, canon, canon(p), p) && Contains(c, canon, canon(p), q);
      assert canon(x) == canon(p);
      assert TextLength(x) <= TextLength(q) ==> Longest(c, canon, canon(p), q);
      assert Innermost(c, canon, canon(p), q) ==> canon(p) <= canon(q);
    }
  }

  // Every change flags an innermost worktree exactly when, of two cached worktrees one inside the
  // other, the inner one is cached by some path with a longer text than the outer's.
  lemma InnermostIsFlaggedExactly(c: Cache, canon: Canon)
    ensures
      (forall root, p :: Longest(c, canon, root, p) ==> Innermost(c, canon, root, p))
      <==> forall p, q {:trigger InnerIsLonger(c, canon, p, q)} :: InnerIsLonger(c, canon, p, q)
  {
    if forall p, q {:trigger InnerIsLonger(c, canon, p, q)} :: InnerIsLonger(c, canon, p, q) {
      forall root, p | Longest(c, canon, root, p) ensures Innermost(c, canon, root, p) {
        LongestIsInnermost(c, canon, root, p);
      }
    }
    if forall root, p :: Longest(c, canon, root, p) ==> Innermost(c, canon, root, p) {
      forall p, q ensures InnerIsLonger(c, canon, p, q) { InnermostNeedsLength(c, canon, p, q); }
    }
  }

  // The outer of two worktrees is flagged if it is cached by the longer text.
  lemma LongerOuterIsFlagged(c: Cache, canon: Canon, root: Path, outer: Path, inner: Path)
    requires c.Keys == {outer, inner} && TextLength(inner) <= TextLength(outer)
    requires canon(outer) <= canon(inner) <= root && canon(outer) != canon(inner)
    ensures Longest(c, canon, root, outer) && !Innermost(c, canon, root, outer)
    ensures Innermost(c, canon, root, inner)
  {
    assert Contains(c, canon, root, outer) && Contains(c, canon, root, inner);
  }

  lemma ShortTexts(a: string, b: string)
    ensures TextLength([a]) == 1 + ByteLength(a)
    ensures TextLength([a, b]) == 2 + ByteLength(a) + ByteLength(b)
  {
    assert [a][..0] == [] && [a, b][..1] == [a];
  }

  // So a change inside /r/w flags /r when that is cached by another, long name of it.
  lemma OuterIsFlagged(r: string, w: string, name: string, root: Path) returns (c: Cache, canon: Canon)
    requires [r, w] <= root && ByteLength(r) + 1 + ByteLength(w) <= ByteLength(name)
    ensures c.Keys == {[name], [r, w]} && canon([name]) == [r] && canon([r, w]) == [r, w]
    ensures Longest(c, canon, root, [name]) && !Innermost(c, canon, root, [name])
    ensures Innermost(c, canon, root, [r, w])
  {
    c := map[[name] := Entry(0, false, ""), [r, w] := Entry(0, false, "")];
    canon := p => if p == [name] then [r] else p;
    ShortTexts(name, w);
    ShortTexts(r, w);
    assert |[name]| != |[r, w]|;
    LongerOuterIsFlagged(c, canon, root, [name], [r, w]);
  }

  // ---------------------------------------------------------------- canonical paths

  lemma CanonicalLongestOwns(c: Cache, canon: Canon, root: Path, p: Path)
    requires Longest(c, canon, root, p) && forall q :: q in c ==> canon(q) == q
    ensures Owns(c, p, root)
  {
    forall q | q in c && IsAncestor(q, root) ensures IsAncestor(q, p) {
      assert Contains(c, canon, root, q);
      assert p <= q || q <= p;
      if p <= q && p != q { LongerText(p, q); }
    }
  }

  // When the cached paths are canonical, the innermost one is flagged and nothing else changes.
  lemma CanonicalFlags(c: Cache, after: Cache, canon: Canon, root: Path)
    requires FlagsLongest(c, after, canon, root) && forall p :: p in c ==> canon(p) == p
    ensures after == Invalidated(c, root)
  {
    if exists p :: Contains(c, canon, root, p) {
      var p :| Longest(c, canon, root, p) && after == c[p := c[p].(dirty := true)];
      CanonicalLongestOwns(c, canon, root, p);
      OnlyOneFlagged(c, p, root);
    } else {
      forall p | p in c ensures !Owns(c, p, root) { assert !Contains(c, canon, root, p); }
      assert Invalidated(c, root) == c;
    }
  }

  lemma OnlyOneFlagged(c: Cache, p: Path, root: Path)
    requires Owns(c, p, root)
    ensures Invalidated(c, root) == c[p := c[p].(dirty := true)]
  {
    forall q | q in c && Owns(c, q, root) ensures q == p { assert q <= p && p <= q; }
  }
}
