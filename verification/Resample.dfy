// Fitting a density row to a width (crates/repomon-core/src/analytics.rs:30-44).
module Resample {
  import opened Arithmetic

  function Lo(n: nat, width: nat, i: nat): nat
    requires width > 0
  {
    i * n / width
  }

  function Larger(a: nat, b: nat): nat { if a >= b then a else b }

  function Smaller(a: nat, b: nat): nat { if a <= b then a else b }

  function Hi(n: nat, width: nat, i: nat): nat
    requires width > 0
  {
    Smaller(Larger((i + 1) * n / width, Lo(n, width, i) + 1), n)
  }

  function Max(s: seq<nat>): nat {
    if s == [] then 0 else Larger(Max(s[..|s| - 1]), s[|s| - 1])
  }

  // Every cell takes the greatest value of its span.
  function ResampleMax(src: seq<nat>, width: nat): (out: seq<nat>)
    ensures |out| == width
  {
    if src == [] then seq(width, i => 0)
    else
      seq(width, i requires 0 <= i < width =>
        SpanFits(|src|, width, i); Max(src[Lo(|src|, width, i)..Hi(|src|, width, i)]))
  }

  lemma SpanFits(n: nat, width: nat, i: nat)
    requires 0 < n && i < width
    ensures Lo(n, width, i) < Hi(n, width, i) <= n
  {
    assert i * n < n * width by { Mono(i + 1, width, n); }
    DivBelow(i * n, n, width);
  }

  // ---------------------------------------------------------------- shrinking

  // Neighbouring spans meet, the first starts at 0 and the last ends at n.
  lemma SpansMeet(n: nat, width: nat, i: nat)
    requires 0 < width <= n && i < width
    ensures Lo(n, width, 0) == 0
    ensures Hi(n, width, i) == if i + 1 < width then Lo(n, width, i + 1) else n
  {
    var lo, next := Lo(n, width, i), (i + 1) * n / width;
    assert 0 * n / width == 0;
    assert i * n == lo * width + (i * n) % width;
    assert (lo + 1) * width == lo * width + width;
    assert (i + 1) * n == i * n + n;
    DivAtLeast((i + 1) * n, lo + 1, width);
    if i + 1 < width {
      SpanFits(n, width, i + 1);
    } else {
      assert (i + 1) * n == n * width;
      DivAtLeast(n * width, n, width);
    }
  }

  lemma {:induction false} SpansRise(n: nat, width: nat, i: nat, j: nat)
    requires 0 < width <= n && i < j < width
    ensures Hi(n, width, i) <= Lo(n, width, j)
  {
    SpansMeet(n, width, j - 1);
    if i < j - 1 {
      SpansRise(n, width, i, j - 1);
      SpanFits(n, width, j - 1);
    }
  }

  lemma {:induction false} SpanOf(n: nat, width: nat, k: nat, m: nat) returns (i: nat)
    requires 0 < width <= n && m < width && k < Hi(n, width, m)
    ensures i <= m && Lo(n, width, i) <= k < Hi(n, width, i)
  {
    if Lo(n, width, m) <= k {
      i := m;
    } else {
      SpansMeet(n, width, if m > 0 then m - 1 else 0);
      i := SpanOf(n, width, k, m - 1);
    }
  }

  // When shrinking, every source index belongs to exactly one span.
  lemma ShrinkingPartitions(n: nat, width: nat, k: nat) returns (i: nat)
    requires 0 < width <= n && k < n
    ensures i < width && Lo(n, width, i) <= k < Hi(n, width, i)
    ensures forall j: nat :: j < width && Lo(n, width, j) <= k < Hi(n, width, j) ==> j == i
  {
    SpansMeet(n, width, width - 1);
    i := SpanOf(n, width, k, width - 1);
    forall j: nat | j < width && Lo(n, width, j) <= k < Hi(n, width, j) ensures j == i {
      if i < j { SpansRise(n, width, i, j); }
      if j < i { SpansRise(n, width, j, i); }
    }
  }

  // ---------------------------------------------------------------- stretching

  // When stretching, every span is a single source cell, and every source cell is hit.
  lemma StretchingIsSingle(n: nat, width: nat, i: nat)
    requires 0 < n <= width && i < width
    ensures Hi(n, width, i) == Lo(n, width, i) + 1
  {
    var lo := Lo(n, width, i);
    SpanFits(n, width, i);
    EndsBelow(i * n, n, lo, width);
    assert (i + 1) * n == i * n + n;
  }

  lemma EndsBelow(a: nat, n: nat, lo: nat, width: nat)
    requires 0 < n <= width && lo == a / width
    ensures (a + n) / width < lo + 2
  {
    assert a == lo * width + a % width;
    assert (lo + 2) * width == lo * width + 2 * width;
    DivBelow(a + n, lo + 2, width);
  }

  lemma StretchingHits(n: nat, width: nat, k: nat) returns (i: nat)
    requires 0 < n <= width && k < n
    ensures i < width && Lo(n, width, i) == k
  {
    var a := k * width + n - 1;
    assert 0 <= k * width;
    i := a / n;
    assert a == i * n + a % n;
    assert k * width <= i * n < k * width + n;
    assert (k + 1) * width == k * width + width;
    DivAtLeast(i * n, k, width);
    DivBelow(i * n, k + 1, width);
    Mono(k + 1, n, width);
    if width <= i { Mono(width, i, n); }
  }

  lemma SpanContaining(n: nat, width: nat, k: nat) returns (i: nat)
    requires 0 < width && k < n
    ensures i < width && Lo(n, width, i) <= k < Hi(n, width, i)
  {
    if width <= n {
      i := ShrinkingPartitions(n, width, k);
    } else {
      i := StretchingHits(n, width, k);
      StretchingIsSingle(n, width, i);
    }
  }

  // ---------------------------------------------------------------- peaks

  lemma {:induction false} MaxIsGreatest(s: seq<nat>, k: nat)
    requires k < |s|
    ensures s[k] <= Max(s) && Max(s) in s
  {
    if k < |s| - 1 {
      MaxIsGreatest(s[..|s| - 1], k);
    } else if |s| > 1 {
      MaxIsGreatest(s[..|s| - 1], 0);
    }
  }

  // No peak is lost and none appears, whatever the width.
  lemma PeakIsKept(src: seq<nat>, width: nat)
    requires src != [] && width > 0
    ensures Max(ResampleMax(src, width)) == Max(src)
  {
    var out := ResampleMax(src, width);
    MaxIsGreatest(src, 0);
    MaxIsGreatest(out, 0);
    var k :| 0 <= k < |src| && src[k] == Max(src);
    var i := SpanContaining(|src|, width, k);
    SpanFits(|src|, width, i);
    InSpan(src, Lo(|src|, width, i), Hi(|src|, width, i), k);
    MaxIsGreatest(out, i);
    var j: nat :| j < |out| && out[j] == Max(out);
    SpanFits(|src|, width, j);
    OfSpan(src, Lo(|src|, width, j), Hi(|src|, width, j));
  }

  lemma InSpan(src: seq<nat>, lo: nat, hi: nat, k: nat)
    requires lo <= k < hi <= |src|
    ensures src[k] <= Max(src[lo..hi])
  {
    MaxIsGreatest(src[lo..hi], k - lo);
  }

  lemma OfSpan(src: seq<nat>, lo: nat, hi: nat)
    requires lo < hi <= |src|
    ensures Max(src[lo..hi]) <= Max(src)
  {
    MaxIsGreatest(src[lo..hi], 0);
    var k :| lo <= k < hi && src[k] == Max(src[lo..hi]);
    MaxIsGreatest(src, k);
  }

  // Cell `k` of the row is under cell `i` of the result, when both are drawn at the same width: it
  // ends after `i` begins, and ends by where `i` ends or begins by where `i` begins.
  predicate Under(n: nat, width: nat, i: nat, k: nat) {
    k < n && i * n < (k + 1) * width && ((k + 1) * width <= (i + 1) * n || k * width <= i * n)
  }

  lemma SpanIsUnder(n: nat, width: nat, i: nat, k: nat)
    requires 0 < n && i < width
    ensures Lo(n, width, i) <= k < Hi(n, width, i) <==> Under(n, width, i, k)
  {
    SpanFits(n, width, i);
    if i * n < (k + 1) * width { DivBelow(i * n, k + 1, width); } else { DivAtLeast(i * n, k + 1, width); }
    if k * width <= i * n { DivAtLeast(i * n, k, width); } else { DivBelow(i * n, k, width); }
    if (k + 1) * width <= (i + 1) * n {
      DivAtLeast((i + 1) * n, k + 1, width);
    } else {
      DivBelow((i + 1) * n, k + 1, width);
    }
  }

  // A cell of the result is the greatest of the cells under it; a row without cells is shown
  // as zeros.
  lemma CellsArePeaks(src: seq<nat>, width: nat, i: nat)
    requires i < width
    ensures
      var out := ResampleMax(src, width);
      if src == [] then out[i] == 0
      else
        && (forall k: nat {:trigger src[k]} :: k < |src| && Under(|src|, width, i, k) ==> src[k] <= out[i])
        && (exists k: nat :: k < |src| && Under(|src|, width, i, k) && src[k] == out[i])
  {
    if src != [] {
      var n, out := |src|, ResampleMax(src, width);
      var lo, hi := Lo(n, width, i), Hi(n, width, i);
      SpanFits(n, width, i);
      assert out[i] == Max(src[lo..hi]);
      forall k: nat ensures lo <= k < hi <==> Under(n, width, i, k) { SpanIsUnder(n, width, i, k); }
      var k := PeakOf(src, lo, hi);
      assert Under(n, width, i, k);
    }
  }

  lemma PeakOf(src: seq<nat>, lo: nat, hi: nat) returns (k: nat)
    requires lo < hi <= |src|
    ensures lo <= k < hi && src[k] == Max(src[lo..hi])
    ensures forall j :: lo <= j < hi ==> src[j] <= src[k]
  {
    MaxIsGreatest(src[lo..hi], 0);
    var d :| 0 <= d < hi - lo && src[lo..hi][d] == Max(src[lo..hi]);
    k := lo + d;
    forall j | lo <= j < hi ensures src[j] <= src[k] { InSpan(src, lo, hi, j); }
  }

  // At its own width a row is unchanged.
  lemma SameWidthIsIdentity(src: seq<nat>)
    ensures ResampleMax(src, |src|) == src
  {
    var out := ResampleMax(src, |src|);
    forall i | 0 <= i < |src| ensures out[i] == src[i] {
      OwnCell(|src|, i);
      SpanFits(|src|, |src|, i);
      MaxOfOne(src, i);
    }
  }

  lemma OwnCell(n: nat, i: nat)
    requires i < n
    ensures Lo(n, n, i) == i && Hi(n, n, i) == i + 1
  {
    StretchingIsSingle(n, n, i);
    DivAtLeast(i * n, i, n);
    assert (i + 1) * n == i * n + n;
    DivBelow(i * n, i + 1, n);
  }

  lemma MaxOfOne(src: seq<nat>, i: nat)
    requires i < |src|
    ensures Max(src[i..i + 1]) == src[i]
  {
    assert src[i..i + 1] == [src[i]];
    assert [src[i]][..0] == [];
  }
}
