// Multiplication and division by a positive number, where the solver needs help.
module Arithmetic {
  lemma Mono(a: int, b: int, c: int)
    requires a <= b && c >= 0
    ensures a * c <= b * c && (a < b ==> a * c + c <= b * c)
  {
    var d := b - a;
    assert (a + d) * c == a * c + d * c;
    if d > 0 { assert d * c == (d - 1) * c + c && (d - 1) * c >= 0; }
  }

  lemma DivAtLeast(a: int, q: int, w: int)
    requires w > 0 && q * w <= a
    ensures q <= a / w
  {
    var d := a / w;
    assert a == d * w + a % w;
    if d < q { Mono(d, q, w); }
  }

  lemma DivBelow(a: int, q: int, w: int)
    requires w > 0 && a < q * w
    ensures a / w < q
  {
    var d := a / w;
    assert a == d * w + a % w;
    if q <= d { Mono(q, d, w); }
  }

  lemma Quotient(q: nat, r: nat, b: nat)
    requires b > 0 && r < b
    ensures (q * b + r) / b == q && (q * b + r) % b == r
  {
    var n := q * b + r;
    var d := n / b;
    assert n == d * b + n % b;
    if d < q { Mono(d, q, b); }
    if q < d { Mono(q, d, b); }
  }
}
