/** Facts about multiplication and division by variables that the solver does not find alone. */
module Arithmetic {
  lemma ScaledLe(a: int, b: int, k: int)
    requires a <= b && 0 <= k
    ensures a * k <= b * k
  {
  }

  lemma DivideExactly(q: int, r: int, d: int)
    requires 0 <= r < d
    ensures (d * q + r) / d == q && (d * q + r) % d == r
  {
    var x := d * q + r;
    var q', r' := x / d, x % d;
    assert x == d * q' + r';
    if q' < q {
      ScaledLe(1, q - q', d);
    } else if q < q' {
      ScaledLe(1, q' - q, d);
    }
  }
}
