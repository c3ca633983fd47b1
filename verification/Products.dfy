/** The few facts about products that sizes and offsets need. */
module Products {

  lemma Distributes(a: int, b: int, n: int)
    ensures (a + b) * n == a * n + b * n
  {
  }

  lemma Ordered(a: nat, b: nat, n: nat)
    requires a <= b
    ensures a * n <= b * n
  {
    Distributes(a, b - a, n);
  }

  /** A quotient with a remainder in range is the quotient. */
  lemma Remainder(x: nat, q: nat, m: nat, d: nat)
    requires m < d && x == q * d + m
    ensures x / d == q && x % d == m
  {
    var p := x / d;
    Distributes(p - q, q, d);
    assert x == p * d + x % d;
    if p < q {
      Ordered(p + 1, q, d);
      Distributes(p, 1, d);
    } else if p > q {
      Ordered(q + 1, p, d);
      Distributes(q, 1, d);
    }
  }

  predicate Divides(d: nat, x: int)
    requires d > 0
  {
    x % d == 0
  }

  /** No non-zero multiple of d lies strictly between -d and d. */
  lemma MultiplesFarFromZero(d: nat, k: int)
    requires d > 0 && k != 0
    ensures d * k >= d || d * k <= 0 - d
  {
    if k >= 1 {
      Ordered(1, k, d);
    } else {
      Ordered(1, 0 - k, d);
    }
  }

  lemma Multiple(d: nat, k: int)
    requires d > 0
    ensures (d * k) % d == 0
  {
    var q := d * k / d;
    assert d * k == d * q + (d * k) % d;
    assert (d * k) % d == d * (k - q);
    if k != q { MultiplesFarFromZero(d, k - q); }
  }

  lemma SameRemainder(x: nat, y: nat, d: nat)
    requires d > 0
    ensures x % d == y % d <==> Divides(d, x - y)
  {
    var q, p := x / d, y / d;
    assert x - y == d * (q - p) + (x % d - y % d);
    if x % d == y % d {
      Multiple(d, q - p);
    } else if Divides(d, x - y) {
      var m := (x - y) / d;
      assert x - y == d * m;
      assert d * (m - (q - p)) == x % d - y % d;
      if m != q - p { MultiplesFarFromZero(d, m - (q - p)); }
    }
  }
}
