/** Division and products, stated once for the modules that count with them. */
module Arithmetic {
  /** Subtraction that stops at zero. */
  function Minus(x: nat, y: nat): nat {
    if x < y then 0 else x - y
  }

  lemma ProductGap(k: int, p: int, q: int)
    requires k > 0 && p > q
    ensures k * p >= k * q + k
  {
    assert k * (p - q - 1) >= 0;
    assert k * p == k * q + k + k * (p - q - 1);
  }

  lemma QuotientIs(x: int, k: int, q: int, r: int)
    requires k > 0 && 0 <= r < k && x == k * q + r
    ensures x / k == q && x % k == r
  {
    var p, t := x / k, x % k;
    if p > q {
      ProductGap(k, p, q);
    } else if q > p {
      ProductGap(k, q, p);
    }
  }

  lemma DivOrder(a: int, b: int, k: int)
    requires a <= b && k > 0
    ensures a / k <= b / k
  {
    var p, q := a / k, b / k;
    if p > q {
      ProductGap(k, p, q);
    }
  }

  lemma AddModulus(s: nat, w: nat)
    requires w > 0
    ensures (s + w) % w == s % w
  {
    assert s + w == w * (s / w + 1) + s % w;
    QuotientIs(s + w, w, s / w + 1, s % w);
  }
}
