/** Facts about Euclidean division used by the positional encodings. */
module Arith {

  lemma MulAtLeast(x: int, d: int)
    requires x >= 1 && d > 0
    ensures x * d >= d
  {
  }

  lemma MulMono(x: int, y: int, b: int)
    requires 0 <= x <= y && b >= 0
    ensures x * b <= y * b
  {
  }

  /** Quotient and remainder are the only ones that rebuild `i`. */
  lemma ModUnique(i: int, d: int, a: int, b: int)
    requires d > 0 && 0 <= b < d && i == a * d + b
    ensures i / d == a && i % d == b
  {
    var q, r := i / d, i % d;
    assert i == q * d + r;
    if a > q {
      assert (a - q) * d >= d by { MulAtLeast(a - q, d); }
      assert false;
    } else if a < q {
      assert (q - a) * d >= d by { MulAtLeast(q - a, d); }
      assert false;
    }
  }

  /** Splitting off the lowest digit in base `b` of a quotient and of a
      remainder by `b * p`. */
  lemma DivMod(i: nat, b: nat, p: nat)
    requires b > 0 && p > 0
    ensures i % (b * p) == (i / b) % p * b + i % b
    ensures (i / b) / p == i / (b * p)
  {
    var q, r := i / b, i % b;
    var qq, qr := q / p, q % p;
    assert i == q * b + r;
    assert q == qq * p + qr;
    assert q * b == qq * p * b + qr * b;
    assert i == qq * (b * p) + (qr * b + r);
    assert qr * b <= (p - 1) * b by { MulMono(qr, p - 1, b); }
    assert (p - 1) * b == b * p - b;
    ModUnique(i, b * p, qq, qr * b + r);
  }

  /** The lowest digit and the rest of a remainder by `b * p`. */
  lemma ModLow(i: nat, b: nat, p: nat)
    requires b > 0 && p > 0
    ensures (i % (b * p)) % b == i % b && (i % (b * p)) / b == (i / b) % p
  {
    DivMod(i, b, p);
    ModUnique(i % (b * p), b, (i / b) % p, i % b);
  }
}
