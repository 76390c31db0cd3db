/** Powers of two, and the little non-linear arithmetic the models share. */
module Powers {

  function Pow2(h: nat): (p: nat)
    ensures p >= 1
  {
    if h == 0 then 1 else 2 * Pow2(h - 1)
  }

  lemma DoublePow2(h: nat)
    ensures Pow2(h + 1) == 2 * Pow2(h) && Pow2(0) == 1
  {
  }

  lemma {:induction false} Pow2Add(a: nat, b: nat)
    ensures Pow2(a + b) == Pow2(a) * Pow2(b)
  {
    if a > 0 {
      Pow2Add(a - 1, b);
      assert 2 * Pow2(a - 1) * Pow2(b) == 2 * (Pow2(a - 1) * Pow2(b));
    }
  }

  lemma {:induction false} Pow2Monotone(a: nat, b: nat)
    requires a <= b
    ensures Pow2(a) <= Pow2(b)
    ensures a < b ==> 2 * Pow2(a) <= Pow2(b)
  {
    if a < b {
      Pow2Monotone(a, b - 1);
    }
  }

  lemma MulMonotone(a: nat, b: nat, p: nat)
    requires a <= b
    ensures a * p <= b * p
  {
    assert (b - a) * p >= 0;
    assert (b - a) * p == b * p - a * p;
  }

  /** A quotient and a remainder in range are the quotient and the remainder. */
  lemma DivUnique(a: int, b: int, q: int, r: int)
    requires a == q * b + r && 0 <= r < b
    ensures a / b == q && a % b == r
  {
    var x, y := a / b, a % b;
    assert (q - x) * b == y - r by {
      assert a == x * b + y;
      assert (q - x) * b == q * b - x * b;
    }
    NoMultiple(q - x, b);
    NoMultiple(x - q, b);
    assert (x - q) * b == r - y by {
      assert (x - q) * b == -((q - x) * b);
    }
  }

  lemma NoMultiple(k: int, b: int)
    requires b > 0
    ensures k >= 1 ==> k * b >= b
  {
    if k >= 1 {
      MulMonotone(1, k, b);
    }
  }

  lemma DivMul(q: int, b: int)
    requires b > 0
    ensures q * b / b == q && q * b % b == 0
  {
    DivUnique(q * b, b, q, 0);
  }

  function Div(a: nat, b: nat): (q: nat)
    requires b > 0
    ensures q == a / b && q * b <= a < q * b + b && q <= a
  {
    var q := a / b;
    DivBounds(a, b);
    q
  }

  lemma DivBounds(a: nat, b: nat)
    requires b > 0
    ensures 0 <= a / b <= a && a / b * b <= a < a / b * b + b
  {
    var q := a / b;
    assert a == q * b + a % b;
    NoMultiple(-q, b);
    assert -q * b == -(q * b);
    assert q * (b - 1) >= 0 by {
      if q >= 0 {
        MulMonotone(0, q, b - 1);
      }
    }
    assert q * b == q * (b - 1) + q;
  }

  lemma DivMonotone(a: nat, b: nat, q: nat)
    requires q > 0 && a <= b
    ensures Div(a, q) <= Div(b, q)
  {
    var x, y := Div(a, q), Div(b, q);
    NoMultiple(x - y, q);
    assert (x - y) * q == x * q - y * q;
  }
}
