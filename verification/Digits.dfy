/** Numbers as digit sequences in any base, least significant digit first, and the step that multiplies and adds in place. */
module Digits {

  import opened Powers

  function Pow(b: nat, e: nat): nat
  {
    if e == 0 then 1 else b * Pow(b, e - 1)
  }

  lemma {:induction false} PowAdd(b: nat, x: nat, y: nat)
    ensures Pow(b, x + y) == Pow(b, x) * Pow(b, y)
  {
    if x > 0 {
      PowAdd(b, x - 1, y);
      assert b * (Pow(b, x - 1) * Pow(b, y)) == b * Pow(b, x - 1) * Pow(b, y);
    }
  }

  lemma {:induction false} PowPower(b: nat, x: nat, k: nat)
    ensures Pow(Pow(b, x), k) == Pow(b, x * k)
  {
    if k == 0 {
      assert x * 0 == 0;
    } else {
      PowPower(b, x, k - 1);
      assert x * k == x + x * (k - 1);
      PowAdd(b, x, x * (k - 1));
    }
  }

  lemma {:induction false} PowPositive(b: nat, e: nat)
    requires b > 0
    ensures Pow(b, e) >= 1
  {
    if e > 0 {
      PowPositive(b, e - 1);
      MulMonotone(1, b, Pow(b, e - 1));
    }
  }

  lemma PowGrows(b: nat, x: nat, y: nat)
    requires b > 0 && x <= y
    ensures Pow(b, x) <= Pow(b, y)
  {
    hide Pow;
    PowAdd(b, x, y - x);
    PowPositive(b, y - x);
    MulMonotone(1, Pow(b, y - x), Pow(b, x));
    assert x + (y - x) == y;
  }

  lemma {:induction false} PowOrdered(a: nat, b: nat, e: nat)
    requires a <= b
    ensures Pow(a, e) <= Pow(b, e)
  {
    if e > 0 {
      PowOrdered(a, b, e - 1);
      MulMonotone(a, b, Pow(a, e - 1));
      MulMonotone(Pow(a, e - 1), Pow(b, e - 1), b);
    }
  }

  lemma {:induction false} PowStrict(a: nat, b: nat, e: nat)
    requires a < b && e > 0
    ensures Pow(a, e) < Pow(b, e)
  {
    if e == 1 {
      assert Pow(a, 1) == a * Pow(a, 0) && Pow(b, 1) == b * Pow(b, 0);
    } else {
      PowStrict(a, b, e - 1);
      MulMonotone(a, b, Pow(a, e - 1));
      MulMonotone(Pow(a, e - 1) + 1, Pow(b, e - 1), b);
      assert (Pow(a, e - 1) + 1) * b == Pow(a, e - 1) * b + b;
    }
  }

  /** If a^q <= b^p, then t digits in base b suffice for m in base a whenever t / m >= p / q. */
  lemma DigitsSuffice(a: nat, b: nat, p: nat, q: nat, m: nat, t: nat)
    requires b > 0 && q > 0 && Pow(a, q) <= Pow(b, p) && q * t >= p * m
    ensures Pow(a, m) <= Pow(b, t)
  {
    var u, w, z := q * m, p * m, q * t;
    hide Pow;
    RaisedToQ(a, b, p, q, m, t, u, w, z);
    RootOrdered(Pow(a, m), Pow(b, t), q);
  }

  lemma RaisedToQ(a: nat, b: nat, p: nat, q: nat, m: nat, t: nat, u: nat, w: nat, z: nat)
    requires b > 0 && Pow(a, q) <= Pow(b, p) && u == q * m && w == p * m && z == q * t && w <= z
    ensures Pow(Pow(a, m), q) <= Pow(Pow(b, t), q)
  {
    hide Pow;
    PowPowerIs(a, m, q, u);
    PowPowerIs(a, q, m, u);
    PowPowerIs(b, p, m, w);
    PowPowerIs(b, t, q, z);
    PowOrdered(Pow(a, q), Pow(b, p), m);
    PowGrows(b, w, z);
  }

  lemma PowPowerIs(b: nat, x: nat, k: nat, n: nat)
    requires n == x * k
    ensures Pow(Pow(b, x), k) == Pow(b, n)
  {
    PowPower(b, x, k);
  }

  lemma RootOrdered(x: nat, y: nat, e: nat)
    requires e > 0 && Pow(x, e) <= Pow(y, e)
    ensures x <= y
  {
    hide Pow;
    if y < x {
      PowStrict(y, x, e);
      assert false;
    }
  }

  // ----- Values

  ghost predicate InBase(s: seq<nat>, base: nat)
  {
    forall i :: 0 <= i < |s| ==> s[i] < base
  }

  function Val(s: seq<nat>, base: nat): nat
  {
    if s == [] then 0 else s[0] + base * Val(s[1..], base)
  }

  lemma {:induction false} ValSplit(s: seq<nat>, base: nat, i: nat)
    requires i <= |s|
    ensures Val(s, base) == Val(s[..i], base) + Pow(base, i) * Val(s[i..], base)
  {
    if i == 0 {
      assert s[0..] == s;
    } else {
      ValSplit(s[1..], base, i - 1);
      assert s[..i][1..] == s[1..][..i - 1] && s[i..] == s[1..][i - 1..];
      var lo, hi, p := Val(s[1..][..i - 1], base), Val(s[i..], base), Pow(base, i - 1);
      Distribute(base, lo, p, hi);
    }
  }

  lemma Distribute(b: nat, lo: nat, p: nat, hi: nat)
    ensures b * (lo + p * hi) == b * lo + b * p * hi
  {
    assert b * (p * hi) == b * p * hi;
  }

  lemma ValStep(s: seq<nat>, base: nat, i: nat)
    requires i < |s|
    ensures Val(s[..i + 1], base) == Val(s[..i], base) + Pow(base, i) * s[i]
  {
    var t := s[..i + 1];
    ValSplit(t, base, i);
    assert t[..i] == s[..i] && t[i..] == [s[i]];
    assert [s[i]][1..] == [];
    assert Val([s[i]], base) == s[i] + base * 0;
  }

  lemma {:induction false} ValZero(s: seq<nat>, base: nat)
    requires forall i :: 0 <= i < |s| ==> s[i] == 0
    ensures Val(s, base) == 0
  {
    if s != [] {
      ValZero(s[1..], base);
    }
  }

  lemma {:induction false} ValBound(s: seq<nat>, base: nat)
    requires InBase(s, base)
    ensures Val(s, base) < Pow(base, |s|)
  {
    if s != [] {
      ValBound(s[1..], base);
      MulMonotone(Val(s[1..], base) + 1, Pow(base, |s| - 1), base);
      assert (Val(s[1..], base) + 1) * base == base * Val(s[1..], base) + base;
      assert Pow(base, |s| - 1) * base == base * Pow(base, |s| - 1);
    }
  }

  // ----- Canonical digits

  function ToDigits(v: nat, base: nat): seq<nat>
    requires base > 1
  {
    if v == 0 then [] else DivBounds(v, base); Smaller(v, base); [v % base] + ToDigits(v / base, base)
  }

  lemma Smaller(v: nat, base: nat)
    requires v > 0 && base > 1
    ensures v / base < v
  {
    DivBounds(v, base);
    if v / base == v {
      MulMonotone(2, base, v);
      assert false;
    }
  }

  predicate Trimmed(s: seq<nat>)
  {
    s == [] || s[|s| - 1] != 0
  }

  lemma {:induction false} ToDigitsValue(v: nat, base: nat)
    requires base > 1
    ensures Val(ToDigits(v, base), base) == v && InBase(ToDigits(v, base), base) && Trimmed(ToDigits(v, base))
    decreases v
  {
    hide Val, InBase, Trimmed, ToDigits;
    if v == 0 {
      NoDigits(base);
    } else {
      var q, d := v / base, v % base;
      DivBounds(v, base);
      Smaller(v, base);
      ToDigitsValue(q, base);
      ToDigitsStep(v, base);
      ConsDigit(d, ToDigits(q, base), base);
      DigitsLeft(v, base, q, d);
    }
  }

  lemma NoDigits(base: nat)
    requires base > 1
    ensures ToDigits(0, base) == [] && Val([], base) == 0 && InBase([], base) && Trimmed([])
  {
  }

  lemma ToDigitsStep(v: nat, base: nat)
    requires base > 1 && v > 0
    ensures 0 <= v / base && ToDigits(v, base) == [v % base] + ToDigits(v / base, base)
  {
    DivBounds(v, base);
  }

  lemma DigitsLeft(v: nat, base: nat, q: nat, d: nat)
    requires base > 1 && v > 0 && q == v / base && d == v % base
    ensures d + base * q == v
    ensures ToDigits(q, base) != [] || d != 0
  {
    hide ToDigits;
    assert v == q * base + d;
    if q > 0 {
      ToDigitsStep(q, base);
    }
  }

  lemma ConsDigit(d: nat, s: seq<nat>, base: nat)
    requires base > 1 && d < base && InBase(s, base) && Trimmed(s)
    ensures Val([d] + s, base) == d + base * Val(s, base) && InBase([d] + s, base)
    ensures s != [] || d != 0 ==> Trimmed([d] + s)
  {
    assert ([d] + s)[1..] == s;
  }

  /** A trimmed digit sequence is the canonical one of its value. */
  lemma {:induction false} ToDigitsUnique(s: seq<nat>, base: nat)
    requires base > 1 && InBase(s, base) && Trimmed(s)
    ensures ToDigits(Val(s, base), base) == s
  {
    if s != [] {
      var rest := s[1..];
      ToDigitsUnique(rest, base);
      var v := Val(s, base);
      assert v == Val(rest, base) * base + s[0];
      DivUnique(v, base, Val(rest, base), s[0]);
      assert s == [s[0]] + rest;
    }
  }

  // ----- Multiply and add

  /** After i digits of s := s * mul + add. */
  ghost predicate Scaled(before: seq<nat>, s: seq<nat>, base: nat, mul: nat, add: nat, carry: nat, i: nat)
  {
    && i <= |s| == |before| && s[i..] == before[i..] && InBase(s, base)
    && Val(s[..i], base) + Pow(base, i) * carry == mul * Val(before[..i], base) + add
  }

  lemma ScaledStep(before: seq<nat>, s: seq<nat>, base: nat, mul: nat, add: nat, carry: nat, i: nat)
    requires base > 1 && Scaled(before, s, base, mul, add, carry, i) && i < |s|
    ensures var n := carry + mul * s[i];
            0 <= n % base < base && n / base >= 0 && Scaled(before, s[i := n % base], base, mul, add, n / base, i + 1)
  {
    var n, p := carry + mul * s[i], Pow(base, i);
    DivBounds(n, base);
    var next := s[i := n % base];
    hide Val;
    assert s[i] == s[i..][0] == before[i];
    ValStep(next, base, i);
    ValStep(before, base, i);
    assert next[..i] == s[..i];
    assert next[i + 1..] == s[i..][1..] && before[i + 1..] == before[i..][1..];
    PowNext(base, i);
    ScaledArithmetic(p, base, n, carry, mul, before[i], Val(before[..i], base));
  }

  lemma PowNext(base: nat, i: nat)
    ensures Pow(base, i + 1) == base * Pow(base, i)
  {
  }

  lemma ScaledArithmetic(p: nat, base: nat, n: nat, carry: nat, mul: nat, x: nat, v: nat)
    requires base > 1 && n == carry + mul * x
    ensures 0 <= n % base && 0 <= n / base && p * (n % base) + base * p * (n / base) == p * carry + mul * (p * x)
    ensures mul * (v + p * x) == mul * v + mul * (p * x)
  {
    DivBounds(n, base);
    var q, r := n / base, n % base;
    assert n == q * base + r;
    assert base * p * q == p * (q * base);
    assert p * r + p * (q * base) == p * (r + q * base);
    assert p * (carry + mul * x) == p * carry + p * (mul * x);
    assert p * (mul * x) == mul * (p * x);
  }

  /** When nothing is carried out and the rest was zero, the whole number is scaled. */
  lemma ScaledDone(before: seq<nat>, s: seq<nat>, base: nat, mul: nat, add: nat, i: nat)
    requires Scaled(before, s, base, mul, add, 0, i) && (forall k :: i <= k < |before| ==> before[k] == 0)
    ensures Val(s, base) == mul * Val(before, base) + add
  {
    hide Val;
    ValSplit(s, base, i);
    ValSplit(before, base, i);
    ValZero(before[i..], base);
  }

  /** A number that fits carries nothing out of the last digit. */
  lemma NothingCarried(before: seq<nat>, s: seq<nat>, base: nat, mul: nat, add: nat, carry: nat)
    requires Scaled(before, s, base, mul, add, carry, |s|) && mul * Val(before, base) + add < Pow(base, |s|)
    ensures carry == 0
  {
    assert s[..|s|] == s && before[..|s|] == before;
    if carry > 0 {
      MulMonotone(1, carry, Pow(base, |s|));
      assert false;
    }
  }

  /** s := s * mul + add, on the digits in use and as far as there is a carry. */
  method MultiplyAdd(before: seq<nat>, length: nat, base: nat, mul: nat, add: nat) returns (s: seq<nat>, used: nat)
    requires base > 1 && InBase(before, base) && length <= |before|
    requires forall k :: length <= k < |before| ==> before[k] == 0
    requires mul * Val(before, base) + add < Pow(base, |before|)
    ensures |s| == |before| && used <= |s| && InBase(s, base)
    ensures Val(s, base) == mul * Val(before, base) + add
    ensures forall k :: used <= k < |s| ==> s[k] == 0
  {
    hide Val, Scaled;
    s := before;
    var carry, i := add, 0;
    ScaledStart(before, base, mul, add);
    while (carry != 0 || i < length) && i < |s|
      invariant 0 <= i <= |s| == |before| && carry >= 0 && Scaled(before, s, base, mul, add, carry, i)
      invariant forall k :: i <= k < |s| ==> s[k] == before[k]
    {
      ScaledStep(before, s, base, mul, add, carry, i);
      carry := carry + mul * s[i];
      s := s[i := carry % base];
      carry := carry / base;
      i := i + 1;
    }
    if i == |s| {
      NothingCarried(before, s, base, mul, add, carry);
    }
    assert carry == 0;
    ScaledDone(before, s, base, mul, add, i);
    ScaledInBase(before, s, base, mul, add, 0, i);
    used := i;
  }

  lemma ScaledStart(before: seq<nat>, base: nat, mul: nat, add: nat)
    requires InBase(before, base)
    ensures Scaled(before, before, base, mul, add, add, 0)
  {
    assert Val(before[..0], base) == 0;
    assert mul * 0 == 0;
  }

  lemma ScaledInBase(before: seq<nat>, s: seq<nat>, base: nat, mul: nat, add: nat, carry: nat, i: nat)
    requires Scaled(before, s, base, mul, add, carry, i)
    ensures InBase(s, base)
  {
  }

  /** The digits in use without zeros at the top, as a canonical sequence. */
  method Trim(s: seq<nat>, base: nat, length: nat) returns (r: seq<nat>)
    requires base > 1 && InBase(s, base) && length <= |s| && (forall k :: length <= k < |s| ==> s[k] == 0)
    ensures r == ToDigits(Val(s, base), base)
  {
    hide Val;
    var n: nat := length;
    while n > 0 && s[n - 1] == 0
      invariant n <= length && forall k :: n <= k < |s| ==> s[k] == 0
    {
      n := n - 1;
    }
    r := s[..n];
    ValSplit(s, base, n);
    ValZero(s[n..], base);
    ToDigitsUnique(r, base);
  }
}
