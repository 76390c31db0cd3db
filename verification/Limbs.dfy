/**
 Numbers as little-endian sequences of 32-bit limbs, of any length, and what the
 limb loops do to the number they hold.
 */
module Limbs {

  import opened Powers

  const BASE: int := 0x1_0000_0000

  type Limb = x: int | 0 <= x < 0x1_0000_0000

  /** The weight of limb i. */
  function Weight(i: nat): (w: nat)
    ensures w >= 1
  {
    Pow2(32 * i)
  }

  lemma WeightStep(i: nat)
    ensures Weight(i + 1) == BASE * Weight(i) && Weight(0) == 1
  {
    Pow2Add(32, 32 * i);
    assert Pow2(32) == BASE by {
      assert Pow2(8) == 256;
      Pow2Add(8, 8);
      Pow2Add(16, 16);
    }
  }

  /** The number a sequence of limbs holds. */
  function Value(s: seq<Limb>): nat
  {
    if |s| == 0 then 0 else Value(s[..|s| - 1]) + s[|s| - 1] * Weight(|s| - 1)
  }

  lemma ValueStep(s: seq<Limb>, i: nat)
    requires i < |s|
    ensures Value(s[..i + 1]) == Value(s[..i]) + s[i] * Weight(i)
  {
    assert s[..i + 1][..i] == s[..i];
  }

  lemma ValueLast(s: seq<Limb>)
    requires |s| > 0
    ensures Value(s) == Value(s[..|s| - 1]) + s[|s| - 1] * Weight(|s| - 1)
  {
  }

  lemma {:induction false} ValueBound(s: seq<Limb>)
    ensures Value(s) < Weight(|s|)
  {
    if |s| == 0 {
      WeightStep(0);
    } else {
      var i := |s| - 1;
      ValueBound(s[..i]);
      WeightStep(i);
      MulMonotone(s[i], BASE - 1, Weight(i));
      assert (BASE - 1) * Weight(i) == BASE * Weight(i) - Weight(i);
    }
  }

  /** One limb of a sum with carry: what is written and what is carried add up. */
  lemma CarryStep(n: nat, w: nat)
    ensures n % BASE * w + n / BASE * (BASE * w) == n * w
  {
    var q, r := n / BASE, n % BASE;
    assert n == q * BASE + r;
    assert (q * BASE + r) * w == q * BASE * w + r * w;
    assert q * BASE * w == q * (BASE * w);
  }

  /** The loop invariant of addition after i limbs. */
  ghost predicate Adding(a: seq<Limb>, b: seq<Limb>, sum: seq<Limb>, carry: nat, i: nat)
  {
    && |a| == |b| == |sum| && i <= |a| && carry <= 1
    && sum[i..] == a[i..]
    && Value(sum[..i]) + carry * Weight(i) == Value(a[..i]) + Value(b[..i])
  }

  lemma AddingStep(a: seq<Limb>, b: seq<Limb>, sum: seq<Limb>, carry: nat, i: nat)
    requires Adding(a, b, sum, carry, i) && i < |a|
    ensures var n := carry + a[i] + b[i];
            Adding(a, b, sum[i := n % BASE], n / BASE, i + 1)
  {
    hide Weight, Value;
    var n := carry + a[i] + b[i];
    var next := sum[i := n % BASE];
    var w := Weight(i);
    ValueStep(a, i);
    ValueStep(b, i);
    ValueStep(next, i);
    assert next[..i] == sum[..i];
    WeightStep(i);
    CarryStep(n, w);
    assert n * w == carry * w + a[i] * w + b[i] * w;
    assert next[i + 1..] == sum[i..][1..];
    assert a[i + 1..] == a[i..][1..];
  }

  lemma AddingDone(a: seq<Limb>, b: seq<Limb>, sum: seq<Limb>, carry: nat)
    requires Adding(a, b, sum, carry, |a|)
    ensures Value(sum) == (Value(a) + Value(b)) % Weight(|a|)
  {
    hide Weight, Value;
    assert sum[..|a|] == sum && a[..|a|] == a && b[..|a|] == b;
    ValueBound(sum);
    DivUnique(Value(a) + Value(b), Weight(|a|), carry, Value(sum));
  }

  /** Numbers that agree from limb i on differ by what is below limb i. */
  lemma {:induction false} SameTop(s: seq<Limb>, t: seq<Limb>, i: nat)
    requires i <= |s| == |t| && s[i..] == t[i..]
    ensures Value(s) - Value(s[..i]) == Value(t) - Value(t[..i])
    decreases |s| - i
  {
    if i < |s| {
      assert s[i + 1..] == s[i..][1..] == t[i + 1..];
      assert s[i] == s[i..][0] == t[i];
      SameTop(s, t, i + 1);
      ValueStep(s, i);
      ValueStep(t, i);
    } else {
      assert s[..i] == s && t[..i] == t;
    }
  }

  lemma {:induction false} ZeroValue(s: seq<Limb>)
    requires forall k :: 0 <= k < |s| ==> s[k] == 0
    ensures Value(s) == 0
  {
    if |s| > 0 {
      ZeroValue(s[..|s| - 1]);
    }
  }

  // ----- Increment and complement

  /** After i limbs have wrapped to zero. */
  ghost predicate Incrementing(a: seq<Limb>, cur: seq<Limb>, i: nat)
  {
    && i <= |a| == |cur| && cur[i..] == a[i..]
    && Value(cur[..i]) == 0 && Value(a[..i]) == Weight(i) - 1
  }

  lemma IncrementingStep(a: seq<Limb>, cur: seq<Limb>, i: nat)
    requires Incrementing(a, cur, i) && i < |a|
    ensures cur[i] == a[i]
    ensures var next := cur[i := (cur[i] + 1) % BASE];
            if next[i] == 0 then Incrementing(a, next, i + 1)
            else Value(next) == (Value(a) + 1) % Weight(|a|)
  {
    hide Weight, Value;
    assert cur[i] == cur[i..][0] == a[i];
    var next := cur[i := (cur[i] + 1) % BASE];
    ValueStep(a, i);
    ValueStep(next, i);
    assert next[..i] == cur[..i];
    assert next[i + 1..] == cur[i..][1..];
    assert a[i + 1..] == a[i..][1..];
    if next[i] == 0 {
      WeightStep(i);
      assert a[i] * Weight(i) == BASE * Weight(i) - Weight(i);
    } else {
      IncrementStops(a, next, i);
    }
  }

  lemma IncrementStops(a: seq<Limb>, next: seq<Limb>, i: nat)
    requires i < |a| == |next| && next[i + 1..] == a[i + 1..] && a[i] < BASE - 1 && next[i] == a[i] + 1
    requires Value(next[..i]) == 0 && Value(a[..i]) == Weight(i) - 1
    ensures Value(next) == (Value(a) + 1) % Weight(|a|)
  {
    hide Weight, Value;
    ValueStep(a, i);
    ValueStep(next, i);
    SameTop(next, a, i + 1);
    var x: nat := a[i];
    assert (x + 1) * Weight(i) == x * Weight(i) + Weight(i);
    ValueBound(next);
    DivUnique(Value(a) + 1, Weight(|a|), 0, Value(next));
  }

  lemma IncrementingDone(a: seq<Limb>, cur: seq<Limb>)
    requires Incrementing(a, cur, |a|)
    ensures Value(cur) == (Value(a) + 1) % Weight(|a|)
  {
    hide Weight, Value;
    assert cur[..|a|] == cur && a[..|a|] == a;
    DivMul(1, Weight(|a|));
  }

  lemma {:induction false} ComplementValue(s: seq<Limb>, t: seq<Limb>)
    requires |s| == |t| && forall k :: 0 <= k < |s| ==> t[k] == BASE - 1 - s[k]
    ensures Value(t) == Weight(|s|) - 1 - Value(s)
  {
    hide Weight, Value;
    if |s| > 0 {
      var i := |s| - 1;
      ComplementValue(s[..i], t[..i]);
      ValueLast(s);
      ValueLast(t);
      WeightStep(i);
      assert t[i] * Weight(i) == BASE * Weight(i) - Weight(i) - s[i] * Weight(i);
    } else {
      WeightStep(0);
      ZeroValue(s);
      ZeroValue(t);
    }
  }

  /** Adding the complement plus one subtracts. */
  lemma SubtractModulo(a: nat, b: nat, w: nat)
    requires a < w && b < w
    ensures (a + (w - b) % w) % w == (a - b) % w
    ensures a >= b ==> (a - b) % w == a - b
  {
    if b == 0 {
      DivUnique(w, w, 1, 0);
    } else {
      DivUnique(w - b, w, 0, w - b);
      if a >= b {
        DivUnique(a + (w - b), w, 1, a - b);
        DivUnique(a - b, w, 0, a - b);
      } else {
        DivUnique(a + (w - b), w, 0, a + w - b);
        DivUnique(a - b, w, -1, a + w - b);
      }
    }
    if a >= b {
      DivUnique(a - b, w, 0, a - b);
    }
  }

  // ----- Multiplication

  /** A limb times a limb plus a limb and a carry fits two limbs. */
  lemma ProductFits(x: Limb, y: Limb, z: Limb, carry: Limb)
    ensures 0 <= carry + z + x * y < BASE * BASE
    ensures (carry + z + x * y) / BASE < BASE
  {
    MulMonotone(x, BASE - 1, y);
    assert (BASE - 1) * y <= (BASE - 1) * (BASE - 1);
  }

  ghost predicate Scaling(a: seq<Limb>, b: Limb, cur: seq<Limb>, carry: Limb, i: nat)
  {
    && i <= |a| == |cur| && cur[i..] == a[i..]
    && Value(cur[..i]) + carry * Weight(i) == b * Value(a[..i])
  }

  lemma ScalingStep(a: seq<Limb>, b: Limb, cur: seq<Limb>, carry: Limb, i: nat)
    requires Scaling(a, b, cur, carry, i) && i < |a|
    ensures cur[i] == a[i]
    ensures var n := carry + b * a[i];
            0 <= n < BASE * BASE && n / BASE < BASE && Scaling(a, b, cur[i := n % BASE], n / BASE, i + 1)
  {
    hide Weight, Value;
    assert cur[i] == cur[i..][0] == a[i];
    ProductFits(b, a[i], 0, carry);
    var n, w := carry + b * a[i], Weight(i);
    var next := cur[i := n % BASE];
    ValueStep(a, i);
    ValueStep(next, i);
    WeightStep(i);
    CarryStep(n, w);
    assert next[..i] == cur[..i];
    assert next[i + 1..] == cur[i..][1..];
    assert a[i + 1..] == a[i..][1..];
    Distribute(carry, b, a[i], w, Value(a[..i]));
  }

  lemma Distribute(carry: nat, b: nat, x: nat, w: nat, v: nat)
    ensures (carry + b * x) * w == carry * w + b * (x * w)
    ensures b * (v + x * w) == b * v + b * (x * w)
  {
    assert b * x * w == b * (x * w);
  }

  lemma ScalingDone(a: seq<Limb>, b: Limb, cur: seq<Limb>, carry: Limb)
    requires Scaling(a, b, cur, carry, |a|)
    ensures Value(cur) == Value(a) * b % Weight(|a|)
  {
    hide Weight, Value;
    assert cur[..|a|] == cur && a[..|a|] == a;
    ValueBound(cur);
    DivUnique(Value(a) * b, Weight(|a|), carry, Value(cur));
  }

  /** The row for limb j of a, after i limbs of b, on top of the rows before. */
  ghost predicate Row(x: Limb, j: nat, b: seq<Limb>, before: seq<Limb>, cur: seq<Limb>, carry: Limb, i: nat)
  {
    && |before| == |cur| == |b| && i + j <= |b|
    && cur[i + j..] == before[i + j..]
    && Value(cur[..i + j]) + carry * Weight(i + j) == Value(before[..i + j]) + x * Weight(j) * Value(b[..i])
  }

  lemma WeightAdd(i: nat, j: nat)
    ensures Weight(i + j) == Weight(i) * Weight(j)
  {
    Pow2Add(32 * i, 32 * j);
    assert 32 * i + 32 * j == 32 * (i + j);
  }

  lemma RowStep(x: Limb, j: nat, b: seq<Limb>, before: seq<Limb>, cur: seq<Limb>, carry: Limb, i: nat)
    requires Row(x, j, b, before, cur, carry, i) && i + j < |b|
    ensures var n := carry + cur[i + j] + x * b[i];
            0 <= n < BASE * BASE && n / BASE < BASE && Row(x, j, b, before, cur[i + j := n % BASE], n / BASE, i + 1)
  {
    hide Weight, Value;
    var m, n, w := i + j, carry + cur[i + j] + x * b[i], Weight(i + j);
    ProductFits(x, b[i], cur[m], carry);
    var next := cur[m := n % BASE];
    assert cur[m] == cur[m..][0] == before[m];
    ValueStep(next, m);
    ValueStep(before, m);
    ValueStep(b, i);
    WeightStep(m);
    WeightAdd(i, j);
    CarryStep(n, w);
    assert next[..m] == cur[..m];
    assert next[m + 1..] == cur[m..][1..];
    assert before[m + 1..] == before[m..][1..];
    RowArithmetic(carry, before[m], x, b[i], Weight(i), Weight(j), Value(b[..i]));
  }

  lemma RowArithmetic(carry: nat, z: nat, x: nat, y: nat, wi: nat, wj: nat, v: nat)
    ensures (carry + z + x * y) * (wi * wj) == carry * (wi * wj) + z * (wi * wj) + x * wj * (y * wi)
    ensures x * wj * (v + y * wi) == x * wj * v + x * wj * (y * wi)
  {
    var w := wi * wj;
    assert (carry + z + x * y) * w == carry * w + z * w + x * y * w;
    assert x * y * w == x * wj * (y * wi) by {
      assert x * y * (wi * wj) == x * (y * (wi * wj));
      assert y * (wi * wj) == wj * (y * wi);
      assert x * (wj * (y * wi)) == x * wj * (y * wi);
    }
  }

  /** A finished row adds a[j] times b, up to a multiple of the modulus. */
  lemma {:induction false} RowDone(a: seq<Limb>, b: seq<Limb>, before: seq<Limb>, cur: seq<Limb>, carry: Limb, j: nat, over: nat)
      returns (more: nat)
    requires |a| == |b| && j < |a| && Row(a[j], j, b, before, cur, carry, |b| - j)
    requires Value(before) + over * Weight(|b|) == Value(a[..j]) * Value(b)
    ensures Value(cur) + more * Weight(|b|) == Value(a[..j + 1]) * Value(b)
  {
    hide Weight, Value;
    var n := |b|;
    var top := TopPart(b, n - j);
    WeightAdd(n - j, j);
    assert cur[..n] == cur && before[..n] == before;
    ValueStep(a, j);
    more := over + carry + a[j] * top;
    DoneArithmetic(a[j], Weight(j), Weight(n - j), top, Value(b[..n - j]), Value(a[..j]), Value(b));
    assert more * Weight(n) == over * Weight(n) + carry * Weight(n) + a[j] * top * Weight(n);
  }

  lemma DoneArithmetic(x: nat, wj: nat, wr: nat, top: nat, low: nat, v: nat, b: nat)
    requires b == low + top * wr
    ensures (v + x * wj) * b == v * b + x * wj * low + x * top * (wr * wj)
  {
    assert (v + x * wj) * b == v * b + x * wj * b;
    assert x * wj * (low + top * wr) == x * wj * low + x * wj * (top * wr);
    assert x * wj * (top * wr) == x * top * (wr * wj) by {
      assert x * wj * (top * wr) == x * (wj * (top * wr));
      assert wj * (top * wr) == top * (wr * wj);
      assert x * (top * (wr * wj)) == x * top * (wr * wj);
    }
  }

  /** The limbs from i on, as a number. */
  lemma {:induction false} TopPart(s: seq<Limb>, i: nat) returns (top: nat)
    requires i <= |s|
    ensures Value(s) == Value(s[..i]) + top * Weight(i)
    decreases |s| - i
  {
    hide Weight, Value;
    if i == |s| {
      assert s[..i] == s;
      top := 0;
    } else {
      var rest := TopPart(s, i + 1);
      ValueStep(s, i);
      WeightStep(i);
      top := s[i] + rest * BASE;
      assert (s[i] + rest * BASE) * Weight(i) == s[i] * Weight(i) + rest * (BASE * Weight(i)) by {
        assert rest * BASE * Weight(i) == rest * (BASE * Weight(i));
      }
    }
  }

  // ----- Comparison

  lemma HigherLimbDecides(s: seq<Limb>, t: seq<Limb>, i: nat)
    requires i < |s| == |t| && s[i] < t[i] && forall k :: i < k < |s| ==> s[k] == t[k]
    ensures Value(s) < Value(t)
  {
    hide Weight, Value;
    SameTop(s, t, i + 1);
    ValueStep(s, i);
    ValueStep(t, i);
    ValueBound(s[..i]);
    MulMonotone(s[i] + 1, t[i], Weight(i));
    assert (s[i] + 1) * Weight(i) == s[i] * Weight(i) + Weight(i);
  }

  // ----- The start of each loop

  lemma AddingStart(a: seq<Limb>, b: seq<Limb>)
    requires |a| == |b|
    ensures Adding(a, b, a, 0, 0)
  {
  }

  lemma IncrementingStart(a: seq<Limb>)
    ensures Incrementing(a, a, 0)
  {
    WeightStep(0);
  }

  lemma ScalingStart(a: seq<Limb>, b: Limb)
    ensures Scaling(a, b, a, 0, 0)
  {
  }

  lemma MultiplyStart(a: seq<Limb>, b: nat)
    ensures Value(a[..0]) * b == 0
  {
  }

  lemma RowStart(x: Limb, j: nat, b: seq<Limb>, before: seq<Limb>)
    requires j <= |b| == |before|
    ensures Row(x, j, b, before, before, 0, 0)
  {
  }

  // ----- Numbers of two limbs

  lemma LowLimbs(s: seq<Limb>)
    requires |s| >= 2 && forall k :: 2 <= k < |s| ==> s[k] == 0
    ensures Value(s) == s[0] + s[1] * BASE
  {
    hide Weight, Value;
    ZeroAbove(s, 2);
    ValueStep(s, 1);
    ValueStep(s, 0);
    ZeroValue(s[..0]);
    WeightStep(0);
    assert s[..2] == s[..1 + 1] && s[..1] == s[..0 + 1];
  }

  lemma {:induction false} ZeroAbove(s: seq<Limb>, i: nat)
    requires i <= |s| && forall j :: i <= j < |s| ==> s[j] == 0
    ensures Value(s) == Value(s[..i])
    decreases |s| - i
  {
    hide Weight;
    if i < |s| {
      ZeroAbove(s, i + 1);
      ValueStep(s, i);
    } else {
      assert s[..i] == s;
    }
  }

  /** A limb from the third on makes the number too large for 64 bits. */
  lemma LargeValue(s: seq<Limb>, i: nat)
    requires 2 <= i < |s| && s[i] != 0
    ensures Value(s) >= BASE * BASE
  {
    hide Weight, Value;
    var top := TopPart(s, i + 1);
    ValueStep(s, i);
    MulMonotone(1, s[i], Weight(i));
    WeightGrows(i);
  }

  lemma {:induction false} WeightGrows(i: nat)
    requires i >= 2
    ensures Weight(i) >= BASE * BASE
  {
    hide Weight;
    WeightStep(i - 1);
    if i == 2 {
      WeightStep(0);
    } else {
      WeightGrows(i - 1);
    }
  }
}
