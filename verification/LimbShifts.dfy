/** Shifts of a limb sequence, its highest bit, and setting one bit. */
module LimbShifts {

  import opened Powers
  import opened Limbs

  function Or(x: nat, y: nat): nat
  {
    if x == 0 then y else if y == 0 then x
    else (if x % 2 == 1 || y % 2 == 1 then 1 else 0) + 2 * Or(x / 2, y / 2)
  }

  /** One bit of an or. */
  lemma OrStep(u: nat, v: nat, i: nat, j: nat)
    requires i < 2 && j < 2
    ensures Or(2 * u + i, 2 * v + j) == (if i == 1 || j == 1 then 1 else 0) + 2 * Or(u, v)
  {
  }

  lemma ZeroOr(y: nat)
    ensures Or(0, y) == y == Or(y, 0)
  {
  }

  lemma TimesDouble(x: nat, p: nat)
    ensures x * (2 * p) == 2 * (x * p)
  {
  }

  /** Disjoint bits add. */
  lemma {:induction false} OrDisjoint(x: nat, y: nat, s: nat)
    requires y < Pow2(s)
    ensures Or(x * Pow2(s), y) == x * Pow2(s) + y == Or(y, x * Pow2(s))
  {
    hide Or, Pow2;
    DoublePow2(0);
    if s == 0 {
      ZeroOr(x);
    } else {
      DoublePow2(s - 1);
      TimesDouble(x, Pow2(s - 1));
      OrDisjoint(x, y / 2, s - 1);
      DisjointStep(x * Pow2(s - 1), y);
    }
  }

  lemma DisjointStep(u: nat, y: nat)
    requires Or(u, y / 2) == u + y / 2 == Or(y / 2, u)
    ensures Or(2 * u, y) == 2 * u + y == Or(y, 2 * u)
  {
    hide Or;
    OrStep(u, y / 2, 0, y % 2);
    OrStep(y / 2, u, y % 2, 0);
  }

  lemma SplitBase(s: nat)
    requires s <= 32
    ensures Pow2(s) * Pow2(32 - s) == BASE
  {
    hide Pow2;
    Pow2Add(s, 32 - s);
    WeightStep(0);
    WeightIs(1);
  }

  /** What a limb shifted left by s leaves in place and what it carries out. */
  lemma SplitLimb(x: Limb, s: nat)
    requires s <= 32
    ensures var p, q := Pow2(s), Pow2(32 - s);
            && p * q == BASE
            && x * p == x / q * BASE + x % q * p
            && x % q * p == x * p % BASE
            && 0 <= x / q < p && x % q * p + p <= BASE
  {
    hide Pow2;
    SplitBase(s);
    SplitProduct(x, Pow2(s), Pow2(32 - s));
  }

  lemma SplitProduct(x: Limb, p: nat, q: nat)
    requires p * q == BASE && p > 0 && q > 0
    ensures x * p == x / q * BASE + x % q * p
    ensures x % q * p == x * p % BASE
    ensures 0 <= x / q < p && x % q * p + p <= BASE
  {
    var hi := Div(x, q);
    var lo := x - hi * q;
    DivUnique(x, q, hi, lo);
    Regroup(hi, q, lo, p);
    MulMonotone(lo + 1, q, p);
    assert (lo + 1) * p == lo * p + p;
    assert q * p == BASE;
    DivUnique(x * p, BASE, hi, lo * p);
    NoMultiple(hi - p + 1, q);
    assert (hi - p + 1) * q == hi * q - BASE + q by {
      assert (hi - p + 1) * q == hi * q - p * q + q;
    }
  }

  lemma Regroup(hi: nat, q: nat, lo: nat, p: nat)
    ensures (hi * q + lo) * p == hi * (p * q) + lo * p
  {
    assert (hi * q + lo) * p == hi * q * p + lo * p;
    assert hi * q * p == hi * (p * q);
  }

  lemma WeightIs(i: nat)
    ensures Weight(i) == Pow2(32 * i)
  {
  }

  /** The factor of a shift by k limbs and s bits. */
  function Factor(k: nat, s: nat): nat
  {
    Pow2(s) * Weight(k)
  }

  lemma FactorIs(k: nat, s: nat)
    ensures Factor(k, s) == Pow2(32 * k + s)
  {
    hide Pow2;
    Pow2Add(s, 32 * k);
    assert s + 32 * k == 32 * k + s;
  }

  // ----- Left

  /** After i limbs; `carry` is what the next limb already holds. */
  ghost predicate LeftShifting(a: seq<Limb>, cur: seq<Limb>, k: nat, s: nat, carry: nat, i: nat)
  {
    && |a| == |cur| && i + k <= |a| && s < 32 && carry < Pow2(s)
    && Value(cur[..i + k]) + carry * Weight(i + k) == Value(a[..i]) * Factor(k, s)
    && (forall j :: i + k <= j < |a| ==> cur[j] == if j == i + k then carry else 0)
  }

  lemma LeftStart(a: seq<Limb>, cur: seq<Limb>, k: nat, s: nat)
    requires |a| == |cur| && k <= |a| && s < 32 && (forall j :: 0 <= j < |a| ==> cur[j] == 0)
    ensures LeftShifting(a, cur, k, s, 0, 0)
  {
    ZeroValue(cur[..k]);
  }

  lemma LeftInRange(a: seq<Limb>, cur: seq<Limb>, k: nat, s: nat, carry: nat, i: nat)
    requires LeftShifting(a, cur, k, s, carry, i) && i + k < |a|
    ensures cur[i + k] == carry
    ensures Or(cur[i + k], a[i] * Pow2(s) % BASE) == a[i] % Pow2(32 - s) * Pow2(s) + carry < BASE
    ensures a[i] / Pow2(32 - s) < Pow2(s) <= BASE
    ensures s == 0 ==> a[i] / Pow2(32 - s) == 0
    ensures i + k + 1 < |a| ==> cur[i + k + 1] == 0
  {
    hide Value, Pow2, Factor;
    SplitLimb(a[i], s);
    OrDisjoint(a[i] % Pow2(32 - s), carry, s);
    Pow2Monotone(s, 32);
    WeightIs(1);
    WeightStep(0);
    if s == 0 {
      assert Pow2(0) == 1 by { WeightIs(0); }
    }
  }

  lemma LeftStep(a: seq<Limb>, cur: seq<Limb>, k: nat, s: nat, carry: nat, i: nat, hi: nat, lo: nat, next: seq<Limb>)
    requires LeftShifting(a, cur, k, s, carry, i) && i + k < |a| == |next|
    requires a[i] * Pow2(s) == hi * BASE + lo && hi < Pow2(s)
    requires next[i + k] == lo + carry && (i + k + 1 < |a| ==> next[i + k + 1] == hi)
    requires forall j :: 0 <= j < |a| && j != i + k && j != i + k + 1 ==> next[j] == cur[j]
    ensures LeftShifting(a, next, k, s, hi, i + 1)
  {
    hide Value, Pow2, Weight;
    var m, p := i + k, Pow2(s);
    ValueStep(next, m);
    ValueStep(a, i);
    assert next[..m] == cur[..m];
    WeightStep(m);
    WeightAdd(i, k);
    LeftArithmetic(Value(a[..i]), a[i], p, Weight(i), Weight(k), hi, lo, carry);
  }

  lemma LeftArithmetic(v: nat, x: nat, p: nat, wi: nat, wk: nat, hi: nat, lo: nat, carry: nat)
    requires x * p == hi * BASE + lo
    ensures (v + x * wi) * (p * wk) == v * (p * wk) + lo * (wi * wk) + hi * (BASE * (wi * wk))
    ensures (lo + carry) * (wi * wk) == lo * (wi * wk) + carry * (wi * wk)
  {
    var w := wi * wk;
    assert (v + x * wi) * (p * wk) == v * (p * wk) + x * wi * (p * wk);
    assert x * wi * (p * wk) == x * p * w by { Shuffle(x, wi, p, wk); assert p * x == x * p; }
    assert (hi * BASE + lo) * w == hi * BASE * w + lo * w;
    assert hi * BASE * w == hi * (BASE * w);
  }

  lemma LeftDone(a: seq<Limb>, cur: seq<Limb>, k: nat, s: nat, carry: nat)
    requires k <= |a| && LeftShifting(a, cur, k, s, carry, |a| - k)
    ensures Value(cur) == Value(a) * Factor(k, s) % Weight(|a|)
  {
    hide Value, Pow2, Weight;
    var n := |a|;
    assert cur[..n] == cur;
    var top := TopPart(a, n - k);
    WeightAdd(n - k, k);
    ValueBound(cur);
    LeftTotal(Value(a[..n - k]), top, Pow2(s), Weight(n - k), Weight(k), carry, Value(cur));
    DivUnique(Value(a) * Factor(k, s), Weight(n), carry + top * Pow2(s), Value(cur));
  }

  lemma LeftTotal(v: nat, top: nat, p: nat, wi: nat, wk: nat, carry: nat, r: nat)
    requires r + carry * (wi * wk) == v * (p * wk)
    ensures (v + top * wi) * (p * wk) == (carry + top * p) * (wi * wk) + r
  {
    LeftArithmetic(v, top, p, wi, wk, 0, top * p, 0);
    Distribute(carry, top * p, wi * wk);
  }

  lemma Distribute(x: nat, y: nat, w: nat)
    ensures (x + y) * w == x * w + y * w
  {
  }

  lemma LeftAllGone(a: seq<Limb>, cur: seq<Limb>, k: nat, s: nat)
    requires |a| == |cur| && k > |a| && (forall j :: 0 <= j < |a| ==> cur[j] == 0)
    ensures Value(cur) == Value(a) * Factor(k, s) % Weight(|a|)
  {
    hide Value, Pow2, Weight;
    ZeroValue(cur);
    WeightAdd(k - |a|, |a|);
    var q := Value(a) * Pow2(s) * Weight(k - |a|);
    assert Value(a) * (Pow2(s) * (Weight(k - |a|) * Weight(|a|))) == q * Weight(|a|) by {
      Associate(Value(a), Pow2(s), Weight(k - |a|), Weight(|a|));
    }
    DivMul(q, Weight(|a|));
  }

  lemma Associate(x: nat, y: nat, z: nat, w: nat)
    ensures x * (y * (z * w)) == x * y * z * w
  {
    assert y * (z * w) == y * z * w;
    assert x * (y * z * w) == x * (y * z) * w;
    assert x * (y * z) == x * y * z;
  }

  // ----- Right

  /** After i limbs, k or more; `rem` has been shifted out. */
  ghost predicate RightShifting(a: seq<Limb>, cur: seq<Limb>, k: nat, s: nat, rem: nat, i: nat)
  {
    && k <= i <= |a| == |cur| && s < 32 && rem < Factor(k, s)
    && Value(cur[..i - k]) * Factor(k, s) + rem == Value(a[..i])
    && (forall j :: i - k <= j < |a| ==> cur[j] == 0)
    && (i > k ==> cur[i - k - 1] < Pow2(32 - s))
  }

  lemma RightStart(a: seq<Limb>, cur: seq<Limb>, k: nat, s: nat)
    requires |a| == |cur| && k <= |a| && s < 32 && (forall j :: 0 <= j < |a| ==> cur[j] == 0)
    ensures RightShifting(a, cur, k, s, Value(a[..k]), k)
  {
    hide Weight, Pow2;
    ZeroValue(cur[..0]);
    ValueBound(a[..k]);
    MulMonotone(1, Pow2(s), Weight(k));
  }

  lemma RightInRange(a: seq<Limb>, cur: seq<Limb>, k: nat, s: nat, rem: nat, i: nat)
    requires RightShifting(a, cur, k, s, rem, i) && i < |a|
    ensures cur[i - k] == 0 && a[i] / Pow2(s) < Pow2(32 - s) <= BASE
    ensures i > k ==> Or(cur[i - k - 1], a[i] * Pow2(32 - s) % BASE) == cur[i - k - 1] + a[i] % Pow2(s) * Pow2(32 - s) < BASE
    ensures s == 0 ==> a[i] % Pow2(s) == 0
  {
    hide Value, Pow2, Factor;
    SplitLimb(a[i], 32 - s);
    assert 32 - (32 - s) == s;
    if i > k {
      OrDisjoint(a[i] % Pow2(s), cur[i - k - 1], 32 - s);
    }
    Pow2Monotone(32 - s, 32);
    WeightIs(1);
    WeightStep(0);
    if s == 0 {
      assert Pow2(0) == 1 by { WeightIs(0); }
    }
  }

  lemma RightFirst(a: seq<Limb>, cur: seq<Limb>, k: nat, s: nat, rem: nat, next: seq<Limb>)
    requires RightShifting(a, cur, k, s, rem, k) && k < |a| == |next|
    requires next[0] == a[k] / Pow2(s) < Pow2(32 - s)
    requires forall j :: 0 < j < |a| ==> next[j] == cur[j]
    ensures RightShifting(a, next, k, s, rem + a[k] % Pow2(s) * Weight(k), k + 1)
  {
    hide Value, Pow2, Weight;
    ValueStep(next, 0);
    ValueStep(a, k);
    ValueBound(a[..k]);
    EmptyPrefix(next);
    EmptyPrefix(cur);
    RightFirstArithmetic(a[k], Pow2(s), Weight(k), rem);
  }

  lemma EmptyPrefix(s: seq<Limb>)
    ensures Value(s[..0]) == 0 && Weight(0) == 1
  {
    WeightStep(0);
  }

  lemma RightFirstArithmetic(x: nat, p: nat, w: nat, rem: nat)
    requires p > 0 && rem < w
    ensures x / p * (p * w) + (rem + x % p * w) == rem + x * w
    ensures rem + x % p * w < p * w
  {
    var q, r := x / p, x % p;
    assert x == q * p + r;
    assert (q * p + r) * w == q * (w * p) + r * w by { Regroup(q, p, r, w); }
    MulMonotone(r + 1, p, w);
    assert (r + 1) * w == r * w + w;
  }

  lemma RightStep(a: seq<Limb>, cur: seq<Limb>, k: nat, s: nat, rem: nat, i: nat, next: seq<Limb>)
    requires RightShifting(a, cur, k, s, rem, i) && k < i < |a| == |next|
    requires next[i - k - 1] == cur[i - k - 1] + a[i] % Pow2(s) * Pow2(32 - s)
    requires next[i - k] == a[i] / Pow2(s) < Pow2(32 - s)
    requires forall j :: 0 <= j < |a| && j != i - k - 1 && j != i - k ==> next[j] == cur[j]
    ensures RightShifting(a, next, k, s, rem, i + 1)
  {
    hide Value, Pow2, Weight;
    var m, p := i - k, Pow2(s);
    ValueStep(next, m);
    ValueStep(next, m - 1);
    ValueStep(cur, m - 1);
    ValueStep(a, i);
    assert next[..m - 1] == cur[..m - 1];
    WeightStep(m - 1);
    WeightAdd(m, k);
    SplitLimb(a[i], s);
    RightArithmetic(Value(cur[..m - 1]), cur[m - 1], a[i], p, Pow2(32 - s), Weight(m - 1), Weight(k));
  }

  lemma RightArithmetic(v: nat, y: nat, x: nat, p: nat, q: nat, w: nat, wk: nat)
    requires p > 0 && p * q == BASE
    ensures (v + (y + x % p * q) * w + x / p * (BASE * w)) * (p * wk) ==
            (v + y * w) * (p * wk) + x * (BASE * w * wk)
  {
    var hi, lo := x / p, x % p;
    assert x == hi * p + lo;
    assert (y + lo * q) * w == y * w + lo * q * w;
    assert (v + y * w + (lo * q * w + hi * (BASE * w))) * (p * wk) ==
           (v + y * w) * (p * wk) + (lo * q * w + hi * (BASE * w)) * (p * wk);
    assert (lo * q * w + hi * (BASE * w)) * (p * wk) == x * (BASE * w * wk) by {
      RightProduct(lo, hi, x, p, q, w, wk);
    }
  }

  lemma RightProduct(lo: nat, hi: nat, x: nat, p: nat, q: nat, w: nat, wk: nat)
    requires p * q == BASE && x == hi * p + lo
    ensures (lo * q * w + hi * (BASE * w)) * (p * wk) == x * (BASE * w * wk)
  {
    var t := w * wk;
    assert BASE * w * wk == BASE * t;
    RightLow(lo, p, q, w, wk);
    RightHigh(hi, p, w, wk);
    assert (hi * p + lo) * (BASE * t) == hi * p * (BASE * t) + lo * (BASE * t);
    assert (lo * q * w + hi * (BASE * w)) * (p * wk) == lo * q * w * (p * wk) + hi * (BASE * w) * (p * wk);
  }

  lemma RightLow(lo: nat, p: nat, q: nat, w: nat, wk: nat)
    requires p * q == BASE
    ensures lo * q * w * (p * wk) == lo * (BASE * (w * wk))
  {
    Shuffle(lo * q, w, p, wk);
    assert p * (lo * q) == lo * (p * q);
    assert lo * BASE * (w * wk) == lo * (BASE * (w * wk));
  }

  lemma RightHigh(hi: nat, p: nat, w: nat, wk: nat)
    ensures hi * (BASE * w) * (p * wk) == hi * p * (BASE * (w * wk))
  {
    assert hi * (BASE * w) == hi * BASE * w;
    Shuffle(hi * BASE, w, p, wk);
    assert p * (hi * BASE) == hi * p * BASE;
    assert hi * p * BASE * (w * wk) == hi * p * (BASE * (w * wk));
  }

  lemma Shuffle(q: nat, w: nat, p: nat, wk: nat)
    ensures q * w * (p * wk) == p * q * (w * wk)
  {
    assert q * w * (p * wk) == q * (w * (p * wk));
    assert w * (p * wk) == p * (w * wk);
    assert q * (p * (w * wk)) == q * p * (w * wk);
  }

  lemma RightDone(a: seq<Limb>, cur: seq<Limb>, k: nat, s: nat, rem: nat)
    requires k <= |a| && RightShifting(a, cur, k, s, rem, |a|)
    ensures Value(cur) == Value(a) / Factor(k, s)
  {
    hide Value, Pow2, Weight, Factor;
    var n := |a|;
    assert a[..n] == a;
    ZeroAbove(cur, n - k);
    DivUnique(Value(a), Factor(k, s), Value(cur), rem);
  }

  lemma RightAllGone(a: seq<Limb>, cur: seq<Limb>, k: nat, s: nat)
    requires |a| == |cur| && k > |a| && (forall j :: 0 <= j < |a| ==> cur[j] == 0)
    ensures Value(cur) == Value(a) / Factor(k, s)
  {
    hide Value, Pow2;
    ZeroValue(cur);
    ValueBound(a);
    Pow2Monotone(32 * |a|, 32 * k);
    MulMonotone(1, Pow2(s), Weight(k));
    DivUnique(Value(a), Factor(k, s), 0, Value(a));
  }

  // ----- The highest bit

  /** A nonzero limb under zeros, with `top` bits in it, gives the number's bit length. */
  lemma HighestBit(s: seq<Limb>, i: nat, top: nat)
    requires i < |s| && (forall j :: i < j < |s| ==> s[j] == 0)
    requires Pow2(top) <= s[i] < 2 * Pow2(top)
    ensures Pow2(32 * i + top) <= Value(s) < Pow2(32 * i + top + 1)
  {
    hide Value, Pow2, Weight;
    ZeroAbove(s, i + 1);
    ValueStep(s, i);
    ValueBound(s[..i]);
    var w: nat, p: nat, x: nat := Weight(i), Pow2(top), s[i];
    MulMonotone(p, x, w);
    MulMonotone(x + 1, 2 * p, w);
    assert (x + 1) * w == x * w + w;
    assert 2 * p * w == 2 * (p * w);
    FactorIs(i, top);
    FactorStep(i, top);
  }

  lemma FactorStep(i: nat, top: nat)
    ensures Factor(i, top) == Pow2(top) * Weight(i)
    ensures Pow2(32 * i + top + 1) == 2 * Pow2(32 * i + top)
  {
  }

  /** Testing bit k of a number below 2^(k + 1). */
  lemma TopBit(x: nat, k: nat)
    requires x < Pow2(k + 1)
    ensures x / Pow2(k) % 2 == 1 <==> x >= Pow2(k)
  {
    hide Pow2;
    var p := Pow2(k);
    assert Pow2(k + 1) == 2 * p by { FactorStep(0, k); assert 32 * 0 + k == k; }
    if x >= p {
      DivUnique(x, p, 1, x - p);
    } else {
      DivUnique(x, p, 0, x);
    }
  }

  // ----- Setting a bit of the quotient

  /** No bit below e is set. */
  ghost predicate ClearBelow(q: seq<Limb>, e: nat)
  {
    && (forall j :: 0 <= j < |q| && j < e / 32 ==> q[j] == 0)
    && (e / 32 < |q| ==> q[e / 32] % Pow2(e % 32) == 0)
  }

  lemma ClearLower(x: nat, t: nat)
    requires x % Pow2(t + 1) == 0
    ensures x % Pow2(t) == 0
  {
    var p := Pow2(t);
    var k := x / (2 * p);
    assert x == k * (2 * p);
    assert k * (2 * p) == 2 * k * p;
    DivMul(2 * k, p);
  }

  lemma LimbBit(x: nat, t: nat)
    requires t < 32 && x < BASE && x % Pow2(t + 1) == 0
    ensures Or(x, Pow2(t)) == x + Pow2(t) < BASE
    ensures (x + Pow2(t)) % Pow2(t) == 0
  {
    hide Pow2, Or;
    DoublePow2(t);
    var k := Div(x, Pow2(t + 1));
    assert x == k * Pow2(t + 1) by {
      var m := Pow2(t + 1);
      assert x == x / m * m + x % m;
    }
    OrDisjoint(k, Pow2(t), t + 1);
    OddMultiple(k, Pow2(t));
    Room(k, t);
  }

  lemma OddMultiple(k: nat, p: nat)
    requires p > 0
    ensures (k * (2 * p) + p) % p == 0
  {
    assert (2 * k + 1) * p == k * (2 * p) + p;
    DivMul(2 * k + 1, p);
  }

  lemma Room(k: nat, t: nat)
    requires t < 32 && k * (2 * Pow2(t)) < BASE
    ensures k * (2 * Pow2(t)) + Pow2(t) < BASE
  {
    hide Pow2;
    var p := Pow2(t);
    SplitLimb(0, t);
    var q := Pow2(32 - t);
    assert q == 2 * Pow2(31 - t) by { FactorStep(0, 31 - t); assert 32 * 0 + (31 - t) == 31 - t; }
    var h := Pow2(31 - t);
    assert BASE == h * (2 * p) by { assert p * (2 * h) == h * (2 * p); }
    if k >= h {
      MulMonotone(h, k, 2 * p);
      assert false;
    }
    MulMonotone(k + 1, h, 2 * p);
    assert (k + 1) * (2 * p) == k * (2 * p) + 2 * p;
  }

  /** Moving down one bit, with the limb it lies in. */
  lemma ClearDown(q: seq<Limb>, shift: nat)
    requires ClearBelow(q, shift + 1) && shift / 32 < |q|
    ensures ClearBelow(q, shift)
    ensures q[shift / 32] % Pow2(shift % 32 + 1) == 0
  {
    hide Pow2;
    var i, t := shift / 32, shift % 32;
    if t == 31 {
      assert (shift + 1) / 32 == i + 1;
      assert q[i] == 0;
      DivMul(0, Pow2(32));
    } else {
      assert (shift + 1) / 32 == i && (shift + 1) % 32 == t + 1;
    }
    ClearLower(q[i], t);
  }

  lemma SetQuotientBit(q: seq<Limb>, shift: nat)
    requires ClearBelow(q, shift + 1) && shift / 32 < |q|
    ensures var i := shift / 32;
            var x := Or(q[i], Pow2(shift % 32));
            && 0 <= x < BASE && ClearBelow(q[i := x], shift)
            && Value(q[i := x]) == Value(q) + Pow2(shift)
  {
    hide Pow2, Value, Weight, Or;
    var i, t := shift / 32, shift % 32;
    ClearDown(q, shift);
    LimbBit(q[i], t);
    var next := q[i := q[i] + Pow2(t)];
    assert next[i + 1..] == q[i + 1..] && next[..i] == q[..i];
    SameTop(next, q, i + 1);
    ValueStep(next, i);
    ValueStep(q, i);
    assert (q[i] + Pow2(t)) * Weight(i) == q[i] * Weight(i) + Pow2(t) * Weight(i);
    FactorIs(i, t);
    FactorStep(i, t);
  }

  // ----- Long division

  /** Values while the quotient bits from shift + 1 up have been decided. */
  ghost predicate Dividing(n: nat, d: nat, q: nat, num: nat, div: nat, shift: int)
  {
    && shift >= -1 && n == q * d + num
    && num < d * Pow2(shift + 1)
    && (shift >= 0 ==> div == d * Pow2(shift))
  }

  /** The divisor is aligned with the numerator and does not overflow. */
  lemma DividingStart(n: nat, d: nat, numBits: nat, divBits: nat)
    requires n < Pow2(numBits) && d < Pow2(divBits) && divBits > 0 && Pow2(divBits - 1) <= d && divBits <= numBits
    ensures Dividing(n, d, 0, n, d * Pow2(numBits - divBits), numBits - divBits)
    ensures d * Pow2(numBits - divBits) < Pow2(numBits)
  {
    hide Pow2;
    var shift := numBits - divBits;
    Pow2Add(divBits - 1, shift + 1);
    Pow2Add(divBits, shift);
    MulMonotone(Pow2(divBits - 1), d, Pow2(shift + 1));
    MulMonotone(d + 1, Pow2(divBits), Pow2(shift));
    assert (d + 1) * Pow2(shift) == d * Pow2(shift) + Pow2(shift);
  }

  lemma DividingStep(n: nat, d: nat, q: nat, num: nat, div: nat, shift: nat)
    requires Dividing(n, d, q, num, div, shift)
    ensures num >= div ==> Dividing(n, d, q + Pow2(shift), num - div, div / 2, shift - 1)
    ensures num < div ==> Dividing(n, d, q, num, div / 2, shift - 1)
  {
    hide Pow2;
    var p := Pow2(shift);
    DoublePow2(shift);
    assert d * (2 * p) == 2 * (d * p);
    assert (q + p) * d == q * d + d * p;
    if shift >= 1 {
      DoublePow2(shift - 1);
      var h := Pow2(shift - 1);
      assert d * (2 * h) == 2 * (d * h);
    }
  }

  lemma DividingDone(n: nat, d: nat, q: nat, num: nat, div: nat)
    requires Dividing(n, d, q, num, div, -1)
    ensures d > 0 && q == n / d
  {
    DoublePow2(0);
    assert d * Pow2(0) == d;
    DivUnique(n, d, q, num);
  }

  lemma ClearAll(q: seq<Limb>, e: nat)
    requires forall j :: 0 <= j < |q| ==> q[j] == 0
    ensures ClearBelow(q, e)
  {
    hide Pow2;
    DivMul(0, Pow2(e % 32));
  }
}
