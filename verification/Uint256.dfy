/** Unsigned integers of a fixed number of 32-bit limbs, updated in place. */
module Uint256 {

  import opened Powers
  import opened Limbs
  import opened LimbShifts

  class BaseUint {
    const pn: array<Limb>

    ghost function Val(): nat
      reads pn
    {
      Value(pn[..])
    }

    /** One more than the largest value. */
    ghost function Modulus(): nat
    {
      Weight(pn.Length)
    }

    constructor (width: nat)
      ensures fresh(pn) && pn.Length == width && Val() == 0
    {
      pn := new Limb[width](_ => 0);
      new;
      ZeroValue(pn[..]);
    }

    constructor Copy(b: BaseUint)
      ensures fresh(pn) && pn.Length == b.pn.Length && pn[..] == b.pn[..]
    {
      pn := new Limb[b.pn.Length](i requires 0 <= i < b.pn.Length reads b.pn => b.pn[i]);
    }

    constructor From(b: nat, width: nat)
      requires b < BASE * BASE && width >= 2
      ensures fresh(pn) && pn.Length == width && Val() == b
    {
      pn := new Limb[width](_ => 0);
      new;
      Assign(b);
    }

    method Assign(b: nat)
      requires b < BASE * BASE && pn.Length >= 2
      modifies pn
      ensures Val() == b
    {
      hide Weight;
      pn[0] := b % BASE;
      pn[1] := b / BASE;
      for i := 2 to pn.Length
        invariant pn[0] == b % BASE && pn[1] == b / BASE
        invariant forall k :: 2 <= k < i ==> pn[k] == 0
      {
        pn[i] := 0;
      }
      LowLimbs(pn[..]);
    }

    method Add(b: BaseUint)
      requires b.pn.Length == pn.Length
      modifies pn
      ensures Val() == (old(Val()) + old(b.Val())) % Modulus()
    {
      hide Adding, Value, Weight;
      ghost var x, y := pn[..], b.pn[..];
      var carry: nat := 0;
      AddingStart(x, y);
      for i := 0 to pn.Length
        invariant Adding(x, y, pn[..], carry, i)
        invariant forall k :: i <= k < pn.Length ==> pn[k] == x[k] && b.pn[k] == y[k]
      {
        var n: nat := carry + pn[i] + b.pn[i];
        AddingStep(x, y, pn[..], carry, i);
        pn[i] := n % BASE;
        carry := n / BASE;
      }
      AddingDone(x, y, pn[..], carry);
    }

    method Increment()
      modifies pn
      ensures Val() == (old(Val()) + 1) % Modulus()
    {
      hide Incrementing, Value, Weight;
      ghost var x := pn[..];
      var i := 0;
      IncrementingStart(x);
      while i < pn.Length
        invariant 0 <= i <= pn.Length && Incrementing(x, pn[..], i)
      {
        IncrementingStep(x, pn[..], i);
        pn[i] := (pn[i] + 1) % BASE;
        if pn[i] != 0 {
          return;
        }
        i := i + 1;
      }
      IncrementingDone(x, pn[..]);
    }

    method Complement() returns (ret: BaseUint)
      ensures fresh(ret) && fresh(ret.pn) && ret.pn.Length == pn.Length
      ensures ret.Val() == Modulus() - 1 - Val()
    {
      hide Value, Weight;
      ret := new BaseUint(pn.Length);
      for i := 0 to pn.Length
        invariant forall k :: 0 <= k < i ==> ret.pn[k] == BASE - 1 - pn[k]
      {
        ret.pn[i] := BASE - 1 - pn[i];
      }
      ComplementValue(pn[..], ret.pn[..]);
    }

    method Negate() returns (ret: BaseUint)
      ensures fresh(ret) && fresh(ret.pn) && ret.pn.Length == pn.Length
      ensures ret.Val() == (Modulus() - Val()) % Modulus()
    {
      hide Value, Weight;
      ret := Complement();
      ret.Increment();
    }

    method Subtract(b: BaseUint)
      requires b.pn.Length == pn.Length
      modifies pn
      ensures Val() == (old(Val()) - old(b.Val())) % Modulus()
      ensures old(Val()) >= old(b.Val()) ==> Val() == old(Val()) - old(b.Val())
    {
      hide Value, Weight;
      ValueBound(pn[..]);
      ValueBound(b.pn[..]);
      SubtractModulo(Val(), b.Val(), Modulus());
      var minus := b.Negate();
      Add(minus);
    }

    method MultiplyWord(b: Limb)
      modifies pn
      ensures Val() == old(Val()) * b % Modulus()
    {
      hide Scaling, Value, Weight;
      ghost var x := pn[..];
      var carry: Limb := 0;
      ScalingStart(x, b);
      for i := 0 to pn.Length
        invariant Scaling(x, b, pn[..], carry, i)
      {
        ScalingStep(x, b, pn[..], carry, i);
        var n := carry + b * pn[i];
        pn[i] := n % BASE;
        carry := n / BASE;
      }
      ScalingDone(x, b, pn[..], carry);
    }

    method Multiply(b: BaseUint)
      requires b.pn.Length == pn.Length
      modifies pn
      ensures Val() == old(Val()) * old(b.Val()) % Modulus()
    {
      hide Value, Weight;
      ghost var x, y := pn[..], b.pn[..];
      var a := new BaseUint(pn.Length);
      ghost var over: nat := 0;
      MultiplyStart(x, Value(y));
      for j := 0 to pn.Length
        invariant pn[..] == x && b.pn[..] == y
        invariant a.Val() + over * Modulus() == Value(x[..j]) * Value(y)
      {
        over := MultiplyRow(a, b, j, over);
      }
      assert x[..pn.Length] == x;
      ValueBound(a.pn[..]);
      DivUnique(Value(x) * Value(y), Modulus(), over, a.Val());
      Set(a);
    }

    method Set(b: BaseUint)
      requires b.pn.Length == pn.Length
      modifies pn
      ensures pn[..] == old(b.pn[..])
    {
      forall i | 0 <= i < pn.Length {
        pn[i] := b.pn[i];
      }
    }

    /** The inner loop: limb j of this times b, added to a. */
    method MultiplyRow(a: BaseUint, b: BaseUint, j: nat, ghost over: nat) returns (ghost more: nat)
      requires a.pn.Length == b.pn.Length == pn.Length && j < pn.Length && a.pn != pn && a.pn != b.pn
      requires a.Val() + over * Modulus() == Value(pn[..][..j]) * b.Val()
      modifies a.pn
      ensures a.Val() + more * Modulus() == Value(pn[..][..j + 1]) * b.Val()
    {
      hide Value, Weight, Row;
      ghost var before := a.pn[..];
      ghost var x, y := pn[..], b.pn[..];
      var carry: Limb := 0;
      var i := 0;
      RowStart(x[j], j, y, before);
      while i + j < pn.Length
        invariant 0 <= i && i + j <= pn.Length && Row(x[j], j, y, before, a.pn[..], carry, i)
      {
        RowStep(x[j], j, y, before, a.pn[..], carry, i);
        var u: int, v: int := pn[j], b.pn[i];
        var n := carry + a.pn[i + j] + u * v;
        a.pn[i + j] := n % BASE;
        carry := n / BASE;
        i := i + 1;
      }
      more := RowDone(x, y, before, a.pn[..], carry, j, over);
    }

    method CompareTo(b: BaseUint) returns (r: int)
      requires b.pn.Length == pn.Length
      ensures -1 <= r <= 1 && (r < 0 <==> Val() < b.Val()) && (r > 0 <==> Val() > b.Val())
    {
      hide Value;
      var i := pn.Length - 1;
      while i >= 0
        invariant -1 <= i < pn.Length && forall k :: i < k < pn.Length ==> pn[k] == b.pn[k]
      {
        if pn[i] < b.pn[i] {
          HigherLimbDecides(pn[..], b.pn[..], i);
          return -1;
        }
        if pn[i] > b.pn[i] {
          HigherLimbDecides(b.pn[..], pn[..], i);
          return 1;
        }
        i := i - 1;
      }
      assert pn[..] == b.pn[..];
      return 0;
    }

    method EqualTo(b: nat) returns (r: bool)
      requires b < BASE * BASE && pn.Length >= 2
      ensures r <==> Val() == b
    {
      hide Value, Weight;
      var i := pn.Length - 1;
      while i >= 2
        invariant 1 <= i < pn.Length && forall k :: i < k < pn.Length ==> pn[k] == 0
      {
        if pn[i] != 0 {
          LargeValue(pn[..], i);
          return false;
        }
        i := i - 1;
      }
      LowLimbs(pn[..]);
      if pn[1] != b / BASE {
        return false;
      }
      if pn[0] != b % BASE {
        return false;
      }
      return true;
    }

    /** The position of the highest bit set plus one, or zero if the value is zero. */
    method Bits() returns (r: nat)
      ensures Val() < Pow2(r) && r <= 32 * pn.Length
      ensures if Val() == 0 then r == 0 else r > 0 && Pow2(r - 1) <= Val()
    {
      hide Value, Weight, Pow2;
      var pos := pn.Length - 1;
      while pos >= 0
        invariant -1 <= pos < pn.Length && forall k :: pos < k < pn.Length ==> pn[k] == 0
      {
        if pn[pos] != 0 {
          var nbits := TopBitOf(pn[pos]);
          HighestBit(pn[..], pos, nbits);
          return 32 * pos + nbits + 1;
        }
        pos := pos - 1;
      }
      ZeroValue(pn[..]);
      assert Pow2(0) == 1 by { WeightStep(0); WeightIs(0); }
      return 0;
    }

    static method TopBitOf(x: Limb) returns (nbits: nat)
      requires x != 0
      ensures nbits < 32 && Pow2(nbits) <= x < 2 * Pow2(nbits)
    {
      hide Pow2;
      nbits := 31;
      WeightStep(0);
      WeightIs(1);
      WeightIs(0);
      while nbits > 0
        invariant nbits < 32 && x < Pow2(nbits + 1)
      {
        TopBit(x, nbits);
        DoublePow2(nbits);
        if x / Pow2(nbits) % 2 == 1 {
          return;
        }
        nbits := nbits - 1;
      }
      DoublePow2(0);
    }

    method ShiftLeft(shift: nat)
      modifies pn
      ensures Val() == old(Val()) * Pow2(shift) % Modulus()
    {
      hide Value, Weight, Pow2, LeftShifting, Or, Factor;
      var a := pn[..];
      var n := pn.Length;
      Clear();
      var k, s := shift / 32, shift % 32;
      ghost var carry: nat := 0;
      if k <= n {
        LeftStart(a, pn[..], k, s);
      }
      for i := 0 to n
        invariant if k > n then forall j :: 0 <= j < n ==> pn[j] == 0
                  else LeftShifting(a, pn[..], k, s, carry, if i + k <= n then i else n - k)
      {
        if i + k < n {
          carry := ShiftLeftLimb(a, k, s, i, carry);
        }
      }
      if k <= n {
        LeftDone(a, pn[..], k, s, carry);
      } else {
        LeftAllGone(a, pn[..], k, s);
      }
      FactorIs(k, s);
    }

    /** The loop body of a left shift, for a limb that stays in range. */
    method ShiftLeftLimb(a: seq<Limb>, k: nat, s: nat, i: nat, ghost carry: nat) returns (ghost next: nat)
      requires LeftShifting(a, pn[..], k, s, carry, i) && i + k < pn.Length
      modifies pn
      ensures LeftShifting(a, pn[..], k, s, next, i + 1)
    {
      hide Value, Weight, Pow2, Or, Factor;
      ghost var before := pn[..];
      LeftInRange(a, before, k, s, carry, i);
      ZeroOr(a[i] / Pow2(32 - s));
      if i + k + 1 < pn.Length && s != 0 {
        pn[i + k + 1] := Or(pn[i + k + 1], a[i] / Pow2(32 - s));
      }
      pn[i + k] := Or(pn[i + k], a[i] * Pow2(s) % BASE);
      SplitLimb(a[i], s);
      LeftStep(a, before, k, s, carry, i, a[i] / Pow2(32 - s), a[i] % Pow2(32 - s) * Pow2(s), pn[..]);
      next := a[i] / Pow2(32 - s);
    }

    method Clear()
      modifies pn
      ensures forall j :: 0 <= j < pn.Length ==> pn[j] == 0
    {
      for i := 0 to pn.Length
        invariant forall j :: 0 <= j < i ==> pn[j] == 0
      {
        pn[i] := 0;
      }
    }

    method ShiftRight(shift: nat)
      modifies pn
      ensures Val() == old(Val()) / Pow2(shift)
    {
      hide Value, Weight, Pow2, RightShifting, Or, Factor;
      var a := pn[..];
      var n := pn.Length;
      Clear();
      var k, s := shift / 32, shift % 32;
      ghost var rem: nat := Value(a[..if k <= n then k else 0]);
      if k <= n {
        RightStart(a, pn[..], k, s);
      }
      for i := 0 to n
        invariant if k > n then forall j :: 0 <= j < n ==> pn[j] == 0
                  else RightShifting(a, pn[..], k, s, rem, if i <= k then k else i)
      {
        if i - k >= 0 {
          rem := ShiftRightLimb(a, k, s, i, rem);
        }
      }
      if k <= n {
        RightDone(a, pn[..], k, s, rem);
      } else {
        RightAllGone(a, pn[..], k, s);
      }
      FactorIs(k, s);
    }

    /** The loop body of a right shift, for a limb that stays in range. */
    method ShiftRightLimb(a: seq<Limb>, k: nat, s: nat, i: nat, ghost rem: nat) returns (ghost next: nat)
      requires RightShifting(a, pn[..], k, s, rem, i) && i < pn.Length
      modifies pn
      ensures RightShifting(a, pn[..], k, s, next, i + 1)
    {
      hide Value, Weight, Pow2, Or, Factor;
      ghost var before := pn[..];
      RightInRange(a, before, k, s, rem, i);
      ZeroOr(a[i] / Pow2(s));
      next := rem;
      if i - k - 1 >= 0 && s != 0 {
        pn[i - k - 1] := Or(pn[i - k - 1], a[i] * Pow2(32 - s) % BASE);
      }
      pn[i - k] := Or(pn[i - k], a[i] / Pow2(s));
      if i == k {
        RightFirst(a, before, k, s, rem, pn[..]);
        next := rem + a[k] % Pow2(s) * Weight(k);
      } else {
        RightStep(a, before, k, s, rem, i, pn[..]);
      }
    }

    /** Floor division; on a zero divisor it throws, with the quotient already zero. */
    method Divide(b: BaseUint) returns (thrown: bool)
      requires b.pn.Length == pn.Length
      modifies pn
      ensures thrown <==> old(b.Val()) == 0
      ensures Val() == if thrown then 0 else old(Val()) / old(b.Val())
    {
      hide Value, Weight, Pow2, Dividing, ClearBelow;
      var div := new BaseUint.Copy(b);
      var num := new BaseUint.Copy(this);
      ghost var n, d := Val(), b.Val();
      Clear();
      ZeroValue(pn[..]);
      var numBits := num.Bits();
      var divBits := div.Bits();
      if divBits == 0 {
        return true;
      }
      thrown := false;
      if divBits > numBits {
        Pow2Monotone(numBits, divBits - 1);
        DivUnique(n, d, 0, n);
        return;
      }
      var shift := numBits - divBits;
      DividingStart(n, d, numBits, divBits);
      Pow2Monotone(numBits, 32 * pn.Length);
      WeightIs(pn.Length);
      div.ShiftLeft(shift);
      DivUnique(d * Pow2(shift), Modulus(), 0, d * Pow2(shift));
      ClearAll(pn[..], shift + 1);
      LongDivide(num, div, shift, n, d);
    }

    /** The loop of the division: one quotient bit at a time, from the top. */
    method LongDivide(num: BaseUint, div: BaseUint, start: nat, ghost n: nat, ghost d: nat)
      requires num.pn.Length == div.pn.Length == pn.Length && start < 32 * pn.Length
      requires pn != num.pn && pn != div.pn && num.pn != div.pn
      requires Dividing(n, d, Val(), num.Val(), div.Val(), start) && ClearBelow(pn[..], start + 1)
      modifies pn, num.pn, div.pn
      ensures d > 0 && Val() == n / d
    {
      hide Value, Weight, Pow2, Dividing, ClearBelow;
      var shift: int := start;
      while shift >= 0
        invariant -1 <= shift < 32 * pn.Length
        invariant Dividing(n, d, Val(), num.Val(), div.Val(), shift) && ClearBelow(pn[..], shift + 1)
      {
        DivideBit(num, div, shift, n, d);
        shift := shift - 1;
      }
      DividingDone(n, d, Val(), num.Val(), div.Val());
    }

    method DivideBit(num: BaseUint, div: BaseUint, shift: nat, ghost n: nat, ghost d: nat)
      requires num.pn.Length == div.pn.Length == pn.Length && shift < 32 * pn.Length
      requires pn != num.pn && pn != div.pn && num.pn != div.pn
      requires Dividing(n, d, Val(), num.Val(), div.Val(), shift) && ClearBelow(pn[..], shift + 1)
      modifies pn, num.pn, div.pn
      ensures Dividing(n, d, Val(), num.Val(), div.Val(), shift - 1) && ClearBelow(pn[..], shift)
    {
      hide Value, Weight, Pow2, Dividing, ClearBelow;
      ghost var q0, num0, div0 := pn[..], num.Val(), div.Val();
      DividingStep(n, d, Val(), num0, div0, shift);
      ClearDown(q0, shift);
      var order := num.CompareTo(div);
      if order >= 0 {
        num.Subtract(div);
        SetQuotientBit(q0, shift);
        pn[shift / 32] := Or(pn[shift / 32], Pow2(shift % 32));
        assert pn[..] == q0[shift / 32 := Or(q0[shift / 32], Pow2(shift % 32))];
      }
      div.ShiftRight(1);
      assert Pow2(1) == 2 by { DoublePow2(0); }
    }
  }
}
