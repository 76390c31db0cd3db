/**
 Compact targets: a size byte, a sign bit and 23 bits of mantissa that stand for
 a 256-bit number, and the work a block with such a target proves.
 */
module CompactTarget {

  import opened Powers
  import opened Limbs
  import opened LimbShifts
  import opened Uint256

  lemma KnownPowers()
    ensures Pow2(0) == 1 && Pow2(8) == 0x100 && Pow2(15) == 0x8000 && Pow2(16) == 0x1_0000
    ensures Pow2(23) == 0x80_0000 && Pow2(24) == 0x100_0000 && Pow2(32) == 0x1_0000_0000
  {
    assert Pow2(7) == 0x80;
    Pow2Add(8, 7);
    Pow2Add(8, 8);
    Pow2Add(8, 15);
    Pow2Add(8, 16);
    Pow2Add(16, 16);
  }

  // ----- What a compact value stands for

  function Size(c: nat): nat
  {
    c / 0x100_0000
  }

  function Word(c: nat): nat
  {
    c % 0x80_0000
  }

  predicate SignBit(c: nat)
  {
    c / 0x80_0000 % 2 == 1
  }

  /** The mantissa, without the digits a size below three drops. */
  function Mantissa(c: nat): nat
  {
    if Size(c) <= 3 then Div(Word(c), Pow2(8 * (3 - Size(c)))) else Word(c)
  }

  /** Mantissa times 256^(size - 3), before it is cut to 256 bits. */
  function Meant(c: nat): nat
  {
    if Size(c) <= 3 then Mantissa(c) else Mantissa(c) * Pow2(8 * (Size(c) - 3))
  }

  function Target(c: nat): nat
  {
    Meant(c) % Pow2(256)
  }

  predicate Negative(c: nat)
  {
    Mantissa(c) != 0 && SignBit(c)
  }

  predicate Overflows(c: nat)
  {
    Meant(c) >= Pow2(256)
  }

  /** The three comparisons that set the overflow flag. */
  predicate OverflowFlag(word: nat, size: nat)
  {
    word != 0 && (size > 34 || (word > 0xff && size > 33) || (word > 0xffff && size > 32))
  }

  lemma MantissaBound(c: nat)
    ensures Mantissa(c) < 0x80_0000
  {
  }

  /** The flag is set exactly when the number meant does not fit 256 bits. */
  lemma OverflowExact(c: nat)
    ensures OverflowFlag(Mantissa(c), Size(c)) <==> Overflows(c)
  {
    hide Pow2, Mantissa, Size;
    MantissaBound(c);
    KnownPowers();
    var word, size := Mantissa(c), Size(c);
    if size <= 3 {
      Pow2Monotone(23, 256);
    } else {
      OverflowByExponent(word, size - 3);
    }
  }

  lemma OverflowByExponent(word: nat, e: nat)
    requires word < 0x80_0000
    ensures word * Pow2(8 * e) >= Pow2(256) <==> OverflowFlag(word, e + 3)
  {
    hide Pow2;
    KnownPowers();
    if e >= 32 {
      Pow2Monotone(256, 8 * e);
      if word != 0 {
        MulMonotone(1, word, Pow2(8 * e));
      }
    } else {
      Pow2Add(8 * (32 - e), 8 * e);
      var p, q := Pow2(8 * e), Pow2(8 * (32 - e));
      Compare(word, q, p);
      if e < 30 {
        Pow2Monotone(24, 8 * (32 - e));
      } else if e == 30 {
        assert 8 * (32 - e) == 16;
      } else {
        assert 8 * (32 - e) == 8;
      }
    }
  }

  lemma Compare(a: nat, b: nat, p: nat)
    requires p > 0
    ensures a * p >= b * p <==> a >= b
  {
    if a >= b {
      MulMonotone(b, a, p);
    } else {
      MulMonotone(a + 1, b, p);
      assert (a + 1) * p == a * p + p;
    }
  }

  // ----- The compact form of a number

  function BitLength(x: nat): nat
  {
    if x == 0 then 0 else 1 + BitLength(x / 2)
  }

  lemma {:induction false} BitLengthBounds(x: nat)
    ensures x < Pow2(BitLength(x))
    ensures x > 0 ==> BitLength(x) > 0 && Pow2(BitLength(x) - 1) <= x
  {
    if x > 0 {
      BitLengthBounds(x / 2);
    }
  }

  lemma BitLengthUnique(x: nat, r: nat)
    requires x < Pow2(r) && (x > 0 ==> r > 0 && Pow2(r - 1) <= x) && (x == 0 ==> r == 0)
    ensures r == BitLength(x)
  {
    hide Pow2;
    BitLengthBounds(x);
    var b := BitLength(x);
    if x > 0 {
      if r < b {
        Pow2Monotone(r, b - 1);
        assert false;
      } else if b < r {
        Pow2Monotone(b, r - 1);
        assert false;
      }
    }
  }

  /** The number of bytes of x with room for a sign bit. */
  function ByteSize(x: nat): nat
  {
    BitLength(x) / 8 + 1
  }

  /** The leading three bytes of x, counted from ByteSize(x). */
  function Leading(x: nat): nat
  {
    Div(x * Pow2(24), Pow2(8 * ByteSize(x)))
  }

  function Compact(x: nat): nat
  {
    if x == 0 then 0 else ByteSize(x) * 0x100_0000 + Leading(x)
  }

  lemma ByteSizeBounds(x: nat)
    requires x > 0
    ensures x < Pow2(8 * ByteSize(x) - 1)
    ensures ByteSize(x) >= 2 ==> Pow2(8 * ByteSize(x) - 9) <= x
  {
    hide Pow2;
    BitLengthBounds(x);
    var b, s := BitLength(x), ByteSize(x);
    Pow2Monotone(b, 8 * s - 1);
    if s >= 2 {
      Pow2Monotone(8 * s - 9, b - 1);
    }
  }

  lemma ByteSizeUnique(x: nat, s: nat)
    requires x > 0 && s >= 1 && x < Pow2(8 * s - 1) && (s >= 2 ==> Pow2(8 * s - 9) <= x)
    ensures s == ByteSize(x)
  {
    hide Pow2, ByteSize;
    ByteSizeBounds(x);
    var t := ByteSize(x);
    ByteSizePositive(x);
    if s < t {
      Pow2Monotone(8 * s - 1, 8 * t - 9);
      assert false;
    } else if t < s {
      Pow2Monotone(8 * t - 1, 8 * s - 9);
      assert false;
    }
  }

  lemma ByteSizePositive(x: nat)
    ensures ByteSize(x) >= 1
  {
  }

  /** Shifted by whole bytes, the leading bytes are x itself, or a quotient. */
  lemma LeadingShift(x: nat)
    ensures ByteSize(x) <= 3 ==> Leading(x) == x * Pow2(8 * (3 - ByteSize(x)))
    ensures ByteSize(x) > 3 ==> Leading(x) == Div(x, Pow2(8 * (ByteSize(x) - 3)))
  {
    hide Pow2, ByteSize;
    var s := ByteSize(x);
    if s <= 3 {
      Pow2Add(8 * (3 - s), 8 * s);
      assert 8 * (3 - s) + 8 * s == 24;
      CancelUp(x, Pow2(8 * (3 - s)), Pow2(8 * s));
    } else {
      Pow2Add(8 * (s - 3), 24);
      assert 8 * (s - 3) + 24 == 8 * s;
      CancelDown(x, Pow2(8 * (s - 3)), Pow2(24));
    }
  }

  lemma CancelUp(x: nat, p: nat, q: nat)
    requires q > 0
    ensures p * q >= 0 && Div(x * (p * q), q) == x * p
  {
    assert x * (p * q) == x * p * q;
    DivMul(x * p, q);
  }

  lemma CancelDown(x: nat, p: nat, q: nat)
    requires p > 0 && q > 0
    ensures p * q > 0 && Div(x * q, p * q) == Div(x, p)
  {
    MulMonotone(1, p, q);
    var k := Div(x, p);
    var r := x - k * p;
    Regroup(k, p, r, q);
    MulMonotone(r + 1, p, q);
    assert (r + 1) * q == r * q + q;
    assert q * p == p * q;
    DivUnique(x * q, p * q, k, r * q);
  }

  /** The mantissa of a compact form has 16 to 23 bits, from two bytes on. */
  lemma LeadingBounds(x: nat)
    requires x > 0
    ensures 0 < Leading(x) < 0x80_0000
    ensures Leading(x) >= 0x8000
  {
    hide Pow2, ByteSize, Leading;
    KnownPowers();
    LeadingShift(x);
    ByteSizeBounds(x);
    ByteSizePositive(x);
    var s := ByteSize(x);
    if s <= 3 {
      var p := Pow2(8 * (3 - s));
      Pow2Add(8 * s - 1, 8 * (3 - s));
      assert 8 * s - 1 + 8 * (3 - s) == 23;
      MulMonotone(x + 1, Pow2(8 * s - 1), p);
      assert (x + 1) * p == x * p + p;
      if s == 1 {
        MulMonotone(1, x, p);
      } else {
        Pow2Add(8 * s - 9, 8 * (3 - s));
        assert 8 * s - 9 + 8 * (3 - s) == 15;
        MulMonotone(Pow2(8 * s - 9), x, p);
      }
    } else {
      LeadingQuotient(x, s);
    }
  }

  lemma LeadingQuotient(x: nat, s: nat)
    requires s > 3 && Pow2(8 * s - 9) <= x < Pow2(8 * s - 1)
    ensures 0x8000 <= Div(x, Pow2(8 * (s - 3))) < 0x80_0000
  {
    hide Pow2;
    KnownPowers();
    var e := 8 * (s - 3);
    var p := Pow2(e);
    Pow2Add(23, e);
    assert 23 + e == 8 * s - 1;
    Pow2Add(15, e);
    assert 15 + e == 8 * s - 9;
    var k: int := Div(x, p);
    Compare(k, 0x80_0000, p);
    NoMultiple(0x8000 - k, p);
    assert (0x8000 - k) * p == 0x8000 * p - k * p;
  }

  /** The parts of a compact form. */
  lemma CompactParts(x: nat)
    requires x > 0
    ensures Size(Compact(x)) == ByteSize(x) && Word(Compact(x)) == Leading(x) && !SignBit(Compact(x))
  {
    hide ByteSize, Leading;
    LeadingBounds(x);
    Parts(ByteSize(x), Leading(x));
  }

  lemma Parts(s: nat, m: nat)
    requires m < 0x80_0000
    ensures var c := s * 0x100_0000 + m;
            Size(c) == s && Word(c) == m && !SignBit(c)
  {
  }

  /** x without its bytes below the leading three. */
  function Truncated(x: nat): nat
  {
    if ByteSize(x) <= 3 then x else RoundDown(x, Pow2(8 * (ByteSize(x) - 3)))
  }

  function RoundDown(x: nat, p: nat): nat
    requires p > 0
  {
    Div(x, p) * p
  }

  /** A number of at most 256 bits decodes to its truncation, without a flag. */
  lemma CompactDecodes(x: nat)
    requires x < Pow2(256)
    ensures Target(Compact(x)) == Meant(Compact(x)) == Truncated(x) <= x
    ensures !Negative(Compact(x)) && !Overflows(Compact(x))
  {
    hide Pow2, ByteSize, Leading, Size, Word, SignBit;
    if x == 0 {
      CompactZero();
    } else {
      CompactParts(x);
      LeadingShift(x);
      var s := ByteSize(x);
      if s <= 3 {
        DivMul(x, Pow2(8 * (3 - s)));
      }
      DivUnique(Meant(Compact(x)), Pow2(256), 0, Meant(Compact(x)));
    }
  }

  lemma CompactZero()
    ensures Target(0) == Meant(0) == 0 && !Negative(0) && !Overflows(0) && Truncated(0) == 0
  {
    hide Pow2;
    assert Word(0) == 0 && Size(0) == 0;
    DivMul(0, Pow2(8 * 3));
    DivMul(0, Pow2(256));
  }

  /** A size byte, a sign bit and 23 bits of mantissa are all there is to a compact value. */
  lemma PartsExact(c: nat)
    ensures c == Size(c) * 0x100_0000 + (if SignBit(c) then 0x80_0000 else 0) + Word(c) && Word(c) < 0x80_0000
  {
  }

  /** A value is negative exactly when its sign bit is set and the number meant is not zero. */
  lemma NegativeExact(c: nat)
    ensures Negative(c) <==> SignBit(c) && Meant(c) != 0
  {
    hide Pow2, Mantissa, Size, SignBit;
    if Size(c) > 3 && Mantissa(c) != 0 {
      MulMonotone(1, Mantissa(c), Pow2(8 * (Size(c) - 3)));
    }
  }

  lemma SignedParts(s: nat, m: nat)
    requires m < 0x80_0000
    ensures var c := s * 0x100_0000 + 0x80_0000 + m;
            Size(c) == s && Word(c) == m && SignBit(c)
  {
    hide SignBit;
    var c := s * 0x100_0000 + 0x80_0000 + m;
    Parts(s, m);
    PartsExact(c);
    assert Size(c) == s;
    assert c - Size(c) * 0x100_0000 == 0x80_0000 + m;
  }

  /** A number written as negative decodes to the same truncation, with the negative flag if it is not zero then. */
  lemma NegativeDecodes(x: nat)
    requires 0 < x < Pow2(256)
    ensures var c := Compact(x) + 0x80_0000;
            Target(c) == Truncated(x) && !Overflows(c) && Negative(c) && Truncated(x) > 0
  {
    hide Pow2, ByteSize, Leading, Size, Word, SignBit;
    CompactDecodes(x);
    CompactParts(x);
    LeadingBounds(x);
    SignedParts(ByteSize(x), Leading(x));
    MantissaKept(x);
  }

  /** The mantissa of a compact form is not lost on the way back. */
  lemma MantissaKept(x: nat)
    requires x > 0
    ensures Mantissa(Compact(x)) > 0 && Truncated(x) > 0
  {
    hide Pow2, ByteSize, Leading, Size, Word, Compact;
    CompactParts(x);
    LeadingBounds(x);
    LeadingShift(x);
    var s := ByteSize(x);
    if s <= 3 {
      DivMul(x, Pow2(8 * (3 - s)));
    } else {
      MulMonotone(1, Leading(x), Pow2(8 * (s - 3)));
    }
  }

  /** What the compact form keeps is enough: the truncation has the same one. */
  lemma Recode(x: nat)
    requires x < Pow2(256)
    ensures Compact(Target(Compact(x))) == Compact(x)
  {
    hide Pow2, ByteSize, Leading, Target, Compact;
    CompactDecodes(x);
    if x > 0 && ByteSize(x) > 3 {
      LeadingShift(x);
      LeadingBounds(x);
      RecodeLong(x, ByteSize(x), Leading(x));
    }
  }

  lemma RecodeLong(x: nat, s: nat, m: nat)
    requires x > 0 && s == ByteSize(x) > 3 && m == Leading(x) == Div(x, Pow2(8 * (s - 3))) && 0x8000 <= m < 0x80_0000
    ensures Compact(Truncated(x)) == Compact(x)
  {
    hide Pow2, ByteSize, Leading;
    KnownPowers();
    var e := 8 * (s - 3);
    var p := Pow2(e);
    var y := Truncated(x);
    Pow2Add(23, e);
    assert 23 + e == 8 * s - 1;
    Pow2Add(15, e);
    assert 15 + e == 8 * s - 9;
    MulMonotone(0x8000, m, p);
    MulMonotone(m + 1, 0x80_0000, p);
    assert (m + 1) * p == m * p + p;
    ByteSizeUnique(y, s);
    LeadingShift(y);
    DivMul(m, p);
  }

  /** A larger number never has a smaller compact form. */
  lemma CompactMonotone(x: nat, y: nat)
    requires x <= y
    ensures Compact(x) <= Compact(y)
  {
    hide Pow2, ByteSize, Leading;
    if x > 0 {
      LeadingBounds(x);
      LeadingBounds(y);
      ByteSizeMonotone(x, y);
      if ByteSize(x) == ByteSize(y) {
        LeadingMonotone(x, y);
      }
    }
  }

  lemma ByteSizeMonotone(x: nat, y: nat)
    requires 0 < x <= y
    ensures ByteSize(x) <= ByteSize(y)
  {
    hide Pow2, ByteSize;
    ByteSizeBounds(x);
    ByteSizeBounds(y);
    ByteSizePositive(y);
    if ByteSize(y) < ByteSize(x) {
      Pow2Monotone(8 * ByteSize(y) - 1, 8 * ByteSize(x) - 9);
      assert false;
    }
  }

  lemma LeadingMonotone(x: nat, y: nat)
    requires x <= y && ByteSize(x) == ByteSize(y)
    ensures Leading(x) <= Leading(y)
  {
    hide Pow2, ByteSize;
    MulMonotone(x, y, Pow2(24));
    DivMonotone(x * Pow2(24), y * Pow2(24), Pow2(8 * ByteSize(x)));
  }

  // ----- The methods

  const WIDTH := 8

  method SetCompact(x: BaseUint, c: nat) returns (negative: bool, overflow: bool)
    requires x.pn.Length == WIDTH && c < 0x1_0000_0000
    modifies x.pn
    ensures x.Val() == Target(c) && negative == Negative(c) && overflow == Overflows(c)
  {
    hide Pow2, Weight, Value;
    KnownPowers();
    var size := c / 0x100_0000;
    var word := c % 0x80_0000;
    WeightIs(WIDTH);
    MantissaBound(c);
    if size <= 3 {
      word := Div(word, Pow2(8 * (3 - size)));
      x.Assign(word);
      Pow2Monotone(23, 256);
      DivUnique(word, Pow2(256), 0, word);
    } else {
      x.Assign(word);
      x.ShiftLeft(8 * (size - 3));
    }
    negative := word != 0 && c / 0x80_0000 % 2 == 1;
    overflow := word != 0 && (size > 34 || (word > 0xff && size > 33) || (word > 0xffff && size > 32));
    OverflowExact(c);
  }

  /** Setting bit s of a number in which it is clear. */
  lemma {:induction false} OrMiddle(x: nat, m: nat, s: nat)
    requires m < Pow2(s)
    ensures Or(x * (2 * Pow2(s)) + m, Pow2(s)) == x * (2 * Pow2(s)) + Pow2(s) + m
  {
    hide Or, Pow2;
    DoublePow2(0);
    if s == 0 {
      OrStep(x, 0, 0, 1);
      ZeroOr(x);
    } else {
      var p := Pow2(s - 1);
      DoublePow2(s - 1);
      TimesDouble(x, 2 * p);
      OrMiddle(x, m / 2, s - 1);
      OrStep(x * (2 * p) + m / 2, p, m % 2, 0);
    }
  }

  /** The top three of `size` bytes of x. */
  function TopBytes(x: nat, size: nat): nat
  {
    if size <= 3 then x * Pow2(8 * (3 - size)) else Div(x, Pow2(8 * (size - 3)))
  }

  /** The first three bytes as the code takes them: the top three of the smallest byte count. */
  lemma FirstBytes(x: nat)
    ensures var size := (BitLength(x) + 7) / 8;
            var m := TopBytes(x, size);
            && m < 0x100_0000
            && (if x == 0 then size == 0 && m == 0
                else if m >= 0x80_0000 then ByteSize(x) == size + 1 && Leading(x) == m / 0x100
                else ByteSize(x) == size && Leading(x) == m)
  {
    hide Pow2, BitLength, Leading;
    KnownPowers();
    var b := BitLength(x);
    var size := (b + 7) / 8;
    BitLengthBounds(x);
    if x == 0 {
      BitLengthUnique(0, 0);
    } else {
      LeadingShift(x);
      LeadingBounds(x);
      if b % 8 == 0 {
        assert ByteSize(x) == size + 1;
        OneByteMore(x, size);
      } else {
        assert ByteSize(x) == size;
      }
    }
  }

  /** When the top byte is full, one byte more is taken and the last one dropped. */
  lemma OneByteMore(x: nat, size: nat)
    requires size >= 1 && ByteSize(x) == size + 1 && Pow2(8 * size - 1) <= x < Pow2(8 * size)
    ensures var m := TopBytes(x, size);
            0x80_0000 <= m < 0x100_0000 && Leading(x) == m / 0x100
  {
    hide Pow2, ByteSize, Leading;
    KnownPowers();
    LeadingShift(x);
    if size <= 3 {
      var p := Pow2(8 * (3 - size));
      Pow2Add(8 * size - 1, 8 * (3 - size));
      assert 8 * size - 1 + 8 * (3 - size) == 23;
      Pow2Add(8 * size, 8 * (3 - size));
      assert 8 * size + 8 * (3 - size) == 24;
      MulMonotone(Pow2(8 * size - 1), x, p);
      MulMonotone(x + 1, Pow2(8 * size), p);
      assert (x + 1) * p == x * p + p;
      if size < 3 {
        Pow2Add(8 * (2 - size), 8);
        assert 8 * (2 - size) + 8 == 8 * (3 - size);
        assert 8 * (3 - (size + 1)) == 8 * (2 - size);
        var q := Pow2(8 * (2 - size));
        assert x * (q * 0x100) == x * q * 0x100;
      } else {
        assert 8 * (size + 1 - 3) == 8 && p == 1;
      }
    } else {
      FullTopByte(x, size);
      Pow2Add(8 * (size - 3), 8);
      assert 8 * (size - 3) + 8 == 8 * (size + 1 - 3);
      DivTwice(x, Pow2(8 * (size - 3)), 0x100);
    }
  }

  lemma FullTopByte(x: nat, size: nat)
    requires size > 3 && Pow2(8 * size - 1) <= x < Pow2(8 * size)
    ensures 0x80_0000 <= Div(x, Pow2(8 * (size - 3))) < 0x100_0000
  {
    hide Pow2;
    KnownPowers();
    var e := 8 * (size - 3);
    var p := Pow2(e);
    Pow2Add(23, e);
    assert 23 + e == 8 * size - 1;
    Pow2Add(24, e);
    assert 24 + e == 8 * size;
    var k: int := Div(x, p);
    Compare(k, 0x100_0000, p);
    NoMultiple(0x80_0000 - k, p);
    assert (0x80_0000 - k) * p == 0x80_0000 * p - k * p;
  }

  lemma DivTwice(x: nat, p: nat, q: nat)
    requires p > 0 && q > 0
    ensures p * q > 0 && Div(x, p * q) == Div(Div(x, p), q)
  {
    MulMonotone(1, p, q);
    var a := Div(x, p);
    var b := Div(a, q);
    var r, t := x - a * p, a - b * q;
    assert x == b * (p * q) + (t * p + r) by {
      assert (b * q + t) * p == b * (p * q) + t * p by { Regroup(b, q, t, p); }
    }
    MulMonotone(t + 1, q, p);
    assert (t + 1) * p == t * p + p;
    DivUnique(x, p * q, b, t * p + r);
  }

  method GetCompact(x: BaseUint, fNegative: bool) returns (c: nat)
    requires x.pn.Length == WIDTH
    ensures c == Compact(x.Val()) + if fNegative && x.Val() != 0 then 0x80_0000 else 0
    ensures c < 0x1_0000_0000
  {
    hide Pow2, Weight, Value, Leading, ByteSize, BitLength, TopBytes;
    var bits := x.Bits();
    BitLengthUnique(x.Val(), bits);
    FirstBytes(x.Val());
    var size := (bits + 7) / 8;
    var m := TakeBytes(x, size);
    if m / 0x80_0000 % 2 == 1 {
      m := m / 0x100;
      size := size + 1;
    }
    if x.Val() > 0 {
      LeadingBounds(x.Val());
    }
    c := Assemble(size, m, fNegative);
  }

  /** The top three of `size` bytes. */
  method TakeBytes(x: BaseUint, size: nat) returns (m: nat)
    requires x.pn.Length == WIDTH
    requires TopBytes(x.Val(), size) < 0x100_0000
    ensures m == TopBytes(x.Val(), size)
  {
    hide Pow2, Weight, Value;
    if size <= 3 {
      var low := Low64(x);
      MulMonotone(1, Pow2(8 * (3 - size)), x.Val());
      m := low * Pow2(8 * (3 - size)) % 0x1_0000_0000;
    } else {
      var bn := new BaseUint.Copy(x);
      bn.ShiftRight(8 * (size - 3));
      var low := Low64(bn);
      m := low % 0x1_0000_0000;
    }
  }

  /** Size, sign and mantissa in one word; both assertions of the code hold. */
  method Assemble(size: nat, m: nat, fNegative: bool) returns (c: nat)
    requires m < 0x80_0000 && size < 256
    ensures c == size * 0x100_0000 + m + if fNegative && m != 0 then 0x80_0000 else 0
    ensures c < 0x1_0000_0000
  {
    hide Pow2, Or;
    KnownPowers();
    OrDisjoint(size, m, 24);
    c := Or(m, size * 0x100_0000);
    if fNegative && c % 0x80_0000 != 0 {
      OrMiddle(size, m, 23);
      c := Or(c, 0x80_0000);
    }
  }

  method Low64(x: BaseUint) returns (r: nat)
    requires x.pn.Length == WIDTH
    ensures r < 0x1_0000_0000 * 0x1_0000_0000
    ensures x.Val() < 0x1_0000_0000 * 0x1_0000_0000 ==> r == x.Val()
  {
    hide Pow2, Weight, Value, Or;
    KnownPowers();
    var low: nat, high: nat := x.pn[0], x.pn[1];
    OrDisjoint(high, low, 32);
    r := Or(low, high * 0x1_0000_0000);
    LowOrLarge(x.pn[..]);
  }

  lemma LowOrLarge(s: seq<Limb>)
    requires |s| >= 2
    ensures Value(s) < BASE * BASE ==> Value(s) == s[0] + s[1] * BASE
  {
    hide Value;
    if k :| 2 <= k < |s| && s[k] != 0 {
      LargeValue(s, k);
    } else {
      LowLimbs(s);
    }
  }

  // ----- The work of a block

  /** A target that does not overflow can be incremented. */
  lemma TargetBelowMax(c: nat)
    requires !Overflows(c)
    ensures Target(c) == Meant(c) && Target(c) + 1 < Pow2(256)
  {
    hide Pow2, Size, Mantissa;
    KnownPowers();
    MantissaBound(c);
    DivUnique(Meant(c), Pow2(256), 0, Meant(c));
    Pow2Monotone(24, 256);
    Pow2Add(8, 248);
    if Size(c) > 3 {
      var e := 8 * (Size(c) - 3);
      Pow2Add(8, e - 8);
      assert 8 + (e - 8) == e;
      assert Mantissa(c) * (0x100 * Pow2(e - 8)) == 0x100 * (Mantissa(c) * Pow2(e - 8));
    }
  }

  /** The code's formula is the quotient of 2^256, which does not fit 256 bits. */
  lemma ProofFormula(top: nat, t: nat)
    requires 0 < t && t + 1 < top
    ensures Div(top - 1 - t, t + 1) + 1 == Div(top, t + 1) < top
  {
    var q := Div(top - 1 - t, t + 1);
    assert (q + 1) * (t + 1) == q * (t + 1) + (t + 1);
    DivUnique(top, t + 1, q + 1, top - (q + 1) * (t + 1));
  }

  /** The expected number of hashes to find a block: 2^256 / (target + 1), rounded down. */
  method GetBlockProof(nBits: nat) returns (work: BaseUint)
    requires nBits < 0x1_0000_0000
    ensures fresh(work) && fresh(work.pn)
    ensures work.Val() == if Negative(nBits) || Overflows(nBits) || Target(nBits) == 0 then 0
                          else Div(Pow2(256), Target(nBits) + 1)
  {
    hide Pow2, Weight, Value, Target, Negative, Overflows;
    KnownPowers();
    WeightIs(WIDTH);
    var target := new BaseUint(WIDTH);
    var negative, overflow := SetCompact(target, nBits);
    var isZero := target.EqualTo(0);
    if negative || overflow || isZero {
      work := new BaseUint.From(0, WIDTH);
      return;
    }
    TargetBelowMax(nBits);
    work := WorkOf(target);
  }

  method WorkOf(target: BaseUint) returns (work: BaseUint)
    requires target.pn.Length == WIDTH && 0 < target.Val() && target.Val() + 1 < Pow2(256)
    ensures fresh(work) && fresh(work.pn)
    ensures work.Val() == Div(Pow2(256), target.Val() + 1)
  {
    hide Pow2, Weight, Value;
    WeightIs(WIDTH);
    ghost var t := target.Val();
    ProofFormula(Pow2(256), t);
    work := target.Complement();
    var divisor := Plus(target, 1);
    var thrown := work.Divide(divisor);
    work := Plus(work, 1);
  }

  /** A sum that fits. */
  method Plus(a: BaseUint, b: nat) returns (sum: BaseUint)
    requires a.pn.Length == WIDTH && b < BASE * BASE && a.Val() + b < Pow2(256)
    ensures fresh(sum) && fresh(sum.pn) && sum.pn.Length == WIDTH && sum.Val() == a.Val() + b
  {
    hide Pow2, Weight, Value;
    WeightIs(WIDTH);
    sum := new BaseUint.Copy(a);
    var other := new BaseUint.From(b, WIDTH);
    DivUnique(a.Val() + b, Pow2(256), 0, a.Val() + b);
    sum.Add(other);
  }
}
