/**
 The Bech32 checksum: a linear code over 5-bit symbols.  Remainders modulo the
 generator are 30-bit numbers, here bit by bit, least significant first.
 */
module Bech32Checksum {

  import opened Bits
  import opened Powers

  type Symbol = x: nat | x < 32

  type Poly = w: seq<bool> | |w| == 30 witness seq(30, _ => false)

  function PolyOf(x: nat): Poly
  {
    seq(30, i requires i >= 0 => Bit(x, i))
  }

  predicate Xor(a: bool, b: bool)
  {
    a != b
  }

  function Add(c: Poly, d: Poly): Poly
  {
    seq(30, i requires 0 <= i < 30 => Xor(c[i], d[i]))
  }

  const ZERO: Poly := seq(30, _ => false)

  /** The multiples {1}, {2}, {4}, {8} and {16} of x^6 modulo the generator. */
  function Generator(n: nat): nat
  {
    if n == 0 then 0x3b6a57b2
    else if n == 1 then 0x26508e6d
    else if n == 2 then 0x1ea119fa
    else if n == 3 then 0x3d4233dd
    else 0x2a1462b3
  }

  /** Bit i of the low 25 bits moved up by a symbol, with v below them. */
  predicate Shifted(c: Poly, v: Symbol, i: nat)
    requires i < 30
  {
    if i < 5 then Bit(v, i) else c[i - 5]
  }

  /** Bit i of what the symbol shifted out adds. */
  predicate Folded(c: Poly, i: nat)
  {
    Xor(Xor(Xor(c[25] && Bit(Generator(0), i), c[26] && Bit(Generator(1), i)),
            Xor(c[27] && Bit(Generator(2), i), c[28] && Bit(Generator(3), i))),
        c[29] && Bit(Generator(4), i))
  }

  /** One symbol: the remainder times x, plus v, modulo the generator. */
  function Step(c: Poly, v: Symbol): Poly
  {
    seq(30, i requires 0 <= i < 30 => Xor(Shifted(c, v, i), Folded(c, i)))
  }

  /** The step is linear over GF(2). */
  lemma StepLinear(c: Poly, d: Poly, v: Symbol)
    ensures Step(Add(c, d), v) == Add(Step(c, 0), Step(d, v))
  {
    var x, y := Step(Add(c, d), v), Add(Step(c, 0), Step(d, v));
    forall i: nat | i < 30 ensures x[i] == y[i] {
      ZeroBits(i);
      FoldedLinear(c, d, i);
    }
  }

  lemma FoldedLinear(c: Poly, d: Poly, i: nat)
    ensures Folded(Add(c, d), i) == Xor(Folded(c, i), Folded(d, i))
  {
    var b0, b1, b2, b3, b4 := Bit(Generator(0), i), Bit(Generator(1), i), Bit(Generator(2), i), Bit(Generator(3), i), Bit(Generator(4), i);
    FoldedIs(c, i, b0, b1, b2, b3, b4);
    FoldedIs(d, i, b0, b1, b2, b3, b4);
    FoldedIs(Add(c, d), i, b0, b1, b2, b3, b4);
    hide Bit, Folded;
  }

  predicate Column(i: nat, b0: bool, b1: bool, b2: bool, b3: bool, b4: bool)
  {
    && Bit(Generator(0), i) == b0 && Bit(Generator(1), i) == b1 && Bit(Generator(2), i) == b2
    && Bit(Generator(3), i) == b3 && Bit(Generator(4), i) == b4
  }

  lemma LowBits()
    ensures Column(0, false, true, false, true, true)
    ensures Column(1, true, false, true, false, true)
    ensures Column(2, false, true, false, true, false)
    ensures Column(3, false, true, true, true, false)
    ensures Column(4, true, false, true, true, true)
  {
  }

  predicate Sum(c: Poly, b0: bool, b1: bool, b2: bool, b3: bool, b4: bool)
  {
    Xor(Xor(Xor(c[25] && b0, c[26] && b1), Xor(c[27] && b2, c[28] && b3)), c[29] && b4)
  }

  lemma FoldedIs(c: Poly, i: nat, b0: bool, b1: bool, b2: bool, b3: bool, b4: bool)
    requires Column(i, b0, b1, b2, b3, b4)
    ensures Folded(c, i) == Sum(c, b0, b1, b2, b3, b4)
  {
  }

  /** The lowest symbols of the five multiples are linearly independent. */
  lemma FoldedIndependent(c: Poly)
    requires forall i: nat :: i < 5 ==> !Folded(c, i)
    ensures !c[25] && !c[26] && !c[27] && !c[28] && !c[29]
  {
    hide Column, Folded;
    LowBits();
    FoldedIs(c, 0, false, true, false, true, true);
    FoldedIs(c, 1, true, false, true, false, true);
    FoldedIs(c, 2, false, true, false, true, false);
    FoldedIs(c, 3, false, true, true, true, false);
    FoldedIs(c, 4, true, false, true, true, true);
  }

  /** Nothing but zero is sent to zero. */
  lemma StepInjective(d: Poly)
    requires Step(d, 0) == ZERO
    ensures d == ZERO
  {
    forall i: nat | i < 5 ensures !Folded(d, i) {
      ZeroBits(i);
      assert !Step(d, 0)[i];
    }
    FoldedIndependent(d);
    hide Bit;
    forall i: nat | i < 25 ensures !d[i] {
      assert !Step(d, 0)[i + 5];
    }
  }

  // ----- Whole words

  function From(c: Poly, v: seq<Symbol>): Poly
  {
    if v == [] then c else Step(From(c, v[..|v| - 1]), v[|v| - 1])
  }

  function PolyModOf(v: seq<Symbol>): Poly
  {
    From(PolyOf(1), v)
  }

  lemma {:induction false} FromJoin(c: Poly, v: seq<Symbol>, w: seq<Symbol>)
    ensures From(c, v + w) == From(From(c, v), w)
  {
    hide Step;
    if w == [] {
      assert v + w == v;
    } else {
      var n := |w| - 1;
      assert (v + w)[..|v + w| - 1] == v + w[..n];
      FromJoin(c, v, w[..n]);
    }
  }

  lemma FromLast(c: Poly, v: seq<Symbol>, i: nat)
    requires i < |v|
    ensures From(c, v[..i + 1]) == Step(From(c, v[..i]), v[i])
  {
    hide Step;
    assert v[..i + 1][..i] == v[..i];
  }

  /** The same symbols keep two different remainders apart. */
  lemma {:induction false} FromApart(c: Poly, d: Poly, v: seq<Symbol>)
    requires c != d
    ensures From(c, v) != From(d, v)
  {
    if v != [] {
      hide Step;
      var n := |v| - 1;
      FromApart(c, d, v[..n]);
      StepApart(From(c, v[..n]), From(d, v[..n]), v[n]);
    }
  }

  lemma AddLaws(c: Poly, d: Poly)
    ensures Add(Add(c, d), d) == c
    ensures Add(c, d) == ZERO <==> c == d
    ensures Add(c, d) == d ==> c == ZERO
  {
    if Add(c, d) == ZERO {
      forall i: nat | i < 30 ensures c[i] == d[i] {
        assert Add(c, d)[i] == ZERO[i];
      }
    }
    if Add(c, d) == d {
      forall i: nat | i < 30 ensures !c[i] {
        assert Add(c, d)[i] == d[i];
      }
    }
  }

  lemma StepApart(c: Poly, d: Poly, v: Symbol)
    requires c != d
    ensures Step(c, v) != Step(d, v)
  {
    var e := Add(c, d);
    AddLaws(c, d);
    StepLinear(e, d, v);
    AddLaws(Step(e, 0), Step(d, v));
    if Step(c, v) == Step(d, v) {
      StepInjective(e);
      assert false;
    }
  }

  lemma {:induction false} SymbolBits(v: nat, w: nat, width: nat) returns (k: nat)
    requires v != w && v < Pow2(width) && w < Pow2(width)
    ensures k < width && Bit(v, k) != Bit(w, k)
  {
    if v % 2 != w % 2 {
      k := 0;
    } else {
      var j := SymbolBits(v / 2, w / 2, width - 1);
      k := j + 1;
    }
  }

  lemma StepDiffers(c: Poly, v: Symbol, w: Symbol)
    requires v != w
    ensures Step(c, v) != Step(c, w)
  {
    assert Pow2(5) == 32;
    var k := SymbolBits(v, w, 5);
    hide Bit;
    assert Step(c, v)[k] != Step(c, w)[k];
  }

  /** Changing any single symbol changes the checksum. */
  lemma SingleChange(v: seq<Symbol>, w: seq<Symbol>, i: nat)
    requires |v| == |w| && i < |v| && v[i] != w[i] && (forall j :: 0 <= j < |v| && j != i ==> v[j] == w[j])
    ensures PolyModOf(v) != PolyModOf(w)
  {
    hide Step, From, PolyOf;
    var one := PolyOf(1);
    assert v == v[..i + 1] + v[i + 1..] && w == w[..i + 1] + w[i + 1..];
    assert v[i + 1..] == w[i + 1..] && v[..i] == w[..i];
    FromJoin(one, v[..i + 1], v[i + 1..]);
    FromJoin(one, w[..i + 1], w[i + 1..]);
    FromLast(one, v, i);
    FromLast(one, w, i);
    StepDiffers(From(one, v[..i]), v[i], w[i]);
    FromApart(From(one, v[..i + 1]), From(one, w[..i + 1]), v[i + 1..]);
  }

  // ----- The six symbols that make a checksum right

  function Zeros(n: nat): seq<Symbol>
  {
    seq(n, _ => 0)
  }

  lemma {:induction false} FromLinear(c: Poly, d: Poly, v: seq<Symbol>)
    ensures From(Add(c, d), v) == Add(From(c, Zeros(|v|)), From(d, v))
  {
    hide Step, Add;
    if v != [] {
      var n := |v| - 1;
      FromLinear(c, d, v[..n]);
      assert Zeros(|v|)[..n] == Zeros(n);
      StepLinear(From(c, Zeros(n)), From(d, v[..n]), v[n]);
    }
  }

  /** Up to six symbols on zero are just written one after the other. */
  lemma {:induction false} FromZero(v: seq<Symbol>)
    requires |v| <= 6
    ensures forall i: nat :: i < 30 ==> From(ZERO, v)[i] == (i < 5 * |v| && Bit(v[|v| - 1 - i / 5], i % 5))
  {
    hide Bit;
    if v != [] {
      var n := |v| - 1;
      FromZero(v[..n]);
      var c := From(ZERO, v[..n]);
      assert !c[25] && !c[26] && !c[27] && !c[28] && !c[29];
      forall i: nat | i < 30 ensures From(ZERO, v)[i] == (i < 5 * |v| && Bit(v[|v| - 1 - i / 5], i % 5)) {
        assert !Folded(c, i);
        if i >= 5 {
          assert c[i - 5] == (i - 5 < 5 * n && Bit(v[..n][n - 1 - (i - 5) / 5], (i - 5) % 5));
          assert (i - 5) / 5 == i / 5 - 1 && (i - 5) % 5 == i % 5;
        }
      }
    }
  }

  /** y moved up by a bit, with b below it. */
  function Cons(b: bool, y: nat): nat
  {
    (if b then 1 else 0) + 2 * y
  }

  lemma ConsBits(b: bool, y: nat, k: nat)
    ensures Bit(Cons(b, y), 0) == b && Bit(Cons(b, y), k + 1) == Bit(y, k)
  {
    assert Cons(b, y) / 2 == y;
  }

  function Number(b0: bool, b1: bool, b2: bool, b3: bool, b4: bool): Symbol
  {
    Cons(b0, Cons(b1, Cons(b2, Cons(b3, Cons(b4, 0)))))
  }

  lemma NumberBits(b0: bool, b1: bool, b2: bool, b3: bool, b4: bool)
    ensures var x := Number(b0, b1, b2, b3, b4);
            Bit(x, 0) == b0 && Bit(x, 1) == b1 && Bit(x, 2) == b2 && Bit(x, 3) == b3 && Bit(x, 4) == b4
  {
    var x4 := Cons(b4, 0);
    var x3 := Cons(b3, x4);
    var x2 := Cons(b2, x3);
    var x1 := Cons(b1, x2);
    hide Bit, Cons;
    ConsBits(b4, 0, 0);
    ConsBits(b3, x4, 0);
    ConsBits(b2, x3, 0);
    ConsBits(b2, x3, 1);
    ConsBits(b1, x2, 0);
    ConsBits(b1, x2, 1);
    ConsBits(b1, x2, 2);
    ConsBits(b0, x1, 0);
    ConsBits(b0, x1, 1);
    ConsBits(b0, x1, 2);
    ConsBits(b0, x1, 3);
  }

  /** The 5-bit group i of a remainder, counted from the top. */
  function Group(m: Poly, i: nat): Symbol
    requires i < 6
  {
    var j := 5 * (5 - i);
    Number(m[j], m[j + 1], m[j + 2], m[j + 3], m[j + 4])
  }

  function Groups(m: Poly): seq<Symbol>
  {
    seq(6, i requires 0 <= i < 6 => Group(m, i))
  }

  lemma GroupBit(m: Poly, i: nat, k: nat)
    requires i < 6 && k < 5
    ensures Bit(Group(m, i), k) == m[5 * (5 - i) + k]
  {
    var j := 5 * (5 - i);
    NumberBits(m[j], m[j + 1], m[j + 2], m[j + 3], m[j + 4]);
  }

  lemma GroupsPack(m: Poly)
    ensures From(ZERO, Groups(m)) == m
  {
    hide Group, Bit;
    var v := Groups(m);
    FromZero(v);
    forall i: nat | i < 30 ensures From(ZERO, v)[i] == m[i] {
      GroupBit(m, 5 - i / 5, i % 5);
      assert 5 * (i / 5) + i % 5 == i;
    }
  }

  /** What CreateChecksum appends. */
  function ChecksumOf(enc: seq<Symbol>): seq<Symbol>
  {
    Groups(Add(PolyModOf(enc + Zeros(6)), PolyOf(1)))
  }

  /** With its checksum a word has remainder one. */
  lemma ChecksumVerifies(enc: seq<Symbol>)
    ensures |ChecksumOf(enc)| == 6 && PolyModOf(enc + ChecksumOf(enc)) == PolyOf(1)
  {
    hide Step, From, Group, PolyOf;
    var one := PolyOf(1);
    var s := From(one, enc);
    var m := Add(PolyModOf(enc + Zeros(6)), one);
    var sum := Groups(m);
    FromJoin(one, enc, Zeros(6));
    FromJoin(one, enc, sum);
    assert Add(s, ZERO) == s;
    FromLinear(s, ZERO, sum);
    GroupsPack(m);
    AddCancels(From(s, Zeros(6)), one);
  }

  lemma AddCancels(c: Poly, d: Poly)
    ensures Add(c, Add(c, d)) == d
  {
  }

  /** The groups of what six symbols on zero are, are the symbols. */
  lemma PackUnique(v: seq<Symbol>)
    requires |v| == 6
    ensures Groups(From(ZERO, v)) == v
  {
    hide Group, Bit, From;
    FromZero(v);
    var m := From(ZERO, v);
    assert Pow2(5) == 32;
    hide Pow2;
    forall i: nat | i < 6 ensures Group(m, i) == v[i] {
      if Group(m, i) != v[i] {
        var k := SymbolBits(Group(m, i), v[i], 5);
        GroupBit(m, i, k);
        GroupPlace(i, k);
        assert false;
      }
    }
  }

  lemma GroupPlace(i: nat, k: nat)
    requires i < 6 && k < 5
    ensures (5 * (5 - i) + k) / 5 == 5 - i && (5 * (5 - i) + k) % 5 == k
  {
  }

  /** No other six symbols give a word remainder one. */
  lemma ChecksumUnique(enc: seq<Symbol>, sum: seq<Symbol>)
    requires |sum| == 6 && PolyModOf(enc + sum) == PolyOf(1)
    ensures sum == ChecksumOf(enc)
  {
    hide Step, From, Group, PolyOf, Groups;
    var one := PolyOf(1);
    var s := From(one, enc);
    var base, x := From(s, Zeros(6)), From(ZERO, sum);
    FromJoin(one, enc, Zeros(6));
    FromJoin(one, enc, sum);
    assert Add(s, ZERO) == s;
    FromLinear(s, ZERO, sum);
    AddCancels(base, x);
    PackUnique(sum);
  }
}
