/**
 Wrong symbols.  A remainder is evaluated at three consecutive powers of e, roots of
 the generator, so one step multiplies the value by that power and adds a symbol.
 Up to three changed symbols within 1023 positions cannot cancel in all three values.
 */
module Bech32Errors {

  import opened Bits
  import opened Powers
  import opened Bech32Checksum
  import opened Bech32Generator
  import opened Bech32Field
  import Bech32Four

  // ----- Symbols as field elements

  function Sym(b0: bool, b1: bool, b2: bool, b3: bool, b4: bool): Element
  {
    Combine(b0, 1, b1, 2, b2, 4, b3, 8, b4, 16)
  }

  function Combine(b0: bool, c0: Element, b1: bool, c1: Element, b2: bool, c2: Element, b3: bool, c3: Element,
                   b4: bool, c4: Element): Element
  {
    Plus(Four(Part(b0, c0), Part(b1, c1), Part(b2, c2), Part(b3, c3)), Part(b4, c4))
  }

  function SymbolOf(v: Symbol): Element
  {
    Sym(Bit(v, 0), Bit(v, 1), Bit(v, 2), Bit(v, 3), Bit(v, 4))
  }

  function Digit(c: Poly, j: nat): Element
    requires j < 6
  {
    Sym(c[5 * j], c[5 * j + 1], c[5 * j + 2], c[5 * j + 3], c[5 * j + 4])
  }

  /** The symbol j of what is folded back. */
  function FoldDigit(c: Poly, j: nat): Element
  {
    Sym(Folded(c, 5 * j), Folded(c, 5 * j + 1), Folded(c, 5 * j + 2), Folded(c, 5 * j + 3), Folded(c, 5 * j + 4))
  }

  lemma SymXor(a0: bool, a1: bool, a2: bool, a3: bool, a4: bool, b0: bool, b1: bool, b2: bool, b3: bool, b4: bool)
    ensures Sym(Xor(a0, b0), Xor(a1, b1), Xor(a2, b2), Xor(a3, b3), Xor(a4, b4)) == Plus(Sym(a0, a1, a2, a3, a4), Sym(b0, b1, b2, b3, b4))
  {
  }

  lemma FirstDigit(c: Poly, v: Symbol)
    ensures Digit(Step(c, v), 0) == Plus(SymbolOf(v), FoldDigit(c, 0))
  {
    hide Sym, Folded, Bit, Plus;
    SymXor(Bit(v, 0), Bit(v, 1), Bit(v, 2), Bit(v, 3), Bit(v, 4), Folded(c, 0), Folded(c, 1), Folded(c, 2), Folded(c, 3), Folded(c, 4));
  }

  lemma NextDigit(c: Poly, v: Symbol, j: nat)
    requires 0 < j < 6
    ensures Digit(Step(c, v), j) == Plus(Digit(c, j - 1), FoldDigit(c, j))
  {
    hide Sym, Folded, Bit, Plus;
    var i := 5 * j;
    SymXor(c[i - 5], c[i - 4], c[i - 3], c[i - 2], c[i - 1],
           Folded(c, i), Folded(c, i + 1), Folded(c, i + 2), Folded(c, i + 3), Folded(c, i + 4));
  }

  lemma Fold0(c: Poly)
    ensures FoldDigit(c, 0) == Combine(c[25], 18, c[26], 13, c[27], 26, c[28], 29, c[29], 19)
  {
    hide Column, Folded;
    LowBits();
    FoldedIs(c, 0, false, true, false, true, true);
    FoldedIs(c, 1, true, false, true, false, true);
    FoldedIs(c, 2, false, true, false, true, false);
    FoldedIs(c, 3, false, true, true, true, false);
    FoldedIs(c, 4, true, false, true, true, true);
  }

  lemma Fold1(c: Poly)
    ensures FoldDigit(c, 1) == Combine(c[25], 29, c[26], 19, c[27], 15, c[28], 30, c[29], 21)
  {
    hide Column, Folded;
    Columns1();
    FoldedIs(c, 5, true, true, true, false, true);
    FoldedIs(c, 6, false, true, true, true, false);
    FoldedIs(c, 7, true, false, true, true, true);
    FoldedIs(c, 8, true, false, true, true, false);
    FoldedIs(c, 9, true, true, false, true, true);
  }

  lemma Fold2(c: Poly)
    ensures FoldDigit(c, 2) == Combine(c[25], 21, c[26], 3, c[27], 6, c[28], 12, c[29], 24)
  {
    hide Column, Folded;
    Columns2();
    FoldedIs(c, 10, true, true, false, false, false);
    FoldedIs(c, 11, false, true, true, false, false);
    FoldedIs(c, 12, true, false, true, true, false);
    FoldedIs(c, 13, false, false, false, true, true);
    FoldedIs(c, 14, true, false, false, false, true);
  }

  lemma Fold3(c: Poly)
    ensures FoldDigit(c, 3) == Combine(c[25], 20, c[26], 1, c[27], 2, c[28], 4, c[29], 8)
  {
    hide Column, Folded;
    Columns3();
    FoldedIs(c, 15, false, true, false, false, false);
    FoldedIs(c, 16, false, false, true, false, false);
    FoldedIs(c, 17, true, false, false, true, false);
    FoldedIs(c, 18, false, false, false, false, true);
    FoldedIs(c, 19, true, false, false, false, false);
  }

  lemma Fold4(c: Poly)
    ensures FoldDigit(c, 4) == Combine(c[25], 22, c[26], 5, c[27], 10, c[28], 20, c[29], 1)
  {
    hide Column, Folded;
    Columns4();
    FoldedIs(c, 20, false, true, false, false, true);
    FoldedIs(c, 21, true, false, true, false, false);
    FoldedIs(c, 22, true, true, false, true, false);
    FoldedIs(c, 23, false, false, true, false, false);
    FoldedIs(c, 24, true, false, false, true, false);
  }

  lemma Fold5(c: Poly)
    ensures FoldDigit(c, 5) == Combine(c[25], 29, c[26], 19, c[27], 15, c[28], 30, c[29], 21)
  {
    hide Column, Folded;
    Columns5();
    FoldedIs(c, 25, true, true, true, false, true);
    FoldedIs(c, 26, false, true, true, true, false);
    FoldedIs(c, 27, true, false, true, true, true);
    FoldedIs(c, 28, true, false, true, true, false);
    FoldedIs(c, 29, true, true, false, true, true);
  }

  // ----- Values at a power of e

  function Horner(k: nat, s0: Element, s1: Element, s2: Element, s3: Element, s4: Element, s5: Element): Element
  {
    Plus(s0, Pow(k, Plus(s1, Pow(k, Plus(s2, Pow(k, Plus(s3, Pow(k, Plus(s4, Pow(k, s5))))))))))
  }

  lemma PlusPow(k: nat, x: Element, y: Element, u: Element, v: Element)
    ensures Plus(Plus(x, y), Pow(k, Plus(u, v))) == Plus(Plus(x, Pow(k, u)), Plus(y, Pow(k, v)))
  {
    hide Plus, Pow;
    PowPlus(k, u, v);
    Interchange(x, y, Pow(k, u), Pow(k, v));
  }

  lemma HornerPlus(k: nat, x0: Element, x1: Element, x2: Element, x3: Element, x4: Element, x5: Element,
                   y0: Element, y1: Element, y2: Element, y3: Element, y4: Element, y5: Element)
    ensures Horner(k, Plus(x0, y0), Plus(x1, y1), Plus(x2, y2), Plus(x3, y3), Plus(x4, y4), Plus(x5, y5))
            == Plus(Horner(k, x0, x1, x2, x3, x4, x5), Horner(k, y0, y1, y2, y3, y4, y5))
  {
    hide Plus, Pow;
    PlusPow(k, x4, y4, x5, y5);
    var u4, v4 := Plus(x4, Pow(k, x5)), Plus(y4, Pow(k, y5));
    PlusPow(k, x3, y3, u4, v4);
    var u3, v3 := Plus(x3, Pow(k, u4)), Plus(y3, Pow(k, v4));
    PlusPow(k, x2, y2, u3, v3);
    var u2, v2 := Plus(x2, Pow(k, u3)), Plus(y2, Pow(k, v3));
    PlusPow(k, x1, y1, u2, v2);
    var u1, v1 := Plus(x1, Pow(k, u2)), Plus(y1, Pow(k, v2));
    PlusPow(k, x0, y0, u1, v1);
  }

  lemma HornerNone(k: nat)
    ensures Horner(k, 0, 0, 0, 0, 0, 0) == 0
  {
    hide Pow;
    PowZero(k, 0);
  }

  lemma HornerPart(k: nat, b: bool, s0: Element, s1: Element, s2: Element, s3: Element, s4: Element, s5: Element)
    ensures Horner(k, Part(b, s0), Part(b, s1), Part(b, s2), Part(b, s3), Part(b, s4), Part(b, s5))
            == Part(b, Horner(k, s0, s1, s2, s3, s4, s5))
  {
    hide Horner;
    HornerNone(k);
  }

  // ----- The generator vanishes at three powers of e

  function HornerBy(m: Matrix, s0: Element, s1: Element, s2: Element, s3: Element, s4: Element, s5: Element): Element
  {
    Plus(s0, Apply(m, Plus(s1, Apply(m, Plus(s2, Apply(m, Plus(s3, Apply(m, Plus(s4, Apply(m, s5))))))))))
  }

  function SixBy(m: Matrix, z: Element): Element
  {
    Apply(m, Apply(m, Apply(m, Apply(m, Apply(m, Apply(m, z))))))
  }

  lemma HornerApply(k: nat, m: Matrix, s0: Element, s1: Element, s2: Element, s3: Element, s4: Element, s5: Element)
    requires Power(k) == m
    ensures Horner(k, s0, s1, s2, s3, s4, s5) == HornerBy(m, s0, s1, s2, s3, s4, s5)
  {
    hide Pow, Apply, Power, Plus;
    PowApply(k, s5);
    var t4 := Plus(s4, Apply(m, s5));
    PowApply(k, t4);
    var t3 := Plus(s3, Apply(m, t4));
    PowApply(k, t3);
    var t2 := Plus(s2, Apply(m, t3));
    PowApply(k, t2);
    PowApply(k, Plus(s1, Apply(m, t2)));
  }

  lemma SixApply(k: nat, m: Matrix, z: Element)
    requires Power(k) == m
    ensures Pow(6 * k, z) == SixBy(m, z)
  {
    hide Pow, Apply, Power;
    PowAdd(k, 5 * k, z);
    PowAdd(k, 4 * k, z);
    PowAdd(k, 3 * k, z);
    PowAdd(k, 2 * k, z);
    PowAdd(k, k, z);
    PowApply(k, z);
    var z1 := Apply(m, z);
    PowApply(k, z1);
    var z2 := Apply(m, z1);
    PowApply(k, z2);
    var z3 := Apply(m, z2);
    PowApply(k, z3);
    var z4 := Apply(m, z3);
    PowApply(k, z4);
    PowApply(k, Apply(m, z4));
  }

  /** This multiple of the generator has the value of x^6 there. */
  predicate Vanishes(k: nat, v: Element, s0: Element, s1: Element, s2: Element, s3: Element, s4: Element, s5: Element)
  {
    Horner(k, s0, s1, s2, s3, s4, s5) == Pow(6 * k, v)
  }

  lemma Ground997(m: Matrix)
    requires m == Matrix(0x1bd, 0x353, 0x3af, 0x27e, 0x1f5, 0x65, 0xca, 0x194, 0x301, 0x322)
    ensures HornerBy(m, 18, 29, 21, 20, 22, 29) == SixBy(m, 1)
    ensures HornerBy(m, 13, 19, 3, 1, 5, 19) == SixBy(m, 2)
    ensures HornerBy(m, 26, 15, 6, 2, 10, 15) == SixBy(m, 4)
    ensures HornerBy(m, 29, 30, 12, 4, 20, 30) == SixBy(m, 8)
    ensures HornerBy(m, 19, 21, 24, 8, 1, 21) == SixBy(m, 16)
  {
  }

  lemma Root997()
    ensures Vanishes(997, 1, 18, 29, 21, 20, 22, 29)
    ensures Vanishes(997, 2, 13, 19, 3, 1, 5, 19)
    ensures Vanishes(997, 4, 26, 15, 6, 2, 10, 15)
    ensures Vanishes(997, 8, 29, 30, 12, 4, 20, 30)
    ensures Vanishes(997, 16, 19, 21, 24, 8, 1, 21)
  {
    hide Pow, HornerBy, SixBy, Power, Horner;
    var m := Matrix(0x1bd, 0x353, 0x3af, 0x27e, 0x1f5, 0x65, 0xca, 0x194, 0x301, 0x322);
    Power997();
    Ground997(m);
    HornerApply(997, m, 18, 29, 21, 20, 22, 29);
    SixApply(997, m, 1);
    HornerApply(997, m, 13, 19, 3, 1, 5, 19);
    SixApply(997, m, 2);
    HornerApply(997, m, 26, 15, 6, 2, 10, 15);
    SixApply(997, m, 4);
    HornerApply(997, m, 29, 30, 12, 4, 20, 30);
    SixApply(997, m, 8);
    HornerApply(997, m, 19, 21, 24, 8, 1, 21);
    SixApply(997, m, 16);
  }

  lemma Ground998(m: Matrix)
    requires m == Matrix(0x65, 0xca, 0x194, 0x301, 0x322, 0x3d0, 0x2a9, 0x72, 0xcd, 0x19a)
    ensures HornerBy(m, 18, 29, 21, 20, 22, 29) == SixBy(m, 1)
    ensures HornerBy(m, 13, 19, 3, 1, 5, 19) == SixBy(m, 2)
    ensures HornerBy(m, 26, 15, 6, 2, 10, 15) == SixBy(m, 4)
    ensures HornerBy(m, 29, 30, 12, 4, 20, 30) == SixBy(m, 8)
    ensures HornerBy(m, 19, 21, 24, 8, 1, 21) == SixBy(m, 16)
  {
  }

  lemma Root998()
    ensures Vanishes(998, 1, 18, 29, 21, 20, 22, 29)
    ensures Vanishes(998, 2, 13, 19, 3, 1, 5, 19)
    ensures Vanishes(998, 4, 26, 15, 6, 2, 10, 15)
    ensures Vanishes(998, 8, 29, 30, 12, 4, 20, 30)
    ensures Vanishes(998, 16, 19, 21, 24, 8, 1, 21)
  {
    hide Pow, HornerBy, SixBy, Power, Horner;
    var m := Matrix(0x65, 0xca, 0x194, 0x301, 0x322, 0x3d0, 0x2a9, 0x72, 0xcd, 0x19a);
    Power998();
    Ground998(m);
    HornerApply(998, m, 18, 29, 21, 20, 22, 29);
    SixApply(998, m, 1);
    HornerApply(998, m, 13, 19, 3, 1, 5, 19);
    SixApply(998, m, 2);
    HornerApply(998, m, 26, 15, 6, 2, 10, 15);
    SixApply(998, m, 4);
    HornerApply(998, m, 29, 30, 12, 4, 20, 30);
    SixApply(998, m, 8);
    HornerApply(998, m, 19, 21, 24, 8, 1, 21);
    SixApply(998, m, 16);
  }

  lemma Ground999(m: Matrix)
    requires m == Matrix(0x3d0, 0x2a9, 0x72, 0xcd, 0x19a, 0x104, 0x208, 0x130, 0x249, 0x1b2)
    ensures HornerBy(m, 18, 29, 21, 20, 22, 29) == SixBy(m, 1)
    ensures HornerBy(m, 13, 19, 3, 1, 5, 19) == SixBy(m, 2)
    ensures HornerBy(m, 26, 15, 6, 2, 10, 15) == SixBy(m, 4)
    ensures HornerBy(m, 29, 30, 12, 4, 20, 30) == SixBy(m, 8)
    ensures HornerBy(m, 19, 21, 24, 8, 1, 21) == SixBy(m, 16)
  {
  }

  lemma Root999()
    ensures Vanishes(999, 1, 18, 29, 21, 20, 22, 29)
    ensures Vanishes(999, 2, 13, 19, 3, 1, 5, 19)
    ensures Vanishes(999, 4, 26, 15, 6, 2, 10, 15)
    ensures Vanishes(999, 8, 29, 30, 12, 4, 20, 30)
    ensures Vanishes(999, 16, 19, 21, 24, 8, 1, 21)
  {
    hide Pow, HornerBy, SixBy, Power, Horner;
    var m := Matrix(0x3d0, 0x2a9, 0x72, 0xcd, 0x19a, 0x104, 0x208, 0x130, 0x249, 0x1b2);
    Power999();
    Ground999(m);
    HornerApply(999, m, 18, 29, 21, 20, 22, 29);
    SixApply(999, m, 1);
    HornerApply(999, m, 13, 19, 3, 1, 5, 19);
    SixApply(999, m, 2);
    HornerApply(999, m, 26, 15, 6, 2, 10, 15);
    SixApply(999, m, 4);
    HornerApply(999, m, 29, 30, 12, 4, 20, 30);
    SixApply(999, m, 8);
    HornerApply(999, m, 19, 21, 24, 8, 1, 21);
    SixApply(999, m, 16);
  }

  lemma PowCombine(n: nat, b0: bool, c0: Element, b1: bool, c1: Element, b2: bool, c2: Element, b3: bool, c3: Element, b4: bool, c4: Element)
    ensures Pow(n, Combine(b0, c0, b1, c1, b2, c2, b3, c3, b4, c4))
            == Combine(b0, Pow(n, c0), b1, Pow(n, c1), b2, Pow(n, c2), b3, Pow(n, c3), b4, Pow(n, c4))
  {
    hide Pow, Plus, Four, Part;
    PowPlus(n, Four(Part(b0, c0), Part(b1, c1), Part(b2, c2), Part(b3, c3)), Part(b4, c4));
    PowFour(n, Part(b0, c0), Part(b1, c1), Part(b2, c2), Part(b3, c3));
    PowPart(n, b0, c0);
    PowPart(n, b1, c1);
    PowPart(n, b2, c2);
    PowPart(n, b3, c3);
    PowPart(n, b4, c4);
  }

  lemma HornerFour(k: nat, p0: Element, p1: Element, p2: Element, p3: Element, p4: Element, p5: Element,
                   q0: Element, q1: Element, q2: Element, q3: Element, q4: Element, q5: Element,
                   r0: Element, r1: Element, r2: Element, r3: Element, r4: Element, r5: Element,
                   s0: Element, s1: Element, s2: Element, s3: Element, s4: Element, s5: Element)
    ensures Horner(k, Four(p0, q0, r0, s0), Four(p1, q1, r1, s1), Four(p2, q2, r2, s2), Four(p3, q3, r3, s3), Four(p4, q4, r4, s4),
                      Four(p5, q5, r5, s5))
            == Four(Horner(k, p0, p1, p2, p3, p4, p5), Horner(k, q0, q1, q2, q3, q4, q5), Horner(k, r0, r1, r2, r3, r4, r5),
                    Horner(k, s0, s1, s2, s3, s4, s5))
  {
    hide Horner, Plus, Four;
    FourPlus(p0, q0, r0, s0);
    FourPlus(p1, q1, r1, s1);
    FourPlus(p2, q2, r2, s2);
    FourPlus(p3, q3, r3, s3);
    FourPlus(p4, q4, r4, s4);
    FourPlus(p5, q5, r5, s5);
    FourPlus(Horner(k, p0, p1, p2, p3, p4, p5), Horner(k, q0, q1, q2, q3, q4, q5), Horner(k, r0, r1, r2, r3, r4, r5),
        Horner(k, s0, s1, s2, s3, s4, s5));
    HornerPlus(k, p0, p1, p2, p3, p4, p5, q0, q1, q2, q3, q4, q5);
    HornerPlus(k, r0, r1, r2, r3, r4, r5, s0, s1, s2, s3, s4, s5);
    HornerPlus(k, Plus(p0, q0), Plus(p1, q1), Plus(p2, q2), Plus(p3, q3), Plus(p4, q4), Plus(p5, q5), Plus(r0, s0),
        Plus(r1, s1), Plus(r2, s2), Plus(r3, s3), Plus(r4, s4), Plus(r5, s5));
  }

  lemma HornerCombine(k: nat, b0: bool, p0: Element, p1: Element, p2: Element, p3: Element, p4: Element, p5: Element,
                      b1: bool, q0: Element, q1: Element, q2: Element, q3: Element, q4: Element, q5: Element,
                      b2: bool, r0: Element, r1: Element, r2: Element, r3: Element, r4: Element, r5: Element,
                      b3: bool, s0: Element, s1: Element, s2: Element, s3: Element, s4: Element, s5: Element,
                      b4: bool, t0: Element, t1: Element, t2: Element, t3: Element, t4: Element, t5: Element)
    ensures Horner(k, Combine(b0, p0, b1, q0, b2, r0, b3, s0, b4, t0),
                   Combine(b0, p1, b1, q1, b2, r1, b3, s1, b4, t1),
                   Combine(b0, p2, b1, q2, b2, r2, b3, s2, b4, t2),
                   Combine(b0, p3, b1, q3, b2, r3, b3, s3, b4, t3),
                   Combine(b0, p4, b1, q4, b2, r4, b3, s4, b4, t4),
                   Combine(b0, p5, b1, q5, b2, r5, b3, s5, b4, t5))
            == Combine(b0, Horner(k, p0, p1, p2, p3, p4, p5), b1, Horner(k, q0, q1, q2, q3, q4, q5), b2, Horner(k, r0, r1, r2, r3, r4, r5),
                       b3, Horner(k, s0, s1, s2, s3, s4, s5), b4, Horner(k, t0, t1, t2, t3, t4, t5))
  {
    hide Horner, Plus, Four, Part;
    HornerPlus(k, Four(Part(b0, p0), Part(b1, q0), Part(b2, r0), Part(b3, s0)),
               Four(Part(b0, p1), Part(b1, q1), Part(b2, r1), Part(b3, s1)),
               Four(Part(b0, p2), Part(b1, q2), Part(b2, r2), Part(b3, s2)),
               Four(Part(b0, p3), Part(b1, q3), Part(b2, r3), Part(b3, s3)),
               Four(Part(b0, p4), Part(b1, q4), Part(b2, r4), Part(b3, s4)),
               Four(Part(b0, p5), Part(b1, q5), Part(b2, r5), Part(b3, s5)),
               Part(b4, t0), Part(b4, t1), Part(b4, t2), Part(b4, t3), Part(b4, t4), Part(b4, t5));
    HornerFour(k, Part(b0, p0), Part(b0, p1), Part(b0, p2), Part(b0, p3), Part(b0, p4), Part(b0, p5), Part(b1, q0),
        Part(b1, q1), Part(b1, q2), Part(b1, q3), Part(b1, q4), Part(b1, q5),
               Part(b2, r0), Part(b2, r1), Part(b2, r2), Part(b2, r3), Part(b2, r4), Part(b2, r5), Part(b3, s0),
                   Part(b3, s1), Part(b3, s2), Part(b3, s3), Part(b3, s4), Part(b3, s5));
    HornerPart(k, b0, p0, p1, p2, p3, p4, p5);
    HornerPart(k, b1, q0, q1, q2, q3, q4, q5);
    HornerPart(k, b2, r0, r1, r2, r3, r4, r5);
    HornerPart(k, b3, s0, s1, s2, s3, s4, s5);
    HornerPart(k, b4, t0, t1, t2, t3, t4, t5);
  }

  predicate Root(k: nat)
  {
    && Vanishes(k, 1, 18, 29, 21, 20, 22, 29)
    && Vanishes(k, 2, 13, 19, 3, 1, 5, 19)
    && Vanishes(k, 4, 26, 15, 6, 2, 10, 15)
    && Vanishes(k, 8, 29, 30, 12, 4, 20, 30)
    && Vanishes(k, 16, 19, 21, 24, 8, 1, 21)
  }

  lemma Roots(k: nat)
    requires 997 <= k <= 999
    ensures Root(k)
  {
    hide Vanishes;
    if k == 997 {
      Root997();
    } else if k == 998 {
      Root998();
    } else {
      Root999();
    }
  }

  /** What is folded back has the value of the symbol shifted out, six places up. */
  lemma FoldValue(k: nat, c: Poly)
    requires Root(k)
    ensures Horner(k, FoldDigit(c, 0), FoldDigit(c, 1), FoldDigit(c, 2), FoldDigit(c, 3), FoldDigit(c, 4), FoldDigit(c, 5))
            == Pow(6 * k, Digit(c, 5))
  {
    hide Horner, Combine, Pow, FoldDigit;
    Fold0(c);
    Fold1(c);
    Fold2(c);
    Fold3(c);
    Fold4(c);
    Fold5(c);
    HornerCombine(k, c[25], 18, 29, 21, 20, 22, 29,
                  c[26], 13, 19, 3, 1, 5, 19,
                  c[27], 26, 15, 6, 2, 10, 15,
                  c[28], 29, 30, 12, 4, 20, 30,
                  c[29], 19, 21, 24, 8, 1, 21);
    PowCombine(6 * k, c[25], 1, c[26], 2, c[27], 4, c[28], 8, c[29], 16);
  }

  /** The value of a remainder at e^k. */
  function Value(k: nat, c: Poly): Element
  {
    Horner(k, Digit(c, 0), Digit(c, 1), Digit(c, 2), Digit(c, 3), Digit(c, 4), Digit(c, 5))
  }

  /** The highest symbol taken out of a value. */
  lemma HornerTop(k: nat, s0: Element, s1: Element, s2: Element, s3: Element, s4: Element, s5: Element)
    ensures Pow(k, Horner(k, s0, s1, s2, s3, s4, s5)) == Plus(Horner(k, 0, s0, s1, s2, s3, s4), Pow(6 * k, s5))
  {
    hide Plus, Pow, Horner;
    PlusLaws(s0, 0, 0);
    PlusLaws(s1, 0, 0);
    PlusLaws(s2, 0, 0);
    PlusLaws(s3, 0, 0);
    PlusLaws(s4, 0, 0);
    ZeroPlus(s5);
    HornerPlus(k, s0, s1, s2, s3, s4, 0, 0, 0, 0, 0, 0, s5);
    PowPlus(k, Horner(k, s0, s1, s2, s3, s4, 0), Horner(k, 0, 0, 0, 0, 0, s5));
    HornerUp(k, s0, s1, s2, s3, s4);
    HornerOnly(k, s5);
  }

  lemma ZeroPlus(x: Element)
    ensures Plus(0, x) == x
  {
  }

  lemma HornerUp(k: nat, s0: Element, s1: Element, s2: Element, s3: Element, s4: Element)
    ensures Pow(k, Horner(k, s0, s1, s2, s3, s4, 0)) == Horner(k, 0, s0, s1, s2, s3, s4)
  {
    hide Plus, Pow;
    PowZero(k, 0);
    PlusLaws(s4, 0, 0);
    ZeroPlus(Pow(k, Horner(k, s0, s1, s2, s3, s4, 0)));
  }

  lemma HornerOnly(k: nat, s5: Element)
    ensures Pow(k, Horner(k, 0, 0, 0, 0, 0, s5)) == Pow(6 * k, s5)
  {
    hide Plus, Pow;
    PowAdd(k, k, s5);
    PowAdd(k, 2 * k, s5);
    PowAdd(k, 3 * k, s5);
    PowAdd(k, 4 * k, s5);
    PowAdd(k, 5 * k, s5);
    ZeroPlus(Pow(k, s5));
    ZeroPlus(Pow(2 * k, s5));
    ZeroPlus(Pow(3 * k, s5));
    ZeroPlus(Pow(4 * k, s5));
    ZeroPlus(Pow(5 * k, s5));
  }

  /** One symbol more: the value is multiplied by e^k, and the symbol added. */
  lemma StepValue(k: nat, c: Poly, v: Symbol)
    requires 997 <= k <= 999
    ensures Value(k, Step(c, v)) == Plus(Pow(k, Value(k, c)), SymbolOf(v))
  {
    hide Horner, Pow, Plus, Digit, FoldDigit, SymbolOf, Step, Root;
    Roots(k);
    FirstDigit(c, v);
    NextDigit(c, v, 1);
    NextDigit(c, v, 2);
    NextDigit(c, v, 3);
    NextDigit(c, v, 4);
    NextDigit(c, v, 5);
    var d0, d1, d2, d3, d4, d5 := Digit(c, 0), Digit(c, 1), Digit(c, 2), Digit(c, 3), Digit(c, 4), Digit(c, 5);
    HornerPlus(k, SymbolOf(v), d0, d1, d2, d3, d4,
               FoldDigit(c, 0), FoldDigit(c, 1), FoldDigit(c, 2), FoldDigit(c, 3), FoldDigit(c, 4), FoldDigit(c, 5));
    FoldValue(k, c);
    HornerTop(k, d0, d1, d2, d3, d4, d5);
    HornerFirst(k, SymbolOf(v), d0, d1, d2, d3, d4);
    Rearrange(Horner(k, 0, d0, d1, d2, d3, d4), SymbolOf(v), Pow(6 * k, d5));
  }

  lemma HornerFirst(k: nat, s: Element, s1: Element, s2: Element, s3: Element, s4: Element, s5: Element)
    ensures Horner(k, s, s1, s2, s3, s4, s5) == Plus(Horner(k, 0, s1, s2, s3, s4, s5), s)
  {
    hide Plus, Pow;
    var t := Pow(k, Plus(s1, Pow(k, Plus(s2, Pow(k, Plus(s3, Pow(k, Plus(s4, Pow(k, s5)))))))));
    ZeroPlus(t);
    PlusLaws(s, t, 0);
  }

  lemma Rearrange(x: Element, s: Element, y: Element)
    ensures Plus(Plus(x, s), y) == Plus(Plus(x, y), s)
  {
    hide Plus;
    PlusLaws(x, s, y);
    PlusLaws(s, y, 0);
    PlusLaws(x, y, s);
  }

  // ----- Two words compared

  /** Times the d-th power of e^k. */
  function At(k: nat, d: nat, x: Element): Element
  {
    Pow(k * d, x)
  }

  function ValueAt(k: nat, v: seq<Symbol>, n: nat): Element
    requires n <= |v|
  {
    Value(k, From(PolyOf(1), v[..n]))
  }

  /** How far the values of two words are apart after n symbols. */
  function Gap(k: nat, v: seq<Symbol>, w: seq<Symbol>, n: nat): Element
    requires n <= |v| == |w|
  {
    Plus(ValueAt(k, v, n), ValueAt(k, w, n))
  }

  function Wrong(v: seq<Symbol>, w: seq<Symbol>, n: nat): Element
    requires n < |v| == |w|
  {
    Plus(SymbolOf(v[n]), SymbolOf(w[n]))
  }

  lemma SymBits(a0: bool, a1: bool, a2: bool, a3: bool, a4: bool, b0: bool, b1: bool, b2: bool, b3: bool, b4: bool)
    requires Sym(a0, a1, a2, a3, a4) == Sym(b0, b1, b2, b3, b4)
    ensures a0 == b0 && a1 == b1 && a2 == b2 && a3 == b3 && a4 == b4
  {
  }

  lemma WrongZero(v: seq<Symbol>, w: seq<Symbol>, n: nat)
    requires n < |v| == |w|
    ensures Wrong(v, w, n) == 0 <==> v[n] == w[n]
  {
    hide Sym, Bit, Plus;
    var x, y := v[n], w[n];
    PlusZero(SymbolOf(x), SymbolOf(y));
    if SymbolOf(x) == SymbolOf(y) && x != y {
      SymBits(Bit(x, 0), Bit(x, 1), Bit(x, 2), Bit(x, 3), Bit(x, 4), Bit(y, 0), Bit(y, 1), Bit(y, 2), Bit(y, 3), Bit(y, 4));
      FiveBits(x, y);
      assert false;
    }
  }

  lemma FiveBits(x: Symbol, y: Symbol)
    requires Bit(x, 0) == Bit(y, 0) && Bit(x, 1) == Bit(y, 1) && Bit(x, 2) == Bit(y, 2) && Bit(x, 3) == Bit(y, 3) && Bit(x, 4) == Bit(y, 4)
    ensures x == y
  {
    hide Bit;
    if x != y {
      assert Pow2(5) == 32;
      var k := SymbolBits(x, y, 5);
      assert false;
    }
  }

  lemma ValueStep(k: nat, v: seq<Symbol>, n: nat)
    requires 997 <= k <= 999 && n < |v|
    ensures ValueAt(k, v, n + 1) == Plus(Pow(k, ValueAt(k, v, n)), SymbolOf(v[n]))
  {
    hide Value, Step, Plus, Pow, SymbolOf, PolyOf, From;
    FromLast(PolyOf(1), v, n);
    StepValue(k, From(PolyOf(1), v[..n]), v[n]);
  }

  lemma GapStep(k: nat, v: seq<Symbol>, w: seq<Symbol>, n: nat)
    requires 997 <= k <= 999 && n < |v| == |w|
    ensures Gap(k, v, w, n + 1) == Plus(Pow(k, Gap(k, v, w, n)), Wrong(v, w, n))
  {
    hide ValueAt, Plus, Pow, SymbolOf;
    ValueStep(k, v, n);
    ValueStep(k, w, n);
    PowPlus(k, ValueAt(k, v, n), ValueAt(k, w, n));
    Interchange(Pow(k, ValueAt(k, v, n)), SymbolOf(v[n]), Pow(k, ValueAt(k, w, n)), SymbolOf(w[n]));
  }

  lemma GapStart(k: nat, v: seq<Symbol>, w: seq<Symbol>, n: nat)
    requires n <= |v| == |w| && v[..n] == w[..n]
    ensures Gap(k, v, w, n) == 0
  {
    hide Value, Plus, From, PolyOf;
    PlusZero(ValueAt(k, v, n), ValueAt(k, w, n));
  }

  /** Equal symbols just multiply the gap. */
  lemma {:induction false} GapRun(k: nat, v: seq<Symbol>, w: seq<Symbol>, n: nat, m: nat)
    requires 997 <= k <= 999 && n <= m <= |v| == |w| && (forall i :: n <= i < m ==> v[i] == w[i])
    ensures Gap(k, v, w, m) == At(k, m - n, Gap(k, v, w, n))
    decreases m - n
  {
    hide Gap, Plus, Pow, Wrong;
    if m == n {
      PowNone(Gap(k, v, w, n));
    } else {
      GapRun(k, v, w, n, m - 1);
      GapStep(k, v, w, m - 1);
      WrongZero(v, w, m - 1);
      PlusLaws(Pow(k, Gap(k, v, w, m - 1)), 0, 0);
      PowAdd(k, k * (m - 1 - n), Gap(k, v, w, n));
      assert k + k * (m - 1 - n) == k * (m - n);
    }
  }

  /** The gap behind a changed symbol, a power of e times what it was behind the one before, plus the change. */
  lemma GapNext(k: nat, v: seq<Symbol>, w: seq<Symbol>, i: nat, j: nat)
    requires 997 <= k <= 999 && i < j < |v| == |w| && (forall n :: i < n < j ==> v[n] == w[n])
    ensures Gap(k, v, w, j + 1) == Plus(At(k, j - i, Gap(k, v, w, i + 1)), Wrong(v, w, j))
  {
    hide Gap, Plus, Pow, Wrong;
    GapRun(k, v, w, i + 1, j);
    GapStep(k, v, w, j);
    PowAdd(k, k * (j - i - 1), Gap(k, v, w, i + 1));
    assert k + k * (j - i - 1) == k * (j - i);
  }

  lemma GapFirst(k: nat, v: seq<Symbol>, w: seq<Symbol>, i: nat)
    requires 997 <= k <= 999 && i < |v| == |w| && v[..i] == w[..i]
    ensures Gap(k, v, w, i + 1) == Wrong(v, w, i)
  {
    hide Gap, Plus, Pow, Wrong;
    GapStart(k, v, w, i);
    GapStep(k, v, w, i);
    PowZero(k, 0);
    ZeroPlus(Wrong(v, w, i));
  }

  lemma GapLast(k: nat, v: seq<Symbol>, w: seq<Symbol>, j: nat)
    requires 997 <= k <= 999 && j < |v| == |w| && (forall n :: j < n < |v| ==> v[n] == w[n]) && PolyModOf(v) == PolyModOf(w)
    ensures Gap(k, v, w, j + 1) == 0
  {
    hide Pow, Plus, Value, From, PolyOf;
    GapRun(k, v, w, j + 1, |v|);
    assert v[..|v|] == v && w[..|w|] == w;
    PlusZero(ValueAt(k, v, |v|), ValueAt(k, w, |w|));
    PowZero(k * (|v| - j - 1), Gap(k, v, w, j + 1));
  }

  // ----- Two and three changes

  /** Powers of e^998 and e^999 are powers of e^997, and once and twice as many of e. */
  lemma NextPowers(a: nat, z: Element)
    ensures Pow(998 * a, z) == Pow(a, Pow(997 * a, z))
    ensures Pow(999 * a, z) == Pow(a, Pow(a, Pow(997 * a, z)))
  {
    hide Pow;
    PowAdd(a, 997 * a, z);
    PowAdd(a, 998 * a, z);
  }

  /** The gap behind the second change. */
  lemma SecondGap(k: nat, v: seq<Symbol>, w: seq<Symbol>, i: nat, j: nat)
    requires 997 <= k <= 999 && i < j < |v| == |w| && (forall n :: 0 <= n < j && n != i ==> v[n] == w[n])
    ensures Gap(k, v, w, j + 1) == Plus(At(k, j - i, Wrong(v, w, i)), Wrong(v, w, j))
  {
    hide Pow, Plus, Gap, Wrong;
    GapFirst(k, v, w, i);
    GapNext(k, v, w, i, j);
  }

  /** The gap behind the third. */
  lemma ThirdGap(k: nat, v: seq<Symbol>, w: seq<Symbol>, i: nat, j: nat, l: nat)
    requires 997 <= k <= 999 && i < j < l < |v| == |w| && (forall n :: 0 <= n < l && n != i && n != j ==> v[n] == w[n])
    ensures Gap(k, v, w, l + 1) == Plus(Plus(At(k, l - i, Wrong(v, w, i)), At(k, l - j, Wrong(v, w, j))), Wrong(v, w, l))
  {
    hide Pow, Plus, Gap, Wrong;
    SecondGap(k, v, w, i, j);
    GapNext(k, v, w, j, l);
    PowPlus(k * (l - j), At(k, j - i, Wrong(v, w, i)), Wrong(v, w, j));
    PowFurther(k, i, j, l, Wrong(v, w, i));
  }

  lemma PowFurther(k: nat, i: nat, j: nat, l: nat, x: Element)
    requires i <= j <= l
    ensures At(k, l - j, At(k, j - i, x)) == At(k, l - i, x)
  {
    hide Pow;
    PowAdd(k * (l - j), k * (j - i), x);
    Distance(k, i, j, l);
  }

  lemma Distance(k: nat, i: nat, j: nat, l: nat)
    requires i <= j <= l
    ensures k * (l - j) + k * (j - i) == k * (l - i)
  {
  }

  /** The gap behind the fourth. */
  lemma FourthGap(k: nat, v: seq<Symbol>, w: seq<Symbol>, i: nat, j: nat, l: nat, m: nat)
    requires 997 <= k <= 999 && i < j < l < m < |v| == |w|
    requires forall n :: 0 <= n < m && n != i && n != j && n != l ==> v[n] == w[n]
    ensures Gap(k, v, w, m + 1) ==
            Plus(Plus(At(k, m - i, Wrong(v, w, i)), At(k, m - j, Wrong(v, w, j))), Plus(At(k, m - l, Wrong(v, w, l)), Wrong(v, w, m)))
  {
    hide Pow, Plus, Gap, Wrong;
    ThirdGap(k, v, w, i, j, l);
    GapNext(k, v, w, l, m);
    var x, y, z := Wrong(v, w, i), Wrong(v, w, j), Wrong(v, w, l);
    PowPlus(k * (m - l), Plus(At(k, l - i, x), At(k, l - j, y)), z);
    PowPlus(k * (m - l), At(k, l - i, x), At(k, l - j, y));
    PowFurther(k, i, l, m, x);
    PowFurther(k, j, l, m, y);
    PlusLaws(Plus(At(k, m - i, x), At(k, m - j, y)), At(k, m - l, z), Wrong(v, w, m));
  }

  lemma TwoGaps(k: nat, v: seq<Symbol>, w: seq<Symbol>, i: nat, j: nat)
    requires 997 <= k <= 999 && i < j < |v| == |w| && PolyModOf(v) == PolyModOf(w)
    requires forall n :: 0 <= n < |v| && n != i && n != j ==> v[n] == w[n]
    ensures At(k, j - i, Wrong(v, w, i)) == Wrong(v, w, j)
  {
    hide Pow, Plus, Gap, Wrong, PolyModOf;
    SecondGap(k, v, w, i, j);
    GapLast(k, v, w, j);
    PlusZero(At(k, j - i, Wrong(v, w, i)), Wrong(v, w, j));
  }

  /** Changing two symbols at most 1022 apart changes the checksum. */
  lemma TwoChanges(v: seq<Symbol>, w: seq<Symbol>, i: nat, j: nat)
    requires |v| == |w| && i < j < |v| && j - i <= 1022 && v[i] != w[i]
    requires forall k :: 0 <= k < |v| && k != i && k != j ==> v[k] == w[k]
    ensures PolyModOf(v) != PolyModOf(w)
  {
    hide Pow, Wrong, PolyModOf;
    if PolyModOf(v) == PolyModOf(w) {
      var a, x := j - i, Wrong(v, w, i);
      TwoGaps(997, v, w, i, j);
      TwoGaps(998, v, w, i, j);
      NextPowers(a, x);
      NoPeriod(a, Pow(997 * a, x));
      PowZero(997 * a, x);
      WrongZero(v, w, i);
      assert false;
    }
  }

  lemma ThreeGaps(k: nat, v: seq<Symbol>, w: seq<Symbol>, i: nat, j: nat, l: nat)
    requires 997 <= k <= 999 && i < j < l < |v| == |w| && PolyModOf(v) == PolyModOf(w)
    requires forall n :: 0 <= n < |v| && n != i && n != j && n != l ==> v[n] == w[n]
    ensures Plus(Plus(At(k, l - i, Wrong(v, w, i)), At(k, l - j, Wrong(v, w, j))), Wrong(v, w, l)) == 0
  {
    hide Pow, Plus, Gap, Wrong, PolyModOf;
    ThirdGap(k, v, w, i, j, l);
    GapLast(k, v, w, l);
  }

  /** Changing three symbols at most 1022 apart changes the checksum. */
  lemma ThreeChanges(v: seq<Symbol>, w: seq<Symbol>, i: nat, j: nat, l: nat)
    requires |v| == |w| && i < j < l < |v| && l - i <= 1022 && v[i] != w[i]
    requires forall k :: 0 <= k < |v| && k != i && k != j && k != l ==> v[k] == w[k]
    ensures PolyModOf(v) != PolyModOf(w)
  {
    hide Pow, Plus, Wrong, PolyModOf;
    if PolyModOf(v) == PolyModOf(w) {
      var a, b, x, y := l - i, l - j, Wrong(v, w, i), Wrong(v, w, j);
      ThreeGaps(997, v, w, i, j, l);
      ThreeGaps(998, v, w, i, j, l);
      ThreeGaps(999, v, w, i, j, l);
      NextPowers(a, x);
      NextPowers(b, y);
      ThreeTerms(a, b, Pow(997 * a, x), Pow(997 * b, y), Wrong(v, w, l));
      PowZero(997 * a, x);
      WrongZero(v, w, i);
      assert false;
    }
  }

  lemma FourGaps(k: nat, v: seq<Symbol>, w: seq<Symbol>, i: nat, j: nat, l: nat, m: nat)
    requires 997 <= k <= 999 && i < j < l < m < |v| == |w| && PolyModOf(v) == PolyModOf(w)
    requires forall n :: 0 <= n < |v| && n != i && n != j && n != l && n != m ==> v[n] == w[n]
    ensures Bech32Four.Cancels(At(k, m - i, Wrong(v, w, i)), At(k, m - j, Wrong(v, w, j)), At(k, m - l, Wrong(v, w, l)), Wrong(v, w, m))
  {
    hide Pow, Plus, Gap, Wrong, PolyModOf;
    FourthGap(k, v, w, i, j, l, m);
    GapLast(k, v, w, m);
  }

  lemma SymSmall(b0: bool, b1: bool, b2: bool, b3: bool, b4: bool)
    ensures Sym(b0, b1, b2, b3, b4) < 32
  {
  }

  lemma PlusSmall(x: Element, y: Element)
    requires x < 32 && y < 32
    ensures Plus(x, y) < 32
  {
  }

  /** A changed symbol, as a field element. */
  lemma WrongSymbol(v: seq<Symbol>, w: seq<Symbol>, n: nat)
    requires n < |v| == |w| && v[n] != w[n]
    ensures 0 < Wrong(v, w, n) < 32
  {
    hide Sym, Plus, Bit;
    WrongZero(v, w, n);
    SymSmall(Bit(v[n], 0), Bit(v[n], 1), Bit(v[n], 2), Bit(v[n], 3), Bit(v[n], 4));
    SymSmall(Bit(w[n], 0), Bit(w[n], 1), Bit(w[n], 2), Bit(w[n], 3), Bit(w[n], 4));
    PlusSmall(SymbolOf(v[n]), SymbolOf(w[n]));
  }

  /** Changing four symbols at most 88 apart changes the checksum. */
  lemma FourChanges(v: seq<Symbol>, w: seq<Symbol>, i: nat, j: nat, l: nat, m: nat)
    requires |v| == |w| && i < j < l < m < |v| && m - i <= 88
    requires v[i] != w[i] && v[j] != w[j] && v[l] != w[l] && v[m] != w[m]
    requires forall k :: 0 <= k < |v| && k != i && k != j && k != l && k != m ==> v[k] == w[k]
    ensures PolyModOf(v) != PolyModOf(w)
  {
    hide Pow, Wrong, PolyModOf, Bech32Four.Cancels;
    if PolyModOf(v) == PolyModOf(w) {
      FourGaps(997, v, w, i, j, l, m);
      FourGaps(998, v, w, i, j, l, m);
      FourGaps(999, v, w, i, j, l, m);
      WrongSymbol(v, w, i);
      WrongSymbol(v, w, j);
      WrongSymbol(v, w, l);
      WrongSymbol(v, w, m);
      Bech32Four.FourTerms(m - i, m - j, m - l, Wrong(v, w, i), Wrong(v, w, j), Wrong(v, w, l), Wrong(v, w, m));
      assert false;
    }
  }

  /** The positions at which two words differ. */
  function Changed(v: seq<Symbol>, w: seq<Symbol>): set<nat>
    requires |v| == |w|
  {
    set i: nat | i < |v| && v[i] != w[i]
  }

  /** At most three changes within a window of 1023 symbols, or four within 89. */
  predicate Few(changed: set<nat>)
  {
    || (|changed| <= 3 && Within(changed, 1023))
    || (|changed| <= 4 && Within(changed, 89))
  }

  predicate Within(s: set<nat>, window: nat)
  {
    forall i, j :: i in s && j in s ==> j - i < window
  }

  /** Few changed symbols change the checksum. */
  lemma FewChanges(v: seq<Symbol>, w: seq<Symbol>)
    requires |v| == |w| && v != w && Few(Changed(v, w))
    ensures PolyModOf(v) != PolyModOf(w)
  {
    hide PolyModOf;
    var s := Changed(v, w);
    SomeChanged(v, w);
    var i := Least(s);
    if s == {i} {
      SameOutside(v, w, {i});
      SingleChange(v, w, i);
    } else {
      var j := Least(s - {i});
      if s == {i, j} {
        SameOutside(v, w, {i, j});
        TwoChanges(v, w, i, j);
      } else {
        forall k | k in s - {i, j} ensures j < k {
          assert k in s - {i};
        }
        MoreChanges(v, w, i, j);
      }
    }
  }

  lemma MoreChanges(v: seq<Symbol>, w: seq<Symbol>, i: nat, j: nat)
    requires |v| == |w| && Few(Changed(v, w)) && i < j && i in Changed(v, w) && j in Changed(v, w) && Changed(v, w) != {i, j}
    requires forall k :: k in Changed(v, w) - {i, j} ==> j < k
    ensures PolyModOf(v) != PolyModOf(w)
  {
    hide PolyModOf;
    var s := Changed(v, w);
    assert s - {i, j} != {};
    var l := Least(s - {i, j});
    assert |{i, j, l}| == 3;
    if s == {i, j, l} {
      SameOutside(v, w, {i, j, l});
      ThreeChanges(v, w, i, j, l);
    } else {
      assert s - {i, j, l} != {};
      var m := Least(s - {i, j, l});
      assert m in s - {i, j};
      FourAtMost(s, i, j, l, m);
      SameOutside(v, w, {i, j, l, m});
      FourChanges(v, w, i, j, l, m);
    }
  }

  lemma FourAtMost(s: set<nat>, i: nat, j: nat, l: nat, m: nat)
    requires Few(s) && i < j < l < m && {i, j, l, m} <= s
    ensures s == {i, j, l, m} && m - i <= 88
  {
    var t := {i, j, l, m};
    assert |t| == 4;
    assert |s - t| == |s| - |t|;
    assert s - t == {};
  }

  /** The least element. */
  lemma {:induction false} Least(s: set<nat>) returns (x: nat)
    requires s != {}
    ensures x in s && forall y :: y in s ==> x <= y
    decreases |s|
  {
    var z :| z in s;
    x := z;
    if s != {z} {
      assert s - {z} != {};
      var y := Least(s - {z});
      if y < z {
        x := y;
      }
      forall u | u in s ensures x <= u {
        assert u == z || u in s - {z};
      }
    }
  }

  lemma SomeChanged(v: seq<Symbol>, w: seq<Symbol>)
    requires |v| == |w| && v != w
    ensures Changed(v, w) != {}
  {
    var i :| 0 <= i < |v| && v[i] != w[i];
    assert i in Changed(v, w);
  }

  lemma SameOutside(v: seq<Symbol>, w: seq<Symbol>, s: set<nat>)
    requires |v| == |w| && Changed(v, w) == s
    ensures forall k :: 0 <= k < |v| && k !in s ==> v[k] == w[k]
  {
    forall k: nat | k < |v| && k !in s ensures v[k] == w[k] {
      assert k !in Changed(v, w);
    }
  }

  // ----- Powers of x

  /** More than a symbol. */
  predicate Longer(c: Poly)
  {
    exists i: nat :: 5 <= i < 30 && c[i]
  }

  lemma NoSymbol()
    ensures SymbolOf(0) == 0 && Sym(false, false, false, false, false) == 0
  {
    ZeroBits(0);
    ZeroBits(1);
    ZeroBits(2);
    ZeroBits(3);
    ZeroBits(4);
  }

  lemma ShortValue(k: nat, c: Poly)
    requires !Longer(c)
    ensures Value(k, c) == Digit(c, 0)
  {
    hide Sym, Plus, Pow;
    NoSymbol();
    assert forall i: nat :: 5 <= i < 30 ==> !c[i];
    PowZero(k, 0);
    PlusLaws(0, 0, 0);
    PlusLaws(Digit(c, 0), 0, 0);
  }

  lemma {:induction false} ZerosValue(k: nat, c: Poly, t: nat)
    requires 997 <= k <= 999
    ensures Value(k, From(c, Zeros(t))) == At(k, t, Value(k, c))
  {
    hide Value, Step, Plus, Pow, SymbolOf;
    if t == 0 {
      PowNone(Value(k, c));
    } else {
      ZerosValue(k, c, t - 1);
      assert Zeros(t)[..t - 1] == Zeros(t - 1);
      var d := From(c, Zeros(t - 1));
      StepValue(k, d, 0);
      NoSymbol();
      PlusLaws(Pow(k, Value(k, d)), 0, 0);
      PowAdd(k, k * (t - 1), Value(k, c));
      assert k + k * (t - 1) == k * t;
    }
  }

  lemma SymbolPoly(e: Symbol)
    ensures !Longer(PolyOf(e)) && Digit(PolyOf(e), 0) == SymbolOf(e)
  {
    hide Sym;
    forall i: nat | 5 <= i < 30 ensures !PolyOf(e)[i] {
      FifthBit(e, i - 5);
      ZeroBits(i - 5);
    }
  }

  /** No symbol times a power of x from 1 to 1022 is a symbol modulo the generator. */
  lemma SymbolHigh(e: Symbol, t: nat)
    requires e > 0 && 1 <= t <= 1022
    ensures Longer(From(PolyOf(e), Zeros(t)))
  {
    hide Value, From, PolyOf, Pow, Longer, Digit;
    var c := From(PolyOf(e), Zeros(t));
    if !Longer(c) {
      var x := SymbolOf(e);
      SymbolPoly(e);
      ShortValue(997, PolyOf(e));
      ShortValue(998, PolyOf(e));
      ShortValue(997, c);
      ShortValue(998, c);
      ZerosValue(997, PolyOf(e), t);
      ZerosValue(998, PolyOf(e), t);
      NextPowers(t, x);
      NoPeriod(t, Pow(997 * t, x));
      PowZero(997 * t, x);
      SomeSymbol(e);
      assert false;
    }
  }

  lemma SomeSymbol(e: Symbol)
    requires e > 0
    ensures SymbolOf(e) != 0
  {
    hide SymbolOf, Plus;
    WrongZero([e], [0], 0);
    NoSymbol();
    PlusLaws(SymbolOf(e), 0, 0);
  }
}
