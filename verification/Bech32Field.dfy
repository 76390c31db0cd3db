/**
 The field the Bech32 code is constructed over: GF(1024) as pairs of symbols, the
 high one the coefficient of a root e of x^2 + {9}x + {23}.  It is used only through
 multiplication by powers of e, which is linear, loses nothing and has period 1023.
 */
module Bech32Field {

  type Element = bv10

  function Plus(x: Element, y: Element): Element
  {
    x ^ y
  }

  lemma PlusLaws(x: Element, y: Element, z: Element)
    ensures Plus(x, y) == Plus(y, x) && Plus(Plus(x, y), z) == Plus(x, Plus(y, z)) && Plus(x, x) == 0 && Plus(x, 0) == x
  {
  }

  lemma Interchange(a: Element, b: Element, c: Element, d: Element)
    ensures Plus(Plus(a, b), Plus(c, d)) == Plus(Plus(a, c), Plus(b, d))
  {
    hide Plus;
    PlusLaws(a, b, Plus(c, d));
    PlusLaws(b, c, d);
    PlusLaws(c, b, d);
    PlusLaws(a, c, Plus(b, d));
  }

  lemma PlusZero(x: Element, y: Element)
    ensures Plus(x, y) == 0 <==> x == y
  {
  }

  /** A symbol times {2}: symbols are polynomials in a modulo a^5 + a^3 + 1. */
  function Twice(v: Element): Element
  {
    ((v << 1) & 31) ^ (if v & 16 != 0 then 9 else 0)
  }

  function High(z: Element): Element { z >> 5 }

  function Low(z: Element): Element { z & 31 }

  function Up(v: Element): Element { v << 5 }

  /** (h e + l) e == ({9} h + l) e + {23} h. */
  function TimesE(z: Element): Element
  {
    var h := High(z);
    var h2 := Twice(h);
    var h4 := Twice(h2);
    var h8 := Twice(h4);
    Plus(Up(Plus(Plus(h8, h), Low(z))), Plus(Plus(Twice(h8), h4), Plus(h2, h)))
  }

  /** Times e^n. */
  function Pow(n: nat, z: Element): Element
  {
    if n == 0 then z else TimesE(Pow(n - 1, z))
  }

  lemma TwicePlus(x: Element, y: Element)
    ensures Twice(Plus(x, y)) == Plus(Twice(x), Twice(y))
  {
  }

  lemma ShiftPlus(x: Element, y: Element)
    ensures High(Plus(x, y)) == Plus(High(x), High(y)) && Low(Plus(x, y)) == Plus(Low(x), Low(y)) && Up(Plus(x, y)) == Plus(Up(x), Up(y))
  {
  }

  lemma TimesPlus(x: Element, y: Element)
    ensures TimesE(Plus(x, y)) == Plus(TimesE(x), TimesE(y))
  {
    hide Twice, Plus, High, Low, Up;
    var g, h := High(x), High(y);
    ShiftPlus(x, y);
    TwicePlus(g, h);
    var g2, h2 := Twice(g), Twice(h);
    TwicePlus(g2, h2);
    var g4, h4 := Twice(g2), Twice(h2);
    TwicePlus(g4, h4);
    var g8, h8 := Twice(g4), Twice(h4);
    TwicePlus(g8, h8);
    Interchange(g2, h2, g, h);
    Interchange(Twice(g8), Twice(h8), g4, h4);
    Interchange(Plus(Twice(g8), g4), Plus(Twice(h8), h4), Plus(g2, g), Plus(h2, h));
    Interchange(g8, h8, g, h);
    Interchange(Plus(g8, g), Plus(h8, h), Low(x), Low(y));
    var u, v := Plus(Plus(g8, g), Low(x)), Plus(Plus(h8, h), Low(y));
    ShiftPlus(u, v);
    Interchange(Up(u), Up(v), Plus(Plus(Twice(g8), g4), Plus(g2, g)), Plus(Plus(Twice(h8), h4), Plus(h2, h)));
  }

  lemma TimesZero(z: Element)
    ensures TimesE(z) == 0 <==> z == 0
  {
  }

  lemma {:induction false} PowPlus(n: nat, x: Element, y: Element)
    ensures Pow(n, Plus(x, y)) == Plus(Pow(n, x), Pow(n, y))
  {
    hide TimesE, Plus;
    if n > 0 {
      PowPlus(n - 1, x, y);
      TimesPlus(Pow(n - 1, x), Pow(n - 1, y));
    }
  }

  lemma {:induction false} PowZero(n: nat, z: Element)
    ensures Pow(n, z) == 0 <==> z == 0
  {
    hide TimesE;
    if n > 0 {
      PowZero(n - 1, z);
      TimesZero(Pow(n - 1, z));
    }
  }

  lemma {:induction false} PowAdd(m: nat, n: nat, z: Element)
    ensures Pow(m + n, z) == Pow(m, Pow(n, z))
  {
    hide TimesE;
    if m > 0 {
      PowAdd(m - 1, n, z);
    }
  }

  // ----- A power as a matrix

  /** The images of the ten single bits. */
  datatype Matrix = Matrix(c0: Element, c1: Element, c2: Element, c3: Element, c4: Element,
                           c5: Element, c6: Element, c7: Element, c8: Element, c9: Element)

  function Four(p0: Element, p1: Element, p2: Element, p3: Element): Element
  {
    (p0 ^ p1) ^ (p2 ^ p3)
  }

  function Apply(m: Matrix, z: Element): Element
  {
    Four(Four(if z & 1 != 0 then m.c0 else 0, if z & 2 != 0 then m.c1 else 0, if z & 4 != 0 then m.c2 else 0, if z & 8 != 0 then m.c3 else 0),
         Four(if z & 16 != 0 then m.c4 else 0, if z & 32 != 0 then m.c5 else 0, if z & 64 != 0 then m.c6 else 0, if z & 128 != 0 then m.c7 else 0),
         if z & 256 != 0 then m.c8 else 0, if z & 512 != 0 then m.c9 else 0)
  }

  function Part(b: bool, c: Element): Element
  {
    if b then c else 0
  }

  lemma PowPart(n: nat, b: bool, c: Element)
    ensures Pow(n, Part(b, c)) == Part(b, Pow(n, c))
  {
    PowZero(n, 0);
  }

  lemma FourPlus(p0: Element, p1: Element, p2: Element, p3: Element)
    ensures Four(p0, p1, p2, p3) == Plus(Plus(p0, p1), Plus(p2, p3))
  {
  }

  lemma PowFour(n: nat, p0: Element, p1: Element, p2: Element, p3: Element)
    ensures Pow(n, Four(p0, p1, p2, p3)) == Four(Pow(n, p0), Pow(n, p1), Pow(n, p2), Pow(n, p3))
  {
    hide Plus, Pow, Four;
    FourPlus(p0, p1, p2, p3);
    FourPlus(Pow(n, p0), Pow(n, p1), Pow(n, p2), Pow(n, p3));
    PowPlus(n, p0, p1);
    PowPlus(n, p2, p3);
    PowPlus(n, Plus(p0, p1), Plus(p2, p3));
  }

  lemma ApplyParts(m: Matrix, z: Element)
    ensures Apply(m, z) ==
            Four(Four(Part(z & 1 != 0, m.c0), Part(z & 2 != 0, m.c1), Part(z & 4 != 0, m.c2), Part(z & 8 != 0, m.c3)),
                 Four(Part(z & 16 != 0, m.c4), Part(z & 32 != 0, m.c5), Part(z & 64 != 0, m.c6), Part(z & 128 != 0, m.c7)),
                 Part(z & 256 != 0, m.c8), Part(z & 512 != 0, m.c9))
  {
    hide Four;
  }

  function Power(n: nat): Matrix
  {
    Matrix(Pow(n, 1), Pow(n, 2), Pow(n, 4), Pow(n, 8), Pow(n, 16), Pow(n, 32), Pow(n, 64), Pow(n, 128), Pow(n, 256), Pow(n, 512))
  }

  const UNIT := Matrix(1, 2, 4, 8, 16, 32, 64, 128, 256, 512)

  lemma UnitApply(z: Element)
    ensures Apply(UNIT, z) == z
  {
  }

  lemma PowApply(n: nat, z: Element)
    ensures Pow(n, z) == Apply(Power(n), z)
  {
    hide Part, Pow, Apply, Four;
    UnitApply(z);
    ApplyParts(UNIT, z);
    ApplyParts(Power(n), z);
    PowSum(n, z & 1 != 0, z & 2 != 0, z & 4 != 0, z & 8 != 0, z & 16 != 0,
           z & 32 != 0, z & 64 != 0, z & 128 != 0, z & 256 != 0, z & 512 != 0);
  }

  lemma PowSum(n: nat, b0: bool, b1: bool, b2: bool, b3: bool, b4: bool, b5: bool, b6: bool, b7: bool, b8: bool, b9: bool)
    ensures Pow(n, Four(Four(Part(b0, 1), Part(b1, 2), Part(b2, 4), Part(b3, 8)),
                        Four(Part(b4, 16), Part(b5, 32), Part(b6, 64), Part(b7, 128)), Part(b8, 256), Part(b9, 512)))
            == Four(Four(Part(b0, Pow(n, 1)), Part(b1, Pow(n, 2)), Part(b2, Pow(n, 4)), Part(b3, Pow(n, 8))),
                    Four(Part(b4, Pow(n, 16)), Part(b5, Pow(n, 32)), Part(b6, Pow(n, 64)), Part(b7, Pow(n, 128))),
                    Part(b8, Pow(n, 256)), Part(b9, Pow(n, 512)))
  {
    hide Part, Pow, Four;
    PowFour(n, Part(b0, 1), Part(b1, 2), Part(b2, 4), Part(b3, 8));
    PowFour(n, Part(b4, 16), Part(b5, 32), Part(b6, 64), Part(b7, 128));
    PowFour(n, Four(Part(b0, 1), Part(b1, 2), Part(b2, 4), Part(b3, 8)),
            Four(Part(b4, 16), Part(b5, 32), Part(b6, 64), Part(b7, 128)), Part(b8, 256), Part(b9, 512));
    PowPart(n, b0, 1);
    PowPart(n, b1, 2);
    PowPart(n, b2, 4);
    PowPart(n, b3, 8);
    PowPart(n, b4, 16);
    PowPart(n, b5, 32);
    PowPart(n, b6, 64);
    PowPart(n, b7, 128);
    PowPart(n, b8, 256);
    PowPart(n, b9, 512);
  }

  function Compose(m: Matrix, d: Matrix): Matrix
  {
    Matrix(Apply(m, d.c0), Apply(m, d.c1), Apply(m, d.c2), Apply(m, d.c3), Apply(m, d.c4),
           Apply(m, d.c5), Apply(m, d.c6), Apply(m, d.c7), Apply(m, d.c8), Apply(m, d.c9))
  }

  lemma PowerAdd(m: nat, n: nat)
    ensures Power(m + n) == Compose(Power(m), Power(n))
  {
    hide Pow, Apply;
    PowStep(m, n, 1);
    PowStep(m, n, 2);
    PowStep(m, n, 4);
    PowStep(m, n, 8);
    PowStep(m, n, 16);
    PowStep(m, n, 32);
    PowStep(m, n, 64);
    PowStep(m, n, 128);
    PowStep(m, n, 256);
    PowStep(m, n, 512);
  }

  lemma PowStep(m: nat, n: nat, z: Element)
    ensures Pow(m + n, z) == Apply(Power(m), Pow(n, z))
  {
    hide Pow, Apply;
    PowAdd(m, n, z);
    PowApply(m, Pow(n, z));
  }

  // ----- The powers that matter, by additions of exponents

  lemma TimesApply(z: Element)
    ensures TimesE(z) == Apply(Matrix(0x20, 0x40, 0x80, 0x100, 0x200, 0x137, 0x247, 0x1ae, 0x35c, 0x3b1), z)
  {
  }

  lemma Power1()
    ensures Power(1) == Matrix(0x20, 0x40, 0x80, 0x100, 0x200, 0x137, 0x247, 0x1ae, 0x35c, 0x3b1)
  {
    hide TimesE;
    TimesApply(1);
    TimesApply(2);
    TimesApply(4);
    TimesApply(8);
    TimesApply(16);
    TimesApply(32);
    TimesApply(64);
    TimesApply(128);
    TimesApply(256);
    TimesApply(512);
  }

  lemma Power2()
    ensures Power(2) == Matrix(0x137, 0x247, 0x1ae, 0x35c, 0x3b1, 0x8b, 0x116, 0x205, 0x12a, 0x254)
  {
    hide Power;
    Power1();
    PowerAdd(1, 1);
  }

  lemma Power3()
    ensures Power(3) == Matrix(0x8b, 0x116, 0x205, 0x12a, 0x254, 0xce, 0x19c, 0x311, 0x32b, 0x376)
  {
    hide Power;
    Power2();
    Power1();
    PowerAdd(2, 1);
  }

  lemma Power5()
    ensures Power(5) == Matrix(0x229, 0x172, 0x2cd, 0xba, 0x15d, 0x3a6, 0x26c, 0x1f8, 0x3d9, 0x2bb)
  {
    hide Power;
    Power3();
    Power2();
    PowerAdd(3, 2);
  }

  lemma Power10()
    ensures Power(10) == Matrix(0x38e, 0x23c, 0x171, 0x2cb, 0xb6, 0x83, 0x106, 0x20c, 0x138, 0x259)
  {
    hide Power;
    Power5();
    PowerAdd(5, 5);
  }

  lemma Power11()
    ensures Power(11) == Matrix(0x83, 0x106, 0x20c, 0x138, 0x259, 0x1ce, 0x39c, 0x231, 0x16b, 0x2d6)
  {
    hide Power;
    Power10();
    Power1();
    PowerAdd(10, 1);
  }

  lemma Power20()
    ensures Power(20) == Matrix(0xeb, 0x1d6, 0x385, 0x22a, 0x174, 0x3be, 0x275, 0x1e3, 0x3c6, 0x2ac)
  {
    hide Power;
    Power10();
    PowerAdd(10, 10);
  }

  lemma Power31()
    ensures Power(31) == Matrix(0xde, 0x195, 0x303, 0x326, 0x36c, 0x29, 0x52, 0x8d, 0x11a, 0x21d)
  {
    hide Power;
    Power20();
    Power11();
    PowerAdd(20, 11);
  }

  lemma Power33()
    ensures Power(33) == Matrix(0x17, 0x7, 0xe, 0x1c, 0x11, 0x2e0, 0xe0, 0x1c0, 0x380, 0x220)
  {
    hide Power;
    Power31();
    Power2();
    PowerAdd(31, 2);
  }

  lemma Power62()
    ensures Power(62) == Matrix(0x203, 0x126, 0x24c, 0x1b8, 0x359, 0x3d1, 0x2ab, 0x76, 0xc5, 0x18a)
  {
    hide Power;
    Power31();
    PowerAdd(31, 31);
  }

  lemma Power93()
    ensures Power(93) == Matrix(0x356, 0x3a5, 0x26a, 0x1f4, 0x3c1, 0x6a, 0xd4, 0x181, 0x302, 0x324)
  {
    hide Power;
    Power62();
    Power31();
    PowerAdd(62, 31);
  }

  lemma Power155()
    ensures Power(155) == Matrix(0x3d7, 0x2a7, 0x6e, 0xdc, 0x191, 0x1e4, 0x3c8, 0x2b0, 0x69, 0xd2)
  {
    hide Power;
    Power93();
    Power62();
    PowerAdd(93, 62);
  }

  lemma Power310()
    ensures Power(310) == Matrix(0x14c, 0x298, 0x39, 0x5b, 0x9f, 0x9b, 0x11f, 0x217, 0x127, 0x24e)
  {
    hide Power;
    Power155();
    PowerAdd(155, 155);
  }

  lemma Power341()
    ensures Power(341) == Matrix(0x16d, 0x2da, 0xbd, 0x153, 0x28f, 0x18c, 0x318, 0x339, 0x37b, 0x3ff)
  {
    hide Power;
    Power310();
    Power31();
    PowerAdd(310, 31);
  }

  lemma Power682()
    ensures Power(682) == Matrix(0x16c, 0x2d8, 0xb9, 0x15b, 0x29f, 0x1ac, 0x358, 0x3b9, 0x27b, 0x1ff)
  {
    hide Power;
    Power341();
    PowerAdd(341, 341);
  }

  lemma Power1023()
    ensures Power(1023) == UNIT
  {
    hide Power;
    Power682();
    Power341();
    PowerAdd(682, 341);
  }

  lemma Power315()
    ensures Power(315) == Matrix(0x3c2, 0x2a4, 0x68, 0xd0, 0x189, 0x344, 0x3a8, 0x270, 0x1e9, 0x3d2)
  {
    hide Power;
    Power310();
    Power5();
    PowerAdd(310, 5);
  }

  lemma Power997()
    ensures Power(997) == Matrix(0x1bd, 0x353, 0x3af, 0x27e, 0x1f5, 0x65, 0xca, 0x194, 0x301, 0x322)
  {
    hide Power;
    Power682();
    Power315();
    PowerAdd(682, 315);
  }

  lemma Power998()
    ensures Power(998) == Matrix(0x65, 0xca, 0x194, 0x301, 0x322, 0x3d0, 0x2a9, 0x72, 0xcd, 0x19a)
  {
    hide Power;
    Power997();
    Power1();
    PowerAdd(997, 1);
  }

  lemma Power999()
    ensures Power(999) == Matrix(0x3d0, 0x2a9, 0x72, 0xcd, 0x19a, 0x104, 0x208, 0x130, 0x249, 0x1b2)
  {
    hide Power;
    Power997();
    Power2();
    PowerAdd(997, 2);
  }

  lemma Fixed33(z: Element)
    requires Pow(33, z) == z
    ensures z == 0
  {
    hide Power, Pow;
    Power33();
    PowApply(33, z);
  }

  lemma Fixed93(z: Element)
    requires Pow(93, z) == z
    ensures z == 0
  {
    hide Power, Pow;
    Power93();
    PowApply(93, z);
  }

  lemma Fixed341(z: Element)
    requires Pow(341, z) == z
    ensures z == 0
  {
    hide Power, Pow;
    Power341();
    PowApply(341, z);
  }

  // ----- The period

  lemma {:induction false} Repeats(n: nat, q: nat, z: Element)
    requires Pow(n, z) == z
    ensures Pow(n * q, z) == z
  {
    hide Pow;
    if q == 0 {
      PowNone(z);
    } else {
      Repeats(n, q - 1, z);
      PowAdd(n, n * (q - 1), z);
      assert n + n * (q - 1) == n * q;
    }
  }

  lemma PowNone(z: Element)
    ensures Pow(0, z) == z
  {
  }

  lemma FullPeriod(z: Element)
    ensures Pow(1023, z) == z
  {
    hide Pow, Power, Apply;
    Power1023();
    PowApply(1023, z);
    UnitApply(z);
  }

  /** A proper divisor of 1023 divides 33, 93 or 341. */
  lemma Divisor(n: nat, q: nat) returns (d: nat, k: nat)
    requires n * q == 1023 && q > 1
    ensures n * k == d && (d == 33 || d == 93 || d == 341)
  {
    if q <= 32 {
      SmallFactor(n, q);
      if q == 3 {
        d, k := 341, 1;
      } else if q == 11 {
        d, k := 93, 1;
      } else {
        d, k := 33, 1;
      }
    } else {
      assert n <= 31 by {
        if n >= 32 {
          AtLeast(n, q, 32, 33);
          assert false;
        }
      }
      SmallFactor(q, n);
      if n == 1 {
        d, k := 33, 33;
      } else if n == 3 {
        d, k := 33, 11;
      } else if n == 11 {
        d, k := 33, 3;
      } else {
        d, k := 93, 3;
      }
    }
  }

  lemma SmallFactor(n: nat, q: nat)
    requires n * q == 1023 && q <= 32
    ensures q == 1 || q == 3 || q == 11 || q == 31
  {
  }

  lemma AtLeast(n: nat, q: nat, a: nat, b: nat)
    requires n >= a && q >= b
    ensures n * q >= a * b
  {
    assert n * q == (n - a) * q + a * q;
    assert a * q == a * (q - b) + a * b;
  }

  /** Nothing but zero comes back before 1023 steps. */
  lemma {:induction false} NoPeriod(n: nat, z: Element)
    requires 0 < n < 1023 && Pow(n, z) == z
    ensures z == 0
  {
    hide Pow;
    var q, r := 1023 / n, 1023 % n;
    assert r + n * q == 1023;
    Repeats(n, q, z);
    FullPeriod(z);
    PowAdd(r, n * q, z);
    if r > 0 {
      NoPeriod(r, z);
    } else {
      var d, k := Divisor(n, q);
      Repeats(n, k, z);
      if d == 33 {
        Fixed33(z);
      } else if d == 93 {
        Fixed93(z);
      } else {
        Fixed341(z);
      }
    }
  }

  // ----- Few terms with three consecutive powers do not cancel

  lemma PowCancel(n: nat, x: Element, y: Element)
    requires Pow(n, x) == Pow(n, y)
    ensures x == y
  {
    hide Pow, Plus;
    PowPlus(n, x, y);
    PlusZero(Pow(n, x), Pow(n, y));
    PowZero(n, Plus(x, y));
    PlusZero(x, y);
  }

  /** Two different powers agree on zero only. */
  lemma PowApart(a: nat, b: nat, z: Element)
    requires b < a < b + 1023 && Pow(a, z) == Pow(b, z)
    ensures z == 0
  {
    hide Pow;
    PowAdd(b, a - b, z);
    PowCancel(b, Pow(a - b, z), z);
    NoPeriod(a - b, z);
  }

  lemma Cancel3(x: Element, y: Element, u: Element, v: Element, w: Element)
    requires Plus(Plus(x, y), w) == 0 && Plus(Plus(u, v), w) == 0
    ensures Plus(x, u) == Plus(y, v)
  {
    hide Plus;
    PlusZero(Plus(x, y), w);
    PlusZero(Plus(u, v), w);
    Interchange(x, y, u, v);
    PlusZero(Plus(x, y), Plus(u, v));
    PlusZero(Plus(x, u), Plus(y, v));
  }

  lemma ThreeTerms(a: nat, b: nat, x: Element, y: Element, w: Element)
    requires 0 < b < a < 1023
    requires Plus(Plus(x, y), w) == 0 && Plus(Plus(Pow(a, x), Pow(b, y)), w) == 0
    requires Plus(Plus(Pow(a, Pow(a, x)), Pow(b, Pow(b, y))), w) == 0
    ensures x == 0
  {
    hide Pow, Plus;
    var d := Plus(x, Pow(a, x));
    Cancel3(x, y, Pow(a, x), Pow(b, y), w);
    Cancel3(Pow(a, x), Pow(b, y), Pow(a, Pow(a, x)), Pow(b, Pow(b, y)), w);
    PowPlus(a, x, Pow(a, x));
    PowPlus(b, y, Pow(b, y));
    PowApart(a, b, d);
    PlusZero(x, Pow(a, x));
    NoPeriod(a, x);
  }
}
