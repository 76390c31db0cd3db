/**
 Logarithms to base e: of the symbols, whose logarithms are the multiples of 33, and
 of e^d + 1 for the distances d that four errors within 89 positions can have.
 */
module Bech32Logs {

  import opened Bech32Field

  /** e^n. */
  function G(n: nat): Element
  {
    Pow(n, 1)
  }

  lemma Shift(m: nat, n: nat)
    ensures G(m + n) == Pow(m, G(n))
  {
    hide Pow;
    PowAdd(m, n, 1);
  }

  lemma Advance(m: nat, p: Matrix, n: nat)
    requires Power(m) == p
    ensures G(n + m) == Apply(p, G(n))
  {
    hide Pow, Power, Apply;
    PowStep(m, n, 1);
  }

  lemma {:induction false} WholePeriods(n: nat, q: nat)
    ensures G(n + 1023 * q) == G(n)
  {
    hide Pow;
    FullPeriod(1);
    Repeats(1023, q, 1);
    PowAdd(n, 1023 * q, 1);
  }

  /** Equal powers have the same exponent modulo 1023, and so modulo 33. */
  lemma SameLog(m: nat, n: nat)
    requires G(m) == G(n)
    ensures (m - n) % 33 == 0
  {
    hide Pow;
    var p, q := m % 1023, n % 1023;
    WholePeriods(p, m / 1023);
    WholePeriods(q, n / 1023);
    if p > q {
      PowApart(p, q, 1);
      assert false;
    } else if q > p {
      PowApart(q, p, 1);
      assert false;
    }
    assert m - n == 33 * (31 * (m / 1023 - n / 1023));
  }

  // ----- Symbols

  lemma Symbols0()
    ensures G(0) == 1
    ensures G(33) == 23
    ensures G(66) == 15
    ensures G(99) == 2
    ensures G(132) == 7
    ensures G(165) == 30
    ensures G(198) == 4
    ensures G(231) == 14
    ensures G(264) == 21
    ensures G(297) == 8
    ensures G(330) == 28
  {
    hide G, Power;
    Power33();
    var p := Power(33);
    GZero();
    Advance(33, p, 0);
    Advance(33, p, 33);
    Advance(33, p, 66);
    Advance(33, p, 99);
    Advance(33, p, 132);
    Advance(33, p, 165);
    Advance(33, p, 198);
    Advance(33, p, 231);
    Advance(33, p, 264);
    Advance(33, p, 297);
  }

  lemma Symbols1()
    ensures G(330) == 28
    ensures G(363) == 3
    ensures G(396) == 16
    ensures G(429) == 17
    ensures G(462) == 6
    ensures G(495) == 9
    ensures G(528) == 11
    ensures G(561) == 12
    ensures G(594) == 18
    ensures G(627) == 22
    ensures G(660) == 24
  {
    hide G, Power;
    Power33();
    var p := Power(33);
    Symbols0();
    Advance(33, p, 330);
    Advance(33, p, 363);
    Advance(33, p, 396);
    Advance(33, p, 429);
    Advance(33, p, 462);
    Advance(33, p, 495);
    Advance(33, p, 528);
    Advance(33, p, 561);
    Advance(33, p, 594);
    Advance(33, p, 627);
  }

  lemma Symbols2()
    ensures G(660) == 24
    ensures G(693) == 13
    ensures G(726) == 5
    ensures G(759) == 25
    ensures G(792) == 26
    ensures G(825) == 10
    ensures G(858) == 27
    ensures G(891) == 29
    ensures G(924) == 20
    ensures G(957) == 31
    ensures G(990) == 19
  {
    hide G, Power;
    Power33();
    var p := Power(33);
    Symbols1();
    Advance(33, p, 660);
    Advance(33, p, 693);
    Advance(33, p, 726);
    Advance(33, p, 759);
    Advance(33, p, 792);
    Advance(33, p, 825);
    Advance(33, p, 858);
    Advance(33, p, 891);
    Advance(33, p, 924);
    Advance(33, p, 957);
  }

  lemma GZero()
    ensures G(0) == 1
  {
  }

  /** Every symbol but zero is a power of e^33. */
  lemma SymbolLog(v: Element) returns (j: nat)
    requires 0 < v < 32
    ensures G(33 * j) == v
  {
    hide G;
    Symbols0();
    Symbols1();
    Symbols2();
    if v == 1 {
      j := 0;
    } else if v == 2 {
      j := 3;
    } else if v == 3 {
      j := 11;
    } else if v == 4 {
      j := 6;
    } else if v == 5 {
      j := 22;
    } else if v == 6 {
      j := 14;
    } else if v == 7 {
      j := 4;
    } else if v == 8 {
      j := 9;
    } else if v == 9 {
      j := 15;
    } else if v == 10 {
      j := 25;
    } else if v == 11 {
      j := 16;
    } else if v == 12 {
      j := 17;
    } else if v == 13 {
      j := 21;
    } else if v == 14 {
      j := 7;
    } else if v == 15 {
      j := 2;
    } else if v == 16 {
      j := 12;
    } else if v == 17 {
      j := 13;
    } else if v == 18 {
      j := 18;
    } else if v == 19 {
      j := 30;
    } else if v == 20 {
      j := 28;
    } else if v == 21 {
      j := 8;
    } else if v == 22 {
      j := 19;
    } else if v == 23 {
      j := 1;
    } else if v == 24 {
      j := 20;
    } else if v == 25 {
      j := 23;
    } else if v == 26 {
      j := 24;
    } else if v == 27 {
      j := 26;
    } else if v == 28 {
      j := 10;
    } else if v == 29 {
      j := 27;
    } else if v == 30 {
      j := 5;
    } else {
      j := 29;
    }
  }

  // ----- Powers on the way to the logarithms of e^d + 1

  lemma Ladder0()
    ensures G(0) == 0x1
    ensures G(1) == 0x20
    ensures G(3) == 0x8b
    ensures G(5) == 0x229
    ensures G(7) == 0xb4
    ensures G(9) == 0x91
    ensures G(11) == 0x83
    ensures G(13) == 0x175
    ensures G(15) == 0x39f
    ensures G(17) == 0x348
    ensures G(19) == 0x134
    ensures G(21) == 0x3be
    ensures G(23) == 0x2f4
    ensures G(24) == 0x3ef
    ensures G(25) == 0x3d3
    ensures G(27) == 0xac
  {
    hide G, Power;
    GZero();
    Power1();
    Power2();
    Advance(1, Power(1), 0);
    Advance(2, Power(2), 1);
    Advance(2, Power(2), 3);
    Advance(2, Power(2), 5);
    Advance(2, Power(2), 7);
    Advance(2, Power(2), 9);
    Advance(2, Power(2), 11);
    Advance(2, Power(2), 13);
    Advance(2, Power(2), 15);
    Advance(2, Power(2), 17);
    Advance(2, Power(2), 19);
    Advance(2, Power(2), 21);
    Advance(1, Power(1), 23);
    Advance(1, Power(1), 24);
    Advance(2, Power(2), 25);
  }

  lemma Ladder1()
    ensures G(29) == 0x7c
    ensures G(31) == 0xde
    ensures G(33) == 0x17
    ensures G(35) == 0x16f
    ensures G(37) == 0x135
    ensures G(39) == 0x289
    ensures G(41) == 0x23a
    ensures G(43) == 0x75
    ensures G(45) == 0x2b5
    ensures G(47) == 0x3f2
    ensures G(49) == 0x110
    ensures G(51) == 0x29b
    ensures G(53) == 0x3cc
    ensures G(55) == 0x29f
    ensures G(57) == 0x262
  {
    hide G, Power;
    Ladder0();
    Power2();
    Advance(2, Power(2), 27);
    Advance(2, Power(2), 29);
    Advance(2, Power(2), 31);
    Advance(2, Power(2), 33);
    Advance(2, Power(2), 35);
    Advance(2, Power(2), 37);
    Advance(2, Power(2), 39);
    Advance(2, Power(2), 41);
    Advance(2, Power(2), 43);
    Advance(2, Power(2), 45);
    Advance(2, Power(2), 47);
    Advance(2, Power(2), 49);
    Advance(2, Power(2), 51);
    Advance(2, Power(2), 53);
    Advance(2, Power(2), 55);
  }

  lemma Ladder2()
    ensures G(59) == 0x18e
    ensures G(61) == 0x39a
    ensures G(63) == 0x3d1
    ensures G(65) == 0x2eb
    ensures G(67) == 0x1e0
    ensures G(69) == 0x2b2
    ensures G(71) == 0x12c
    ensures G(73) == 0x353
    ensures G(75) == 0x2a9
    ensures G(77) == 0x2b1
    ensures G(79) == 0x25c
    ensures G(81) == 0x201
    ensures G(83) == 0x363
    ensures G(85) == 0x193
    ensures G(87) == 0x3ee
  {
    hide G, Power;
    Ladder1();
    Power2();
    Advance(2, Power(2), 57);
    Advance(2, Power(2), 59);
    Advance(2, Power(2), 61);
    Advance(2, Power(2), 63);
    Advance(2, Power(2), 65);
    Advance(2, Power(2), 67);
    Advance(2, Power(2), 69);
    Advance(2, Power(2), 71);
    Advance(2, Power(2), 73);
    Advance(2, Power(2), 75);
    Advance(2, Power(2), 77);
    Advance(2, Power(2), 79);
    Advance(2, Power(2), 81);
    Advance(2, Power(2), 83);
    Advance(2, Power(2), 85);
  }

  lemma Ladder3()
    ensures G(88) == 0x3f3
    ensures G(97) == 0x16e
    ensures G(216) == 0x1e1
    ensures G(233) == 0xb5
    ensures G(354) == 0x2b0
  {
    hide G, Power;
    Ladder2();
    Power1();
    Power3();
    Power5();
    Power11();
    Power20();
    Power93();
    Advance(1, Power(1), 87);
    Advance(1, Power(1), 88);
    Advance(3, Power(3), 89);
    Advance(5, Power(5), 92);
    Advance(1, Power(1), 97);
    Advance(5, Power(5), 98);
    Advance(20, Power(20), 103);
    Advance(93, Power(93), 123);
    Advance(1, Power(1), 216);
    Advance(5, Power(5), 217);
    Advance(11, Power(11), 222);
    Advance(3, Power(3), 233);
    Advance(5, Power(5), 236);
    Advance(20, Power(20), 241);
    Advance(93, Power(93), 261);
  }

  lemma Ladder4()
    ensures G(361) == 0x349
    ensures G(377) == 0x2b4
    ensures G(387) == 0x111
    ensures G(392) == 0xad
    ensures G(397) == 0x200
    ensures G(413) == 0x3cd
    ensures G(416) == 0x174
    ensures G(418) == 0x2a8
    ensures G(419) == 0x228
    ensures G(467) == 0x3bf
  {
    hide G, Power;
    Ladder3();
    Power1();
    Power2();
    Power3();
    Power5();
    Power10();
    Power11();
    Power33();
    Advance(2, Power(2), 354);
    Advance(5, Power(5), 356);
    Advance(5, Power(5), 361);
    Advance(11, Power(11), 366);
    Advance(10, Power(10), 377);
    Advance(5, Power(5), 387);
    Advance(5, Power(5), 392);
    Advance(5, Power(5), 397);
    Advance(11, Power(11), 402);
    Advance(3, Power(3), 413);
    Advance(2, Power(2), 416);
    Advance(1, Power(1), 418);
    Advance(5, Power(5), 419);
    Advance(10, Power(10), 424);
    Advance(33, Power(33), 434);
  }

  lemma Ladder5()
    ensures G(494) == 0xdf
    ensures G(502) == 0x90
    ensures G(578) == 0x39b
    ensures G(598) == 0x2ea
    ensures G(611) == 0x7d
    ensures G(627) == 0x16
    ensures G(652) == 0x352
  {
    hide G, Power;
    Ladder4();
    Power2();
    Power3();
    Power5();
    Power11();
    Power20();
    Power62();
    Advance(2, Power(2), 467);
    Advance(5, Power(5), 469);
    Advance(20, Power(20), 474);
    Advance(3, Power(3), 494);
    Advance(5, Power(5), 497);
    Advance(3, Power(3), 502);
    Advance(11, Power(11), 505);
    Advance(62, Power(62), 516);
    Advance(20, Power(20), 578);
    Advance(2, Power(2), 598);
    Advance(11, Power(11), 600);
    Advance(5, Power(5), 611);
    Advance(11, Power(11), 616);
    Advance(5, Power(5), 627);
    Advance(20, Power(20), 632);
  }

  lemma Ladder6()
    ensures G(654) == 0x39e
    ensures G(712) == 0x3d2
    ensures G(715) == 0x192
    ensures G(747) == 0x25d
    ensures G(756) == 0x362
    ensures G(799) == 0x12d
    ensures G(804) == 0x21
    ensures G(809) == 0x18f
    ensures G(812) == 0x288
  {
    hide G, Power;
    Ladder5();
    Power1();
    Power2();
    Power3();
    Power5();
    Power10();
    Power20();
    Power31();
    Power33();
    Advance(2, Power(2), 652);
    Advance(5, Power(5), 654);
    Advance(20, Power(20), 659);
    Advance(33, Power(33), 679);
    Advance(3, Power(3), 712);
    Advance(1, Power(1), 715);
    Advance(31, Power(31), 716);
    Advance(1, Power(1), 747);
    Advance(3, Power(3), 748);
    Advance(5, Power(5), 751);
    Advance(10, Power(10), 756);
    Advance(33, Power(33), 766);
    Advance(5, Power(5), 799);
    Advance(5, Power(5), 804);
    Advance(3, Power(3), 809);
  }

  lemma Ladder7()
    ensures G(822) == 0x29e
    ensures G(856) == 0x2b3
    ensures G(867) == 0x2f5
    ensures G(878) == 0x263
    ensures G(893) == 0x74
    ensures G(901) == 0x82
    ensures G(906) == 0x8a
    ensures G(914) == 0x29a
    ensures G(976) == 0x23b
    ensures G(999) == 0x3d0
  {
    hide G, Power;
    Ladder6();
    Power1();
    Power3();
    Power5();
    Power10();
    Power11();
    Power20();
    Power33();
    Power62();
    Advance(10, Power(10), 812);
    Advance(1, Power(1), 822);
    Advance(33, Power(33), 823);
    Advance(11, Power(11), 856);
    Advance(11, Power(11), 867);
    Advance(5, Power(5), 878);
    Advance(10, Power(10), 883);
    Advance(3, Power(3), 893);
    Advance(5, Power(5), 896);
    Advance(5, Power(5), 901);
    Advance(3, Power(3), 906);
    Advance(5, Power(5), 909);
    Advance(62, Power(62), 914);
    Advance(3, Power(3), 976);
    Advance(20, Power(20), 979);
  }

  // ----- The logarithms of e^d + 1

  /** The logarithm of e^d + 1, for odd d below 88. */
  function OddLog(d: nat): nat
  {
    if d <= 21 then Row(d, 1, 804, 906, 419, 233, 502, 901, 416, 654, 361, 37, 467)
    else if d <= 43 then Row(d, 23, 867, 712, 392, 611, 494, 627, 97, 19, 812, 976, 893)
    else if d <= 65 then Row(d, 45, 377, 88, 387, 914, 413, 822, 878, 809, 578, 999, 598)
    else Row(d, 67, 216, 856, 799, 652, 418, 354, 747, 397, 756, 715, 24)
  }

  /** Entry (d - first) / 2 of a row of eleven. */
  function Row(d: nat, first: nat, n0: nat, n1: nat, n2: nat, n3: nat, n4: nat, n5: nat, n6: nat, n7: nat, n8: nat, n9: nat, n10: nat): nat
  {
    if d == first then n0 else if d == first + 2 then n1 else if d == first + 4 then n2 else if d == first + 6 then n3
    else if d == first + 8 then n4 else if d == first + 10 then n5 else if d == first + 12 then n6 else if d == first + 14 then n7
    else if d == first + 16 then n8 else if d == first + 18 then n9 else n10
  }

  /** The square of e^d + 1 is e^2d + 1. */
  function Zech(d: nat): nat
  {
    if d == 0 then 0 else if d % 2 == 0 then 2 * Zech(d / 2) else OddLog(d)
  }

  lemma OddLogs0(d: nat)
    requires d % 2 == 1 && 1 <= d <= 21
    ensures Plus(G(d), 1) == G(OddLog(d))
  {
    hide G;
    Ladder0();
    Ladder1();
    Ladder3();
    Ladder4();
    Ladder5();
    Ladder6();
    Ladder7();
    assert Plus(G(1), 1) == G(804);
    assert Plus(G(3), 1) == G(906);
    assert Plus(G(5), 1) == G(419);
    assert Plus(G(7), 1) == G(233);
    assert Plus(G(9), 1) == G(502);
    assert Plus(G(11), 1) == G(901);
    assert Plus(G(13), 1) == G(416);
    assert Plus(G(15), 1) == G(654);
    assert Plus(G(17), 1) == G(361);
    assert Plus(G(19), 1) == G(37);
    assert Plus(G(21), 1) == G(467);
  }

  lemma OddLogs1(d: nat)
    requires d % 2 == 1 && 23 <= d <= 43
    ensures Plus(G(d), 1) == G(OddLog(d))
  {
    hide G;
    Ladder0();
    Ladder1();
    Ladder3();
    Ladder4();
    Ladder5();
    Ladder6();
    Ladder7();
    assert Plus(G(23), 1) == G(867);
    assert Plus(G(25), 1) == G(712);
    assert Plus(G(27), 1) == G(392);
    assert Plus(G(29), 1) == G(611);
    assert Plus(G(31), 1) == G(494);
    assert Plus(G(33), 1) == G(627);
    assert Plus(G(35), 1) == G(97);
    assert Plus(G(37), 1) == G(19);
    assert Plus(G(39), 1) == G(812);
    assert Plus(G(41), 1) == G(976);
    assert Plus(G(43), 1) == G(893);
  }

  lemma OddLogs2(d: nat)
    requires d % 2 == 1 && 45 <= d <= 65
    ensures Plus(G(d), 1) == G(OddLog(d))
  {
    hide G;
    Ladder1();
    Ladder2();
    Ladder3();
    Ladder4();
    Ladder5();
    Ladder6();
    Ladder7();
    assert Plus(G(45), 1) == G(377);
    assert Plus(G(47), 1) == G(88);
    assert Plus(G(49), 1) == G(387);
    assert Plus(G(51), 1) == G(914);
    assert Plus(G(53), 1) == G(413);
    assert Plus(G(55), 1) == G(822);
    assert Plus(G(57), 1) == G(878);
    assert Plus(G(59), 1) == G(809);
    assert Plus(G(61), 1) == G(578);
    assert Plus(G(63), 1) == G(999);
    assert Plus(G(65), 1) == G(598);
  }

  lemma OddLogs3(d: nat)
    requires d % 2 == 1 && 67 <= d <= 87
    ensures Plus(G(d), 1) == G(OddLog(d))
  {
    hide G;
    Ladder0();
    Ladder2();
    Ladder3();
    Ladder4();
    Ladder5();
    Ladder6();
    Ladder7();
    assert Plus(G(67), 1) == G(216);
    assert Plus(G(69), 1) == G(856);
    assert Plus(G(71), 1) == G(799);
    assert Plus(G(73), 1) == G(652);
    assert Plus(G(75), 1) == G(418);
    assert Plus(G(77), 1) == G(354);
    assert Plus(G(79), 1) == G(747);
    assert Plus(G(81), 1) == G(397);
    assert Plus(G(83), 1) == G(756);
    assert Plus(G(85), 1) == G(715);
    assert Plus(G(87), 1) == G(24);
  }

  lemma OddLogs(d: nat)
    requires d % 2 == 1 && d <= 87
    ensures Plus(G(d), 1) == G(OddLog(d))
  {
    hide G, OddLog, Plus;
    if d <= 21 {
      OddLogs0(d);
    } else if d <= 43 {
      OddLogs1(d);
    } else if d <= 65 {
      OddLogs2(d);
    } else {
      OddLogs3(d);
    }
  }

  lemma {:induction false} ZechIs(d: nat)
    requires 0 < d <= 88
    ensures Plus(G(d), 1) == G(Zech(d))
  {
    hide G, OddLog, Plus;
    if d % 2 == 1 {
      OddLogs(d);
    } else {
      ZechIs(d / 2);
      Squared(d / 2, Zech(d / 2));
    }
  }

  lemma Squared(h: nat, z: nat)
    requires Plus(G(h), 1) == G(z)
    ensures Plus(G(2 * h), 1) == G(2 * z)
  {
    hide G, Plus, Pow;
    GZero();
    Between(h, h, 0, z);
    Between(z, h, 0, z);
    Shift(h, z);
    Shift(z, h);
    PlusChain(G(2 * h), G(h), 1);
  }

  /** The same, n places up. */
  lemma Between(n: nat, d: nat, m: nat, z: nat)
    requires Plus(G(d), G(m)) == G(z)
    ensures Plus(G(n + d), G(n + m)) == G(n + z)
  {
    hide Plus, Pow, G;
    Shift(n, d);
    Shift(n, m);
    Shift(n, z);
    PowPlus(n, G(d), G(m));
  }

  lemma PlusChain(x: Element, y: Element, z: Element)
    ensures Plus(Plus(x, y), Plus(y, z)) == Plus(x, z)
  {
    hide Plus;
    PlusLaws(x, y, Plus(y, z));
    PlusLaws(y, y, z);
    PlusLaws(z, 0, 0);
    PlusLaws(0, z, 0);
  }

  /** The sum of two powers at most 88 apart. */
  lemma Factor(n: nat, d: nat)
    requires 0 < d <= 88
    ensures Plus(G(n + d), G(n)) == G(n + Zech(d))
  {
    hide G, Plus, Zech;
    GZero();
    ZechIs(d);
    Between(n, d, 0, Zech(d));
  }
}
