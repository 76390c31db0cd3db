/**
 Four wrong symbols within 89 positions.  If four changes at distances a > b > c > 0
 from the last one cancel, the logarithms of the six differences of positions meet three conditions
 modulo 33.  No distances up to 88 do: that is decided on 7-bit words.
 */
module Bech32Four {

  import opened Bech32Field
  import opened Bech32Logs
  import opened Bech32Search

  // ----- What four cancelling terms mean for logarithms

  predicate Cancels(x: Element, y: Element, z: Element, w: Element)
  {
    Plus(Plus(x, y), Plus(z, w)) == 0
  }

  lemma CancelsSwapped(x: Element, y: Element, z: Element, w: Element)
    requires Cancels(x, y, z, w)
    ensures Cancels(x, w, z, y)
  {
    hide Plus;
    PlusLaws(y, x, 0);
    PlusLaws(z, w, 0);
    Interchange(y, x, w, z);
    Interchange(x, w, z, y);
    PlusLaws(Plus(x, z), Plus(y, w), 0);
    PlusLaws(y, w, 0);
  }

  lemma CancelsUp(n: nat, n1: nat, n2: nat, n3: nat, n4: nat)
    requires Cancels(G(n1), G(n2), G(n3), G(n4))
    ensures Cancels(G(n1 + n), G(n2 + n), G(n3 + n), G(n4 + n))
  {
    hide G, Plus, Pow;
    Shift(n, n1);
    Shift(n, n2);
    Shift(n, n3);
    Shift(n, n4);
    PowPlus(n, G(n1), G(n2));
    PowPlus(n, G(n3), G(n4));
    PowPlus(n, Plus(G(n1), G(n2)), Plus(G(n3), G(n4)));
    PowZero(n, 0);
  }

  /** Two sums with the same last term. */
  lemma LastCancels(x: Element, y: Element, z: Element, w: Element, x': Element, y': Element, z': Element)
    requires Cancels(x, y, z, w) && Cancels(x', y', z', w)
    ensures Plus(Plus(x', x), Plus(y', y)) == Plus(z', z)
  {
    hide Plus;
    PlusZero(Plus(x, y), Plus(z, w));
    PlusZero(Plus(x', y'), Plus(z', w));
    Interchange(x', x, y', y);
    Interchange(z', w, z, w);
    PlusLaws(w, w, 0);
    PlusLaws(Plus(z', z), 0, 0);
  }

  /** Two sums with the same result. */
  lemma SameSum(x: Element, y: Element, z: Element, x': Element, y': Element)
    requires Plus(x, y) == z && Plus(x', y') == z
    ensures Plus(x', x) == Plus(y', y)
  {
    hide Plus;
    PlusZero(Plus(x', y'), Plus(x, y));
    Interchange(x', y', x, y);
    PlusZero(Plus(x', x), Plus(y', y));
  }

  /** Three terms that cancel twice, the third eliminated. */
  lemma Eliminate(a: nat, b: nat, c: nat, m1: nat, m2: nat, m3: nat)
    requires Plus(G(m1), G(m2)) == G(m3) && Plus(G(m1 + a), G(m2 + b)) == G(m3 + c)
    ensures Plus(G(m1 + a), G(m1 + c)) == Plus(G(m2 + b), G(m2 + c))
  {
    hide G, Plus;
    Between(c, m1, m2, m3);
    SameSum(G(m1 + c), G(m2 + c), G(m3 + c), G(m1 + a), G(m2 + b));
  }

  /** The same with the terms the other way round. */
  lemma FactorBack(n: nat, d: nat)
    requires 0 < d <= 88
    ensures Plus(G(n), G(n + d)) == G(n + Zech(d))
  {
    hide G, Plus, Zech;
    Factor(n, d);
    PlusLaws(G(n), G(n + d), 0);
  }

  predicate Terms(a: nat, b: nat, c: nat, n1: nat, n2: nat, n3: nat, n4: nat)
  {
    && Cancels(G(n1), G(n2), G(n3), G(n4))
    && Cancels(G(n1 + a), G(n2 + b), G(n3 + c), G(n4))
    && Cancels(G(n1 + 2 * a), G(n2 + 2 * b), G(n3 + 2 * c), G(n4))
  }

  /** The fourth term eliminated. */
  lemma WithoutFourth(a: nat, b: nat, c: nat, n1: nat, n2: nat, n3: nat, n4: nat)
    requires 0 < c < b < a <= 88 && Terms(a, b, c, n1, n2, n3, n4)
    ensures Plus(G(n1 + Zech(a)), G(n2 + Zech(b))) == G(n3 + Zech(c))
    ensures Plus(G(n1 + Zech(a) + a), G(n2 + Zech(b) + b)) == G(n3 + Zech(c) + c)
  {
    hide G, Plus, Zech, Cancels;
    LastCancels(G(n1), G(n2), G(n3), G(n4), G(n1 + a), G(n2 + b), G(n3 + c));
    LastCancels(G(n1 + a), G(n2 + b), G(n3 + c), G(n4), G(n1 + 2 * a), G(n2 + 2 * b), G(n3 + 2 * c));
    Factor(n1, a);
    Factor(n2, b);
    Factor(n3, c);
    Factor(n1 + a, a);
    Factor(n2 + b, b);
    Factor(n3 + c, c);
  }

  /** The second term eliminated. */
  lemma WithoutSecond(a: nat, b: nat, c: nat, n1: nat, n2: nat, n3: nat, n4: nat)
    requires 0 < c < b < a <= 88 && Terms(a, b, c, n1, n2, n3, n4)
    ensures var w1, w4, w3 := n1 + b + Zech(a - b), n4 + Zech(b), n3 + c + Zech(b - c);
            Plus(G(w1), G(w4)) == G(w3) && Plus(G(w1 + a), G(w4)) == G(w3 + c)
  {
    hide G, Plus, Zech, Cancels;
    CancelsUp(b, n1, n2, n3, n4);
    CancelsUp(b, n1 + a, n2 + b, n3 + c, n4);
    CancelsSwapped(G(n1 + b), G(n2 + b), G(n3 + b), G(n4 + b));
    CancelsSwapped(G(n1 + a), G(n2 + b), G(n3 + c), G(n4));
    CancelsSwapped(G(n1 + a + b), G(n2 + b + b), G(n3 + c + b), G(n4 + b));
    CancelsSwapped(G(n1 + 2 * a), G(n2 + 2 * b), G(n3 + 2 * c), G(n4));
    LastCancels(G(n1 + b), G(n4 + b), G(n3 + b), G(n2 + b), G(n1 + a), G(n4), G(n3 + c));
    LastCancels(G(n1 + a + b), G(n4 + b), G(n3 + c + b), G(n2 + 2 * b), G(n1 + 2 * a), G(n4), G(n3 + 2 * c));
    Factor(n1 + b, a - b);
    FactorBack(n4, b);
    FactorBack(n3 + c, b - c);
    Factor(n1 + a + b, a - b);
    FactorBack(n3 + 2 * c, b - c);
  }

  lemma FirstAndSecond(a: nat, b: nat, c: nat, n1: nat, n2: nat, n3: nat, n4: nat)
    requires 0 < c < b < a <= 88 && Terms(a, b, c, n1, n2, n3, n4)
    ensures (n1 + Zech(a) + Zech(a - c) - (n2 + Zech(b) + Zech(b - c))) % 33 == 0
  {
    hide G, Plus, Zech, Terms;
    WithoutFourth(a, b, c, n1, n2, n3, n4);
    var m1, m2, m3 := n1 + Zech(a), n2 + Zech(b), n3 + Zech(c);
    Eliminate(a, b, c, m1, m2, m3);
    Factor(m1 + c, a - c);
    Factor(m2 + c, b - c);
    SameLog(m1 + c + Zech(a - c), m2 + c + Zech(b - c));
  }

  lemma FirstAndThird(a: nat, b: nat, c: nat, n1: nat, n2: nat, n3: nat, n4: nat)
    requires 0 < c < b < a <= 88 && Terms(a, b, c, n1, n2, n3, n4)
    ensures (n1 + Zech(a) + b + Zech(a - b) - (n3 + Zech(c) + c + Zech(b - c))) % 33 == 0
  {
    hide G, Plus, Zech, Terms;
    WithoutFourth(a, b, c, n1, n2, n3, n4);
    var m1, m2, m3 := n1 + Zech(a), n2 + Zech(b), n3 + Zech(c);
    MoveSecond(G(m1), G(m2), G(m3));
    MoveSecond(G(m1 + a), G(m2 + b), G(m3 + c));
    Eliminate(a, c, b, m1, m3, m2);
    Factor(m1 + b, a - b);
    FactorBack(m3 + c, b - c);
    SameLog(m1 + b + Zech(a - b), m3 + c + Zech(b - c));
  }

  lemma MoveSecond(x: Element, y: Element, z: Element)
    requires Plus(x, y) == z
    ensures Plus(x, z) == y
  {
  }

  lemma FirstAndFourth(a: nat, b: nat, c: nat, n1: nat, n2: nat, n3: nat, n4: nat)
    requires 0 < c < b < a <= 88 && Terms(a, b, c, n1, n2, n3, n4)
    ensures (n1 + b + Zech(a - b) + c + Zech(a - c) - (n4 + Zech(b) + Zech(c))) % 33 == 0
  {
    hide G, Plus, Zech, Terms;
    WithoutSecond(a, b, c, n1, n2, n3, n4);
    var w1, w4, w3 := n1 + b + Zech(a - b), n4 + Zech(b), n3 + c + Zech(b - c);
    Eliminate(a, 0, c, w1, w4, w3);
    Factor(w1 + c, a - c);
    FactorBack(w4, c);
    SameLog(w1 + c + Zech(a - c), w4 + Zech(c));
  }

  /** A logarithm, balanced, modulo 33. */
  function Residue(d: nat): nat
  {
    (Zech(d) + 20 * d) % 33
  }

  function Eightfold(d: nat): nat
  {
    8 * d % 33
  }

  function Sum33(m: nat, n: nat): nat
  {
    (m + n) % 33
  }

  /** The conditions on the three pairs of differences without a common position. */
  predicate Balanced(a: nat, b: nat, c: nat)
    requires c < b < a
  {
    && Residue(a) == Sum33(Residue(b - c), Eightfold(c))
    && Residue(b) == Sum33(Residue(a - c), Eightfold(c))
    && Residue(c) == Sum33(Residue(a - b), Eightfold(b))
  }

  lemma Remainder(x: int, q: int, r: int)
    requires x == 33 * q + r && 0 <= r < 33
    ensures x % 33 == r
  {
  }

  lemma Half(x: int, k: int)
    requires 2 * x == 33 * k
    ensures x % 33 == 0
  {
    Remainder(x, k / 2, 0);
  }

  lemma ResidueSame(d: nat, e: nat, f: nat)
    requires (Zech(d) + 20 * d - (Zech(e) + 20 * e) - 8 * f) % 33 == 0
    ensures Residue(d) == Sum33(Residue(e), Eightfold(f))
  {
    hide Zech;
    SameRemainder(Zech(d) + 20 * d, Zech(e) + 20 * e, 8 * f);
    AddRemainder(Residue(e), 8 * f);
  }

  lemma AddRemainder(r: int, x: int)
    ensures (r + x) % 33 == (r + x % 33) % 33
  {
    var q, s := x / 33, r + x % 33;
    assert r + x == 33 * (q + s / 33) + s % 33;
    Remainder(r + x, q + s / 33, s % 33);
  }

  lemma SameRemainder(x: int, y: int, z: int)
    requires (x - y - z) % 33 == 0
    ensures x % 33 == (y % 33 + z) % 33
  {
    var q, k := y / 33, (x - y - z) / 33;
    var r := (y % 33 + z) % 33;
    var p := (y % 33 + z) / 33;
    assert y % 33 + z == 33 * p + r;
    assert x == 33 * (k + q + p) + r;
    Remainder(x, k + q + p, r);
  }

  /** Four symbols whose changes cancel in all three values are balanced. */
  lemma TermsBalanced(a: nat, b: nat, c: nat, j1: nat, j2: nat, j3: nat, j4: nat)
    requires 0 < c < b < a <= 88 && Terms(a, b, c, 997 * a + 33 * j1, 997 * b + 33 * j2, 997 * c + 33 * j3, 33 * j4)
    ensures Balanced(a, b, c)
  {
    hide Zech, Terms, Residue;
    var n1, n2, n3, n4 := 997 * a + 33 * j1, 997 * b + 33 * j2, 997 * c + 33 * j3, 33 * j4;
    FirstAndSecond(a, b, c, n1, n2, n3, n4);
    FirstAndThird(a, b, c, n1, n2, n3, n4);
    FirstAndFourth(a, b, c, n1, n2, n3, n4);
    Combined(a, b, c, j1, j2, j3, j4, Zech(a), Zech(b), Zech(c), Zech(a - b), Zech(a - c), Zech(b - c));
    ResidueSame(a, b - c, c);
    ResidueSame(b, a - c, c);
    ResidueSame(c, a - b, b);
  }

  lemma Combined(a: int, b: int, c: int, j1: int, j2: int, j3: int, j4: int, za: int, zb: int, zc: int, zab: int, zac: int, zbc: int)
    requires (997 * a + 33 * j1 + za + zac - (997 * b + 33 * j2 + zb + zbc)) % 33 == 0
    requires (997 * a + 33 * j1 + za + b + zab - (997 * c + 33 * j3 + zc + c + zbc)) % 33 == 0
    requires (997 * a + 33 * j1 + b + zab + c + zac - (33 * j4 + zb + zc)) % 33 == 0
    ensures (za + 20 * a - (zbc + 20 * (b - c)) - 8 * c) % 33 == 0
    ensures (zb + 20 * b - (zac + 20 * (a - c)) - 8 * c) % 33 == 0
    ensures (zc + 20 * c - (zab + 20 * (a - b)) - 8 * b) % 33 == 0
  {
    var k2 := (997 * a + 33 * j1 + za + zac - (997 * b + 33 * j2 + zb + zbc)) / 33;
    var k3 := (997 * a + 33 * j1 + za + b + zab - (997 * c + 33 * j3 + zc + c + zbc)) / 33;
    var k4 := (997 * a + 33 * j1 + b + zab + c + zac - (33 * j4 + zb + zc)) / 33;
    Half(za + 20 * a - (zbc + 20 * (b - c)) - 8 * c, k2 + k3 - k4 - 29 * a + 29 * b + 31 * c - (j1 - j2 - j3 + j4));
    Half(zb + 20 * b - (zac + 20 * (a - c)) - 8 * c, k3 - k2 - k4 + 29 * a - 29 * b + 31 * c - (j2 - j1 - j3 + j4));
    Half(zc + 20 * c - (zab + 20 * (a - b)) - 8 * b, k2 - k3 - k4 + 29 * a + 31 * b - 29 * c - (j3 - j1 - j2 + j4));
  }

  // ----- Distances and residues as words

  function Index(d: nat): Word
  {
    if d == 0 then 0 else Index(d - 1) + 1
  }

  lemma Increment(x: Word)
    requires x as int < 127
    ensures (x + 1) as int == x as int + 1
  {
  }

  lemma SameWord(x: Word, y: Word)
    requires x as int == y as int
    ensures x == y
  {
  }

  lemma LessWord(x: Word, y: Word)
    ensures x < y <==> (x as int) < y as int
  {
  }

  lemma {:induction false} IndexValue(d: nat)
    requires d < 128
    ensures Index(d) as int == d
  {
    if d > 0 {
      IndexValue(d - 1);
      Increment(Index(d - 1));
    }
  }

  lemma {:induction false} IndexSum(c: nat, s: nat)
    ensures Index(c + s) == Index(c) + Index(s)
  {
    if s > 0 {
      IndexSum(c, s - 1);
    }
  }

  lemma IndexIs(d: nat, x: Word)
    requires d < 128 && x as int == d
    ensures Index(d) == x
  {
    hide Index;
    IndexValue(d);
    SameWord(Index(d), x);
  }

  lemma IndexLess(d: nat, e: nat)
    requires d < 128 && e < 128
    ensures Index(d) < Index(e) <==> d < e
  {
    hide Index;
    IndexValue(d);
    IndexValue(e);
    LessWord(Index(d), Index(e));
  }

  /** Addition modulo 33. */
  lemma SumIs(m: nat, n: nat)
    requires m < 33 && n < 33
    ensures Sum(Index(m), Index(n)) == Index(Sum33(m, n))
  {
    hide Index, Sum;
    if m + n < 33 {
      Remainder(m + n, 0, m + n);
      SumBelow(m, n);
    } else {
      Remainder(m + n, 1, m + n - 33);
      SumAbove(m, n);
    }
  }

  lemma SumBelow(m: nat, n: nat)
    requires m + n < 33
    ensures Sum(Index(m), Index(n)) == Index(m + n)
  {
    hide Index, Sum, IsSum;
    SumOf(n, m);
    Below33(m + n);
    SumLow(Index(m), Index(n), Index(m + n));
  }

  lemma SumAbove(m: nat, n: nat)
    requires 33 <= m + n < 66
    ensures Sum(Index(m), Index(n)) == Index(m + n - 33)
  {
    hide Index, Sum, IsSum, IsDifference;
    SumOf(n, m);
    Below33(m + n);
    IndexIs(33, 33);
    DifferenceOf(m + n, 33);
    SumHigh(Index(m), Index(n), Index(m + n), Index(m + n - 33));
  }

  lemma Below33(d: nat)
    requires d < 66
    ensures Index(d) < 33 <==> d < 33
  {
    hide Index;
    IndexIs(33, 33);
    IndexLess(d, 33);
  }

  lemma SumLow(x: Word, y: Word, z: Word)
    requires IsSum(z, x, y) && z < 33
    ensures Sum(x, y) == z
  {
  }

  lemma SumHigh(x: Word, y: Word, z: Word, w: Word)
    requires IsSum(z, x, y) && !(z < 33) && IsDifference(w, z, 33)
    ensures Sum(x, y) == w
  {
  }

  lemma WordMinus(x: Word, y: Word)
    ensures x + y - y == x
  {
  }

  /** The tables have the right entry for this distance. */
  predicate Listed(d: nat)
  {
    Table(Index(d)) == Index(Residue(d)) && Eight(Index(d)) == Index(Eightfold(d))
  }

  lemma Entry(d: nat, x: Word, r: nat, y: Word, e: nat, z: Word)
    requires d < 128 && x as int == d && r < 33 && y as int == r && e < 33 && z as int == e
    requires Residue(d) == r && Eightfold(d) == e && Table(x) == y && Eight(x) == z
    ensures Listed(d)
  {
    hide Index, Table, Eight, Residue, Eightfold;
    IndexIs(d, x);
    IndexIs(r, y);
    IndexIs(e, z);
  }

  lemma Listed0(d: nat)
    requires 1 <= d <= 8
    ensures Listed(d)
  {
    hide Listed;
    Entry(1, 1, 32, 32, 8, 8);
    Entry(2, 2, 31, 31, 16, 16);
    Entry(3, 3, 9, 9, 24, 24);
    Entry(4, 4, 29, 29, 32, 32);
    Entry(5, 5, 24, 24, 7, 7);
    Entry(6, 6, 18, 18, 15, 15);
    Entry(7, 7, 10, 10, 23, 23);
    Entry(8, 8, 25, 25, 31, 31);
  }

  lemma Listed1(d: nat)
    requires 9 <= d <= 16
    ensures Listed(d)
  {
    hide Listed;
    Entry(9, 9, 22, 22, 6, 6);
    Entry(10, 10, 15, 15, 14, 14);
    Entry(11, 11, 32, 32, 22, 22);
    Entry(12, 12, 3, 3, 30, 30);
    Entry(13, 13, 16, 16, 5, 5);
    Entry(14, 14, 20, 20, 13, 13);
    Entry(15, 15, 30, 30, 21, 21);
    Entry(16, 16, 17, 17, 29, 29);
  }

  lemma Listed2(d: nat)
    requires 17 <= d <= 24
    ensures Listed(d)
  {
    hide Listed;
    Entry(17, 17, 8, 8, 4, 4);
    Entry(18, 18, 11, 11, 12, 12);
    Entry(19, 19, 21, 21, 20, 20);
    Entry(20, 20, 30, 30, 28, 28);
    Entry(21, 21, 29, 29, 3, 3);
    Entry(22, 22, 31, 31, 11, 11);
    Entry(23, 23, 7, 7, 19, 19);
    Entry(24, 24, 6, 6, 27, 27);
  }

  lemma Listed3(d: nat)
    requires 25 <= d <= 32
    ensures Listed(d)
  {
    hide Listed;
    Entry(25, 25, 24, 24, 2, 2);
    Entry(26, 26, 32, 32, 10, 10);
    Entry(27, 27, 8, 8, 18, 18);
    Entry(28, 28, 7, 7, 26, 26);
    Entry(29, 29, 3, 3, 1, 1);
    Entry(30, 30, 27, 27, 9, 9);
    Entry(31, 31, 25, 25, 17, 17);
    Entry(32, 32, 1, 1, 25, 25);
  }

  lemma Listed4(d: nat)
    requires 33 <= d <= 40
    ensures Listed(d)
  {
    hide Listed;
    Entry(33, 33, 0, 0, 0, 0);
    Entry(34, 34, 16, 16, 8, 8);
    Entry(35, 35, 5, 5, 16, 16);
    Entry(36, 36, 22, 22, 24, 24);
    Entry(37, 37, 0, 0, 32, 32);
    Entry(38, 38, 9, 9, 7, 7);
    Entry(39, 39, 8, 8, 15, 15);
    Entry(40, 40, 27, 27, 23, 23);
  }

  lemma Listed5(d: nat)
    requires 41 <= d <= 48
    ensures Listed(d)
  {
    hide Listed;
    Entry(41, 41, 14, 14, 31, 31);
    Entry(42, 42, 25, 25, 6, 6);
    Entry(43, 43, 4, 4, 14, 14);
    Entry(44, 44, 29, 29, 22, 22);
    Entry(45, 45, 23, 23, 30, 30);
    Entry(46, 46, 14, 14, 5, 5);
    Entry(47, 47, 5, 5, 13, 13);
    Entry(48, 48, 12, 12, 21, 21);
  }

  lemma Listed6(d: nat)
    requires 49 <= d <= 56
    ensures Listed(d)
  {
    hide Listed;
    Entry(49, 49, 14, 14, 29, 29);
    Entry(50, 50, 15, 15, 4, 4);
    Entry(51, 51, 20, 20, 12, 12);
    Entry(52, 52, 31, 31, 20, 20);
    Entry(53, 53, 21, 21, 28, 28);
    Entry(54, 54, 16, 16, 3, 3);
    Entry(55, 55, 8, 8, 11, 11);
    Entry(56, 56, 14, 14, 19, 19);
  }

  lemma Listed7(d: nat)
    requires 57 <= d <= 64
    ensures Listed(d)
  {
    hide Listed;
    Entry(57, 57, 5, 5, 27, 27);
    Entry(58, 58, 6, 6, 2, 2);
    Entry(59, 59, 9, 9, 10, 10);
    Entry(60, 60, 21, 21, 18, 18);
    Entry(61, 61, 16, 16, 26, 26);
    Entry(62, 62, 17, 17, 1, 1);
    Entry(63, 63, 15, 15, 9, 9);
    Entry(64, 64, 2, 2, 17, 17);
  }

  lemma Listed8(d: nat)
    requires 65 <= d <= 72
    ensures Listed(d)
  {
    hide Listed;
    Entry(65, 65, 17, 17, 25, 25);
    Entry(66, 66, 0, 0, 0, 0);
    Entry(67, 67, 5, 5, 8, 8);
    Entry(68, 68, 32, 32, 16, 16);
    Entry(69, 69, 25, 25, 24, 24);
    Entry(70, 70, 10, 10, 32, 32);
    Entry(71, 71, 8, 8, 7, 7);
    Entry(72, 72, 11, 11, 15, 15);
  }

  lemma Listed9(d: nat)
    requires 73 <= d <= 80
    ensures Listed(d)
  {
    hide Listed;
    Entry(73, 73, 0, 0, 23, 23);
    Entry(74, 74, 0, 0, 31, 31);
    Entry(75, 75, 4, 4, 6, 6);
    Entry(76, 76, 18, 18, 14, 14);
    Entry(77, 77, 13, 13, 22, 22);
    Entry(78, 78, 16, 16, 30, 30);
    Entry(79, 79, 17, 17, 5, 5);
    Entry(80, 80, 21, 21, 13, 13);
  }

  lemma Listed10(d: nat)
    requires 81 <= d <= 88
    ensures Listed(d)
  {
    hide Listed;
    Entry(81, 81, 4, 4, 21, 21);
    Entry(82, 82, 28, 28, 29, 29);
    Entry(83, 83, 7, 7, 4, 4);
    Entry(84, 84, 17, 17, 12, 12);
    Entry(85, 85, 6, 6, 20, 20);
    Entry(86, 86, 8, 8, 28, 28);
    Entry(87, 87, 15, 15, 3, 3);
    Entry(88, 88, 25, 25, 11, 11);
  }

  lemma AllListed(d: nat)
    requires 0 < d <= 88
    ensures Listed(d)
  {
    hide Listed;
    if d <= 8 {
      Listed0(d);
    } else if d <= 16 {
      Listed1(d);
    } else if d <= 24 {
      Listed2(d);
    } else if d <= 32 {
      Listed3(d);
    } else if d <= 40 {
      Listed4(d);
    } else if d <= 48 {
      Listed5(d);
    } else if d <= 56 {
      Listed6(d);
    } else if d <= 64 {
      Listed7(d);
    } else if d <= 72 {
      Listed8(d);
    } else if d <= 80 {
      Listed9(d);
    } else {
      Listed10(d);
    }
  }

  /** A condition on residues, on words. */
  lemma OnWords(d: nat, e: nat, f: nat)
    requires 0 < d <= 88 && 0 < e <= 88 && 0 < f <= 88 && Residue(d) == Sum33(Residue(e), Eightfold(f))
    ensures Table(Index(d)) == Sum(Table(Index(e)), Eight(Index(f)))
  {
    hide Table, Eight, Index, Sum, Residue, Eightfold, Sum33;
    AllListed(d);
    AllListed(e);
    AllListed(f);
    Small(e);
    Small(f);
    SumIs(Residue(e), Eightfold(f));
  }

  lemma Small(d: nat)
    ensures Residue(d) < 33 && Eightfold(d) < 33
  {
    hide Zech;
  }

  predicate IsSum(x: Word, y: Word, z: Word)
  {
    x == y + z
  }

  predicate IsDifference(x: Word, y: Word, z: Word)
  {
    x == y - z
  }

  lemma SumOf(c: nat, s: nat)
    ensures IsSum(Index(s + c), Index(s), Index(c))
  {
    hide Index;
    IndexSum(s, c);
  }

  lemma DifferenceOf(t: nat, s: nat)
    requires s <= t
    ensures IsDifference(Index(t - s), Index(t), Index(s))
  {
    hide Index;
    IndexDifference(t, s);
  }

  lemma Assemble(c: Word, s: Word, t: Word, sc: Word, tc: Word, ts: Word)
    requires IsSum(sc, s, c) && IsSum(tc, t, c) && IsDifference(ts, t, s)
    requires Table(sc) == Sum(Table(t), Eight(c)) && Table(tc) == Sum(Table(s), Eight(c)) && Table(c) == Sum(Table(ts), Eight(sc))
    ensures Candidate(c, s, t)
  {
    hide Table, Sum, Eight;
  }

  lemma IndexDifference(t: nat, s: nat)
    requires s <= t
    ensures Index(t - s) == Index(t) - Index(s)
  {
    hide Index;
    IndexSum(t - s, s);
    WordMinus(Index(t - s), Index(s));
  }

  /** No distances up to 88 are balanced. */
  lemma NoneBalanced(a: nat, b: nat, c: nat)
    requires 0 < c < b < a <= 88
    ensures !Balanced(a, b, c)
  {
    hide Index, Candidate, Balanced;
    if Balanced(a, b, c) {
      AsCandidate(c, b - c, a - c);
      NotCandidate(c, b - c, a - c);
      assert false;
    }
  }

  lemma AsCandidate(c: nat, s: nat, t: nat)
    requires 0 < c && 0 < s < t && t + c <= 88 && Balanced(t + c, s + c, c)
    ensures Candidate(Index(c), Index(s), Index(t))
  {
    hide Table, Eight, Index, Sum, Candidate, Balanced, IsSum, IsDifference;
    Conditions(c, s, t);
    SumOf(c, s);
    SumOf(c, t);
    DifferenceOf(t, s);
    Assemble(Index(c), Index(s), Index(t), Index(s + c), Index(t + c), Index(t - s));
  }

  lemma Conditions(c: nat, s: nat, t: nat)
    requires 0 < c && 0 < s < t && t + c <= 88 && Balanced(t + c, s + c, c)
    ensures Table(Index(s + c)) == Sum(Table(Index(t)), Eight(Index(c)))
    ensures Table(Index(t + c)) == Sum(Table(Index(s)), Eight(Index(c)))
    ensures Table(Index(c)) == Sum(Table(Index(t - s)), Eight(Index(s + c)))
  {
    hide Table, Eight, Index, Sum, Residue, Sum33, Eightfold;
    OnWords(s + c, t, c);
    OnWords(t + c, s, c);
    OnWords(c, t - s, s + c);
  }

  lemma NotCandidate(c: nat, s: nat, t: nat)
    requires 0 < c && 0 < s < t && c + t <= 88
    ensures !Candidate(Index(c), Index(s), Index(t))
  {
    hide Index, Candidate;
    InRange(c, s, t);
    NoCandidate(Index(c), Index(s), Index(t));
  }

  lemma InRange(c: nat, s: nat, t: nat)
    requires 0 < c && 0 < s < t && c + t <= 88
    ensures 0 < Index(c) <= 86 && 0 < Index(s) < Index(t) <= 88 - Index(c)
  {
    hide Index;
    IndexIs(0, 0);
    IndexIs(87, 87);
    IndexIs(88, 88);
    IndexLess(0, c);
    IndexLess(c, 87);
    IndexLess(0, s);
    IndexLess(s, t);
    IndexSum(88 - c, c);
    WordMinus(Index(88 - c), Index(c));
    IndexLess(88 - c, t);
  }

  /** Four nonzero symbols at these distances do not cancel in all three values. */
  lemma FourTerms(a: nat, b: nat, c: nat, x: Element, y: Element, z: Element, w: Element)
    requires 0 < c < b < a <= 88 && 0 < x < 32 && 0 < y < 32 && 0 < z < 32 && 0 < w < 32
    ensures !(&& Cancels(Pow(997 * a, x), Pow(997 * b, y), Pow(997 * c, z), w)
              && Cancels(Pow(998 * a, x), Pow(998 * b, y), Pow(998 * c, z), w)
              && Cancels(Pow(999 * a, x), Pow(999 * b, y), Pow(999 * c, z), w))
  {
    hide Cancels, Pow, G, Balanced;
    var j1 := SymbolLog(x);
    var j2 := SymbolLog(y);
    var j3 := SymbolLog(z);
    var j4 := SymbolLog(w);
    AsPowers(a, x, j1);
    AsPowers(b, y, j2);
    AsPowers(c, z, j3);
    NoneBalanced(a, b, c);
    if && Cancels(Pow(997 * a, x), Pow(997 * b, y), Pow(997 * c, z), w)
       && Cancels(Pow(998 * a, x), Pow(998 * b, y), Pow(998 * c, z), w)
       && Cancels(Pow(999 * a, x), Pow(999 * b, y), Pow(999 * c, z), w) {
      TermsBalanced(a, b, c, j1, j2, j3, j4);
      assert false;
    }
  }

  lemma AsPowers(a: nat, x: Element, j: nat)
    requires G(33 * j) == x
    ensures Pow(997 * a, x) == G(997 * a + 33 * j)
    ensures Pow(998 * a, x) == G(997 * a + 33 * j + a)
    ensures Pow(999 * a, x) == G(997 * a + 33 * j + 2 * a)
  {
    hide Pow, G;
    Shift(997 * a, 33 * j);
    Shift(998 * a, 33 * j);
    Shift(999 * a, 33 * j);
  }
}
