/** The step of the checksum is linear over the symbols: it commutes with multiplication by {2}. */
module Bech32Linear {

  import opened Bits
  import opened Bech32Checksum
  import opened Bech32Generator

  /** Every symbol times {2}, modulo x^5 + x^3 + 1. */
  function Times(c: Poly): Poly
  {
    seq(30, i requires 0 <= i < 30 =>
          if i % 5 == 0 then c[i + 4] else if i % 5 == 3 then Xor(c[i - 1], c[i + 1]) else c[i - 1])
  }

  function Row(n: nat, i: nat): bool
  {
    Bit(Generator(n), i)
  }

  /** One symbol of each multiple of the generator: each is {2} times the one before. */
  predicate Doubling(i: nat)
  {
    Doubles(0, 1, i) && Doubles(1, 2, i) && Doubles(2, 3, i) && Doubles(3, 4, i) && LastDoubles(i)
  }

  predicate Doubles(n: nat, m: nat, i: nat)
  {
    && Row(m, i) == Row(n, i + 4)
    && Row(m, i + 1) == Row(n, i)
    && Row(m, i + 2) == Row(n, i + 1)
    && Row(m, i + 3) == Xor(Row(n, i + 2), Row(n, i + 4))
    && Row(m, i + 4) == Row(n, i + 3)
  }

  predicate LastDoubles(i: nat)
  {
    && Xor(Row(0, i), Row(3, i)) == Row(4, i + 4)
    && Xor(Row(0, i + 1), Row(3, i + 1)) == Row(4, i)
    && Xor(Row(0, i + 2), Row(3, i + 2)) == Row(4, i + 1)
    && Xor(Row(0, i + 3), Row(3, i + 3)) == Xor(Row(4, i + 2), Row(4, i + 4))
    && Xor(Row(0, i + 4), Row(3, i + 4)) == Row(4, i + 3)
  }

  /** Doubling, read off the five columns. */
  lemma DoublingAt(i: nat, a0: bool, a1: bool, a2: bool, a3: bool, a4: bool,
                   b0: bool, b1: bool, b2: bool, b3: bool, b4: bool,
                   c0: bool, c1: bool, c2: bool, c3: bool, c4: bool,
                   d0: bool, d1: bool, d2: bool, d3: bool, d4: bool,
                   e0: bool, e1: bool, e2: bool, e3: bool, e4: bool)
    requires Column(i, a0, a1, a2, a3, a4) && Column(i + 1, b0, b1, b2, b3, b4) && Column(i + 2, c0, c1, c2, c3, c4)
    requires Column(i + 3, d0, d1, d2, d3, d4) && Column(i + 4, e0, e1, e2, e3, e4)
    requires a1 == e0 && a2 == e1 && a3 == e2 && a4 == e3 && Xor(a0, a3) == e4
    requires b1 == a0 && b2 == a1 && b3 == a2 && b4 == a3 && Xor(b0, b3) == a4
    requires c1 == b0 && c2 == b1 && c3 == b2 && c4 == b3 && Xor(c0, c3) == b4
    requires d1 == Xor(c0, e0) && d2 == Xor(c1, e1) && d3 == Xor(c2, e2) && d4 == Xor(c3, e3) && Xor(d0, d3) == Xor(c4, e4)
    requires e1 == d0 && e2 == d1 && e3 == d2 && e4 == d3 && Xor(e0, e3) == d4
    ensures Doubling(i)
  {
    hide Row, Column;
    ColumnRows(i, a0, a1, a2, a3, a4);
    ColumnRows(i + 1, b0, b1, b2, b3, b4);
    ColumnRows(i + 2, c0, c1, c2, c3, c4);
    ColumnRows(i + 3, d0, d1, d2, d3, d4);
    ColumnRows(i + 4, e0, e1, e2, e3, e4);
  }

  lemma ColumnRows(i: nat, b0: bool, b1: bool, b2: bool, b3: bool, b4: bool)
    requires Column(i, b0, b1, b2, b3, b4)
    ensures Row(0, i) == b0 && Row(1, i) == b1 && Row(2, i) == b2 && Row(3, i) == b3 && Row(4, i) == b4
  {
    hide Bit, Generator;
  }

  lemma Doubling0()
    ensures Doubling(0)
  {
    hide Doubling, Column;
    LowBits();
    DoublingAt(0, false, true, false, true, true,
               true, false, true, false, true,
               false, true, false, true, false,
               false, true, true, true, false,
               true, false, true, true, true);
  }

  lemma Doubling5()
    ensures Doubling(5)
  {
    hide Doubling, Column;
    Columns1();
    DoublingAt(5, true, true, true, false, true,
               false, true, true, true, false,
               true, false, true, true, true,
               true, false, true, true, false,
               true, true, false, true, true);
  }

  lemma Doubling10()
    ensures Doubling(10)
  {
    hide Doubling, Column;
    Columns2();
    DoublingAt(10, true, true, false, false, false,
               false, true, true, false, false,
               true, false, true, true, false,
               false, false, false, true, true,
               true, false, false, false, true);
  }

  lemma Doubling15()
    ensures Doubling(15)
  {
    hide Doubling, Column;
    Columns3();
    DoublingAt(15, false, true, false, false, false,
               false, false, true, false, false,
               true, false, false, true, false,
               false, false, false, false, true,
               true, false, false, false, false);
  }

  lemma Doubling20()
    ensures Doubling(20)
  {
    hide Doubling, Column;
    Columns4();
    DoublingAt(20, false, true, false, false, true,
               true, false, true, false, false,
               true, true, false, true, false,
               false, false, true, false, false,
               true, false, false, true, false);
  }

  lemma Doubling25()
    ensures Doubling(25)
  {
    hide Doubling, Column;
    Columns5();
    DoublingAt(25, true, true, true, false, true,
               false, true, true, true, false,
               true, false, true, true, true,
               true, false, true, true, false,
               true, true, false, true, true);
  }

  lemma AllDoubling(i: nat)
    requires i < 30 && i % 5 == 0
    ensures Doubling(i)
  {
    hide Doubling;
    Doubling0();
    Doubling5();
    Doubling10();
    Doubling15();
    Doubling20();
    Doubling25();
    assert i == 0 || i == 5 || i == 10 || i == 15 || i == 20 || i == 25;
  }

  /** A combination of rows x after doubling is one of rows y before. */
  lemma SumTimes(c: Poly, x0: bool, x1: bool, x2: bool, x3: bool, x4: bool, y0: bool, y1: bool, y2: bool, y3: bool, y4: bool)
    requires x1 == y0 && x2 == y1 && x3 == y2 && x4 == y3 && Xor(x0, x3) == y4
    ensures Sum(Times(c), x0, x1, x2, x3, x4) == Sum(c, y0, y1, y2, y3, y4)
  {
    hide Times;
    TimesAt(c, 25);
  }

  lemma SumAdds(c: Poly, x0: bool, x1: bool, x2: bool, x3: bool, x4: bool, y0: bool, y1: bool, y2: bool, y3: bool, y4: bool)
    ensures Xor(Sum(c, x0, x1, x2, x3, x4), Sum(c, y0, y1, y2, y3, y4))
            == Sum(c, Xor(x0, y0), Xor(x1, y1), Xor(x2, y2), Xor(x3, y3), Xor(x4, y4))
  {
  }

  lemma FoldedRow(c: Poly, i: nat)
    ensures Folded(c, i) == Sum(c, Row(0, i), Row(1, i), Row(2, i), Row(3, i), Row(4, i))
  {
  }

  /** One row of the symbols folded in after doubling, if it is row j before. */
  lemma FoldedMoves(c: Poly, i: nat, j: nat)
    requires Row(1, i) == Row(0, j) && Row(2, i) == Row(1, j) && Row(3, i) == Row(2, j) && Row(4, i) == Row(3, j)
    requires Xor(Row(0, i), Row(3, i)) == Row(4, j)
    ensures Folded(Times(c), i) == Folded(c, j)
  {
    hide Folded, Row, Times, Sum;
    FoldedRow(Times(c), i);
    FoldedRow(c, j);
    SumTimes(c, Row(0, i), Row(1, i), Row(2, i), Row(3, i), Row(4, i), Row(0, j), Row(1, j), Row(2, j), Row(3, j), Row(4, j));
  }

  /** The same for the row that two rows before add up to. */
  lemma FoldedAdds(c: Poly, i: nat, j: nat, k: nat)
    requires Row(1, i) == Xor(Row(0, j), Row(0, k)) && Row(2, i) == Xor(Row(1, j), Row(1, k))
    requires Row(3, i) == Xor(Row(2, j), Row(2, k)) && Row(4, i) == Xor(Row(3, j), Row(3, k))
    requires Xor(Row(0, i), Row(3, i)) == Xor(Row(4, j), Row(4, k))
    ensures Folded(Times(c), i) == Xor(Folded(c, j), Folded(c, k))
  {
    hide Folded, Row, Times, Sum;
    FoldedRow(Times(c), i);
    FoldedRow(c, j);
    FoldedRow(c, k);
    SumTimes(c, Row(0, i), Row(1, i), Row(2, i), Row(3, i), Row(4, i),
             Xor(Row(0, j), Row(0, k)), Xor(Row(1, j), Row(1, k)), Xor(Row(2, j), Row(2, k)), Xor(Row(3, j), Row(3, k)),
             Xor(Row(4, j), Row(4, k)));
    SumAdds(c, Row(0, j), Row(1, j), Row(2, j), Row(3, j), Row(4, j), Row(0, k), Row(1, k), Row(2, k), Row(3, k), Row(4, k));
  }

  lemma FoldedTimes(c: Poly, i: nat)
    requires i < 30 && i % 5 == 0
    ensures Folded(Times(c), i) == Folded(c, i + 4)
    ensures Folded(Times(c), i + 1) == Folded(c, i)
    ensures Folded(Times(c), i + 2) == Folded(c, i + 1)
    ensures Folded(Times(c), i + 3) == Xor(Folded(c, i + 2), Folded(c, i + 4))
    ensures Folded(Times(c), i + 4) == Folded(c, i + 3)
  {
    hide Row, Times, Folded;
    AllDoubling(i);
    FoldedMoves(c, i, i + 4);
    FoldedMoves(c, i + 1, i);
    FoldedMoves(c, i + 2, i + 1);
    FoldedAdds(c, i + 3, i + 2, i + 4);
    FoldedMoves(c, i + 4, i + 3);
  }

  lemma StepBit(c: Poly, i: nat)
    requires i < 30
    ensures Step(c, 0)[i] == Xor(i >= 5 && c[i - 5], Folded(c, i))
  {
    hide Folded, Bit;
    ZeroBits(i);
  }

  lemma TimesAt(c: Poly, b: nat)
    requires b + 5 <= 30 && b % 5 == 0
    ensures var d := Times(c);
            d[b] == c[b + 4] && d[b + 1] == c[b] && d[b + 2] == c[b + 1] && d[b + 3] == Xor(c[b + 2], c[b + 4]) && d[b + 4] == c[b + 3]
  {
  }

  /** The step commutes with multiplication by {2}. */
  lemma StepTimes(c: Poly)
    ensures Step(Times(c), 0) == Times(Step(c, 0))
  {
    hide Step, Folded, Times;
    var x, y := Step(Times(c), 0), Times(Step(c, 0));
    forall i: nat | i < 30 ensures x[i] == y[i] {
      var b := i - i % 5;
      StepTimesAt(c, b);
      assert i == b || i == b + 1 || i == b + 2 || i == b + 3 || i == b + 4;
    }
  }

  lemma StepTimesAt(c: Poly, b: nat)
    requires b + 5 <= 30 && b % 5 == 0
    ensures var x, y := Step(Times(c), 0), Times(Step(c, 0));
            x[b] == y[b] && x[b + 1] == y[b + 1] && x[b + 2] == y[b + 2] && x[b + 3] == y[b + 3] && x[b + 4] == y[b + 4]
  {
    hide Step, Folded, Times;
    FoldedTimes(c, b);
    TimesAt(Step(c, 0), b);
    if b >= 5 {
      TimesAt(c, b - 5);
    }
    StepBits(c, b);
    StepBits(Times(c), b);
  }

  lemma StepBits(c: Poly, b: nat)
    requires b + 5 <= 30 && b % 5 == 0
    ensures var d := Step(c, 0);
            if b == 0 then d[0] == Folded(c, 0) && d[1] == Folded(c, 1) && d[2] == Folded(c, 2) && d[3] == Folded(c, 3) && d[4] == Folded(c, 4)
            else && d[b] == Xor(c[b - 5], Folded(c, b)) && d[b + 1] == Xor(c[b - 4], Folded(c, b + 1))
                 && d[b + 2] == Xor(c[b - 3], Folded(c, b + 2)) && d[b + 3] == Xor(c[b - 2], Folded(c, b + 3))
                 && d[b + 4] == Xor(c[b - 1], Folded(c, b + 4))
  {
    hide Step, Folded;
    StepBit(c, b);
    StepBit(c, b + 1);
    StepBit(c, b + 2);
    StepBit(c, b + 3);
    StepBit(c, b + 4);
  }
}
