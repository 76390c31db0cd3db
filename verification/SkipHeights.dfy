/**
 The heights that skip pointers lead to, and how many steps a walk along them takes:
 at most about half the square of the logarithm of the height.
 */
module SkipHeights {

  import opened Powers

  // ----- Heights to skip to

  function And(x: nat, y: nat): nat
  {
    if x == 0 || y == 0 then 0
    else (if x % 2 == 1 && y % 2 == 1 then 1 else 0) + 2 * And(x / 2, y / 2)
  }

  function InvertLowestOne(n: nat): nat
  {
    if n == 0 then 0 else And(n, n - 1)
  }

  lemma {:induction false} AndSelf(x: nat)
    ensures And(x, x) == x
  {
    if x > 0 {
      AndSelf(x / 2);
    }
  }

  /** The value of the lowest bit that is set. */
  function LowestOne(n: nat): (v: nat)
    requires n > 0
    ensures 1 <= v <= n
  {
    if n % 2 == 1 then 1 else 2 * LowestOne(n / 2)
  }

  lemma {:induction false} InvertLowestOneClears(n: nat)
    requires n > 0
    ensures InvertLowestOne(n) == n - LowestOne(n)
  {
    if n % 2 == 1 {
      AndSelf(n / 2);
      assert (n - 1) / 2 == n / 2;
    } else {
      InvertLowestOneClears(n / 2);
      assert (n - 1) / 2 == n / 2 - 1;
    }
  }

  lemma InvertLower(n: nat)
    ensures InvertLowestOne(n) <= n && (n > 0 ==> InvertLowestOne(n) < n)
  {
    if n > 0 {
      InvertLowestOneClears(n);
    }
  }

  /** A skip always leads strictly back. */
  function SkipHeight(height: nat): (h: nat)
    ensures h <= height && (height > 0 ==> h < height)
  {
    if height < 2 then 0
    else if height % 2 == 1 then
      InvertLower(height - 1);
      InvertLower(InvertLowestOne(height - 1));
      InvertLowestOne(InvertLowestOne(height - 1)) + 1
    else
      InvertLower(height);
      InvertLowestOne(height)
  }

  // ----- The walk from one height to another

  /** The next height of a walk from w down to t. */
  function Next(w: nat, t: nat): (n: nat)
    requires w > t
    ensures t <= n < w
  {
    var skip, skipPrev := SkipHeight(w), SkipHeight(w - 1);
    if skip == t || (skip > t && !(skipPrev < skip - 2 && skipPrev >= t)) then skip else w - 1
  }

  /**
   Which way the walk goes: it takes the skip unless that passes the target, or the
   predecessor's skip leads further down by more than two without passing it. It
   always takes a skip that ends the walk.
   */
  lemma NextChoice(w: nat, t: nat)
    requires w > t
    ensures var skip, other := SkipHeight(w), SkipHeight(w - 1);
            && (Next(w, t) != skip ==> Next(w, t) == w - 1 && (skip < t || (t <= other && other + 2 < skip && skip != t)))
            && (Next(w, t) != w - 1 ==> Next(w, t) == skip >= t && (skip == t || other < t || other + 2 >= skip))
  {
  }

  /** The number of steps. */
  function Walk(w: nat, t: nat): nat
    decreases w
  {
    if w <= t then 0 else 1 + Walk(Next(w, t), t)
  }

  lemma WalkStep(w: nat, t: nat)
    requires w > t
    ensures Walk(w, t) == 1 + Walk(Next(w, t), t)
  {
  }

  lemma WalkDone(t: nat)
    ensures Walk(t, t) == 0
  {
  }

  // ----- Clearing the lowest bit

  lemma InvertHalves(n: nat)
    ensures n % 2 == 1 ==> InvertLowestOne(n) == n - 1
    ensures n % 2 == 0 ==> InvertLowestOne(n) == 2 * InvertLowestOne(n / 2)
  {
    if n > 0 {
      InvertLowestOneClears(n);
      if n % 2 == 0 {
        InvertLowestOneClears(n / 2);
      }
    }
  }

  // ----- Where two heights part

  /** w and t agree above bit j, which only w has. */
  predicate Part(w: nat, t: nat, j: nat)
  {
    if j == 0 then w == t + 1 && t % 2 == 0 else Part(w / 2, t / 2, j - 1)
  }

  lemma {:induction false} PartExists(w: nat, t: nat) returns (j: nat)
    requires w > t
    ensures Part(w, t, j)
    decreases w
  {
    if w / 2 == t / 2 {
      j := 0;
    } else {
      var i := PartExists(w / 2, t / 2);
      j := i + 1;
    }
  }

  lemma {:induction false} PartBounds(w: nat, t: nat, j: nat)
    requires Part(w, t, j)
    ensures w > t && Pow2(j) <= w
  {
    if j > 0 {
      PartBounds(w / 2, t / 2, j - 1);
    }
  }

  /** Some bit below j is set. */
  predicate Low(w: nat, j: nat)
  {
    j > 0 && (w % 2 == 1 || Low(w / 2, j - 1))
  }

  /** What a bit counts: the lowest three more, since a step back turns one of them into lower ones. */
  function BitWeight(pos: nat): nat
  {
    if pos == 1 then 2 else if pos == 2 then 4 else 1
  }

  /** The weight of the lowest j bits. */
  function Weight(w: nat, j: nat, pos: nat): nat
  {
    if j == 0 then 0 else (if w % 2 == 1 then BitWeight(pos) else 0) + Weight(w / 2, j - 1, pos + 1)
  }

  lemma {:induction false} WeightHigh(w: nat, j: nat, pos: nat)
    requires pos >= 3
    ensures Weight(w, j, pos) <= j
  {
    if j > 0 {
      WeightHigh(w / 2, j - 1, pos + 1);
    }
  }

  lemma WeightBound(w: nat, j: nat)
    ensures Weight(w, j, 0) <= j + 4
  {
    if j > 2 {
      WeightHigh(w / 2 / 2 / 2, j - 3, 3);
      WeightTwo(w, j);
      WeightOne(w / 2 / 2, j - 2, 2);
    } else if j == 2 {
      WeightTwo(w, j);
    } else if j == 1 {
      WeightOne(w, 1, 0);
    }
  }

  lemma WeightOne(w: nat, j: nat, pos: nat)
    requires j > 0
    ensures Weight(w, j, pos) == (if w % 2 == 1 then BitWeight(pos) else 0) + Weight(w / 2, j - 1, pos + 1)
  {
  }

  lemma WeightTwo(w: nat, j: nat)
    requires j > 1
    ensures Weight(w, j, 0) == (if w % 2 == 1 then 1 else 0) + (if w / 2 % 2 == 1 then 2 else 0) + Weight(w / 2 / 2, j - 2, 2)
  {
    WeightOne(w, j, 0);
    WeightOne(w / 2, j - 1, 1);
  }

  /** What a walk may still cost when the heights part at bit j, apart from the weight below. */
  function Budget(j: nat): nat
  {
    if j == 0 then 1 else Budget(j - 1) + j + 4
  }

  lemma {:induction false} BudgetGrows(i: nat, j: nat)
    requires i < j
    ensures Budget(i) + i + 5 <= Budget(j)
  {
    if i < j - 1 {
      BudgetGrows(i, j - 1);
    }
  }

  lemma {:induction false} BudgetPositive(j: nat)
    ensures Budget(j) > 0
  {
    if j > 0 {
      BudgetPositive(j - 1);
    }
  }

  lemma {:induction false} BudgetIs(j: nat)
    ensures 2 * Budget(j) == 2 + j * (j + 9)
  {
    if j > 0 {
      BudgetIs(j - 1);
      assert (j - 1) * (j + 8) == j * (j + 9) - 2 * j - 8;
    }
  }

  /** Clearing a bit below j keeps the heights apart at j and makes the weight less. */
  lemma {:induction false} ClearLow(w: nat, t: nat, j: nat, pos: nat)
    requires Part(w, t, j) && Low(w, j)
    ensures Part(InvertLowestOne(w), t, j)
    ensures Weight(InvertLowestOne(w), j, pos) < Weight(w, j, pos)
  {
    InvertHalves(w);
    hide InvertLowestOne;
    var c := InvertLowestOne(w);
    if w % 2 == 1 {
      assert c / 2 == w / 2;
    } else {
      ClearLow(w / 2, t / 2, j - 1, pos + 1);
      assert c / 2 == InvertLowestOne(w / 2) && c % 2 == 0;
    }
  }

  /** With no bit below j, clearing the lowest one leads to t or below. */
  lemma {:induction false} ClearTop(w: nat, t: nat, j: nat)
    requires Part(w, t, j) && !Low(w, j)
    ensures InvertLowestOne(w) <= t
  {
    InvertHalves(w);
    hide InvertLowestOne;
    if j > 0 {
      ClearTop(w / 2, t / 2, j - 1);
    }
  }

  /** Then the height before parts from t at a lower bit. */
  lemma {:induction false} StepUnder(w: nat, t: nat, j: nat) returns (i: nat)
    requires Part(w, t, j) && !Low(w, j) && w - 1 > t
    ensures i < j && Part(w - 1, t, i)
  {
    PartBounds(w / 2, t / 2, j - 1);
    if w / 2 - 1 == t / 2 {
      i := 0;
    } else {
      var k := StepUnder(w / 2, t / 2, j - 1);
      i := k + 1;
      assert (w - 1) / 2 == w / 2 - 1;
    }
  }

  // ----- Each step pays

  /** The walk is done, or parts from t at bit i with less left to pay. */
  predicate Paid(n: nat, t: nat, i: nat, before: nat)
  {
    n == t || (Part(n, t, i) && Budget(i) + Weight(n, i, 0) < before)
  }

  lemma OneAbove(t: nat, j: nat, before: nat)
    requires t % 2 == 0 && j > 0 && before >= Budget(j)
    ensures Paid(t + 1, t, 0, before)
  {
    BudgetGrows(0, j);
  }

  /** From an odd height to the one before. */
  lemma OddBack(w: nat, t: nat, j: nat)
    requires Part(w, t, j) && w % 2 == 1 && j > 0
    ensures Part(w - 1, t, j) && Weight(w - 1, j, 0) + 1 == Weight(w, j, 0)
  {
    assert (w - 1) / 2 == w / 2;
  }

  lemma EvenUp(d: nat, t: nat, j: nat)
    requires d % 2 == 0 && j > 0 && Part(d, t, j)
    ensures Part(d + 1, t, j) && Weight(d + 1, j, 0) == Weight(d, j, 0) + 1
  {
    assert (d + 1) / 2 == d / 2;
  }

  /** The skip of an odd height, by way of the even numbers v, c and d. */
  lemma OddSkipIs(w: nat, t: nat, j: nat)
    requires Part(w, t, j) && w % 2 == 1 && j > 0
    ensures w > 2 && var c := InvertLowestOne(w - 1);
            c % 2 == 0 && InvertLowestOne(c) % 2 == 0 && SkipHeight(w) == InvertLowestOne(c) + 1
  {
    PartBounds(w, t, j);
    Pow2Monotone(1, j);
    InvertHalves(w - 1);
    InvertHalves(InvertLowestOne(w - 1));
    hide InvertLowestOne;
  }

  /** From an odd height along its skip. */
  lemma OddSkip(w: nat, t: nat, j: nat) returns (i: nat)
    requires Part(w, t, j) && w % 2 == 1 && j > 0 && SkipHeight(w) >= t
    ensures Paid(SkipHeight(w), t, i, Budget(j) + Weight(w, j, 0))
  {
    hide InvertLowestOne, SkipHeight, Part, Weight, Low, Budget;
    OddSkipIs(w, t, j);
    OddBack(w, t, j);
    var v := w - 1;
    var c := InvertLowestOne(v);
    var d := InvertLowestOne(c);
    i := 0;
    if !Low(v, j) {
      ClearTop(v, t, j);
      InvertLower(c);
      i := OddSkipLow(w, t, j, c);
    } else {
      ClearLow(v, t, j, 0);
      if Low(c, j) {
        ClearLow(c, t, j, 0);
        EvenUp(d, t, j);
        i := j;
      } else {
        ClearTop(c, t, j);
        if d + 1 != t {
          OneAbove(t, j, Budget(j) + Weight(w, j, 0));
        }
      }
    }
  }

  lemma OddSkipLow(w: nat, t: nat, j: nat, c: nat) returns (i: nat)
    requires j > 0 && c <= t && SkipHeight(w) == InvertLowestOne(c) + 1 >= t && (c > 0 ==> InvertLowestOne(c) < c)
    ensures Paid(SkipHeight(w), t, i, Budget(j) + Weight(w, j, 0))
  {
    hide InvertLowestOne, SkipHeight;
    i := 0;
    if c == 0 {
      assert InvertLowestOne(0) == 0 by { InvertZero(); }
      if t == 0 {
        OneAbove(0, j, Budget(j) + Weight(w, j, 0));
      }
    }
  }

  lemma InvertZero()
    ensures InvertLowestOne(0) == 0
  {
  }

  /** A step back from an even height, where its predecessor's skip is better than its own. */
  lemma EvenBack(w: nat, t: nat, j: nat)
    requires w > 0 && Part(w, t, j) && w % 2 == 0 && Low(w, j) && SkipHeight(w - 1) < SkipHeight(w) - 2
    ensures Part(w - 1, t, j) && Weight(w - 1, j, 0) < Weight(w, j, 0)
  {
    hide Part, Weight, SkipHeight, Low;
    if w % 4 == 2 {
      TwoBack(w, t, j);
    } else if w % 8 == 4 {
      FourBack(w, t, j);
    } else {
      EightBack(w);
      assert false;
    }
  }

  lemma TwoBack(w: nat, t: nat, j: nat)
    requires Part(w, t, j) && w % 4 == 2 && Low(w, j)
    ensures Part(w - 1, t, j) && Weight(w - 1, j, 0) < Weight(w, j, 0)
  {
    var h := w / 2;
    assert h % 2 == 1 && (w - 1) / 2 == h - 1 && (h - 1) / 2 == h / 2;
    WeightTwo(w, j);
    WeightTwo(w - 1, j);
  }

  lemma FourBack(w: nat, t: nat, j: nat)
    requires Part(w, t, j) && w % 8 == 4 && Low(w, j)
    ensures Part(w - 1, t, j) && Weight(w - 1, j, 0) < Weight(w, j, 0)
  {
    var h := w / 2;
    var q := h / 2;
    assert h % 2 == 0 && q % 2 == 1;
    assert (w - 1) / 2 == h - 1 && (h - 1) / 2 == q - 1 && (q - 1) / 2 == q / 2;
    assert Low(h, j - 1) && Low(q, j - 2);
    assert Part(h, t / 2, j - 1) && Part(q, t / 2 / 2, j - 2);
    assert Part(q - 1, t / 2 / 2, j - 2) && Part(h - 1, t / 2, j - 1);
    WeightTwo(w, j);
    WeightTwo(w - 1, j);
    WeightOne(q, j - 2, 2);
    WeightOne(q - 1, j - 2, 2);
  }

  lemma EightBack(w: nat)
    requires w > 0 && w % 8 == 0
    ensures SkipHeight(w) <= w - 8 && SkipHeight(w - 1) == w - 7
  {
    hide SkipHeight;
    var e := w / 8;
    assert w == 8 * e;
    EightSkip(e);
    EightSkipPrev(e);
  }

  lemma EightSkip(e: nat)
    requires e > 0
    ensures SkipHeight(8 * e) <= 8 * e - 8
  {
    hide InvertLowestOne;
    Doubled(4 * e);
    Doubled(2 * e);
    Doubled(e);
    InvertLower(e);
  }

  lemma EightSkipPrev(e: nat)
    requires e > 0
    ensures SkipHeight(8 * e - 1) == 8 * e - 7
  {
    hide InvertLowestOne;
    Doubled(4 * e - 1);
    OddClears(2 * e - 1);
    Doubled(4 * e - 2);
    Doubled(2 * e - 1);
    OddClears(e - 1);
  }

  lemma OddClears(n: nat)
    ensures InvertLowestOne(2 * n + 1) == 2 * n
  {
    InvertHalves(2 * n + 1);
  }

  lemma Doubled(n: nat)
    ensures InvertLowestOne(2 * n) == 2 * InvertLowestOne(n)
  {
    InvertHalves(2 * n);
    assert 2 * n / 2 == n;
  }

  /** Every step of the walk lowers what is left to pay. */
  lemma NextPays(w: nat, t: nat, j: nat) returns (i: nat)
    requires w > t && Part(w, t, j)
    ensures Paid(Next(w, t), t, i, Budget(j) + Weight(w, j, 0))
  {
    hide InvertLowestOne, Weight;
    i := j;
    if j == 0 {
      assert Next(w, t) == t;
    } else if w % 2 == 1 {
      if Next(w, t) == SkipHeight(w) {
        i := OddSkip(w, t, j);
      } else {
        OddBack(w, t, j);
      }
    } else {
      i := EvenPays(w, t, j);
    }
  }

  lemma EvenPays(w: nat, t: nat, j: nat) returns (i: nat)
    requires w > t && Part(w, t, j) && j > 0 && w % 2 == 0
    ensures Paid(Next(w, t), t, i, Budget(j) + Weight(w, j, 0))
  {
    hide InvertLowestOne, Weight, Part;
    i := j;
    assert SkipHeight(w) == InvertLowestOne(w);
    if Low(w, j) {
      ClearLow(w, t, j, 0);
      PartBounds(InvertLowestOne(w), t, j);
      if Next(w, t) != SkipHeight(w) {
        EvenBack(w, t, j);
      }
    } else {
      ClearTop(w, t, j);
      if Next(w, t) != t {
        i := StepUnder(w, t, j);
        WeightBound(w - 1, i);
        BudgetGrows(i, j);
      }
    }
  }

  lemma {:induction false} WalkPays(w: nat, t: nat, j: nat)
    requires Part(w, t, j)
    ensures Walk(w, t) <= Budget(j) + Weight(w, j, 0)
    decreases w
  {
    hide Next, Weight, Budget, Part;
    PartBounds(w, t, j);
    BudgetPositive(j);
    var n := Next(w, t);
    var i := NextPays(w, t, j);
    if n != t {
      WalkPays(n, t, i);
    }
  }

  /** From below height 2^k no walk takes more than k(k + 9)/2 steps. */
  lemma WalkBound(w: nat, t: nat, k: nat)
    requires w < Pow2(k)
    ensures 2 * Walk(w, t) <= k * (k + 9)
  {
    if w > t {
      hide Walk, Weight, Part, Budget;
      var j := PartExists(w, t);
      PartBounds(w, t, j);
      WalkPays(w, t, j);
      WeightBound(w, j);
      if j >= k {
        Pow2Monotone(k, j);
        assert false;
      }
      BudgetIs(j);
      Squares(j, k);
    }
  }

  lemma Squares(j: nat, k: nat)
    requires j < k
    ensures 2 + j * (j + 9) + 2 * (j + 4) <= k * (k + 9)
  {
    MulMonotone(j + 1, k, j + 10);
    MulMonotone(j + 10, k + 9, k);
    assert (j + 1) * (j + 10) == j * (j + 9) + 2 * j + 10;
  }
}
