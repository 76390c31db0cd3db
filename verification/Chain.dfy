/**
 The tree of block headers with its skip pointers, and the active chain kept as
 a vector indexed by height.
 */
module Chain {

  import opened Powers
  import opened SkipHeights

  // ----- Blocks

  class BlockIndex {
    const pprev: BlockIndex?
    const nHeight: nat
    var pskip: BlockIndex?

    /** A new entry on top of prev, or a genesis entry. */
    constructor (prev: BlockIndex?)
      requires prev != null ==> Linked(prev)
      ensures Linked(this) && pprev == prev && pskip == null
    {
      pprev := prev;
      nHeight := if prev == null then 0 else prev.nHeight + 1;
      pskip := null;
    }

    /** The ancestor at a height, by skips where they help; with all of them in place, in as many steps as the walk takes. */
    method GetAncestor(height: int, ghost all: set<BlockIndex>) returns (r: BlockIndex?, ghost steps: nat)
      requires this in all && SkipsOk(all)
      ensures r == if 0 <= height <= nHeight then Ancestor(this, height) else null
      ensures 0 <= height <= nHeight && SkipsBuilt(all) ==> steps == Walk(nHeight, height)
    {
      hide Walk, SkipHeight, Linked;
      steps := 0;
      if height > nHeight || height < 0 {
        return null, steps;
      }
      var walk := this;
      var heightWalk := nHeight;
      while heightWalk > height
        invariant walk in all && height <= heightWalk == walk.nHeight
        invariant Ancestor(this, height) == Ancestor(walk, height)
        invariant SkipsBuilt(all) ==> steps + Walk(heightWalk, height) == Walk(nHeight, height)
      {
        WalkStep(heightWalk, height);
        steps := steps + 1;
        var heightSkip := SkipHeight(heightWalk);
        var heightSkipPrev := SkipHeight(heightWalk - 1);
        if walk.pskip != null &&
           (heightSkip == height || (heightSkip > height && !(heightSkipPrev < heightSkip - 2 && heightSkipPrev >= height)))
        {
          AncestorInSet(walk, heightSkip, all);
          AncestorTransitive(walk, heightSkip, height);
          walk := walk.pskip;
          heightWalk := heightSkip;
        } else {
          OneBack(walk, height);
          walk := walk.pprev;
          heightWalk := heightWalk - 1;
        }
      }
      WalkDone(height);
      return walk, steps;
    }

    /** Points the skip pointer at the ancestor it stands for. */
    method BuildSkip(ghost all: set<BlockIndex>)
      requires this in all && SkipsOk(all)
      modifies this`pskip
      ensures SkipsOk(all)
      ensures pprev == null ==> pskip == old(pskip)
      ensures pprev != null ==> pskip == Ancestor(this, SkipHeight(nHeight))
    {
      if pprev != null {
        ghost var steps;
        pskip, steps := pprev.GetAncestor(SkipHeight(nHeight), all);
      }
    }
  }

  /** Heights count the steps back to a block without a predecessor. */
  ghost predicate Linked(b: BlockIndex)
    decreases b.nHeight
  {
    if b.pprev == null then b.nHeight == 0
    else b.nHeight == b.pprev.nHeight + 1 && Linked(b.pprev)
  }

  /** Repeated pprev, down to a height. */
  ghost function Ancestor(b: BlockIndex, h: nat): (a: BlockIndex)
    requires Linked(b) && h <= b.nHeight
    ensures a.nHeight == h && Linked(a)
    decreases b.nHeight
  {
    if h == b.nHeight then b else Ancestor(b.pprev, h)
  }

  lemma OneBack(b: BlockIndex, h: nat)
    requires Linked(b) && h < b.nHeight
    ensures b.pprev != null && b.nHeight == b.pprev.nHeight + 1 && Linked(b.pprev) && Ancestor(b, h) == Ancestor(b.pprev, h)
  {
  }

  lemma {:induction false} AncestorTransitive(b: BlockIndex, h: nat, k: nat)
    requires Linked(b) && k <= h <= b.nHeight
    ensures Ancestor(Ancestor(b, h), k) == Ancestor(b, k)
    decreases b.nHeight
  {
    if h < b.nHeight {
      AncestorTransitive(b.pprev, h, k);
    }
  }

  /** A set of entries with their predecessors, in which every skip pointer is null or right. */
  ghost predicate SkipsOk(all: set<BlockIndex>)
    reads all
  {
    && (forall b <- all :: Linked(b) && (b.pprev != null ==> b.pprev in all))
    && (forall b <- all :: b.pskip != null ==>
          b.pskip == Ancestor(b, SkipHeight(b.nHeight)))
  }

  /** Every entry with a predecessor has its skip pointer. */
  ghost predicate SkipsBuilt(all: set<BlockIndex>)
    reads all
  {
    forall b <- all :: b.pprev != null ==> b.pskip != null
  }

  lemma {:induction false} AncestorInSet(b: BlockIndex, h: nat, all: set<BlockIndex>)
    requires b in all && Linked(b) && h <= b.nHeight
    requires forall x <- all :: x.pprev != null ==> x.pprev in all
    ensures Ancestor(b, h) in all
    decreases b.nHeight
  {
    if h < b.nHeight {
      AncestorInSet(b.pprev, h, all);
    }
  }

  /** Growing the tree by one entry. */
  method AddBlock(prev: BlockIndex?, ghost all: set<BlockIndex>) returns (b: BlockIndex, ghost grown: set<BlockIndex>)
    requires SkipsOk(all) && (prev != null ==> prev in all)
    ensures fresh(b) && b.pprev == prev && grown == all + {b} && SkipsOk(grown)
    ensures prev != null ==> b.pskip == Ancestor(b, SkipHeight(b.nHeight))
    ensures old(SkipsBuilt(all)) ==> SkipsBuilt(grown)
  {
    b := new BlockIndex(prev);
    grown := all + {b};
    b.BuildSkip(grown);
  }

  // ----- The active chain

  /** All ancestors of a block, by height, and the block itself. */
  ghost function Path(b: BlockIndex): (s: seq<BlockIndex?>)
    requires Linked(b)
    ensures |s| == b.nHeight + 1
    ensures forall h: nat :: h <= b.nHeight ==> s[h] == Ancestor(b, h)
  {
    seq(b.nHeight + 1, h requires 0 <= h <= b.nHeight => Ancestor(b, h))
  }

  ghost predicate IsChain(v: seq<BlockIndex?>)
  {
    v == [] || (v[|v| - 1] != null && Linked(v[|v| - 1]) && v == Path(v[|v| - 1]))
  }

  /** Below a block of the chain the chain is that block's path. */
  lemma ChainBelow(v: seq<BlockIndex?>, h: nat, k: nat)
    requires IsChain(v) && k <= h < |v|
    ensures v[h] != null && Linked(v[h]) && v[h].nHeight == h && v[k] == Ancestor(v[h], k)
  {
    AncestorTransitive(v[|v| - 1], h, k);
  }

  /** b lies on the path from c back to its genesis. */
  ghost predicate OnPath(b: BlockIndex, c: BlockIndex)
    requires Linked(c)
  {
    b.nHeight <= c.nHeight && b == Ancestor(c, b.nHeight)
  }

  function Log2(n: nat): nat
    requires n > 0
  {
    if n == 1 then 0 else 1 + Log2(n / 2)
  }

  lemma {:induction false} Log2Bounds(n: nat)
    requires n > 0
    ensures Pow2(Log2(n)) <= n < 2 * Pow2(Log2(n))
  {
    if n > 1 {
      Log2Bounds(n / 2);
    }
  }

  lemma OnOwnPath(b: BlockIndex)
    requires Linked(b)
    ensures OnPath(b, b)
  {
  }

  /** One step back along a path. */
  lemma PathStep(r: BlockIndex, b: BlockIndex)
    requires Linked(b) && Linked(r) && OnPath(r, b)
    ensures r.pprev == null <==> r.nHeight == 0
    ensures r.pprev != null ==> r.pprev.nHeight == r.nHeight - 1 && Linked(r.pprev) && OnPath(r.pprev, b)
  {
    if r.pprev != null {
      AncestorTransitive(b, r.nHeight, r.nHeight - 1);
    }
  }

  /** No block of the chain above r is on b's path. */
  ghost predicate NoneAbove(v: seq<BlockIndex?>, b: BlockIndex, r: BlockIndex?)
    requires Linked(b)
  {
    forall h: nat :: (r == null || h > r.nHeight) && h <= b.nHeight && h < |v| ==> v[h] != Ancestor(b, h)
  }

  lemma NoneAboveTip(v: seq<BlockIndex?>, b: BlockIndex)
    requires Linked(b)
    ensures NoneAbove(v, b, b)
    ensures v == [] ==> NoneAbove(v, b, null)
    ensures 0 < |v| <= b.nHeight ==> NoneAbove(v, b, Ancestor(b, |v| - 1)) && OnPath(Ancestor(b, |v| - 1), b)
  {
  }

  lemma NoneAboveStep(v: seq<BlockIndex?>, b: BlockIndex, r: BlockIndex)
    requires Linked(b) && Linked(r) && OnPath(r, b) && NoneAbove(v, b, r)
    requires r.nHeight >= |v| || v[r.nHeight] != r
    ensures r.pprev != null ==> r.pprev.nHeight < r.nHeight && Linked(r.pprev) && OnPath(r.pprev, b)
    ensures NoneAbove(v, b, r.pprev)
  {
    PathStep(r, b);
  }

  /** Above r the two paths have nothing in common. */
  ghost predicate Separate(a: BlockIndex, b: BlockIndex, r: BlockIndex?)
    requires Linked(a) && Linked(b)
  {
    forall h: nat :: (r == null || h > r.nHeight) && h <= a.nHeight && h <= b.nHeight ==> Ancestor(a, h) != Ancestor(b, h)
  }

  /** Two blocks of one height, one on each path. */
  ghost predicate Abreast(a: BlockIndex, b: BlockIndex, pa: BlockIndex?, pb: BlockIndex?)
    requires Linked(a) && Linked(b)
  {
    && (pa == null <==> pb == null)
    && (pa != null ==> pa.nHeight == pb.nHeight && Linked(pa) && Linked(pb) && OnPath(pa, a) && OnPath(pb, b))
    && Separate(a, b, pa)
  }

  lemma AbreastStart(a: BlockIndex, b: BlockIndex)
    requires Linked(a) && Linked(b)
    ensures var h := if a.nHeight <= b.nHeight then a.nHeight else b.nHeight;
            Abreast(a, b, Ancestor(a, h), Ancestor(b, h))
  {
  }

  lemma AbreastStep(a: BlockIndex, b: BlockIndex, pa: BlockIndex, pb: BlockIndex)
    requires Linked(a) && Linked(b) && Abreast(a, b, pa, pb) && pa != pb
    ensures Abreast(a, b, pa.pprev, pb.pprev) && (pa.pprev != null ==> pa.pprev.nHeight < pa.nHeight)
  {
    PathStep(pa, a);
    PathStep(pb, b);
  }

  class ActiveChain {
    var vChain: seq<BlockIndex?>

    constructor ()
      ensures vChain == []
    {
      vChain := [];
    }

    function At(h: int): BlockIndex?
      reads this
    {
      if h < 0 || h >= |vChain| then null else vChain[h]
    }

    predicate Contains(b: BlockIndex)
      reads this
    {
      At(b.nHeight) == b
    }

    function Height(): int
      reads this
    {
      |vChain| - 1
    }

    function Tip(): BlockIndex?
      reads this
    {
      if |vChain| > 0 then vChain[|vChain| - 1] else null
    }

    method SetTip(tip: BlockIndex?)
      requires IsChain(vChain) && (tip != null ==> Linked(tip))
      modifies this
      ensures IsChain(vChain)
      ensures vChain == if tip == null then [] else Path(tip)
    {
      if tip == null {
        vChain := [];
        return;
      }
      ghost var was := vChain;
      var pindex: BlockIndex? := tip;
      var n := tip.nHeight + 1;
      vChain := if |vChain| >= n then vChain[..n] else vChain + seq(n - |vChain|, _ => null);
      while pindex != null && vChain[pindex.nHeight] != pindex
        invariant |vChain| == n
        invariant pindex != null ==> Linked(pindex) && pindex.nHeight < n && pindex == Ancestor(tip, pindex.nHeight)
        invariant var low := if pindex == null then 0 else pindex.nHeight + 1;
                  && (forall h: nat :: low <= h < n ==> vChain[h] == Ancestor(tip, h))
                  && (forall h: nat :: h < low ==> vChain[h] == if h < |was| then was[h] else null)
        decreases if pindex == null then 0 else pindex.nHeight + 1
      {
        ghost var h := pindex.nHeight;
        vChain := vChain[pindex.nHeight := pindex];
        if h > 0 {
          AncestorTransitive(tip, h, h - 1);
        }
        pindex := pindex.pprev;
      }
      if pindex != null {
        forall k: nat | k <= pindex.nHeight ensures vChain[k] == Ancestor(tip, k) {
          ChainBelow(was, pindex.nHeight, k);
          AncestorTransitive(tip, pindex.nHeight, k);
        }
      }
      assert vChain == Path(tip);
    }

    /** The last block of the chain on pindex's path, or null if there is none. */
    method FindFork(pindex: BlockIndex?, ghost all: set<BlockIndex>) returns (r: BlockIndex?)
      requires IsChain(vChain) && SkipsOk(all) && (pindex != null ==> pindex in all)
      ensures pindex == null ==> r == null
      ensures pindex != null && r != null ==> Contains(r) && OnPath(r, pindex)
      ensures pindex != null ==> NoneAbove(vChain, pindex, r)
    {
      hide Linked, Ancestor, NoneAbove, OnPath, IsChain;
      if pindex == null {
        return null;
      }
      OnOwnPath(pindex);
      NoneAboveTip(vChain, pindex);
      r := pindex;
      if r.nHeight > Height() {
        ghost var steps;
        r, steps := r.GetAncestor(Height(), all);
      }
      while r != null && !Contains(r)
        invariant r != null ==> Linked(r) && OnPath(r, pindex)
        invariant NoneAbove(vChain, pindex, r)
        decreases if r == null then 0 else r.nHeight + 1
      {
        NoneAboveStep(vChain, pindex, r);
        r := r.pprev;
      }
    }

    /** From pindex, or the tip, back to its genesis: eleven single steps, then steps that double. */
    method GetLocator(start: BlockIndex?, ghost all: set<BlockIndex>) returns (have: seq<BlockIndex>)
      requires IsChain(vChain) && SkipsOk(all) && (start != null ==> start in all)
      requires Tip() != null ==> Tip() in all
      ensures var from := if start == null then Tip() else start;
              if from == null then have == []
              else Locator(from, have) && have[|have| - 1].nHeight == 0
                   && (from.nHeight > 0 ==> |have| <= 12 + Log2(from.nHeight))
    {
      hide Linked, Ancestor, OnPath, IsChain, Locator, Stepping, SkipsOk, Log2, EntryHeight;
      var nStep: nat := 1;
      have := [];
      var pindex := if start == null then Tip() else start;
      ghost var from := pindex;
      if pindex == null {
        return;
      }
      LocatorStart(from, all);
      while true
        invariant pindex != null && pindex in all && Linked(from) && OnPath(pindex, from) && Locator(from, have + [pindex])
        invariant Stepping(from.nHeight, pindex.nHeight, |have|, nStep)
        decreases pindex.nHeight
      {
        have := have + [pindex];
        if pindex.nHeight == 0 {
          LocatorLength(from.nHeight, |have| - 1, nStep);
          break;
        }
        SteppingStep(from.nHeight, pindex.nHeight, |have| - 1, nStep);
        var h := if pindex.nHeight - nStep > 0 then pindex.nHeight - nStep else 0;
        LocatorStep(from, have, h, all);
        pindex := Jump(pindex, h, all);
        if |have| > 10 {
          nStep := nStep * 2;
        }
      }
    }

    /** The ancestor at a lower height, by the vector where the block is in the chain. */
    method Jump(b: BlockIndex, h: nat, ghost all: set<BlockIndex>) returns (r: BlockIndex)
      requires IsChain(vChain) && SkipsOk(all) && b in all && h < b.nHeight
      ensures r == Ancestor(b, h)
    {
      if Contains(b) {
        ChainBelow(vChain, b.nHeight, h);
        r := At(h);
      } else {
        ghost var steps;
        r, steps := b.GetAncestor(h, all);
      }
    }
  }

  /** Starts at `from` and goes strictly down its path, in the given steps. */
  ghost predicate Locator(from: BlockIndex, have: seq<BlockIndex>)
    requires Linked(from)
  {
    && |have| > 0 && have[0] == from
    && (forall i :: 0 <= i < |have| ==> OnPath(have[i], from))
    && (forall i, j :: 0 <= i < j < |have| ==> have[i].nHeight > have[j].nHeight)
    && (forall i: nat :: i < |have| ==> have[i].nHeight == EntryHeight(from.nHeight, i))
  }

  /** The height of entry n: eleven single steps, then steps that double, down to the genesis block. */
  function EntryHeight(h0: nat, n: nat): nat
  {
    var h := if n <= 11 then h0 - n else h0 - 9 - Pow2(n - 10);
    if h < 0 then 0 else h
  }

  lemma LocatorStart(from: BlockIndex, all: set<BlockIndex>)
    requires SkipsOk(all) && from in all
    ensures Linked(from) && OnPath(from, from) && Locator(from, [] + [from])
    ensures Stepping(from.nHeight, from.nHeight, 0, 1)
  {
    assert [] + [from] == [from];
  }

  lemma LocatorStep(from: BlockIndex, have: seq<BlockIndex>, h: nat, all: set<BlockIndex>)
    requires Linked(from) && Locator(from, have) && SkipsOk(all)
    requires var last := have[|have| - 1];
             last in all && h < last.nHeight && h == EntryHeight(from.nHeight, |have|)
    ensures var last := have[|have| - 1];
            Linked(last) && var next := Ancestor(last, h);
            next in all && OnPath(next, from) && Locator(from, have + [next])
  {
    var last := have[|have| - 1];
    AncestorInSet(last, h, all);
    AncestorTransitive(from, last.nHeight, h);
    LocatorAppend(from, have, Ancestor(last, h));
  }

  lemma LocatorAppend(from: BlockIndex, have: seq<BlockIndex>, next: BlockIndex)
    requires Linked(from) && Locator(from, have) && OnPath(next, from) && next.nHeight < have[|have| - 1].nHeight
    requires next.nHeight == EntryHeight(from.nHeight, |have|)
    ensures Locator(from, have + [next])
  {
    hide OnPath, Linked, EntryHeight;
    var longer := have + [next];
    forall i, j | 0 <= i < j < |longer| ensures longer[i].nHeight > longer[j].nHeight {
      if j == |have| {
        assert have[i].nHeight >= have[|have| - 1].nHeight;
      }
    }
  }

  /** Height and step after n entries, from height h0. */
  ghost predicate Stepping(h0: nat, h: nat, n: nat, nStep: nat)
  {
    && h == EntryHeight(h0, n) && (n <= 11 ==> h == h0 - n)
    && nStep == (if n <= 10 then 1 else Pow2(n - 10))
    && (n > 10 ==> Pow2(n - 11) <= h0)
  }

  lemma SteppingStep(h0: nat, h: nat, n: nat, nStep: nat)
    requires Stepping(h0, h, n, nStep) && h > 0
    ensures nStep >= 1
    ensures Stepping(h0, if h - nStep > 0 then h - nStep else 0, n + 1, if n + 1 > 10 then nStep * 2 else nStep)
    ensures EntryHeight(h0, n + 1) == if h - nStep > 0 then h - nStep else 0
  {
    DoublePow2(0);
    if n > 10 {
      DoublePow2(n - 10);
      DoublePow2(n - 11);
    }
  }

  lemma LocatorLength(h0: nat, n: nat, nStep: nat)
    requires Stepping(h0, 0, n, nStep)
    ensures h0 > 0 ==> n + 1 <= 12 + Log2(h0)
  {
    if h0 > 0 && n > 10 {
      Log2Bounds(h0);
      if n - 11 > Log2(h0) {
        Pow2Monotone(Log2(h0), n - 11);
        assert false;
      }
    }
  }

  /** The highest block on both paths, or null if they share none. */
  method LastCommonAncestor(a: BlockIndex, b: BlockIndex, ghost all: set<BlockIndex>) returns (r: BlockIndex?)
    requires SkipsOk(all) && a in all && b in all
    ensures r != null ==> OnPath(r, a) && OnPath(r, b)
    ensures Separate(a, b, r)
  {
    hide Abreast, Ancestor, Linked;
    var pa: BlockIndex?, pb: BlockIndex? := a, b;
    AbreastStart(a, b);
    OnOwnPath(a);
    OnOwnPath(b);
    if a.nHeight > b.nHeight {
      ghost var steps;
      pa, steps := a.GetAncestor(b.nHeight, all);
    } else if b.nHeight > a.nHeight {
      ghost var steps;
      pb, steps := b.GetAncestor(a.nHeight, all);
    }
    while pa != pb && pa != null && pb != null
      invariant Abreast(a, b, pa, pb)
      decreases if pa == null then 0 else pa.nHeight + 1
    {
      AbreastStep(a, b, pa, pb);
      pa := pa.pprev;
      pb := pb.pprev;
    }
    AbreastEnd(a, b, pa, pb);
    assert pa == pb;
    return pa;
  }

  lemma AbreastEnd(a: BlockIndex, b: BlockIndex, pa: BlockIndex?, pb: BlockIndex?)
    requires Linked(a) && Linked(b) && Abreast(a, b, pa, pb) && (pa == pb || pa == null || pb == null)
    ensures pa == pb && Separate(a, b, pa) && (pa != null ==> OnPath(pa, a) && OnPath(pa, b))
  {
  }
}
