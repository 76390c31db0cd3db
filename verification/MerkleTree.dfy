/**
 Merkle trees over a list of transaction ids, and partial trees as values: what
 the depth-first encoder writes and the decoder reads.  Digests are abstract;
 `f` hashes a pair of digests.
 */
module MerkleTree {

  import opened Powers

  type Digest = nat

  const NULL: Digest := 0

  type Hash2 = (Digest, Digest) -> Digest

  /** The number of nodes at a height: n divided by 2^height, rounded up. */
  function Width(n: nat, height: nat): nat
  {
    (n + Pow2(height) - 1) / Pow2(height)
  }

  /** A node exists exactly when its first leaf does. */
  lemma NodeExists(n: nat, height: nat, pos: nat)
    ensures pos < Width(n, height) <==> pos * Pow2(height) < n
  {
    Divides(n + Pow2(height) - 1, Pow2(height), pos);
  }

  lemma Divides(a: nat, p: nat, k: nat)
    requires p >= 1
    ensures k < a / p <==> k * p + p <= a
  {
    var q, r := a / p, a % p;
    assert a == q * p + r;
    if k < q {
      MulMonotone(k + 1, q, p);
    } else {
      MulMonotone(q, k, p);
    }
    assert (k + 1) * p == k * p + p;
  }

  /** The leaves of a node are those of its children. */
  lemma ChildLeaves(height: nat, pos: nat)
    requires height > 0
    ensures 2 * pos * Pow2(height - 1) == pos * Pow2(height)
    ensures (2 * pos + 1) * Pow2(height - 1) == pos * Pow2(height) + Pow2(height - 1)
    ensures (pos + 1) * Pow2(height) == pos * Pow2(height) + Pow2(height)
    ensures (2 * pos + 2) * Pow2(height - 1) == (pos + 1) * Pow2(height)
  {
    var q := Pow2(height - 1);
    assert 2 * pos * q == pos * (2 * q);
    assert (2 * pos + 1) * q == 2 * pos * q + q;
    assert (pos + 1) * (2 * q) == pos * (2 * q) + 2 * q;
    assert (2 * pos + 2) * q == 2 * pos * q + 2 * q;
  }

  // ----- The full tree

  function CalcHash(f: Hash2, txids: seq<Digest>, height: nat, pos: nat): Digest
    requires pos * Pow2(height) < |txids|
    decreases height
  {
    if height == 0 then txids[pos]
    else
      ChildLeaves(height, pos);
      NodeExists(|txids|, height - 1, 2 * pos + 1);
      var left := CalcHash(f, txids, height - 1, 2 * pos);
      var right := if 2 * pos + 1 < Width(|txids|, height - 1) then CalcHash(f, txids, height - 1, 2 * pos + 1) else left;
      f(left, right)
  }

  /** No two pairs of digests hash to the same digest. */
  ghost predicate CollisionFree(f: Hash2)
  {
    forall a, b, c, d {:trigger f(a, b), f(c, d)} :: f(a, b) == f(c, d) ==> a == c && b == d
  }

  predicate Distinct(txids: seq<Digest>)
  {
    forall i, j :: 0 <= i < j < |txids| ==> txids[i] != txids[j]
  }

  /** Different nodes of one height have different hashes. */
  lemma {:induction false} NodesDiffer(f: Hash2, txids: seq<Digest>, height: nat, p: nat, q: nat)
    requires CollisionFree(f) && Distinct(txids) && p != q
    requires p * Pow2(height) < |txids| && q * Pow2(height) < |txids|
    ensures CalcHash(f, txids, height, p) != CalcHash(f, txids, height, q)
    decreases height
  {
    if height > 0 {
      ChildLeaves(height, p);
      ChildLeaves(height, q);
      NodesDiffer(f, txids, height - 1, 2 * p, 2 * q);
    }
  }

  // ----- The encoder

  /** Whether a leaf from position lo up to hi, exclusive, is matched. */
  predicate AnyMatch(match_: seq<bool>, lo: nat, hi: nat)
  {
    exists p :: lo <= p < hi && p < |match_| && match_[p]
  }

  predicate ParentOfMatch(match_: seq<bool>, height: nat, pos: nat)
  {
    AnyMatch(match_, pos * Pow2(height), (pos + 1) * Pow2(height))
  }

  datatype Encoded = Encoded(bits: seq<bool>, hashes: seq<Digest>)

  function Build(f: Hash2, txids: seq<Digest>, match_: seq<bool>, height: nat, pos: nat): (r: Encoded)
    requires pos * Pow2(height) < |txids| && |match_| == |txids|
    ensures |r.bits| >= |r.hashes| >= 1
    decreases height
  {
    var parent := ParentOfMatch(match_, height, pos);
    if height == 0 || !parent then Encoded([parent], [CalcHash(f, txids, height, pos)])
    else
      ChildLeaves(height, pos);
      NodeExists(|txids|, height - 1, 2 * pos + 1);
      var l := Build(f, txids, match_, height - 1, 2 * pos);
      if 2 * pos + 1 < Width(|txids|, height - 1) then
        var r := Build(f, txids, match_, height - 1, 2 * pos + 1);
        Encoded([parent] + l.bits + r.bits, l.hashes + r.hashes)
      else Encoded([parent] + l.bits, l.hashes)
  }

  // ----- The decoder

  /** The state of a traversal; `bad` records an overflow or two identical branches. */
  datatype Walk = Walk(bitsUsed: nat, hashUsed: nat, matches: seq<Digest>, indexes: seq<nat>, bad: bool)

  datatype Node = Node(w: Walk, hash: Digest)

  function Extract(f: Hash2, n: nat, bits: seq<bool>, hashes: seq<Digest>, w: Walk, height: nat, pos: nat): Node
    decreases height
  {
    if w.bitsUsed >= |bits| then Node(w.(bad := true), NULL)
    else
      var parent := bits[w.bitsUsed];
      var w1 := w.(bitsUsed := w.bitsUsed + 1);
      if height == 0 || !parent then
        if w1.hashUsed >= |hashes| then Node(w1.(bad := true), NULL)
        else
          var hash := hashes[w1.hashUsed];
          var w2 := w1.(hashUsed := w1.hashUsed + 1);
          Node(if height == 0 && parent then w2.(matches := w2.matches + [hash], indexes := w2.indexes + [pos]) else w2, hash)
      else
        var l := Extract(f, n, bits, hashes, w1, height - 1, 2 * pos);
        if 2 * pos + 1 < Width(n, height - 1) then
          var r := Extract(f, n, bits, hashes, l.w, height - 1, 2 * pos + 1);
          Node(if r.hash == l.hash then r.w.(bad := true) else r.w, f(l.hash, r.hash))
        else Node(l.w, f(l.hash, l.hash))
  }

  lemma CalcInner(f: Hash2, txids: seq<Digest>, height: nat, pos: nat)
    requires height > 0 && pos * Pow2(height) < |txids|
    ensures 2 * pos * Pow2(height - 1) < |txids|
    ensures 2 * pos + 1 < Width(|txids|, height - 1) <==> (2 * pos + 1) * Pow2(height - 1) < |txids|
    ensures var l := CalcHash(f, txids, height - 1, 2 * pos);
            CalcHash(f, txids, height, pos) ==
            if 2 * pos + 1 < Width(|txids|, height - 1) then f(l, CalcHash(f, txids, height - 1, 2 * pos + 1)) else f(l, l)
  {
    ChildLeaves(height, pos);
    NodeExists(|txids|, height - 1, 2 * pos + 1);
  }

  /** The decoder at an inner node: both children, or the only one twice. */
  lemma ExtractInner(f: Hash2, n: nat, bits: seq<bool>, hashes: seq<Digest>, w: Walk, height: nat, pos: nat)
    requires height > 0 && w.bitsUsed < |bits| && bits[w.bitsUsed]
    ensures var w1 := w.(bitsUsed := w.bitsUsed + 1);
            var l := Extract(f, n, bits, hashes, w1, height - 1, 2 * pos);
            Extract(f, n, bits, hashes, w, height, pos) ==
            if 2 * pos + 1 < Width(n, height - 1) then
              var r := Extract(f, n, bits, hashes, l.w, height - 1, 2 * pos + 1);
              Node(if r.hash == l.hash then r.w.(bad := true) else r.w, f(l.hash, r.hash))
            else Node(l.w, f(l.hash, l.hash))
  {
  }

  // ----- Soundness of the decoder

  /** The reported pairs from `from` on are transactions of the block at their index. */
  predicate Genuine(txids: seq<Digest>, matches: seq<Digest>, indexes: seq<nat>, from: nat)
  {
    && |matches| == |indexes|
    && (forall k :: from <= k < |matches| ==> indexes[k] < |txids| && txids[indexes[k]] == matches[k])
  }

  /**
   A node that decodes to the hash the block has there reports only genuine
   transactions, whatever bits and hashes it was decoded from.
   */
  lemma {:induction false} ExtractGenuine(f: Hash2, txids: seq<Digest>, bits: seq<bool>, hashes: seq<Digest>,
                                             w: Walk, height: nat, pos: nat)
    requires CollisionFree(f) && pos * Pow2(height) < |txids|
    requires |w.matches| == |w.indexes|
    requires var r := Extract(f, |txids|, bits, hashes, w, height, pos);
             !r.w.bad && r.hash == CalcHash(f, txids, height, pos)
    ensures var r := Extract(f, |txids|, bits, hashes, w, height, pos);
            |w.matches| <= |r.w.matches| && Genuine(txids, r.w.matches, r.w.indexes, |w.matches|)
    decreases height
  {
    hide Width, Pow2, Extract, CalcHash;
    ExtractOuter(f, |txids|, bits, hashes, w, height, pos);
    if height > 0 && bits[w.bitsUsed] {
      CalcInner(f, txids, height, pos);
      ExtractInner(f, |txids|, bits, hashes, w, height, pos);
      var w1 := w.(bitsUsed := w.bitsUsed + 1);
      var l := Extract(f, |txids|, bits, hashes, w1, height - 1, 2 * pos);
      ExtractGrows(f, |txids|, bits, hashes, w1, height - 1, 2 * pos);
      if 2 * pos + 1 < Width(|txids|, height - 1) {
        ExtractGrows(f, |txids|, bits, hashes, l.w, height - 1, 2 * pos + 1);
        ExtractGenuine(f, txids, bits, hashes, w1, height - 1, 2 * pos);
        ExtractGenuine(f, txids, bits, hashes, l.w, height - 1, 2 * pos + 1);
      } else {
        ExtractGenuine(f, txids, bits, hashes, w1, height - 1, 2 * pos);
      }
    } else if height == 0 {
      CalcLeaf(f, txids, pos);
    }
  }

  lemma CalcLeaf(f: Hash2, txids: seq<Digest>, pos: nat)
    requires pos * Pow2(0) < |txids|
    ensures pos < |txids| && CalcHash(f, txids, 0, pos) == txids[pos]
  {
  }

  /** The decoder where it does not descend. */
  lemma ExtractOuter(f: Hash2, n: nat, bits: seq<bool>, hashes: seq<Digest>, w: Walk, height: nat, pos: nat)
    ensures var r := Extract(f, n, bits, hashes, w, height, pos);
            && (w.bitsUsed >= |bits| ==> r == Node(w.(bad := true), NULL))
            && (w.bitsUsed < |bits| && (height == 0 || !bits[w.bitsUsed]) ==>
                  var w1 := w.(bitsUsed := w.bitsUsed + 1);
                  if w.hashUsed >= |hashes| then r == Node(w1.(bad := true), NULL)
                  else
                    var w2 := w1.(hashUsed := w.hashUsed + 1);
                    var hash := hashes[w.hashUsed];
                    r == Node(if height == 0 && bits[w.bitsUsed]
                              then w2.(matches := w.matches + [hash], indexes := w.indexes + [pos]) else w2, hash))
  {
  }

  /** A traversal only appends to what it reports, and never clears the error flag. */
  lemma {:induction false} ExtractGrows(f: Hash2, n: nat, bits: seq<bool>, hashes: seq<Digest>,
                                           w: Walk, height: nat, pos: nat)
    requires |w.matches| == |w.indexes|
    ensures var r := Extract(f, n, bits, hashes, w, height, pos);
            && w.matches <= r.w.matches && w.indexes <= r.w.indexes
            && |r.w.matches| == |r.w.indexes|
            && (w.bad ==> r.w.bad)
    decreases height
  {
    if w.bitsUsed < |bits| && height > 0 && bits[w.bitsUsed] {
      var w1 := w.(bitsUsed := w.bitsUsed + 1);
      ExtractGrows(f, n, bits, hashes, w1, height - 1, 2 * pos);
      if 2 * pos + 1 < Width(n, height - 1) {
        ExtractGrows(f, n, bits, hashes, Extract(f, n, bits, hashes, w1, height - 1, 2 * pos).w, height - 1, 2 * pos + 1);
      }
    }
  }

  // ----- The decoder undoes the encoder

  /** The matched positions from lo up to hi, exclusive. */
  function Matched(match_: seq<bool>, lo: nat, hi: nat): seq<nat>
    decreases hi - lo
  {
    if lo >= hi || lo >= |match_| then []
    else (if match_[lo] then [lo] else []) + Matched(match_, lo + 1, hi)
  }

  predicate InRange(txids: seq<Digest>, indexes: seq<nat>)
  {
    forall k :: 0 <= k < |indexes| ==> indexes[k] < |txids|
  }

  function Pick(txids: seq<Digest>, indexes: seq<nat>): seq<Digest>
    requires InRange(txids, indexes)
  {
    seq(|indexes|, k requires 0 <= k < |indexes| => txids[indexes[k]])
  }

  lemma {:induction false} MatchedSplit(match_: seq<bool>, lo: nat, mid: nat, hi: nat)
    requires lo <= mid <= hi
    ensures Matched(match_, lo, hi) == Matched(match_, lo, mid) + Matched(match_, mid, hi)
    decreases mid - lo
  {
    if lo < mid && lo < |match_| {
      MatchedSplit(match_, lo + 1, mid, hi);
    }
  }

  lemma {:induction false} MatchedBounds(match_: seq<bool>, lo: nat, hi: nat)
    ensures forall k :: 0 <= k < |Matched(match_, lo, hi)| ==> lo <= Matched(match_, lo, hi)[k] < |match_|
    ensures Matched(match_, lo, hi) == [] <==> !AnyMatch(match_, lo, hi)
    ensures |Matched(match_, lo, hi)| <= if lo < hi then hi - lo else 0
    decreases hi - lo
  {
    if lo < hi && lo < |match_| {
      MatchedBounds(match_, lo + 1, hi);
      if match_[lo] {
        assert AnyMatch(match_, lo, hi);
      } else if AnyMatch(match_, lo, hi) {
        var p :| lo <= p < hi && p < |match_| && match_[p];
        assert lo + 1 <= p;
      }
    }
  }

  /** Past the end of the list there is nothing to match. */
  lemma MatchedBeyond(match_: seq<bool>, lo: nat, hi: nat)
    requires lo >= |match_|
    ensures Matched(match_, lo, hi) == []
  {
  }

  lemma MatchedLeaf(match_: seq<bool>, pos: nat)
    requires pos < |match_|
    ensures pos * Pow2(0) == pos && (pos + 1) * Pow2(0) == pos + 1
    ensures Matched(match_, pos, pos + 1) == if match_[pos] then [pos] else []
    ensures ParentOfMatch(match_, 0, pos) == match_[pos]
  {
    MatchedBeyond(match_, |match_|, |match_|);
    if match_[pos] {
      assert AnyMatch(match_, pos, pos + 1);
    }
  }

  /** The encoding of a node sits in the streams at the current position. */
  predicate At(bits: seq<bool>, hashes: seq<Digest>, w: Walk, e: Encoded)
  {
    && w.bitsUsed + |e.bits| <= |bits| && bits[w.bitsUsed..w.bitsUsed + |e.bits|] == e.bits
    && w.hashUsed + |e.hashes| <= |hashes| && hashes[w.hashUsed..w.hashUsed + |e.hashes|] == e.hashes
  }

  /** The traversal after decoding an encoded node: everything consumed, its matches reported. */
  function After(txids: seq<Digest>, w: Walk, e: Encoded, found: seq<nat>): Walk
    requires InRange(txids, found)
  {
    w.(bitsUsed := w.bitsUsed + |e.bits|, hashUsed := w.hashUsed + |e.hashes|,
       matches := w.matches + Pick(txids, found), indexes := w.indexes + found)
  }

  function FoundAt(match_: seq<bool>, height: nat, pos: nat): seq<nat>
  {
    Matched(match_, pos * Pow2(height), (pos + 1) * Pow2(height))
  }

  lemma BuildOuter(f: Hash2, txids: seq<Digest>, match_: seq<bool>, height: nat, pos: nat)
    requires pos * Pow2(height) < |txids| && |match_| == |txids|
    requires height == 0 || !ParentOfMatch(match_, height, pos)
    ensures Build(f, txids, match_, height, pos) ==
            Encoded([ParentOfMatch(match_, height, pos)], [CalcHash(f, txids, height, pos)])
  {
  }

  lemma BuildInner(f: Hash2, txids: seq<Digest>, match_: seq<bool>, height: nat, pos: nat)
    requires pos * Pow2(height) < |txids| && |match_| == |txids|
    requires height > 0 && ParentOfMatch(match_, height, pos)
    ensures 2 * pos * Pow2(height - 1) < |txids|
    ensures 2 * pos + 1 < Width(|txids|, height - 1) <==> (2 * pos + 1) * Pow2(height - 1) < |txids|
    ensures var l := Build(f, txids, match_, height - 1, 2 * pos);
            Build(f, txids, match_, height, pos) ==
            if 2 * pos + 1 < Width(|txids|, height - 1) then
              var r := Build(f, txids, match_, height - 1, 2 * pos + 1);
              Encoded([true] + l.bits + r.bits, l.hashes + r.hashes)
            else Encoded([true] + l.bits, l.hashes)
  {
    ChildLeaves(height, pos);
    NodeExists(|txids|, height - 1, 2 * pos + 1);
  }

  /** The matches below a node are those below its children. */
  lemma FoundInner(match_: seq<bool>, height: nat, pos: nat)
    requires height > 0
    ensures FoundAt(match_, height, pos) == FoundAt(match_, height - 1, 2 * pos) + FoundAt(match_, height - 1, 2 * pos + 1)
    ensures (2 * pos + 1) * Pow2(height - 1) >= |match_| ==> FoundAt(match_, height - 1, 2 * pos + 1) == []
  {
    ChildLeaves(height, pos);
    MatchedSplit(match_, pos * Pow2(height), (2 * pos + 1) * Pow2(height - 1), (pos + 1) * Pow2(height));
  }

  lemma FoundInRange(txids: seq<Digest>, match_: seq<bool>, height: nat, pos: nat)
    requires |match_| == |txids|
    ensures InRange(txids, FoundAt(match_, height, pos))
    ensures FoundAt(match_, height, pos) == [] <==> !ParentOfMatch(match_, height, pos)
  {
    MatchedBounds(match_, pos * Pow2(height), (pos + 1) * Pow2(height));
  }

  /** Decoding an encoded node yields its hash and its matches, and consumes exactly the encoding. */
  lemma {:induction false} ExtractBuilt(f: Hash2, txids: seq<Digest>, match_: seq<bool>, bits: seq<bool>, hashes: seq<Digest>,
                                        w: Walk, height: nat, pos: nat)
    requires CollisionFree(f) && Distinct(txids)
    requires pos * Pow2(height) < |txids| && |match_| == |txids|
    requires At(bits, hashes, w, Build(f, txids, match_, height, pos))
    requires InRange(txids, FoundAt(match_, height, pos))
    ensures Extract(f, |txids|, bits, hashes, w, height, pos) ==
            Node(After(txids, w, Build(f, txids, match_, height, pos), FoundAt(match_, height, pos)), CalcHash(f, txids, height, pos))
    decreases height
  {
    hide Pow2, Width, Extract, CalcHash, Build, FoundAt, ParentOfMatch, Distinct, InRange, CollisionFree, At, After;
    if height == 0 || !ParentOfMatch(match_, height, pos) {
      ExtractBuiltOuter(f, txids, match_, bits, hashes, w, height, pos);
    } else {
      BuildInner(f, txids, match_, height, pos);
      FoundInRange(txids, match_, height - 1, 2 * pos);
      FoundInRange(txids, match_, height - 1, 2 * pos + 1);
      var e := Build(f, txids, match_, height, pos);
      var w1 := w.(bitsUsed := w.bitsUsed + 1);
      var l := Build(f, txids, match_, height - 1, 2 * pos);
      if 2 * pos + 1 < Width(|txids|, height - 1) {
        var r := Build(f, txids, match_, height - 1, 2 * pos + 1);
        AtLeft(bits, hashes, w, e, l, r);
        ExtractBuilt(f, txids, match_, bits, hashes, w1, height - 1, 2 * pos);
        var w2 := After(txids, w1, l, FoundAt(match_, height - 1, 2 * pos));
        AfterUsed(txids, w1, l, FoundAt(match_, height - 1, 2 * pos));
        AtRight(bits, hashes, w, e, l, r, w2);
        ExtractBuilt(f, txids, match_, bits, hashes, w2, height - 1, 2 * pos + 1);
        NodesDiffer(f, txids, height - 1, 2 * pos, 2 * pos + 1);
      } else {
        OnlyLeft(e, l);
        AtLeft(bits, hashes, w, e, l, Encoded([], []));
        ExtractBuilt(f, txids, match_, bits, hashes, w1, height - 1, 2 * pos);
      }
      ExtractBuiltInner(f, txids, match_, bits, hashes, w, height, pos);
    }
  }

  lemma OnlyLeft(e: Encoded, l: Encoded)
    requires e == Encoded([true] + l.bits, l.hashes)
    ensures e.bits == [true] + l.bits + [] && e.hashes == l.hashes + []
  {
  }

  lemma AfterUsed(txids: seq<Digest>, w: Walk, e: Encoded, found: seq<nat>)
    requires InRange(txids, found)
    ensures After(txids, w, e, found).bitsUsed == w.bitsUsed + |e.bits|
    ensures After(txids, w, e, found).hashUsed == w.hashUsed + |e.hashes|
  {
  }

  lemma ExtractBuiltOuter(f: Hash2, txids: seq<Digest>, match_: seq<bool>, bits: seq<bool>, hashes: seq<Digest>,
                          w: Walk, height: nat, pos: nat)
    requires pos * Pow2(height) < |txids| && |match_| == |txids|
    requires height == 0 || !ParentOfMatch(match_, height, pos)
    requires At(bits, hashes, w, Build(f, txids, match_, height, pos))
    requires InRange(txids, FoundAt(match_, height, pos))
    ensures Extract(f, |txids|, bits, hashes, w, height, pos) ==
            Node(After(txids, w, Build(f, txids, match_, height, pos), FoundAt(match_, height, pos)), CalcHash(f, txids, height, pos))
  {
    hide Pow2, Width, Extract, CalcHash, Build, FoundAt, ParentOfMatch;
    var e := Build(f, txids, match_, height, pos);
    BuildOuter(f, txids, match_, height, pos);
    assert bits[w.bitsUsed..w.bitsUsed + 1][0] == e.bits[0];
    assert hashes[w.hashUsed..w.hashUsed + 1][0] == e.hashes[0];
    ExtractOuter(f, |txids|, bits, hashes, w, height, pos);
    LeafMatches(txids, match_, height, pos);
    CalcLeafAt(f, txids, height, pos);
  }

  /** The children of a node, height being theirs, decode to what was encoded, and differ. */
  ghost predicate ChildrenDecoded(f: Hash2, txids: seq<Digest>, match_: seq<bool>, bits: seq<bool>, hashes: seq<Digest>,
                                  w: Walk, height: nat, pos: nat)
    requires |match_| == |txids| && 2 * pos * Pow2(height) < |txids|
    requires InRange(txids, FoundAt(match_, height, 2 * pos)) && InRange(txids, FoundAt(match_, height, 2 * pos + 1))
  {
    var w2 := After(txids, w, Build(f, txids, match_, height, 2 * pos), FoundAt(match_, height, 2 * pos));
    && Extract(f, |txids|, bits, hashes, w, height, 2 * pos) == Node(w2, CalcHash(f, txids, height, 2 * pos))
    && (2 * pos + 1 < Width(|txids|, height) ==>
          && (2 * pos + 1) * Pow2(height) < |txids|
          && Extract(f, |txids|, bits, hashes, w2, height, 2 * pos + 1) ==
             Node(After(txids, w2, Build(f, txids, match_, height, 2 * pos + 1), FoundAt(match_, height, 2 * pos + 1)),
                  CalcHash(f, txids, height, 2 * pos + 1))
          && CalcHash(f, txids, height, 2 * pos) != CalcHash(f, txids, height, 2 * pos + 1))
  }

  /** The step from the children to their parent. */
  lemma ExtractBuiltInner(f: Hash2, txids: seq<Digest>, match_: seq<bool>, bits: seq<bool>, hashes: seq<Digest>,
                          w: Walk, height: nat, pos: nat)
    requires pos * Pow2(height) < |txids| && |match_| == |txids|
    requires height > 0 && ParentOfMatch(match_, height, pos)
    requires At(bits, hashes, w, Build(f, txids, match_, height, pos))
    requires InRange(txids, FoundAt(match_, height, pos))
    requires InRange(txids, FoundAt(match_, height - 1, 2 * pos)) && InRange(txids, FoundAt(match_, height - 1, 2 * pos + 1))
    requires 2 * pos * Pow2(height - 1) < |txids|
    requires ChildrenDecoded(f, txids, match_, bits, hashes, w.(bitsUsed := w.bitsUsed + 1), height - 1, pos)
    ensures Extract(f, |txids|, bits, hashes, w, height, pos) ==
            Node(After(txids, w, Build(f, txids, match_, height, pos), FoundAt(match_, height, pos)), CalcHash(f, txids, height, pos))
  {
    hide Pow2, Width, Extract, CalcHash, Build, FoundAt, ParentOfMatch, InRange;
    var e := Build(f, txids, match_, height, pos);
    BuildInner(f, txids, match_, height, pos);
    assert bits[w.bitsUsed] by {
      assert bits[w.bitsUsed..w.bitsUsed + |e.bits|][0] == e.bits[0];
    }
    ExtractInner(f, |txids|, bits, hashes, w, height, pos);
    CalcInner(f, txids, height, pos);
    FoundInner(match_, height, pos);
    PickJoin(txids, FoundAt(match_, height - 1, 2 * pos), FoundAt(match_, height - 1, 2 * pos + 1));
  }

  lemma LeafMatches(txids: seq<Digest>, match_: seq<bool>, height: nat, pos: nat)
    requires pos * Pow2(height) < |txids| && |match_| == |txids|
    requires height == 0 || !ParentOfMatch(match_, height, pos)
    ensures FoundAt(match_, height, pos) == if height == 0 && ParentOfMatch(match_, height, pos) then [pos] else []
    ensures height == 0 ==> pos < |txids|
  {
    if height == 0 {
      MatchedLeaf(match_, pos);
    } else {
      MatchedBounds(match_, pos * Pow2(height), (pos + 1) * Pow2(height));
    }
  }

  lemma CalcLeafAt(f: Hash2, txids: seq<Digest>, height: nat, pos: nat)
    requires pos * Pow2(height) < |txids|
    ensures height == 0 ==> pos < |txids| && CalcHash(f, txids, height, pos) == txids[pos]
  {
    if height == 0 {
      CalcLeaf(f, txids, pos);
    }
  }

  lemma SliceOfSlice<T>(s: seq<T>, start: nat, length: nat, from: nat, to: nat)
    requires from <= to <= length && start + length <= |s|
    ensures s[start..start + length][from..to] == s[start + from..start + to]
  {
    var a, b := s[start..start + length][from..to], s[start + from..start + to];
    assert forall k :: 0 <= k < |a| ==> a[k] == b[k];
  }

  lemma AtLeft(bits: seq<bool>, hashes: seq<Digest>, w: Walk, e: Encoded, l: Encoded, r: Encoded)
    requires At(bits, hashes, w, e) && e.bits == [true] + l.bits + r.bits && e.hashes == l.hashes + r.hashes
    ensures At(bits, hashes, w.(bitsUsed := w.bitsUsed + 1), l)
  {
    SliceOfSlice(bits, w.bitsUsed, |e.bits|, 1, 1 + |l.bits|);
    assert e.bits[1..1 + |l.bits|] == l.bits;
    SliceOfSlice(hashes, w.hashUsed, |e.hashes|, 0, |l.hashes|);
  }

  lemma AtRight(bits: seq<bool>, hashes: seq<Digest>, w: Walk, e: Encoded, l: Encoded, r: Encoded, w2: Walk)
    requires At(bits, hashes, w, e) && e.bits == [true] + l.bits + r.bits && e.hashes == l.hashes + r.hashes
    requires w2.bitsUsed == w.bitsUsed + 1 + |l.bits| && w2.hashUsed == w.hashUsed + |l.hashes|
    ensures At(bits, hashes, w2, r)
  {
    SliceOfSlice(bits, w.bitsUsed, |e.bits|, 1 + |l.bits|, |e.bits|);
    assert e.bits[1 + |l.bits|..|e.bits|] == r.bits;
    SliceOfSlice(hashes, w.hashUsed, |e.hashes|, |l.hashes|, |e.hashes|);
    assert e.hashes[|l.hashes|..|e.hashes|] == r.hashes;
  }

  lemma PickJoin(txids: seq<Digest>, a: seq<nat>, b: seq<nat>)
    requires InRange(txids, a) && InRange(txids, b)
    ensures InRange(txids, a + b)
    ensures Pick(txids, a + b) == Pick(txids, a) + Pick(txids, b)
  {
  }

  // ----- The size of an encoding

  function LeavesBelow(n: nat, height: nat, pos: nat): nat
  {
    var lo, hi := pos * Pow2(height), (pos + 1) * Pow2(height);
    if n <= lo then 0 else if hi <= n then Pow2(height) else n - lo
  }

  lemma LeavesInner(n: nat, height: nat, pos: nat)
    requires height > 0 && pos * Pow2(height) < n
    ensures LeavesBelow(n, height, pos) == LeavesBelow(n, height - 1, 2 * pos) + LeavesBelow(n, height - 1, 2 * pos + 1)
    ensures LeavesBelow(n, height, pos) >= 1
  {
    ChildLeaves(height, pos);
  }

  /** An encoding holds at most one hash per transaction, and at most one per level and match, and one more. */
  lemma {:induction false} HashesBounded(f: Hash2, txids: seq<Digest>, match_: seq<bool>, height: nat, pos: nat)
    requires pos * Pow2(height) < |txids| && |match_| == |txids|
    ensures var stored := |Build(f, txids, match_, height, pos).hashes|;
            && stored <= LeavesBelow(|txids|, height, pos)
            && stored <= 1 + |FoundAt(match_, height, pos)| * height
    decreases height
  {
    hide Pow2, Width, CalcHash, Build, FoundAt, ParentOfMatch, LeavesBelow;
    LeavesPositive(|txids|, height, pos);
    if height == 0 || !ParentOfMatch(match_, height, pos) {
      BuildOuter(f, txids, match_, height, pos);
    } else {
      BuildInner(f, txids, match_, height, pos);
      LeavesInner(|txids|, height, pos);
      FoundInner(match_, height, pos);
      FoundInRange(txids, match_, height, pos);
      HashesBounded(f, txids, match_, height - 1, 2 * pos);
      var a, b := |FoundAt(match_, height - 1, 2 * pos)|, |FoundAt(match_, height - 1, 2 * pos + 1)|;
      assert (a + b) * height == a * (height - 1) + b * (height - 1) + a + b;
      if 2 * pos + 1 < Width(|txids|, height - 1) {
        HashesBounded(f, txids, match_, height - 1, 2 * pos + 1);
      }
    }
  }

  lemma LeavesPositive(n: nat, height: nat, pos: nat)
    requires pos * Pow2(height) < n
    ensures LeavesBelow(n, height, pos) >= 1
  {
  }

  // ----- What any traversal reports is in order

  /** The entries from `from` on ascend strictly within lo and hi. */
  predicate Ascending(indexes: seq<nat>, from: nat, lo: nat, hi: nat)
  {
    && (forall k :: from <= k < |indexes| ==> lo <= indexes[k] < hi)
    && (forall j, k :: from <= j < k < |indexes| ==> indexes[j] < indexes[k])
  }

  lemma AscendingJoin(first: seq<nat>, second: seq<nat>, from: nat, lo: nat, mid: nat, hi: nat)
    requires from <= |first| && first <= second && lo <= mid <= hi
    requires Ascending(first, from, lo, mid) && Ascending(second, |first|, mid, hi)
    ensures Ascending(second, from, lo, hi)
  {
    forall j, k | from <= j < k < |second| ensures second[j] < second[k] {
      if j < |first| {
        assert second[j] == first[j];
        if k < |first| {
          assert second[k] == first[k];
        }
      }
    }
    forall k | from <= k < |second| ensures lo <= second[k] < hi {
      if k < |first| {
        assert second[k] == first[k];
      }
    }
  }

  /** Whatever is decoded, each node reports positions of its own leaves only, in order. */
  lemma {:induction false} ExtractAscends(f: Hash2, n: nat, bits: seq<bool>, hashes: seq<Digest>, w: Walk, height: nat, pos: nat)
    requires |w.matches| == |w.indexes|
    ensures Ascending(Extract(f, n, bits, hashes, w, height, pos).w.indexes, |w.indexes|, pos * Pow2(height), (pos + 1) * Pow2(height))
    decreases height
  {
    hide Width, Extract, Pow2, Ascending;
    ExtractOuter(f, n, bits, hashes, w, height, pos);
    if w.bitsUsed < |bits| && height > 0 && bits[w.bitsUsed] {
      ExtractInner(f, n, bits, hashes, w, height, pos);
      ChildLeaves(height, pos);
      var w1 := w.(bitsUsed := w.bitsUsed + 1);
      var l := Extract(f, n, bits, hashes, w1, height - 1, 2 * pos);
      ExtractGrows(f, n, bits, hashes, w1, height - 1, 2 * pos);
      ExtractAscends(f, n, bits, hashes, w1, height - 1, 2 * pos);
      if 2 * pos + 1 < Width(n, height - 1) {
        ExtractGrows(f, n, bits, hashes, l.w, height - 1, 2 * pos + 1);
        ExtractAscends(f, n, bits, hashes, l.w, height - 1, 2 * pos + 1);
        var r := Extract(f, n, bits, hashes, l.w, height - 1, 2 * pos + 1);
        AscendingJoin(l.w.indexes, r.w.indexes, |w.indexes|, pos * Pow2(height), (2 * pos + 1) * Pow2(height - 1), (pos + 1) * Pow2(height));
      } else {
        AscendingWiden(l.w.indexes, |w.indexes|, pos * Pow2(height), (2 * pos + 1) * Pow2(height - 1), (pos + 1) * Pow2(height));
      }
    } else {
      AscendingOne(w.indexes, height, pos);
    }
  }

  lemma AscendingWiden(indexes: seq<nat>, from: nat, lo: nat, hi: nat, wider: nat)
    requires Ascending(indexes, from, lo, hi) && hi <= wider
    ensures Ascending(indexes, from, lo, wider)
  {
  }

  lemma AscendingOne(indexes: seq<nat>, height: nat, pos: nat)
    ensures Ascending(indexes, |indexes|, pos * Pow2(height), (pos + 1) * Pow2(height))
    ensures height == 0 ==> Ascending(indexes + [pos], |indexes|, pos * Pow2(height), (pos + 1) * Pow2(height))
  {
  }
}
