/**
 The partial Merkle tree object: built from a block's transaction ids, packed
 into bytes for the wire, unpacked, and read back.
 */
module PartialMerkleTree {

  import opened Bits
  import opened Powers
  import opened MerkleTree

  // The largest number of transactions a block can hold by weight.
  const MAX_TRANSACTIONS := 144000000 / 240

  // ----- Flag bits in bytes, least significant first

  /** b with bit k set. */
  function SetBit(b: nat, k: nat): nat
  {
    if k == 0 then b / 2 * 2 + 1 else b % 2 + 2 * SetBit(b / 2, k - 1)
  }

  lemma {:induction false} SetBitBits(b: nat, k: nat, j: nat)
    ensures Bit(SetBit(b, k), j) == (j == k || Bit(b, j))
  {
    if k > 0 && j > 0 {
      SetBitBits(b / 2, k - 1, j - 1);
    }
  }

  lemma {:induction false} SetBitInByte(b: nat, k: nat, width: nat)
    requires b < Pow2(width) && k < width
    ensures SetBit(b, k) < Pow2(width)
  {
    hide Pow2;
    DoublePow2(width - 1);
    if k > 0 {
      SetBitInByte(b / 2, k - 1, width - 1);
    }
  }

  /** Bytes that hold the flags, the last one padded with zeros. */
  ghost predicate Packs(bytes: seq<nat>, flags: seq<bool>)
  {
    && |bytes| == (|flags| + 7) / 8
    && (forall i :: 0 <= i < |bytes| ==> bytes[i] < Pow2(8))
    && (forall p: nat :: p < 8 * |bytes| ==> Bit(bytes[p / 8], p % 8) == (p < |flags| && flags[p]))
  }

  function Unpacked(bytes: seq<nat>): seq<bool>
  {
    seq(8 * |bytes|, p requires 0 <= p < 8 * |bytes| => Bit(bytes[p / 8], p % 8))
  }

  /** Unpacking gives the flags back, followed by fewer than eight clear ones. */
  lemma PackedRoundTrip(bytes: seq<nat>, flags: seq<bool>)
    requires Packs(bytes, flags)
    ensures flags <= Unpacked(bytes) && |Unpacked(bytes)| < |flags| + 8
    ensures forall p :: |flags| <= p < |Unpacked(bytes)| ==> !Unpacked(bytes)[p]
    ensures (|Unpacked(bytes)| + 7) / 8 == (|flags| + 7) / 8
  {
    forall p: nat | p < |flags| ensures flags[p] == Unpacked(bytes)[p] {
      assert Bit(bytes[p / 8], p % 8) == (p < |flags| && flags[p]);
    }
    forall p: nat | |flags| <= p < 8 * |bytes| ensures !Unpacked(bytes)[p] {
      assert !Bit(bytes[p / 8], p % 8);
    }
  }

  /** The packing loop's state after the first `done` flags. */
  ghost predicate Partly(bytes: seq<nat>, flags: seq<bool>, done: nat)
    requires done <= |flags|
  {
    && |bytes| == (|flags| + 7) / 8
    && (forall i :: 0 <= i < |bytes| ==> bytes[i] < Pow2(8))
    && (forall p: nat :: p < 8 * |bytes| ==> Bit(bytes[p / 8], p % 8) == (p < done && flags[p]))
  }

  lemma PartlyStep(bytes: seq<nat>, flags: seq<bool>, done: nat)
    requires done < |flags| && Partly(bytes, flags, done)
    ensures done / 8 < |bytes|
    ensures Partly(if flags[done] then bytes[done / 8 := SetBit(bytes[done / 8], done % 8)] else bytes, flags, done + 1)
  {
    var i, k := done / 8, done % 8;
    var after := if flags[done] then bytes[i := SetBit(bytes[i], k)] else bytes;
    SetBitInByte(bytes[i], k, 8);
    forall p: nat | p < 8 * |bytes| ensures Bit(after[p / 8], p % 8) == (p < done + 1 && flags[p]) {
      assert Bit(bytes[p / 8], p % 8) == (p < done && flags[p]);
      if p / 8 == i {
        SetBitBits(bytes[i], k, p % 8);
        assert p % 8 == k <==> p == done;
      }
    }
  }

  method PackBits(flags: seq<bool>) returns (bytes: seq<nat>)
    ensures Packs(bytes, flags)
  {
    bytes := seq((|flags| + 7) / 8, _ => 0);
    forall p: nat | p < 8 * |bytes| ensures !Bit(bytes[p / 8], p % 8) {
      ZeroBits(p % 8);
    }
    for p := 0 to |flags|
      invariant Partly(bytes, flags, p)
    {
      PartlyStep(bytes, flags, p);
      if flags[p] {
        bytes := bytes[p / 8 := SetBit(bytes[p / 8], p % 8)];
      }
    }
  }

  method UnpackBits(bytes: seq<nat>) returns (flags: seq<bool>)
    ensures flags == Unpacked(bytes)
  {
    flags := [];
    for p := 0 to 8 * |bytes|
      invariant flags == Unpacked(bytes)[..p]
    {
      flags := flags + [Bit(bytes[p / 8], p % 8)];
    }
  }

  // ----- The height of the tree

  lemma {:induction false} Pow2Large(h: nat)
    ensures Pow2(h) > h
  {
    if h > 0 {
      Pow2Large(h - 1);
    }
  }

  /** The lowest height, from h on, with a single node. */
  function HeightFrom(n: nat, h: nat): (top: nat)
    ensures h <= top && Width(n, top) <= 1
    ensures forall k :: h <= k < top ==> Width(n, k) > 1
    decreases if h <= n then n - h else 0
  {
    if Width(n, h) > 1 then
      NodeExists(n, h, 1);
      Pow2Large(h);
      HeightFrom(n, h + 1)
    else h
  }

  function Height(n: nat): nat
  {
    HeightFrom(n, 0)
  }

  /** The tree is as high as its leaves need, and no higher. */
  lemma HeightCovers(n: nat)
    ensures n <= Pow2(Height(n))
    ensures Height(n) > 0 ==> Pow2(Height(n) - 1) < n
  {
    NodeExists(n, Height(n), 1);
    if Height(n) > 0 {
      NodeExists(n, Height(n) - 1, 1);
    }
  }

  function Root(f: Hash2, txids: seq<Digest>): Digest
    requires |txids| > 0
  {
    CalcHash(f, txids, Height(|txids|), 0)
  }

  function Encoding(f: Hash2, txids: seq<Digest>, match_: seq<bool>): Encoded
    requires |txids| == |match_| > 0
  {
    Build(f, txids, match_, Height(|txids|), 0)
  }

  // ----- Reading a partial tree

  datatype Extraction = Extraction(root: Digest, matches: seq<Digest>, indexes: seq<nat>, bad: bool)

  /** What ExtractMatches returns, appends to the caller's index list and leaves in the error flag. */
  function Extracted(f: Hash2, n: nat, bits: seq<bool>, hashes: seq<Digest>, bad: bool, indexes: seq<nat>): Extraction
  {
    if n == 0 || n > MAX_TRANSACTIONS || |hashes| > n || |bits| < |hashes| then Extraction(NULL, [], indexes, bad)
    else
      var r := Extract(f, n, bits, hashes, Walk(0, 0, [], indexes, bad), Height(n), 0);
      var ok := !r.w.bad && (r.w.bitsUsed + 7) / 8 == (|bits| + 7) / 8 && r.w.hashUsed == |hashes|;
      Extraction(if ok then r.hash else NULL, r.w.matches, r.w.indexes, r.w.bad)
  }

  /** The matches of the whole tree are all the matches. */
  lemma FoundAtTop(match_: seq<bool>)
    ensures FoundAt(match_, Height(|match_|), 0) == Matched(match_, 0, |match_|)
  {
    var top := Pow2(Height(|match_|));
    HeightCovers(|match_|);
    MatchedSplit(match_, 0, |match_|, top);
    MatchedBeyond(match_, |match_|, top);
    assert 0 * top == 0 && 1 * top == top;
  }

  /** The encoding's size: one hash per transaction at most, and few for few matches. */
  lemma EncodingBounded(f: Hash2, txids: seq<Digest>, match_: seq<bool>)
    requires |txids| == |match_| > 0
    ensures var e := Encoding(f, txids, match_);
            && |e.hashes| <= |txids|
            && |e.hashes| <= 1 + |Matched(match_, 0, |match_|)| * Height(|txids|)
            && |e.hashes| <= |e.bits|
  {
    hide Height, Pow2, Build;
    var n, h := |txids|, Height(|txids|);
    HashesBounded(f, txids, match_, h, 0);
    FoundAtTop(match_);
    HeightCovers(n);
    AllLeaves(n, h);
  }

  lemma AllLeaves(n: nat, h: nat)
    requires n <= Pow2(h)
    ensures LeavesBelow(n, h, 0) == n
  {
    assert 1 * Pow2(h) == Pow2(h);
  }

  /**
   Build, pack, unpack and extract: the root comes back, with exactly the
   matched transactions and their positions in order.
   */
  lemma RoundTrip(f: Hash2, txids: seq<Digest>, match_: seq<bool>, bytes: seq<nat>)
    requires CollisionFree(f) && Distinct(txids)
    requires |txids| == |match_| && 0 < |txids| <= MAX_TRANSACTIONS
    requires Packs(bytes, Encoding(f, txids, match_).bits)
    ensures var found := Matched(match_, 0, |match_|);
            && InRange(txids, found)
            && Extracted(f, |txids|, Unpacked(bytes), Encoding(f, txids, match_).hashes, false, []) ==
               Extraction(Root(f, txids), Pick(txids, found), found, false)
  {
    hide Height, Build, Extract, CalcHash, Matched, FoundAt, Distinct, CollisionFree, Packs, Unpacked, InRange, Pow2, After;
    var e := Encoding(f, txids, match_);
    var bits := Unpacked(bytes);
    var h := Height(|txids|);
    var found := FoundAt(match_, h, 0);
    PackedRoundTrip(bytes, e.bits);
    EncodingBounded(f, txids, match_);
    FoundAtTop(match_);
    FoundInRange(txids, match_, h, 0);
    var w := Walk(0, 0, [], [], false);
    AtStart(bits, w, e);
    ExtractBuilt(f, txids, match_, bits, e.hashes, w, h, 0);
    AfterStart(txids, e, found);
  }

  lemma AtStart(bits: seq<bool>, w: Walk, e: Encoded)
    requires e.bits <= bits && w.bitsUsed == 0 && w.hashUsed == 0
    ensures At(bits, e.hashes, w, e)
  {
  }

  lemma AfterStart(txids: seq<Digest>, e: Encoded, found: seq<nat>)
    requires InRange(txids, found)
    ensures After(txids, Walk(0, 0, [], [], false), e, found) == Walk(|e.bits|, |e.hashes|, Pick(txids, found), found, false)
  {
  }

  /**
   Whoever made the partial tree: if it has the block's transaction count and
   reads as the block's root, every reported pair is a transaction of the block
   and its position, and no position is reported twice.
   */
  lemma Sound(f: Hash2, txids: seq<Digest>, bits: seq<bool>, hashes: seq<Digest>, bad: bool)
    requires CollisionFree(f) && |txids| > 0
    requires var r := Extracted(f, |txids|, bits, hashes, bad, []);
             r.root == Root(f, txids) && r.root != NULL
    ensures var r := Extracted(f, |txids|, bits, hashes, bad, []);
            && Genuine(txids, r.matches, r.indexes, 0)
            && Ascending(r.indexes, 0, 0, |txids|)
            && !r.bad
  {
    hide Height, Extract, CalcHash, Pow2, CollisionFree, Ascending;
    var h, w := Height(|txids|), Walk(0, 0, [], [], bad);
    HeightCovers(|txids|);
    ExtractGenuine(f, txids, bits, hashes, w, h, 0);
    ExtractAscends(f, |txids|, bits, hashes, w, h, 0);
    var r := Extract(f, |txids|, bits, hashes, w, h, 0);
    WithinBlock(txids, r.w.matches, r.w.indexes, 0 * Pow2(h), 1 * Pow2(h));
  }

  lemma WithinBlock(txids: seq<Digest>, matches: seq<Digest>, indexes: seq<nat>, lo: nat, hi: nat)
    requires Genuine(txids, matches, indexes, 0) && Ascending(indexes, 0, lo, hi)
    ensures Ascending(indexes, 0, 0, |txids|)
  {
  }

  // ----- Nothing can be left over

  /** A walk that finds enough does the same when there is more. */
  lemma {:induction false} ExtractExtends(f: Hash2, n: nat, bits: seq<bool>, hashes: seq<Digest>, moreBits: seq<bool>,
                                          moreHashes: seq<Digest>, w: Walk, height: nat, pos: nat)
    requires bits <= moreBits && hashes <= moreHashes && !Extract(f, n, bits, hashes, w, height, pos).w.bad
    ensures Extract(f, n, moreBits, moreHashes, w, height, pos) == Extract(f, n, bits, hashes, w, height, pos)
    decreases height
  {
    hide Width, Extract;
    if w.bitsUsed < |bits| && height > 0 && bits[w.bitsUsed] {
      ExtractInner(f, n, bits, hashes, w, height, pos);
      ExtractInner(f, n, moreBits, moreHashes, w, height, pos);
      var w1 := w.(bitsUsed := w.bitsUsed + 1);
      var l := Extract(f, n, bits, hashes, w1, height - 1, 2 * pos);
      if 2 * pos + 1 < Width(n, height - 1) {
        BadStays(f, n, bits, hashes, l.w, height - 1, 2 * pos + 1);
        ExtractExtends(f, n, bits, hashes, moreBits, moreHashes, w1, height - 1, 2 * pos);
        ExtractExtends(f, n, bits, hashes, moreBits, moreHashes, l.w, height - 1, 2 * pos + 1);
      } else {
        ExtractExtends(f, n, bits, hashes, moreBits, moreHashes, w1, height - 1, 2 * pos);
      }
    } else {
      LeafExtends(f, n, bits, hashes, moreBits, moreHashes, w, height, pos);
    }
  }

  lemma LeafExtends(f: Hash2, n: nat, bits: seq<bool>, hashes: seq<Digest>, moreBits: seq<bool>,
                    moreHashes: seq<Digest>, w: Walk, height: nat, pos: nat)
    requires bits <= moreBits && hashes <= moreHashes && !Extract(f, n, bits, hashes, w, height, pos).w.bad
    requires w.bitsUsed >= |bits| || height == 0 || !bits[w.bitsUsed]
    ensures Extract(f, n, moreBits, moreHashes, w, height, pos) == Extract(f, n, bits, hashes, w, height, pos)
  {
    hide Width;
  }

  lemma {:induction false} BadStays(f: Hash2, n: nat, bits: seq<bool>, hashes: seq<Digest>, w: Walk, height: nat, pos: nat)
    ensures w.bad ==> Extract(f, n, bits, hashes, w, height, pos).w.bad
    decreases height
  {
    if w.bitsUsed < |bits| && height > 0 && bits[w.bitsUsed] {
      hide Width, Extract;
      ExtractInner(f, n, bits, hashes, w, height, pos);
      var w1 := w.(bitsUsed := w.bitsUsed + 1);
      var l := Extract(f, n, bits, hashes, w1, height - 1, 2 * pos);
      BadStays(f, n, bits, hashes, w1, height - 1, 2 * pos);
      if 2 * pos + 1 < Width(n, height - 1) {
        BadStays(f, n, bits, hashes, l.w, height - 1, 2 * pos + 1);
      }
    }
  }

  /**
   Of the partial trees that begin alike, one at most is accepted: a tree with a
   hash to spare, or with a byte of flags to spare, is refused.
   */
  lemma NothingToSpare(f: Hash2, n: nat, bits: seq<bool>, hashes: seq<Digest>, moreBits: seq<bool>, moreHashes: seq<Digest>,
                       bad: bool, indexes: seq<nat>)
    requires bits <= moreBits && hashes <= moreHashes
    requires Extracted(f, n, bits, hashes, bad, indexes).root != NULL
    ensures Extracted(f, n, moreBits, moreHashes, bad, indexes).root != NULL ==>
              && moreHashes == hashes && (|moreBits| + 7) / 8 == (|bits| + 7) / 8
              && Extracted(f, n, moreBits, moreHashes, bad, indexes) == Extracted(f, n, bits, hashes, bad, indexes)
  {
    hide Height, Extract;
    ExtractExtends(f, n, bits, hashes, moreBits, moreHashes, Walk(0, 0, [], indexes, bad), Height(n), 0);
  }

  /** No transactions, too many of them, more hashes than transactions or than flags: refused before anything is read. */
  lemma RefusedUnread(f: Hash2, n: nat, bits: seq<bool>, hashes: seq<Digest>, bad: bool, indexes: seq<nat>)
    requires n == 0 || n > 600000 || |hashes| > n || |hashes| > |bits|
    ensures Extracted(f, n, bits, hashes, bad, indexes) == Extraction(NULL, [], indexes, bad)
  {
  }

  // ----- The object

  class Tree {
    const f: Hash2
    var nTransactions: nat
    var vBits: seq<bool>
    var vHash: seq<Digest>
    var fBad: bool

    /** The partial tree of a block's transactions. */
    constructor (f: Hash2, txids: seq<Digest>, match_: seq<bool>)
      requires |txids| == |match_| > 0
      ensures this.f == f && nTransactions == |txids| && !fBad
      ensures Encoded(vBits, vHash) == Encoding(f, txids, match_)
    {
      this.f := f;
      nTransactions := |txids|;
      vBits := [];
      vHash := [];
      fBad := false;
      new;
      var h := TreeHeight();
      TraverseAndBuild(h, 0, txids, match_);
    }

    /** A tree that reads as nothing until it is filled from a stream. */
    constructor Empty(f: Hash2)
      ensures this.f == f && nTransactions == 0 && vBits == [] && vHash == [] && fBad
    {
      this.f := f;
      nTransactions := 0;
      vBits := [];
      vHash := [];
      fBad := true;
    }

    method TreeHeight() returns (h: nat)
      ensures h == Height(nTransactions)
    {
      h := 0;
      while Width(nTransactions, h) > 1
        invariant HeightFrom(nTransactions, h) == Height(nTransactions)
        decreases Height(nTransactions) - h
      {
        h := h + 1;
      }
    }

    method TraverseAndBuild(height: nat, pos: nat, txids: seq<Digest>, match_: seq<bool>)
      requires nTransactions == |txids| == |match_| && pos * Pow2(height) < |txids|
      modifies this`vBits, this`vHash
      ensures var e := Build(f, txids, match_, height, pos);
              vBits == old(vBits) + e.bits && vHash == old(vHash) + e.hashes
      decreases height
    {
      hide Pow2, Width, Build, CalcHash;
      var parent := IsParentOfMatch(height, pos, match_);
      vBits := vBits + [parent];
      if height == 0 || !parent {
        BuildOuter(f, txids, match_, height, pos);
        vHash := vHash + [CalcHash(f, txids, height, pos)];
      } else {
        BuildInner(f, txids, match_, height, pos);
        TraverseAndBuild(height - 1, pos * 2, txids, match_);
        if pos * 2 + 1 < Width(nTransactions, height - 1) {
          TraverseAndBuild(height - 1, pos * 2 + 1, txids, match_);
        }
      }
    }

    method IsParentOfMatch(height: nat, pos: nat, match_: seq<bool>) returns (parent: bool)
      requires nTransactions == |match_|
      ensures parent == ParentOfMatch(match_, height, pos)
    {
      hide Pow2;
      parent := false;
      var p, end := pos * Pow2(height), (pos + 1) * Pow2(height);
      ghost var start := p;
      assert end == start + Pow2(height);
      while p < end && p < nTransactions
        invariant start <= p <= end
        invariant parent <==> exists q :: start <= q < p && q < |match_| && match_[q]
      {
        parent := parent || match_[p];
        p := p + 1;
      }
    }

    method TraverseAndExtract(height: nat, pos: nat, bitsUsed: nat, hashUsed: nat, matches: seq<Digest>, indexes: seq<nat>)
      returns (hash: Digest, nBitsUsed: nat, nHashUsed: nat, vMatch: seq<Digest>, vnIndex: seq<nat>)
      modifies this`fBad
      ensures Node(Walk(nBitsUsed, nHashUsed, vMatch, vnIndex, fBad), hash) ==
              Extract(f, nTransactions, vBits, vHash, Walk(bitsUsed, hashUsed, matches, indexes, old(fBad)), height, pos)
      decreases height
    {
      hide Width, Extract;
      ghost var w := Walk(bitsUsed, hashUsed, matches, indexes, fBad);
      ExtractOuter(f, nTransactions, vBits, vHash, w, height, pos);
      nBitsUsed, nHashUsed, vMatch, vnIndex := bitsUsed, hashUsed, matches, indexes;
      if nBitsUsed >= |vBits| {
        fBad := true;
        return NULL, nBitsUsed, nHashUsed, vMatch, vnIndex;
      }
      var parent := vBits[nBitsUsed];
      nBitsUsed := nBitsUsed + 1;
      if height == 0 || !parent {
        if nHashUsed >= |vHash| {
          fBad := true;
          return NULL, nBitsUsed, nHashUsed, vMatch, vnIndex;
        }
        hash := vHash[nHashUsed];
        nHashUsed := nHashUsed + 1;
        if height == 0 && parent {
          vMatch := vMatch + [hash];
          vnIndex := vnIndex + [pos];
        }
      } else {
        ExtractInner(f, nTransactions, vBits, vHash, w, height, pos);
        var left, right;
        left, nBitsUsed, nHashUsed, vMatch, vnIndex := TraverseAndExtract(height - 1, 2 * pos, nBitsUsed, nHashUsed, vMatch, vnIndex);
        if 2 * pos + 1 < Width(nTransactions, height - 1) {
          right, nBitsUsed, nHashUsed, vMatch, vnIndex := TraverseAndExtract(height - 1, 2 * pos + 1, nBitsUsed, nHashUsed, vMatch, vnIndex);
          if right == left {
            fBad := true;
          }
        } else {
          right := left;
        }
        hash := f(left, right);
      }
    }

    method ExtractMatches(indexes: seq<nat>) returns (root: Digest, vMatch: seq<Digest>, vnIndex: seq<nat>)
      modifies this`fBad
      ensures Extraction(root, vMatch, vnIndex, fBad) == Extracted(f, nTransactions, vBits, vHash, old(fBad), indexes)
    {
      hide Extract, Height;
      if nTransactions == 0 {
        return NULL, [], indexes;
      }
      if nTransactions > MAX_TRANSACTIONS {
        return NULL, [], indexes;
      }
      if |vHash| > nTransactions {
        return NULL, [], indexes;
      }
      if |vBits| < |vHash| {
        return NULL, [], indexes;
      }
      var h := TreeHeight();
      var nBitsUsed, nHashUsed;
      root, nBitsUsed, nHashUsed, vMatch, vnIndex := TraverseAndExtract(h, 0, 0, 0, [], indexes);
      if fBad || (nBitsUsed + 7) / 8 != (|vBits| + 7) / 8 || nHashUsed != |vHash| {
        root := NULL;
      }
    }

    /** The count, the hashes and the packed flags, as they go on the wire. */
    method Serialize() returns (n: nat, hashes: seq<Digest>, bytes: seq<nat>)
      ensures n == nTransactions && hashes == vHash && Packs(bytes, vBits)
    {
      n, hashes := nTransactions, vHash;
      bytes := PackBits(vBits);
    }

    method Unserialize(n: nat, hashes: seq<Digest>, bytes: seq<nat>)
      modifies this
      ensures nTransactions == n && vHash == hashes && vBits == Unpacked(bytes) && !fBad
    {
      nTransactions, vHash := n, hashes;
      vBits := UnpackBits(bytes);
      fBad := false;
    }
  }

  /** A partial tree sent by one node and read by another. */
  method SendAndRead(f: Hash2, txids: seq<Digest>, match_: seq<bool>) returns (root: Digest, vMatch: seq<Digest>, vnIndex: seq<nat>)
    requires CollisionFree(f) && Distinct(txids)
    requires |txids| == |match_| && 0 < |txids| <= MAX_TRANSACTIONS
    ensures root == Root(f, txids) && vnIndex == Matched(match_, 0, |match_|)
    ensures InRange(txids, vnIndex) && vMatch == Pick(txids, vnIndex)
  {
    hide Height, Encoding, Extracted, Root, Matched, CollisionFree, Distinct, Packs, Unpacked;
    var sent := new Tree(f, txids, match_);
    var n, hashes, bytes := sent.Serialize();
    var received := new Tree.Empty(f);
    received.Unserialize(n, hashes, bytes);
    root, vMatch, vnIndex := received.ExtractMatches([]);
    RoundTrip(f, txids, match_, bytes);
  }
}
