/**
 The cuckoo cache: a table of elements, each at one of eight positions given by
 its hashes, with lazy erasure and two epochs.
 */
module CuckooCache {

  const WAYS := 8

  /** The hashes of the cache's elements; a hash is a 32-bit number. */
  datatype Hash<!E> = Hash(h: (nat, E) -> nat)

  /** Elements, discard flags and epoch flags of the slots. */
  datatype Table<E> = Table(elems: seq<E>, collected: seq<bool>, recent: seq<bool>)

  predicate Shaped<E>(t: Table<E>)
  {
    |t.elems| == |t.collected| == |t.recent| && |t.elems| >= 2
  }

  /** The k-th position of an element: its 32-bit hash as a fraction of the table. */
  function Loc<E>(f: Hash<E>, size: nat, e: E, k: nat): (l: nat)
    requires size > 0
    ensures l < size
  {
    var x := f.h(k, e) % 0x1_0000_0000;
    ScaleBound(x, size);
    x * size / 0x1_0000_0000
  }

  lemma ScaleBound(x: nat, size: nat)
    requires x < 0x1_0000_0000 && size > 0
    ensures 0 <= x * size / 0x1_0000_0000 < size
  {
    assert x * size < 0x1_0000_0000 * size;
  }

  function Locs<E>(f: Hash<E>, size: nat, e: E): (ls: seq<nat>)
    requires size > 0
    ensures |ls| == WAYS && forall k :: 0 <= k < WAYS ==> ls[k] < size
  {
    seq(WAYS, k requires 0 <= k < WAYS => Loc(f, size, e, k))
  }

  // ----- What the table holds

  /** The element of a slot, unless it is discarded. */
  function Kept<E>(e: E, collected: bool): multiset<E>
  {
    if collected then multiset{} else multiset{e}
  }

  /** The elements of the slots that are not discarded. */
  function Live<E>(elems: seq<E>, collected: seq<bool>): multiset<E>
    requires |elems| == |collected|
  {
    if elems == [] then multiset{}
    else
      var n := |elems| - 1;
      Live(elems[..n], collected[..n]) + Kept(elems[n], collected[n])
  }

  /** How many live slots belong to the current epoch. */
  function RecentCount(collected: seq<bool>, recent: seq<bool>): nat
    requires |collected| == |recent|
  {
    if collected == [] then 0
    else
      var n := |collected| - 1;
      RecentCount(collected[..n], recent[..n]) + (if !collected[n] && recent[n] then 1 else 0)
  }

  lemma {:induction false} LiveUpdate<E>(elems: seq<E>, collected: seq<bool>, i: nat, e: E, c: bool)
    requires |elems| == |collected| && i < |elems|
    ensures Live(elems[i := e], collected[i := c]) + Kept(elems[i], collected[i]) == Live(elems, collected) + Kept(e, c)
  {
    hide Kept;
    var n := |elems| - 1;
    var was, now := Kept(elems[i], collected[i]), Kept(e, c);
    if i < n {
      LiveUpdate(elems[..n], collected[..n], i, e, c);
      assert elems[i := e][..n] == elems[..n][i := e];
      assert collected[i := c][..n] == collected[..n][i := c];
      AddBoth(Live(elems[..n][i := e], collected[..n][i := c]), Live(elems[..n], collected[..n]), was, now,
              Kept(elems[n], collected[n]));
    } else {
      assert elems[i := e][..n] == elems[..n];
      assert collected[i := c][..n] == collected[..n];
      AddSwap(Live(elems[..n], collected[..n]), was, now);
    }
  }

  lemma AddSwap<E>(a: multiset<E>, x: multiset<E>, y: multiset<E>)
    ensures (a + x) + y == (a + y) + x
  {
  }

  lemma AddBoth<E>(a: multiset<E>, b: multiset<E>, x: multiset<E>, y: multiset<E>, z: multiset<E>)
    requires a + x == b + y
    ensures (a + z) + x == (b + z) + y
  {
    assert (a + z) + x == (a + x) + z;
    assert (b + z) + y == (b + y) + z;
  }

  lemma {:induction false} RecentUpdate(collected: seq<bool>, recent: seq<bool>, i: nat, c: bool, r: bool)
    requires |collected| == |recent| && i < |collected|
    ensures RecentCount(collected[i := c], recent[i := r]) + (if !collected[i] && recent[i] then 1 else 0)
            == RecentCount(collected, recent) + (if !c && r then 1 else 0)
  {
    var n := |collected| - 1;
    if i < n {
      RecentUpdate(collected[..n], recent[..n], i, c, r);
      assert collected[i := c][..n] == collected[..n][i := c];
      assert recent[i := r][..n] == recent[..n][i := r];
    } else {
      assert collected[i := c][..n] == collected[..n];
      assert recent[i := r][..n] == recent[..n];
    }
  }

  // ----- The invariant of the table

  /** Every element is at one of its own positions; unset slots hold the default element and are discarded. */
  predicate Placed<E(==)>(f: Hash<E>, default: E, t: Table<E>)
    requires Shaped(t)
  {
    forall i :: 0 <= i < |t.elems| ==>
      i in Locs(f, |t.elems|, t.elems[i]) || (t.elems[i] == default && t.collected[i])
  }

  /** Only the default element may occur twice. */
  predicate Distinct<E(==)>(default: E, elems: seq<E>)
  {
    forall i, j :: 0 <= i < j < |elems| && elems[i] == elems[j] ==> elems[i] == default
  }

  predicate TableOk<E(==)>(f: Hash<E>, default: E, t: Table<E>)
  {
    Shaped(t) && Placed(f, default, t) && Distinct(default, t.elems)
  }

  // ----- Insertion

  /** The first of the positions from k on that satisfies the test, or WAYS. */
  function FirstHolding<E(==)>(t: Table<E>, locs: seq<nat>, e: E, k: nat): (r: nat)
    requires |locs| == WAYS && k <= WAYS && forall j :: 0 <= j < WAYS ==> locs[j] < |t.elems|
    ensures k <= r <= WAYS
    ensures r < WAYS ==> t.elems[locs[r]] == e
    ensures forall j :: k <= j < r ==> t.elems[locs[j]] != e
    decreases WAYS - k
  {
    if k == WAYS || t.elems[locs[k]] == e then k else FirstHolding(t, locs, e, k + 1)
  }

  function FirstFree<E>(t: Table<E>, locs: seq<nat>, k: nat): (r: nat)
    requires |locs| == WAYS && k <= WAYS && forall j :: 0 <= j < WAYS ==> locs[j] < |t.collected|
    ensures k <= r <= WAYS
    ensures r < WAYS ==> t.collected[locs[r]]
    ensures forall j :: k <= j < r ==> !t.collected[locs[j]]
    decreases WAYS - k
  {
    if k == WAYS || t.collected[locs[k]] then k else FirstFree(t, locs, k + 1)
  }

  /** Where a location first occurs among the positions, or WAYS. */
  function IndexOf(locs: seq<nat>, l: int, k: nat): (r: nat)
    requires |locs| == WAYS && k <= WAYS
    ensures k <= r <= WAYS
    decreases WAYS - k
  {
    if k == WAYS || locs[k] == l then k else IndexOf(locs, l, k + 1)
  }

  /** The position to evict from: the one after the last location looked at. */
  function Victim(locs: seq<nat>, last: int): (v: nat)
    requires |locs| == WAYS
    ensures v in locs
  {
    locs[(1 + IndexOf(locs, last, 0)) % 8]
  }

  /**
   A chain of evictions moves on: from the position looked at last to the next of
   the eight, and from none to the second. So it does not move the element it just
   put in, unless two of the positions coincide.
   */
  lemma VictimNext(locs: seq<nat>, last: int)
    requires |locs| == WAYS
    ensures last !in locs ==> Victim(locs, last) == locs[1]
    ensures forall j :: 0 <= j < 8 && locs[j] == last && last !in locs[..j] ==> Victim(locs, last) == locs[if j == 7 then 0 else j + 1]
    ensures (forall i, j :: 0 <= i < j < 8 ==> locs[i] != locs[j]) ==> Victim(locs, last) != last
  {
    IndexFirst(locs, last, 0);
  }

  lemma {:induction false} IndexFirst(locs: seq<nat>, l: int, k: nat)
    requires |locs| == WAYS && k <= WAYS
    ensures var r := IndexOf(locs, l, k);
            (r < WAYS ==> locs[r] == l) && forall j :: k <= j < r ==> locs[j] != l
    decreases WAYS - k
  {
    if k < WAYS && locs[k] != l {
      IndexFirst(locs, l, k + 1);
    }
  }

  /** Put an element into a slot as one to keep. */
  function Put<E>(t: Table<E>, l: nat, e: E, epoch: bool): Table<E>
    requires Shaped(t) && l < |t.elems|
  {
    Table(t.elems[l := e], t.collected[l := false], t.recent[l := epoch])
  }

  datatype Inserted<E> = Stored(t: Table<E>) | Dropped(t: Table<E>, lost: E)

  /** Place e, evicting along a chain of at most `depth` elements. */
  function Displace<E>(f: Hash<E>, t: Table<E>, e: E, last: int, epoch: bool, depth: nat): Inserted<E>
    requires Shaped(t)
    decreases depth
  {
    if depth == 0 then Dropped(t, e)
    else
      var locs := Locs(f, |t.elems|, e);
      var k := FirstFree(t, locs, 0);
      if k < WAYS then Stored(Put(t, locs[k], e, epoch))
      else
        var v := Victim(locs, last);
        Displace(f, t.(elems := t.elems[v := e], recent := t.recent[v := epoch]), t.elems[v], v, t.recent[v], depth - 1)
  }

  function Insert<E(==)>(f: Hash<E>, t: Table<E>, e: E, depth: nat): Inserted<E>
    requires Shaped(t)
  {
    var locs := Locs(f, |t.elems|, e);
    var k := FirstHolding(t, locs, e, 0);
    if k < WAYS then Stored(t.(collected := t.collected[locs[k] := false], recent := t.recent[locs[k] := true]))
    else Displace(f, t, e, -1, true, depth)
  }

  // ----- Insertion keeps the table in order

  lemma PutOk<E>(f: Hash<E>, default: E, t: Table<E>, l: nat, e: E, epoch: bool, keep: bool)
    requires TableOk(f, default, t) && l < |t.elems| && l in Locs(f, |t.elems|, e)
    requires e == default || e !in t.elems
    ensures TableOk(f, default, Table(t.elems[l := e], t.collected[l := !keep], t.recent[l := epoch]))
  {
  }

  /** What is in hand does not occur in the table, unless it is the default element. */
  lemma {:induction false} DisplaceOk<E>(f: Hash<E>, default: E, t: Table<E>, e: E, last: int, epoch: bool, depth: nat)
    requires TableOk(f, default, t) && (e == default || e !in t.elems)
    ensures TableOk(f, default, Displace(f, t, e, last, epoch, depth).t)
    ensures |Displace(f, t, e, last, epoch, depth).t.elems| == |t.elems|
    decreases depth
  {
    hide Placed, Distinct, Locs, FirstFree, Victim;
    if depth > 0 {
      var locs := Locs(f, |t.elems|, e);
      var k := FirstFree(t, locs, 0);
      if k < WAYS {
        PutOk(f, default, t, locs[k], e, epoch, true);
      } else {
        var v := Victim(locs, last);
        assert !t.collected[v];
        var t' := t.(elems := t.elems[v := e], recent := t.recent[v := epoch]);
        PutOk(f, default, t, v, e, epoch, true);
        assert t.collected[v := false] == t.collected;
        VictimAbsent(default, t.elems, v, e);
        DisplaceOk(f, default, t', t.elems[v], v, t.recent[v], depth - 1);
      }
    }
  }

  lemma VictimAbsent<E>(default: E, elems: seq<E>, v: nat, e: E)
    requires Distinct(default, elems) && v < |elems| && (e == default || e !in elems)
    ensures elems[v] == default || elems[v] !in elems[v := e]
  {
  }

  lemma InsertOk<E>(f: Hash<E>, default: E, t: Table<E>, e: E, depth: nat)
    requires TableOk(f, default, t)
    ensures TableOk(f, default, Insert(f, t, e, depth).t)
    ensures |Insert(f, t, e, depth).t.elems| == |t.elems|
  {
    var locs := Locs(f, |t.elems|, e);
    if FirstHolding(t, locs, e, 0) == WAYS {
      forall i | 0 <= i < |t.elems| ensures e == default || t.elems[i] != e {
        assert i in locs ==> t.elems[i] != e;
      }
      DisplaceOk(f, default, t, e, -1, true, depth);
    }
  }

  /** Eviction moves elements with their epochs; at most the one in hand at the end is lost. */
  lemma {:induction false} DisplaceConserves<E>(f: Hash<E>, t: Table<E>, e: E, last: int, epoch: bool, depth: nat)
    requires Shaped(t)
    ensures var r := Displace(f, t, e, last, epoch, depth);
            && Shaped(r.t)
            && Live(t.elems, t.collected) + multiset{e}
               == Live(r.t.elems, r.t.collected) + (if r.Dropped? then multiset{r.lost} else multiset{})
            && RecentCount(r.t.collected, r.t.recent) <= RecentCount(t.collected, t.recent) + (if epoch then 1 else 0)
    decreases depth
  {
    hide Live, RecentCount, Locs, FirstFree, Victim;
    if depth > 0 {
      var locs := Locs(f, |t.elems|, e);
      var k := FirstFree(t, locs, 0);
      if k < WAYS {
        LiveUpdate(t.elems, t.collected, locs[k], e, false);
        RecentUpdate(t.collected, t.recent, locs[k], false, epoch);
      } else {
        var v := Victim(locs, last);
        assert !t.collected[v];
        assert t.collected[v := false] == t.collected;
        LiveUpdate(t.elems, t.collected, v, e, false);
        RecentUpdate(t.collected, t.recent, v, false, epoch);
        var t' := t.(elems := t.elems[v := e], recent := t.recent[v := epoch]);
        DisplaceConserves(f, t', t.elems[v], v, t.recent[v], depth - 1);
      }
    }
  }

  /**
   What an insertion does to the live elements: the new element is added, unless
   it was live already, and at most one element is lost.  At most one more live
   slot belongs to the current epoch.
   */
  lemma InsertConserves<E>(f: Hash<E>, t: Table<E>, e: E, depth: nat)
    requires Shaped(t)
    ensures var r := Insert(f, t, e, depth);
            && Shaped(r.t)
            && (Live(r.t.elems, r.t.collected) + (if r.Dropped? then multiset{r.lost} else multiset{})
                == Live(t.elems, t.collected) + multiset{e}
                || (r.Stored? && r.t.elems == t.elems && e in Live(t.elems, t.collected)
                    && Live(r.t.elems, r.t.collected) == Live(t.elems, t.collected)))
            && RecentCount(r.t.collected, r.t.recent) <= RecentCount(t.collected, t.recent) + 1
  {
    hide Live, RecentCount, Locs;
    var locs := Locs(f, |t.elems|, e);
    var k := FirstHolding(t, locs, e, 0);
    if k < WAYS {
      var l := locs[k];
      assert t.elems[l := e] == t.elems;
      LiveUpdate(t.elems, t.collected, l, e, false);
      RecentUpdate(t.collected, t.recent, l, false, true);
      if t.collected[l] {
        assert Live(t.elems, t.collected[l := false]) + multiset{} == Live(t.elems, t.collected[l := false]);
      } else {
        assert t.collected[l := false] == t.collected;
        LiveHas(t.elems, t.collected, l);
      }
    } else {
      DisplaceConserves(f, t, e, -1, true, depth);
      var r := Displace(f, t, e, -1, true, depth);
      assert Live(r.t.elems, r.t.collected) + multiset{} == Live(r.t.elems, r.t.collected);
    }
  }

  lemma {:induction false} LiveHas<E>(elems: seq<E>, collected: seq<bool>, i: nat)
    requires |elems| == |collected| && i < |elems| && !collected[i]
    ensures elems[i] in Live(elems, collected)
  {
    var n := |elems| - 1;
    if i < n {
      LiveHas(elems[..n], collected[..n], i);
    }
  }

  lemma {:induction false} LiveFrom<E>(elems: seq<E>, collected: seq<bool>, e: E) returns (i: nat)
    requires |elems| == |collected| && e in Live(elems, collected)
    ensures i < |elems| && !collected[i] && elems[i] == e
  {
    var n := |elems| - 1;
    if !collected[n] && elems[n] == e {
      i := n;
    } else {
      i := LiveFrom(elems[..n], collected[..n], e);
    }
  }

  // ----- Epochs

  /** Start a new epoch: discard what belongs to the old one, and demote the rest. */
  function Aged<E>(t: Table<E>): Table<E>
    requires Shaped(t)
  {
    t.(collected := seq(|t.elems|, i requires 0 <= i < |t.elems| => t.collected[i] || !t.recent[i]),
       recent := seq(|t.elems|, i requires 0 <= i < |t.elems| => false))
  }

  function Max(a: int, b: int): int { if a < b then b else a }

  /** The table with the size of an epoch and the number of insertions until the next scan. */
  datatype State<E> = State(t: Table<E>, epochSize: nat, counter: nat)

  function EpochCheck<E>(s: State<E>): State<E>
    requires Shaped(s.t)
  {
    if s.counter != 0 then s.(counter := s.counter - 1)
    else
      var count := RecentCount(s.t.collected, s.t.recent);
      if count >= s.epochSize then State(Aged(s.t), s.epochSize, s.epochSize)
      else s.(counter := Max(1, Max(s.epochSize / 16, s.epochSize - count)))
  }

  /** The current epoch never holds much more than its size before the next scan. */
  predicate EpochBound<E>(s: State<E>)
    requires Shaped(s.t)
  {
    RecentCount(s.t.collected, s.t.recent) + s.counter <= s.epochSize + Max(1, s.epochSize / 16)
  }

  lemma {:induction false} NoneRecent(collected: seq<bool>, recent: seq<bool>)
    requires |collected| == |recent| && forall i :: 0 <= i < |recent| ==> !recent[i]
    ensures RecentCount(collected, recent) == 0
  {
    if collected != [] {
      var n := |collected| - 1;
      NoneRecent(collected[..n], recent[..n]);
    }
  }

  /** After the check there is room under the bound for one more element of the current epoch. */
  lemma EpochCheckLeavesRoom<E>(s: State<E>)
    requires Shaped(s.t) && EpochBound(s) && s.epochSize >= 1
    ensures var r := EpochCheck(s);
            && Shaped(r.t) && r.t.elems == s.t.elems && r.epochSize == s.epochSize
            && RecentCount(r.t.collected, r.t.recent) + 1 + r.counter <= s.epochSize + Max(1, s.epochSize / 16)
            && (forall i :: 0 <= i < |s.t.elems| && s.t.collected[i] ==> r.t.collected[i])
  {
    if s.counter == 0 && RecentCount(s.t.collected, s.t.recent) >= s.epochSize {
      NoneRecent(Aged(s.t).collected, Aged(s.t).recent);
    }
  }

  lemma EpochCheckOk<E>(f: Hash<E>, default: E, s: State<E>)
    requires TableOk(f, default, s.t)
    ensures TableOk(f, default, EpochCheck(s).t)
  {
  }

  /** One whole insertion: the epoch check, then the displacement. */
  function InsertStep<E(==)>(f: Hash<E>, s: State<E>, e: E, depth: nat): State<E>
    requires Shaped(s.t)
  {
    var c := EpochCheck(s);
    c.(t := Insert(f, c.t, e, depth).t)
  }

  /** Insertion keeps every invariant of the cache. */
  lemma InsertStepKeeps<E>(f: Hash<E>, default: E, s: State<E>, e: E, depth: nat)
    requires TableOk(f, default, s.t) && EpochBound(s) && s.epochSize >= 1
    ensures var r := InsertStep(f, s, e, depth);
            TableOk(f, default, r.t) && EpochBound(r) && r.epochSize == s.epochSize
  {
    hide Insert, Placed, Distinct, RecentCount, Live, EpochCheck;
    EpochCheckLeavesRoom(s);
    EpochCheckOk(f, default, s);
    InsertOk(f, default, EpochCheck(s).t, e, depth);
    InsertConserves(f, EpochCheck(s).t, e, depth);
  }

  function Contains<E(==)>(f: Hash<E>, t: Table<E>, e: E): bool
    requires Shaped(t)
  {
    FirstHolding(t, Locs(f, |t.elems|, e), e, 0) < WAYS
  }

  /** A lookup succeeds exactly when one of the element's own eight slots holds it. */
  lemma ContainsExactly<E>(f: Hash<E>, t: Table<E>, e: E)
    requires Shaped(t)
    ensures Contains(f, t, e) <==> exists k :: 0 <= k < 8 && t.elems[Loc(f, |t.elems|, e, k)] == e
  {
    hide Loc;
    var locs := Locs(f, |t.elems|, e);
    var k := FirstHolding(t, locs, e, 0);
    if k < WAYS {
      assert locs[k] == Loc(f, |t.elems|, e, k);
    }
    forall j | 0 <= j < 8 && t.elems[Loc(f, |t.elems|, e, j)] == e ensures k < WAYS {
      assert locs[j] == Loc(f, |t.elems|, e, j);
    }
  }

  /** Mark an element as discardable if it is there. */
  function Erase<E(==)>(f: Hash<E>, t: Table<E>, e: E): Table<E>
    requires Shaped(t)
  {
    var locs := Locs(f, |t.elems|, e);
    var k := FirstHolding(t, locs, e, 0);
    if k < WAYS then t.(collected := t.collected[locs[k] := true]) else t
  }

  /** Every live element is found; a lookup can miss nothing that was not lost. */
  lemma LiveContained<E>(f: Hash<E>, default: E, t: Table<E>, e: E)
    requires TableOk(f, default, t) && e in Live(t.elems, t.collected)
    ensures Contains(f, t, e)
  {
    var i := LiveFrom(t.elems, t.collected, e);
    var locs := Locs(f, |t.elems|, e);
    assert i in locs;
    var j :| 0 <= j < WAYS && locs[j] == i;
  }

  /** An inserted element is found afterwards unless it was itself the one lost. */
  lemma InsertedContained<E>(f: Hash<E>, default: E, t: Table<E>, e: E, depth: nat)
    requires TableOk(f, default, t)
    ensures var r := Insert(f, t, e, depth);
            Shaped(r.t) && (r.Stored? || r.lost != e ==> Contains(f, r.t, e))
  {
    hide Insert, Live, Placed, Distinct, Contains;
    InsertOk(f, default, t, e, depth);
    InsertConserves(f, t, e, depth);
    var r := Insert(f, t, e, depth);
    if r.Stored? || r.lost != e {
      assert e in Live(t.elems, t.collected) + multiset{e};
      assert e in Live(r.t.elems, r.t.collected);
      LiveContained(f, default, r.t, e);
    }
  }

  /** Erasing discards at most one copy, leaves the element findable, and keeps the invariants. */
  lemma EraseKeeps<E>(f: Hash<E>, default: E, s: State<E>, e: E)
    requires TableOk(f, default, s.t) && EpochBound(s)
    ensures var t := Erase(f, s.t, e);
            && TableOk(f, default, t) && EpochBound(s.(t := t))
            && Contains(f, t, e) == Contains(f, s.t, e)
            && (Live(t.elems, t.collected) == Live(s.t.elems, s.t.collected)
                || Live(t.elems, t.collected) + multiset{e} == Live(s.t.elems, s.t.collected))
  {
    hide Live, RecentCount, Locs, FirstHolding, Placed, Distinct;
    var t := s.t;
    var locs := Locs(f, |t.elems|, e);
    var k := FirstHolding(t, locs, e, 0);
    if k < WAYS {
      var l := locs[k];
      assert t.elems[l := e] == t.elems;
      LiveUpdate(t.elems, t.collected, l, e, true);
      assert t.recent[l := t.recent[l]] == t.recent;
      RecentUpdate(t.collected, t.recent, l, true, t.recent[l]);
      HoldingFrame(t, Erase(f, t, e), locs, e, 0);
      DiscardOk(f, default, t, l);
      var after := Live(t.elems, t.collected[l := true]);
      assert after + multiset{} == after;
      assert Live(t.elems, t.collected) + multiset{} == Live(t.elems, t.collected);
    }
  }

  lemma {:induction false} HoldingFrame<E>(t: Table<E>, u: Table<E>, locs: seq<nat>, e: E, k: nat)
    requires |locs| == WAYS && k <= WAYS && (forall j :: 0 <= j < WAYS ==> locs[j] < |t.elems|) && t.elems == u.elems
    ensures FirstHolding(t, locs, e, k) == FirstHolding(u, locs, e, k)
    decreases WAYS - k
  {
    if k < WAYS {
      HoldingFrame(t, u, locs, e, k + 1);
    }
  }

  lemma DiscardOk<E>(f: Hash<E>, default: E, t: Table<E>, l: nat)
    requires TableOk(f, default, t) && l < |t.elems|
    ensures TableOk(f, default, t.(collected := t.collected[l := true]))
  {
  }

  // ----- Whole runs

  datatype Op<E> = InsertOp(e: E, depth: nat) | EraseOp(e: E)

  function Apply<E(==)>(f: Hash<E>, s: State<E>, op: Op<E>): (r: State<E>)
    requires Shaped(s.t)
  {
    match op
    case InsertOp(e, depth) => InsertStep(f, s, e, depth)
    case EraseOp(e) => s.(t := Erase(f, s.t, e))
  }

  ghost function RunOf<E>(f: Hash<E>, default: E, s: State<E>, ops: seq<Op<E>>): State<E>
    requires TableOk(f, default, s.t) && EpochBound(s) && s.epochSize >= 1
    decreases |ops|
  {
    if ops == [] then s else ApplyKeeps(f, default, s, ops[0]); RunOf(f, default, Apply(f, s, ops[0]), ops[1..])
  }

  lemma ApplyKeeps<E>(f: Hash<E>, default: E, s: State<E>, op: Op<E>)
    requires TableOk(f, default, s.t) && EpochBound(s) && s.epochSize >= 1
    ensures var r := Apply(f, s, op);
            TableOk(f, default, r.t) && EpochBound(r) && r.epochSize == s.epochSize
  {
    hide TableOk, EpochBound, InsertStep, Erase, Live, Contains;
    match op
    case InsertOp(e, depth) => InsertStepKeeps(f, default, s, e, depth);
    case EraseOp(e) => EraseKeeps(f, default, s, e);
  }

  /** After any run of insertions and erasures every live element is found, and the epoch is bounded. */
  lemma {:induction false} RunKeeps<E>(f: Hash<E>, default: E, s: State<E>, ops: seq<Op<E>>)
    requires TableOk(f, default, s.t) && EpochBound(s) && s.epochSize >= 1
    ensures var r := RunOf(f, default, s, ops);
            && TableOk(f, default, r.t) && EpochBound(r) && r.epochSize == s.epochSize
            && forall e :: e in Live(r.t.elems, r.t.collected) ==> Contains(f, r.t, e)
    decreases |ops|
  {
    if ops == [] {
      forall e | e in Live(s.t.elems, s.t.collected) ensures Contains(f, s.t, e) {
        LiveContained(f, default, s.t, e);
      }
    } else {
      hide TableOk, EpochBound, Apply, Live, Contains;
      ApplyKeeps(f, default, s, ops[0]);
      RunKeeps(f, default, Apply(f, s, ops[0]), ops[1..]);
    }
  }

  // ----- The cache object

  class Cache<E(==)> {
    const f: Hash<E>
    ghost const default: E
    const size: nat
    const depthLimit: nat
    const epochSize: nat
    var table: seq<E>
    var collected: seq<bool>
    var recent: seq<bool>
    var counter: nat

    ghost function View(): State<E>
      reads this
    {
      State(Table(table, collected, recent), epochSize, counter)
    }

    ghost predicate Valid()
      reads this
    {
      size == |table| && epochSize >= 1 && TableOk(f, default, View().t) && EpochBound(View())
    }

    /** Set up for `newSize` elements; the epoch is 45 percent of the slots, in 32-bit arithmetic. */
    constructor (f: Hash<E>, default: E, newSize: nat, depthLimit: nat)
      ensures Valid() && size == (if newSize < 2 then 2 else newSize)
      ensures epochSize == Max(1, 45 * size % 0x1_0000_0000 / 100) && counter == epochSize
      ensures Live(table, collected) == multiset{} && forall i :: 0 <= i < size ==> table[i] == default
    {
      this.f, this.default, this.depthLimit := f, default, depthLimit;
      var n := if newSize < 2 then 2 else newSize;
      size := n;
      table := seq(n, _ => default);
      collected := seq(n, _ => true);
      recent := seq(n, _ => false);
      var part := 45 * n % 0x1_0000_0000 / 100;
      epochSize := if part < 1 then 1 else part;
      counter := if part < 1 then 1 else part;
      new;
      NoneRecent(collected, recent);
      NoneLive(table, collected);
    }

    method CheckEpoch()
      requires Valid()
      modifies this
      ensures View() == EpochCheck(old(View())) && size == |table|
    {
      hide Placed, Distinct, EpochBound, Locs;
      if counter != 0 {
        counter := counter - 1;
        return;
      }
      var count := 0;
      for i := 0 to size
        invariant count == RecentCount(collected[..i], recent[..i])
      {
        assert collected[..i + 1][..i] == collected[..i] && recent[..i + 1][..i] == recent[..i];
        count := count + (if recent[i] && !collected[i] then 1 else 0);
      }
      assert collected[..size] == collected && recent[..size] == recent;
      if count >= epochSize {
        AgeAll();
        counter := epochSize;
      } else {
        counter := Max(1, Max(epochSize / 16, epochSize - count));
      }
    }

    method AgeAll()
      requires Valid()
      modifies this`collected, this`recent
      ensures Table(table, collected, recent) == Aged(old(View()).t)
    {
      for i := 0 to size
        invariant |collected| == size && |recent| == size
        invariant forall j :: 0 <= j < size ==>
          && recent[j] == (if j < i then false else old(recent)[j])
          && collected[j] == (if j < i then old(collected)[j] || !old(recent)[j] else old(collected)[j])
      {
        if recent[i] {
          recent := recent[i := false];
        } else {
          collected := collected[i := true];
        }
      }
    }

    method InsertElement(e: E)
      requires Valid()
      modifies this
      ensures Valid() && View() == InsertStep(f, old(View()), e, depthLimit)
    {
      hide Placed, Distinct, RecentCount, EpochBound, Displace, Locs;
      InsertStepKeeps(f, default, View(), e, depthLimit);
      EpochCheckLeavesRoom(View());
      CheckEpoch();
      hide EpochCheck;
      var locs := Locs(f, size, e);
      var k := FirstHolding(Table(table, collected, recent), locs, e, 0);
      if k < WAYS {
        collected := collected[locs[k] := false];
        recent := recent[locs[k] := true];
        return;
      }
      DisplaceFrom(e);
    }

    /** The eviction loop. */
    method DisplaceFrom(e: E)
      requires Shaped(View().t) && |table| == size
      modifies this`table, this`collected, this`recent
      ensures View().t == Displace(f, old(View()).t, e, -1, true, depthLimit).t && |table| == size
    {
      hide Locs, FirstFree, Victim;
      ghost var goal := Displace(f, View().t, e, -1, true, depthLimit).t;
      var locs := Locs(f, size, e);
      var hand, last, epoch, depth := e, -1, true, 0;
      while depth < depthLimit
        invariant 0 <= depth <= depthLimit && Shaped(View().t) && |table| == size
        invariant locs == Locs(f, size, hand)
        invariant Displace(f, View().t, hand, last, epoch, depthLimit - depth).t == goal
      {
        var free := FirstFree(Table(table, collected, recent), locs, 0);
        if free < WAYS {
          table := table[locs[free] := hand];
          collected := collected[locs[free] := false];
          recent := recent[locs[free] := epoch];
          return;
        }
        last := Victim(locs, last);
        var evicted, evictedEpoch := table[last], recent[last];
        table := table[last := hand];
        recent := recent[last := epoch];
        hand, epoch := evicted, evictedEpoch;
        locs := Locs(f, size, hand);
        depth := depth + 1;
      }
    }

    method ContainsElement(e: E, erase: bool) returns (found: bool)
      requires Valid()
      modifies this`collected
      ensures Valid() && found == Contains(f, old(View()).t, e)
      ensures found <==> exists k :: 0 <= k < 8 && table[Loc(f, size, e, k)] == e
      ensures View().t == if erase then Erase(f, old(View()).t, e) else old(View()).t
    {
      hide Placed, Distinct, Live, RecentCount;
      EraseKeeps(f, default, View(), e);
      ContainsExactly(f, View().t, e);
      var locs := Locs(f, size, e);
      var k := FirstHolding(Table(table, collected, recent), locs, e, 0);
      if k < WAYS {
        if erase {
          collected := collected[locs[k] := true];
        }
        return true;
      }
      return false;
    }
  }

  lemma {:induction false} NoneLive<E>(elems: seq<E>, collected: seq<bool>)
    requires |elems| == |collected| && forall i :: 0 <= i < |elems| ==> collected[i]
    ensures Live(elems, collected) == multiset{}
  {
    if elems != [] {
      var n := |elems| - 1;
      NoneLive(elems[..n], collected[..n]);
    }
  }
}
