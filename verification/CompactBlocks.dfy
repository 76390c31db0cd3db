/**
 Rebuilding a block from its compact form: prefilled transactions at coded
 positions, short ids for the rest, and what the memory pool has to offer.
 */
module CompactBlocks {

  import opened IndexCoding

  // Positions are 16-bit numbers.
  const MAX_POSITIONS := 0x1_0000

  // ----- Slots

  /** The empty positions below n, in order. */
  function HolesTo<T>(avail: seq<Option<T>>, n: nat): (h: seq<nat>)
    requires n <= |avail|
    ensures |h| <= n
    ensures forall i :: 0 <= i < |h| ==> h[i] < n && avail[h[i]].None?
    ensures forall i, j :: 0 <= i < j < |h| ==> h[i] < h[j]
  {
    if n == 0 then [] else HolesTo(avail, n - 1) + if avail[n - 1].None? then [n - 1] else []
  }

  function Holes<T>(avail: seq<Option<T>>): seq<nat>
  {
    HolesTo(avail, |avail|)
  }

  /** Every empty position is listed. */
  lemma {:induction false} HoleListed<T>(avail: seq<Option<T>>, n: nat, p: nat)
    requires p < n <= |avail| && avail[p].None?
    ensures p in HolesTo(avail, n)
  {
    if p == n - 1 {
      assert HolesTo(avail, n)[|HolesTo(avail, n)| - 1] == p;
    } else {
      HoleListed(avail, n - 1, p);
    }
  }

  lemma {:induction false} HolesPrefix<T>(avail: seq<Option<T>>, n: nat, m: nat)
    requires n <= m <= |avail|
    ensures HolesTo(avail, n) <= HolesTo(avail, m) && |HolesTo(avail, m)| - |HolesTo(avail, n)| <= m - n
  {
    if n < m {
      HolesPrefix(avail, n, m - 1);
    }
  }

  /** The holes below n depend on what is below n only. */
  lemma {:induction false} HolesSame<T>(a: seq<Option<T>>, b: seq<Option<T>>, n: nat)
    requires n <= |a| && n <= |b| && (forall i :: 0 <= i < n ==> a[i] == b[i])
    ensures HolesTo(a, n) == HolesTo(b, n)
  {
    if n > 0 {
      HolesSame(a, b, n - 1);
    }
  }

  /** Filling a hole leaves one hole less. */
  lemma {:induction false} FillOne<T>(avail: seq<Option<T>>, p: nat, t: T, n: nat)
    requires p < n <= |avail| && avail[p].None?
    ensures |HolesTo(avail[p := Some(t)], n)| == |HolesTo(avail, n)| - 1
  {
    if p == n - 1 {
      HolesSame(avail, avail[p := Some(t)], n - 1);
    } else {
      FillOne(avail, p, t, n - 1);
    }
  }

  lemma {:induction false} AllHoles<T>(avail: seq<Option<T>>, n: nat)
    requires n <= |avail| && forall i :: 0 <= i < n ==> avail[i].None?
    ensures |HolesTo(avail, n)| == n
  {
    if n > 0 {
      AllHoles(avail, n - 1);
    }
  }

  // ----- Prefilled transactions

  datatype Prefilled<T> = Prefilled(index: nat, tx: T)

  /** Each index counts from the position after the one before. */
  function Position<T>(pre: seq<Prefilled<T>>, i: nat): nat
    requires i < |pre|
  {
    if i == 0 then pre[0].index else Position(pre, i - 1) + pre[i].index + 1
  }

  lemma {:induction false} PositionsIncrease<T>(pre: seq<Prefilled<T>>, i: nat, j: nat)
    requires i < j < |pre|
    ensures Position(pre, i) < Position(pre, j)
  {
    if i < j - 1 {
      PositionsIncrease(pre, i, j - 1);
    }
  }

  /** The check each prefilled transaction has to pass. */
  predicate EntryOk<T>(isNull: T -> bool, pre: seq<Prefilled<T>>, shorts: nat, i: nat)
    requires i < |pre|
  {
    !isNull(pre[i].tx) && Position(pre, i) < MAX_POSITIONS && Position(pre, i) <= shorts + i
  }

  predicate EntriesOk<T>(isNull: T -> bool, pre: seq<Prefilled<T>>, shorts: nat)
  {
    forall i :: 0 <= i < |pre| ==> EntryOk(isNull, pre, shorts, i)
  }

  /** The first n prefilled transactions are in their places, and nothing else is. */
  ghost predicate Placed<T>(avail: seq<Option<T>>, pre: seq<Prefilled<T>>, n: nat)
    requires n <= |pre|
  {
    && (forall i :: 0 <= i < n ==> Position(pre, i) < |avail| && avail[Position(pre, i)] == Some(pre[i].tx))
    && (forall p :: 0 <= p < |avail| && avail[p].Some? ==> exists i :: 0 <= i < n && Position(pre, i) == p)
    && |Holes(avail)| == |avail| - n
  }

  lemma {:induction false} PlaceNext<T>(avail: seq<Option<T>>, pre: seq<Prefilled<T>>, n: nat)
    requires n < |pre| && Placed(avail, pre, n) && Position(pre, n) < |avail|
    ensures Placed(avail[Position(pre, n) := Some(pre[n].tx)], pre, n + 1)
  {
    var p := Position(pre, n);
    var after := avail[p := Some(pre[n].tx)];
    forall i | 0 <= i < n ensures Position(pre, i) != p {
      PositionsIncrease(pre, i, n);
    }
    FillOne(avail, p, pre[n].tx, |avail|);
    forall q | 0 <= q < |after| && after[q].Some? ensures exists i :: 0 <= i < n + 1 && Position(pre, i) == q {
      if q == p {
        assert Position(pre, n) == q;
      } else {
        var i :| 0 <= i < n && Position(pre, i) == q;
      }
    }
  }

  method Prefill<T>(isNull: T -> bool, pre: seq<Prefilled<T>>, shorts: nat)
    returns (ok: bool, avail: seq<Option<T>>, ghost done: nat)
    ensures |avail| == shorts + |pre| && done <= |pre| && Placed(avail, pre, done)
    ensures ok <==> EntriesOk(isNull, pre, shorts)
    ensures ok ==> done == |pre|
  {
    hide Placed;
    avail := seq(shorts + |pre|, _ => None);
    PlacedNone(avail, pre);
    var last := -1;
    done := 0;
    for i := 0 to |pre|
      invariant |avail| == shorts + |pre| && done == i && Placed(avail, pre, i)
      invariant last == if i == 0 then -1 else Position(pre, i - 1)
      invariant forall k :: 0 <= k < i ==> EntryOk(isNull, pre, shorts, k)
    {
      if isNull(pre[i].tx) {
        assert !EntryOk(isNull, pre, shorts, i);
        return false, avail, done;
      }
      last := last + pre[i].index + 1;
      if last > 0xffff {
        assert !EntryOk(isNull, pre, shorts, i);
        return false, avail, done;
      }
      if last > shorts + i {
        assert !EntryOk(isNull, pre, shorts, i);
        return false, avail, done;
      }
      PlaceNext(avail, pre, i);
      avail := avail[last := Some(pre[i].tx)];
      done := i + 1;
    }
    ok := true;
  }

  lemma PlacedNone<T>(avail: seq<Option<T>>, pre: seq<Prefilled<T>>)
    requires forall i :: 0 <= i < |avail| ==> avail[i].None?
    ensures Placed(avail, pre, 0)
  {
    AllHoles(avail, |avail|);
  }

  // ----- Short ids and the slots they stand for

  predicate DistinctTo(shorts: seq<nat>, i: nat)
    requires i <= |shorts|
  {
    forall j, k :: 0 <= j < k < i ==> shorts[j] != shorts[k]
  }

  /** Each short id among the first i names the hole of the same rank, if no two are equal. */
  ghost predicate Ranked(shorts: seq<nat>, ids: map<nat, nat>, slots: seq<nat>, i: nat)
  {
    && i <= |shorts| && i <= |slots| && |ids| <= i
    && (DistinctTo(shorts, i) <==> |ids| == i) && (forall j :: 0 <= j < i ==> shorts[j] in ids)
    && (|ids| == i ==> forall j :: 0 <= j < i ==> shorts[j] in ids && ids[shorts[j]] == slots[j])
    && (forall k <- ids :: exists j :: 0 <= j < i && shorts[j] == k && ids[k] == slots[j])
  }

  lemma RankNext(shorts: seq<nat>, ids: map<nat, nat>, slots: seq<nat>, i: nat)
    requires Ranked(shorts, ids, slots, i) && i < |shorts| && i < |slots|
    ensures Ranked(shorts, ids[shorts[i] := slots[i]], slots, i + 1)
  {
    SizeAfter(ids, shorts[i], slots[i]);
    DistinctNext(shorts, ids, slots, i);
    hide DistinctTo;
    var after := ids[shorts[i] := slots[i]];
    forall k <- after ensures exists j :: 0 <= j < i + 1 && shorts[j] == k && after[k] == slots[j] {
      KeyNext(shorts, ids, slots, i, k);
    }
  }

  lemma DistinctNext(shorts: seq<nat>, ids: map<nat, nat>, slots: seq<nat>, i: nat)
    requires Ranked(shorts, ids, slots, i) && i < |shorts|
    ensures DistinctTo(shorts, i + 1) <==> DistinctTo(shorts, i) && shorts[i] !in ids
  {
    if shorts[i] in ids {
      var j :| 0 <= j < i && shorts[j] == shorts[i] && ids[shorts[i]] == slots[j];
    }
  }

  lemma KeyNext(shorts: seq<nat>, ids: map<nat, nat>, slots: seq<nat>, i: nat, k: nat)
    requires Ranked(shorts, ids, slots, i) && i < |shorts| && i < |slots| && k in ids[shorts[i] := slots[i]]
    ensures exists j :: 0 <= j < i + 1 && shorts[j] == k && ids[shorts[i] := slots[i]][k] == slots[j]
  {
    var after := ids[shorts[i] := slots[i]];
    if k == shorts[i] {
      assert shorts[i] == k && after[k] == slots[i];
    } else {
      var j :| 0 <= j < i && shorts[j] == k && ids[k] == slots[j];
      assert after[k] == slots[j];
    }
  }

  lemma SizeAfter(ids: map<nat, nat>, k: nat, v: nat)
    ensures |ids[k := v]| == if k in ids then |ids| else |ids| + 1
  {
    var after := ids[k := v];
    assert after.Keys == ids.Keys + {k};
    assert |after| == |after.Keys| && |ids| == |ids.Keys|;
  }

  datatype Mapping = Crowded | Mapped(ids: map<nat, nat>)

  /** Position s has exactly i holes below it. */
  ghost predicate Cursor<T>(avail: seq<Option<T>>, i: nat, s: nat)
  {
    s <= |avail| && i <= |Holes(avail)| && HolesTo(avail, s) == Holes(avail)[..i]
  }

  lemma CursorStep<T>(avail: seq<Option<T>>, i: nat, s: nat)
    requires Cursor(avail, i, s) && i < |Holes(avail)|
    ensures s < |avail|
    ensures avail[s].Some? ==> Cursor(avail, i, s + 1)
    ensures avail[s].None? ==> Holes(avail)[i] == s && Cursor(avail, i + 1, s + 1)
  {
    HolesPrefix(avail, s, |avail|);
    if s < |avail| {
      HolesPrefix(avail, s + 1, |avail|);
    }
  }

  lemma CursorBelow<T>(avail: seq<Option<T>>, i: nat, s: nat)
    requires Cursor(avail, i, s) && i < |Holes(avail)|
    ensures s <= Holes(avail)[i]
  {
    if Holes(avail)[i] < s {
      HoleListed(avail, s, Holes(avail)[i]);
      assert false;
    }
  }

  /** Positions as they are stored, in 16 bits. */
  function Wrapped(slots: seq<nat>): (r: seq<nat>)
    ensures |r| == |slots| && forall k :: 0 <= k < |r| ==> r[k] == slots[k] % MAX_POSITIONS
  {
    seq(|slots|, k requires 0 <= k < |slots| => slots[k] % MAX_POSITIONS)
  }

  /** From each short id the search for its empty slot gets there within 16 bits. */
  predicate WithinReach(slots: seq<nat>)
  {
    forall i :: 0 <= i < |slots| ==> slots[i] - i < MAX_POSITIONS
  }

  /** The offset of the next empty slot. */
  method NextHole<T>(avail: seq<Option<T>>, i: nat, start: nat) returns (offset: nat)
    requires Cursor(avail, i, i + start) && i < |Holes(avail)| && Holes(avail)[i] - i < MAX_POSITIONS
    ensures Holes(avail)[i] == i + offset < |avail| && Cursor(avail, i + 1, i + offset + 1)
  {
    hide Cursor, HolesTo, Holes;
    offset := start;
    CursorStep(avail, i, i + offset);
    while avail[i + offset].Some?
      invariant i + offset < |avail| && Cursor(avail, i, i + offset)
      decreases |avail| - offset
    {
      CursorStep(avail, i, i + offset);
      CursorStep(avail, i, i + offset + 1);
      CursorBelow(avail, i, i + offset + 1);
      offset := (offset + 1) % MAX_POSITIONS;
    }
    CursorStep(avail, i, i + offset);
  }

  /**
   Walks over the short ids and the empty slots side by side.  A bucket of the
   hash table may turn out too full at any of the ids in `crowded`.
   */
  method MapShortIds<T>(avail: seq<Option<T>>, shorts: seq<nat>, crowded: set<nat>) returns (m: Mapping)
    requires |Holes(avail)| == |shorts| && WithinReach(Holes(avail))
    ensures m.Crowded? <==> exists i :: 0 <= i < |shorts| && i in crowded
    ensures m.Mapped? ==> Ranked(shorts, m.ids, Wrapped(Holes(avail)), |shorts|)
  {
    hide Ranked, Cursor, HolesTo, Holes, Wrapped;
    ghost var slots := Wrapped(Holes(avail));
    var ids: map<nat, nat> := map[];
    var offset: nat := 0;
    RankStart(shorts, slots);
    CursorStart(avail);
    for i := 0 to |shorts|
      invariant Cursor(avail, i, i + offset)
      invariant Ranked(shorts, ids, slots, i)
      invariant forall k :: 0 <= k < i ==> k !in crowded
    {
      offset := NextHole(avail, i, offset);
      RankNext(shorts, ids, slots, i);
      ids := ids[shorts[i] := (i + offset) % MAX_POSITIONS];
      if i in crowded {
        return Crowded;
      }
    }
    return Mapped(ids);
  }

  lemma CursorStart<T>(avail: seq<Option<T>>)
    ensures Cursor(avail, 0, 0)
  {
  }

  lemma RankStart(shorts: seq<nat>, slots: seq<nat>)
    ensures Ranked(shorts, map[], slots, 0)
  {
  }

  // ----- Looking for the other transactions

  /** A transaction at hand, under the hash its short id is made from. */
  datatype Candidate<T> = Candidate(id: nat, tx: T)

  predicate Hits<T>(ids: map<nat, nat>, shortId: nat -> nat, cands: seq<Candidate<T>>, k: nat, p: nat)
    requires k < |cands|
  {
    shortId(cands[k].id) in ids && ids[shortId(cands[k].id)] == p
  }

  /** The first of m candidates that hits slot p. */
  function FirstHit<T>(ids: map<nat, nat>, shortId: nat -> nat, cands: seq<Candidate<T>>, m: nat, p: nat): (r: Option<nat>)
    requires m <= |cands|
    ensures r.Some? ==> r.value < m && Hits(ids, shortId, cands, r.value, p)
    ensures forall k :: 0 <= k < m && Hits(ids, shortId, cands, k, p) ==> r.Some? && r.value <= k
  {
    if m == 0 then None
    else match FirstHit(ids, shortId, cands, m - 1, p)
      case Some(k) => Some(k)
      case None => if Hits(ids, shortId, cands, m - 1, p) then Some(m - 1) else None
  }

  /** Candidate k is the only one of m that hits slot p. */
  ghost predicate Only<T>(ids: map<nat, nat>, shortId: nat -> nat, cands: seq<Candidate<T>>, m: nat, p: nat, k: nat)
    requires m <= |cands|
  {
    forall j :: 0 <= j < m && Hits(ids, shortId, cands, j, p) ==> j == k
  }

  /** Slot p after m candidates of the pool: untouched if none hits it, filled if exactly one does, else emptied. */
  ghost predicate PoolSlot<T>(ids: map<nat, nat>, shortId: nat -> nat, cands: seq<Candidate<T>>, m: nat, p: nat,
                              tx0: Option<T>, tx: Option<T>, have: bool)
    requires m <= |cands|
  {
    var first := FirstHit(ids, shortId, cands, m, p);
    && have == first.Some?
    && tx == (if first.None? then tx0
              else if Only(ids, shortId, cands, m, p, first.value) then Some(cands[first.value].tx) else None)
  }

  lemma PoolSlotOther<T>(ids: map<nat, nat>, shortId: nat -> nat, cands: seq<Candidate<T>>, m: nat, p: nat,
                         tx0: Option<T>, tx: Option<T>, have: bool)
    requires m < |cands| && PoolSlot(ids, shortId, cands, m, p, tx0, tx, have) && !Hits(ids, shortId, cands, m, p)
    ensures PoolSlot(ids, shortId, cands, m + 1, p, tx0, tx, have)
  {
    var first := FirstHit(ids, shortId, cands, m, p);
    if first.Some? {
      assert Only(ids, shortId, cands, m, p, first.value) <==> Only(ids, shortId, cands, m + 1, p, first.value);
    }
  }

  lemma PoolSlotHit<T>(ids: map<nat, nat>, shortId: nat -> nat, cands: seq<Candidate<T>>, m: nat, p: nat,
                       tx0: Option<T>, tx: Option<T>, have: bool)
    requires m < |cands| && PoolSlot(ids, shortId, cands, m, p, tx0, tx, have) && Hits(ids, shortId, cands, m, p)
    ensures PoolSlot(ids, shortId, cands, m + 1, p, tx0, if have then None else Some(cands[m].tx), true)
  {
  }

  /** All candidates of m that hit slot p have the witness hash of t. */
  ghost predicate Agree<T>(ids: map<nat, nat>, shortId: nat -> nat, wtxid: T -> nat, cands: seq<Candidate<T>>, m: nat, p: nat, t: T)
    requires m <= |cands|
  {
    forall k :: 0 <= k < m && Hits(ids, shortId, cands, k, p) ==> wtxid(cands[k].tx) == wtxid(t)
  }

  /** What slot p would hold if all candidates for it agreed: what it held, or the first hit. */
  function Claim<T>(ids: map<nat, nat>, shortId: nat -> nat, cands: seq<Candidate<T>>, m: nat, p: nat,
                    tx0: Option<T>, have0: bool): Option<T>
    requires m <= |cands|
  {
    if have0 then tx0
    else match FirstHit(ids, shortId, cands, m, p)
      case Some(k) => Some(cands[k].tx)
      case None => None
  }

  /** Slot p after m extra candidates: it keeps its claim while all of them agree with it. */
  ghost predicate ExtraSlot<T>(ids: map<nat, nat>, shortId: nat -> nat, wtxid: T -> nat, cands: seq<Candidate<T>>, m: nat, p: nat,
                               tx0: Option<T>, have0: bool, tx: Option<T>, have: bool)
    requires m <= |cands|
  {
    var claim := Claim(ids, shortId, cands, m, p, tx0, have0);
    && have == (have0 || FirstHit(ids, shortId, cands, m, p).Some?)
    && tx == (if !have then tx0
              else if claim.Some? && Agree(ids, shortId, wtxid, cands, m, p, claim.value) then claim else None)
  }

  lemma ExtraSlotOther<T>(ids: map<nat, nat>, shortId: nat -> nat, wtxid: T -> nat, cands: seq<Candidate<T>>, m: nat, p: nat,
                          tx0: Option<T>, have0: bool, tx: Option<T>, have: bool)
    requires m < |cands| && ExtraSlot(ids, shortId, wtxid, cands, m, p, tx0, have0, tx, have) && !Hits(ids, shortId, cands, m, p)
    ensures ExtraSlot(ids, shortId, wtxid, cands, m + 1, p, tx0, have0, tx, have)
  {
    var claim := Claim(ids, shortId, cands, m, p, tx0, have0);
    if claim.Some? {
      assert Agree(ids, shortId, wtxid, cands, m, p, claim.value) <==> Agree(ids, shortId, wtxid, cands, m + 1, p, claim.value);
    }
  }

  lemma ExtraSlotHit<T>(ids: map<nat, nat>, shortId: nat -> nat, wtxid: T -> nat, cands: seq<Candidate<T>>, m: nat, p: nat,
                        tx0: Option<T>, have0: bool, tx: Option<T>, have: bool)
    requires m < |cands| && ExtraSlot(ids, shortId, wtxid, cands, m, p, tx0, have0, tx, have) && Hits(ids, shortId, cands, m, p)
    ensures ExtraSlot(ids, shortId, wtxid, cands, m + 1, p, tx0, have0,
                      if !have then Some(cands[m].tx)
                      else if tx.Some? && wtxid(tx.value) != wtxid(cands[m].tx) then None else tx,
                      true)
  {
    var claim := Claim(ids, shortId, cands, m + 1, p, tx0, have0);
    if claim.Some? {
      assert Agree(ids, shortId, wtxid, cands, m + 1, p, claim.value) <==>
             Agree(ids, shortId, wtxid, cands, m, p, claim.value) && wtxid(cands[m].tx) == wtxid(claim.value);
    }
  }

  /** The slots of short ids that were found and hold a transaction. */
  function Available<T>(avail: seq<Option<T>>, have: seq<bool>, ids: map<nat, nat>): set<nat>
  {
    set p | p in ids.Values && p < |avail| && p < |have| && have[p] && avail[p].Some?
  }

  predicate SlotsOk<T>(avail: seq<Option<T>>, have: seq<bool>, ids: map<nat, nat>)
  {
    |have| == |avail| && forall p <- ids.Values :: p < |avail|
  }

  /** The pool scan after m candidates; other slots are as they were. */
  ghost predicate PoolScanned<T>(ids: map<nat, nat>, shortId: nat -> nat, pool: seq<Candidate<T>>, m: nat,
                                 avail0: seq<Option<T>>, avail: seq<Option<T>>, have: seq<bool>, count: nat)
  {
    && |avail| == |avail0| && m <= |pool| && SlotsOk(avail, have, ids)
    && (forall p <- ids.Values :: PoolSlot(ids, shortId, pool, m, p, avail0[p], avail[p], have[p]))
    && (forall p :: 0 <= p < |avail| && p !in ids.Values ==> avail[p] == avail0[p])
    && count == |Available(avail, have, ids)|
  }

  lemma PoolMiss<T>(ids: map<nat, nat>, shortId: nat -> nat, pool: seq<Candidate<T>>, m: nat,
                    avail0: seq<Option<T>>, avail: seq<Option<T>>, have: seq<bool>, count: nat)
    requires PoolScanned(ids, shortId, pool, m, avail0, avail, have, count) && m < |pool| && shortId(pool[m].id) !in ids
    ensures PoolScanned(ids, shortId, pool, m + 1, avail0, avail, have, count)
  {
    hide PoolSlot;
    forall p <- ids.Values ensures PoolSlot(ids, shortId, pool, m + 1, p, avail0[p], avail[p], have[p]) {
      PoolSlotOther(ids, shortId, pool, m, p, avail0[p], avail[p], have[p]);
    }
  }

  lemma PoolHit<T>(ids: map<nat, nat>, shortId: nat -> nat, pool: seq<Candidate<T>>, m: nat, q: nat,
                   avail0: seq<Option<T>>, avail: seq<Option<T>>, have: seq<bool>, count: nat)
    requires PoolScanned(ids, shortId, pool, m, avail0, avail, have, count) && m < |pool|
    requires shortId(pool[m].id) in ids && ids[shortId(pool[m].id)] == q
    ensures q < |avail| && q < |have| && (have[q] && avail[q].Some? ==> count > 0)
    ensures PoolScanned(ids, shortId, pool, m + 1, avail0,
                        avail[q := if have[q] then None else Some(pool[m].tx)], have[q := true],
                        if !have[q] then count + 1 else if avail[q].Some? then count - 1 else count)
  {
    assert q in ids.Values;
    var tx := if have[q] then None else Some(pool[m].tx);
    var after := avail[q := tx];
    CountAfter(avail, have, ids, q, tx);
    hide PoolSlot;
    PoolSlotHit(ids, shortId, pool, m, q, avail0[q], avail[q], have[q]);
    forall p <- ids.Values ensures PoolSlot(ids, shortId, pool, m + 1, p, avail0[p], after[p], have[q := true][p]) {
      if p != q {
        PoolSlotOther(ids, shortId, pool, m, p, avail0[p], avail[p], have[p]);
      }
    }
  }

  /** Filling or emptying one slot changes the number of filled slots by one. */
  lemma CountAfter<T>(avail: seq<Option<T>>, have: seq<bool>, ids: map<nat, nat>, q: nat, tx: Option<T>)
    requires q in ids.Values && q < |avail| && q < |have|
    ensures |Available(avail[q := tx], have[q := true], ids)| ==
            |Available(avail, have, ids)| + (if tx.Some? then 1 else 0) - (if have[q] && avail[q].Some? then 1 else 0)
    ensures have[q] && avail[q].Some? ==> |Available(avail, have, ids)| > 0
  {
    AvailableAfter(avail, have, ids, q, tx);
    hide Available;
    var before := Available(avail, have, ids);
    assert q in before ==> |before| == |before - {q}| + 1;
  }

  lemma AvailableAfter<T>(avail: seq<Option<T>>, have: seq<bool>, ids: map<nat, nat>, q: nat, tx: Option<T>)
    requires q in ids.Values && q < |avail| && q < |have|
    ensures var before := Available(avail, have, ids);
            && (q in before <==> have[q] && avail[q].Some?)
            && Available(avail[q := tx], have[q := true], ids) == (if tx.Some? then before + {q} else before - {q})
            && (q in before ==> before + {q} == before)
            && (q !in before ==> before - {q} == before)
  {
  }

  /** Scans the memory pool until it ends or every slot is filled. */
  method ScanPool<T>(ids: map<nat, nat>, shortId: nat -> nat, pool: seq<Candidate<T>>, start: seq<Option<T>>)
    returns (avail: seq<Option<T>>, have: seq<bool>, count: nat, ghost m: nat)
    requires forall p <- ids.Values :: p < |start|
    ensures PoolScanned(ids, shortId, pool, m, start, avail, have, count)
    ensures m == |pool| || count == |ids|
  {
    hide PoolScanned;
    avail := start;
    have := seq(|start|, _ => false);
    count := 0;
    PoolStart(ids, shortId, pool, avail, have);
    m := 0;
    for i := 0 to |pool|
      invariant m == i && PoolScanned(ids, shortId, pool, i, start, avail, have, count)
    {
      var short := shortId(pool[i].id);
      if short in ids {
        var q := ids[short];
        PoolHit(ids, shortId, pool, i, q, start, avail, have, count);
        if !have[q] {
          avail := avail[q := Some(pool[i].tx)];
          have := have[q := true];
          count := count + 1;
        } else {
          assert have == have[q := true];
          if avail[q].Some? {
            avail := avail[q := None];
            count := count - 1;
          } else {
            assert avail == avail[q := None];
          }
        }
      } else {
        PoolMiss(ids, shortId, pool, i, start, avail, have, count);
      }
      m := i + 1;
      if count == |ids| {
        break;
      }
    }
  }

  lemma PoolStart<T>(ids: map<nat, nat>, shortId: nat -> nat, pool: seq<Candidate<T>>, avail: seq<Option<T>>, have: seq<bool>)
    requires |have| == |avail| && (forall p <- ids.Values :: p < |avail|)
    requires forall p :: 0 <= p < |have| ==> !have[p]
    ensures PoolScanned(ids, shortId, pool, 0, avail, avail, have, 0)
  {
    assert Available(avail, have, ids) == {};
  }

  /** The scan of the extra transactions after m of them. */
  ghost predicate ExtraScanned<T>(ids: map<nat, nat>, shortId: nat -> nat, wtxid: T -> nat, extra: seq<Candidate<T>>, m: nat,
                                  avail0: seq<Option<T>>, have0: seq<bool>, avail: seq<Option<T>>, have: seq<bool>, count: nat)
  {
    && |avail| == |avail0| && |have| == |have0| && m <= |extra| && SlotsOk(avail, have, ids)
    && (forall p <- ids.Values :: ExtraSlot(ids, shortId, wtxid, extra, m, p, avail0[p], have0[p], avail[p], have[p]))
    && (forall p :: 0 <= p < |avail| && p !in ids.Values ==> avail[p] == avail0[p])
    && count == |Available(avail, have, ids)|
  }

  lemma ExtraMiss<T>(ids: map<nat, nat>, shortId: nat -> nat, wtxid: T -> nat, extra: seq<Candidate<T>>, m: nat,
                     avail0: seq<Option<T>>, have0: seq<bool>, avail: seq<Option<T>>, have: seq<bool>, count: nat)
    requires ExtraScanned(ids, shortId, wtxid, extra, m, avail0, have0, avail, have, count)
    requires m < |extra| && shortId(extra[m].id) !in ids
    ensures ExtraScanned(ids, shortId, wtxid, extra, m + 1, avail0, have0, avail, have, count)
  {
    hide ExtraSlot;
    forall p <- ids.Values ensures ExtraSlot(ids, shortId, wtxid, extra, m + 1, p, avail0[p], have0[p], avail[p], have[p]) {
      ExtraSlotOther(ids, shortId, wtxid, extra, m, p, avail0[p], have0[p], avail[p], have[p]);
    }
  }

  /** A slot for the next extra transaction: first come, or emptied by one with another witness hash. */
  function Met<T>(wtxid: T -> nat, tx: Option<T>, have: bool, t: T): Option<T>
  {
    if !have then Some(t) else if tx.Some? && wtxid(tx.value) != wtxid(t) then None else tx
  }

  lemma ExtraHit<T>(ids: map<nat, nat>, shortId: nat -> nat, wtxid: T -> nat, extra: seq<Candidate<T>>, m: nat, q: nat,
                    avail0: seq<Option<T>>, have0: seq<bool>, avail: seq<Option<T>>, have: seq<bool>, count: nat)
    requires ExtraScanned(ids, shortId, wtxid, extra, m, avail0, have0, avail, have, count)
    requires m < |extra| && shortId(extra[m].id) in ids && ids[shortId(extra[m].id)] == q
    ensures q < |avail| && q < |have| && (have[q] && avail[q].Some? ==> count > 0)
    ensures var tx := Met(wtxid, avail[q], have[q], extra[m].tx);
            ExtraScanned(ids, shortId, wtxid, extra, m + 1, avail0, have0, avail[q := tx], have[q := true],
                         if !have[q] then count + 1 else if avail[q] != tx then count - 1 else count)
  {
    assert q in ids.Values;
    var tx := Met(wtxid, avail[q], have[q], extra[m].tx);
    var after := avail[q := tx];
    CountAfter(avail, have, ids, q, tx);
    hide ExtraSlot;
    ExtraSlotHit(ids, shortId, wtxid, extra, m, q, avail0[q], have0[q], avail[q], have[q]);
    forall p <- ids.Values
      ensures ExtraSlot(ids, shortId, wtxid, extra, m + 1, p, avail0[p], have0[p], after[p], have[q := true][p])
    {
      if p != q {
        ExtraSlotOther(ids, shortId, wtxid, extra, m, p, avail0[p], have0[p], avail[p], have[p]);
      }
    }
  }

  method ScanExtra<T>(ids: map<nat, nat>, shortId: nat -> nat, wtxid: T -> nat, extra: seq<Candidate<T>>,
                      avail0: seq<Option<T>>, have0: seq<bool>, count0: nat)
    returns (avail: seq<Option<T>>, count: nat, ghost have: seq<bool>, ghost m: nat)
    requires SlotsOk(avail0, have0, ids) && count0 == |Available(avail0, have0, ids)|
    ensures ExtraScanned(ids, shortId, wtxid, extra, m, avail0, have0, avail, have, count)
    ensures m == |extra| || count == |ids|
  {
    hide ExtraScanned;
    var had := have0;
    avail, count := avail0, count0;
    ExtraStart(ids, shortId, wtxid, extra, avail0, have0, count0);
    m := 0;
    for i := 0 to |extra|
      invariant m == i && ExtraScanned(ids, shortId, wtxid, extra, i, avail0, have0, avail, had, count)
    {
      var short := shortId(extra[i].id);
      if short in ids {
        avail, had, count := MeetExtra(ids, shortId, wtxid, extra, i, ids[short], avail0, have0, avail, had, count);
      } else {
        ExtraMiss(ids, shortId, wtxid, extra, i, avail0, have0, avail, had, count);
      }
      m := i + 1;
      if count == |ids| {
        break;
      }
    }
    have := had;
  }

  /** The loop body for an extra transaction with a known short id. */
  method MeetExtra<T>(ids: map<nat, nat>, shortId: nat -> nat, wtxid: T -> nat, extra: seq<Candidate<T>>, i: nat, q: nat,
                      ghost avail0: seq<Option<T>>, ghost have0: seq<bool>, avail: seq<Option<T>>, have: seq<bool>, count: nat)
    returns (avail': seq<Option<T>>, have': seq<bool>, count': nat)
    requires ExtraScanned(ids, shortId, wtxid, extra, i, avail0, have0, avail, have, count)
    requires i < |extra| && shortId(extra[i].id) in ids && ids[shortId(extra[i].id)] == q
    ensures ExtraScanned(ids, shortId, wtxid, extra, i + 1, avail0, have0, avail', have', count')
  {
    ExtraHit(ids, shortId, wtxid, extra, i, q, avail0, have0, avail, have, count);
    hide ExtraScanned;
    avail', have', count' := avail, have, count;
    if !have[q] {
      avail' := avail[q := Some(extra[i].tx)];
      have' := have[q := true];
      count' := count + 1;
    } else {
      assert have == have[q := true];
      if avail[q].Some? && wtxid(avail[q].value) != wtxid(extra[i].tx) {
        avail' := avail[q := None];
        count' := count - 1;
      } else {
        assert avail == avail[q := avail[q]];
      }
    }
  }

  lemma ExtraStart<T>(ids: map<nat, nat>, shortId: nat -> nat, wtxid: T -> nat, extra: seq<Candidate<T>>,
                      avail: seq<Option<T>>, have: seq<bool>, count: nat)
    requires SlotsOk(avail, have, ids) && count == |Available(avail, have, ids)|
    ensures ExtraScanned(ids, shortId, wtxid, extra, 0, avail, have, avail, have, count)
  {
  }
}
