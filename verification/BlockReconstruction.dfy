/** A block relayed in compact form: sent, initialised, completed and rebuilt. */
module BlockReconstruction {

  import opened IndexCoding
  import opened CompactBlocks

  const MAX_TRANSACTIONS := 144000000 / 40

  datatype CompactBlock<H, T> = CompactBlock(header: Option<H>, shorts: seq<nat>, prefilled: seq<Prefilled<T>>)
  {
    function Count(): nat
    {
      |shorts| + |prefilled|
    }
  }

  datatype ReadStatus = Ok | Invalid | Failed | CheckBlockFailed

  // ----- The positions a compact block speaks of

  predicate IsPrefilled<T>(pre: seq<Prefilled<T>>, p: nat)
  {
    exists i :: 0 <= i < |pre| && Position(pre, i) == p
  }

  /** The positions below n that are not prefilled, in order: the i-th short id is for the i-th of them. */
  function SlotsTo<T>(pre: seq<Prefilled<T>>, n: nat): (s: seq<nat>)
    ensures |s| <= n && (forall k :: 0 <= k < |s| ==> s[k] < n && !IsPrefilled(pre, s[k]))
    ensures forall j, k :: 0 <= j < k < |s| ==> s[j] < s[k]
  {
    if n == 0 then [] else SlotsTo(pre, n - 1) + if IsPrefilled(pre, n - 1) then [] else [n - 1]
  }

  lemma {:induction false} HolesAreSlots<T>(avail: seq<Option<T>>, pre: seq<Prefilled<T>>, n: nat)
    requires Placed(avail, pre, |pre|) && n <= |avail|
    ensures HolesTo(avail, n) == SlotsTo(pre, n)
  {
    if n > 0 {
      HolesAreSlots(avail, pre, n - 1);
      if IsPrefilled(pre, n - 1) {
        var i :| 0 <= i < |pre| && Position(pre, i) == n - 1;
        assert avail[Position(pre, i)] == Some(pre[i].tx);
      }
    }
  }

  lemma {:induction false} SlotListed<T>(pre: seq<Prefilled<T>>, n: nat, p: nat) returns (k: nat)
    requires p < n && !IsPrefilled(pre, p)
    ensures k < |SlotsTo(pre, n)| && SlotsTo(pre, n)[k] == p
  {
    if p == n - 1 {
      k := |SlotsTo(pre, n - 1)|;
    } else {
      k := SlotListed(pre, n - 1, p);
    }
  }

  /** Slots are stored in 16 bits, which is exact for blocks of up to 65536 transactions and no others. */
  lemma PositionsFit<T>(isNull: T -> bool, pre: seq<Prefilled<T>>, shorts: nat)
    requires EntriesOk(isNull, pre, shorts)
    ensures var n := shorts + |pre|;
            (forall k :: 0 <= k < |SlotsTo(pre, n)| ==> SlotsTo(pre, n)[k] % MAX_POSITIONS == SlotsTo(pre, n)[k]) <==>
            n <= MAX_POSITIONS
  {
    hide SlotsTo;
    var n := shorts + |pre|;
    if n > MAX_POSITIONS {
      forall i | 0 <= i < |pre| ensures Position(pre, i) != n - 1 {
        assert EntryOk(isNull, pre, shorts, i);
      }
      var k := SlotListed(pre, n, n - 1);
      assert SlotsTo(pre, n)[k] % MAX_POSITIONS < MAX_POSITIONS;
    }
  }

  predicate Wellformed<H, T>(isNull: T -> bool, c: CompactBlock<H, T>)
  {
    && c.header.Some? && 0 < c.Count() <= MAX_TRANSACTIONS
    && EntriesOk(isNull, c.prefilled, |c.shorts|)
  }

  lemma RankedCount(shorts: seq<nat>, ids: map<nat, nat>, slots: seq<nat>)
    requires Ranked(shorts, ids, slots, |shorts|)
    ensures |ids| == |shorts| <==> DistinctTo(shorts, |shorts|)
  {
  }

  // ----- How far the search for empty slots reaches

  lemma {:induction false} PositionAtLeast<T>(pre: seq<Prefilled<T>>, i: nat)
    requires i < |pre|
    ensures Position(pre, i) >= i
  {
    if i > 0 {
      PositionAtLeast(pre, i - 1);
    }
  }

  lemma FewPrefilled<T>(isNull: T -> bool, pre: seq<Prefilled<T>>, shorts: nat)
    requires EntriesOk(isNull, pre, shorts)
    ensures |pre| <= MAX_POSITIONS
  {
    if |pre| > 0 {
      PositionAtLeast(pre, |pre| - 1);
      assert EntryOk(isNull, pre, shorts, |pre| - 1);
    }
  }

  /** There are as many filled positions below the i-th hole as it is away from i, and no more than are prefilled. */
  lemma HoleDistance<T>(avail: seq<Option<T>>, i: nat)
    requires i < |Holes(avail)|
    ensures Holes(avail)[i] - i <= |avail| - |Holes(avail)|
  {
    var p := Holes(avail)[i];
    HoleRank(avail, p);
    HolesPrefix(avail, p, |avail|);
    var k := |HolesTo(avail, p)|;
    assert k == i by {
      assert Holes(avail)[k] == p;
    }
  }

  lemma {:induction false} AllPrefilled<T>(isNull: T -> bool, pre: seq<Prefilled<T>>, shorts: nat, i: nat)
    requires EntriesOk(isNull, pre, shorts) && |pre| == MAX_POSITIONS && i < |pre|
    ensures Position(pre, i) == i
    decreases |pre| - i
  {
    PositionAtLeast(pre, i);
    if i == |pre| - 1 {
      assert EntryOk(isNull, pre, shorts, i);
    } else {
      AllPrefilled(isNull, pre, shorts, i + 1);
      PositionsIncrease(pre, i, i + 1);
    }
  }

  /** Looking from short id i on, some 16-bit offset gives an empty slot; else the loop that counts offsets up goes on for ever. */
  ghost predicate SearchEnds<T>(avail: seq<Option<T>>, i: nat)
  {
    exists n: nat :: OffsetEmpty(avail, i, n)
  }

  /** After n rounds from offset zero the loop finds an empty slot. */
  predicate OffsetEmpty<T>(avail: seq<Option<T>>, i: nat, n: nat)
  {
    i + n % MAX_POSITIONS < |avail| && avail[i + n % MAX_POSITIONS].None?
  }

  /**
   The search for the next empty slot ends for every short id, and at its own slot,
   unless all the positions a prefilled transaction can have are taken.
   */
  lemma ReachExact<T>(isNull: T -> bool, pre: seq<Prefilled<T>>, shorts: nat, avail: seq<Option<T>>)
    requires EntriesOk(isNull, pre, shorts) && |avail| == shorts + |pre| && Placed(avail, pre, |pre|)
    ensures WithinReach(Holes(avail)) <==> |pre| < MAX_POSITIONS || shorts == 0
    ensures (forall i :: 0 <= i < shorts ==> SearchEnds(avail, i)) <==> |pre| < MAX_POSITIONS || shorts == 0
  {
    hide Holes, HolesTo, Placed, OffsetEmpty;
    HolesCounted(avail, pre);
    FewPrefilled(isNull, pre, shorts);
    if |pre| < MAX_POSITIONS {
      forall i: nat | i < |Holes(avail)| ensures Holes(avail)[i] - i < MAX_POSITIONS && SearchEnds(avail, i) {
        HoleDistance(avail, i);
        HoleFound(avail, i);
      }
    } else if shorts > 0 {
      FirstHoleFar(isNull, pre, shorts, avail);
      assert !(Holes(avail)[0] - 0 < MAX_POSITIONS);
      forall n: nat ensures !OffsetEmpty(avail, 0, n) {
        SearchRunsOn(isNull, pre, shorts, avail, n);
      }
      assert !SearchEnds(avail, 0);
    }
  }

  lemma HoleFound<T>(avail: seq<Option<T>>, i: nat)
    requires i < |Holes(avail)| && Holes(avail)[i] - i < MAX_POSITIONS
    ensures SearchEnds(avail, i)
  {
    HoleAfter(avail, i);
    var n: nat := Holes(avail)[i] - i;
    assert n % MAX_POSITIONS == n;
    assert OffsetEmpty(avail, i, n);
  }

  /** The i-th hole is not below position i. */
  lemma {:induction false} HoleAfter<T>(avail: seq<Option<T>>, i: nat)
    requires i < |Holes(avail)|
    ensures Holes(avail)[i] >= i
  {
    if i > 0 {
      HoleAfter(avail, i - 1);
    }
  }

  /** With all 65536 positions prefilled the guard of the loop holds for the first short id in every round. */
  lemma SearchRunsOn<T>(isNull: T -> bool, pre: seq<Prefilled<T>>, shorts: nat, avail: seq<Option<T>>, n: nat)
    requires EntriesOk(isNull, pre, shorts) && |pre| == MAX_POSITIONS && Placed(avail, pre, |pre|) && |avail| == shorts + |pre|
    ensures avail[n % MAX_POSITIONS].Some? && !OffsetEmpty(avail, 0, n)
  {
    hide Holes;
    var offset := n % MAX_POSITIONS;
    AllPrefilled(isNull, pre, shorts, offset);
    assert avail[Position(pre, offset)].Some?;
  }

  /** A well-formed compact block for which that happens. */
  lemma EndlessSearch<H, T>(isNull: T -> bool, header: H, tx: T, short: nat) returns (c: CompactBlock<H, T>)
    requires !isNull(tx)
    ensures c.shorts == [short] && |c.prefilled| == MAX_POSITIONS && Wellformed(isNull, c)
    ensures forall avail :: |avail| == c.Count() && Placed(avail, c.prefilled, |c.prefilled|) ==> !SearchEnds(avail, 0)
  {
    hide Placed, OffsetEmpty;
    var pre := seq(MAX_POSITIONS, _ => Prefilled(0, tx));
    c := CompactBlock(Some(header), [short], pre);
    forall i: nat | i < |pre| ensures EntryOk(isNull, pre, 1, i) {
      OneAfterAnother(pre, i);
    }
    forall avail, n: nat | |avail| == c.Count() && Placed(avail, pre, |pre|) ensures !OffsetEmpty(avail, 0, n) {
      SearchRunsOn(isNull, pre, 1, avail, n);
    }
  }

  lemma {:induction false} OneAfterAnother<T>(pre: seq<Prefilled<T>>, i: nat)
    requires i < |pre| && forall k :: 0 <= k < |pre| ==> pre[k].index == 0
    ensures Position(pre, i) == i
  {
    if i > 0 {
      OneAfterAnother(pre, i - 1);
    }
  }

  lemma FirstHoleFar<T>(isNull: T -> bool, pre: seq<Prefilled<T>>, shorts: nat, avail: seq<Option<T>>)
    requires EntriesOk(isNull, pre, shorts) && |pre| == MAX_POSITIONS && Placed(avail, pre, |pre|) && |Holes(avail)| > 0
    ensures Holes(avail)[0] >= MAX_POSITIONS
  {
    var p := Holes(avail)[0];
    if p < MAX_POSITIONS {
      AllPrefilled(isNull, pre, shorts, p);
      assert false;
    }
  }

  // ----- What the slots hold in the end

  /** The first of m candidates with one of these short ids. */
  function FirstIn<T>(shortId: nat -> nat, cands: seq<Candidate<T>>, m: nat, group: set<nat>): (r: Option<nat>)
    requires m <= |cands|
    ensures r.Some? ==> r.value < m && shortId(cands[r.value].id) in group
    ensures forall k :: 0 <= k < m && shortId(cands[k].id) in group ==> r.Some? && r.value <= k
  {
    if m == 0 then None
    else match FirstIn(shortId, cands, m - 1, group)
      case Some(k) => Some(k)
      case None => if shortId(cands[m - 1].id) in group then Some(m - 1) else None
  }

  /** Candidate k is the only one of m with one of these short ids. */
  ghost predicate OnlyIn<T>(shortId: nat -> nat, cands: seq<Candidate<T>>, m: nat, group: set<nat>, k: nat)
    requires m <= |cands|
  {
    forall j :: 0 <= j < m && shortId(cands[j].id) in group ==> j == k
  }

  ghost predicate AgreeIn<T>(shortId: nat -> nat, wtxid: T -> nat, cands: seq<Candidate<T>>, m: nat, group: set<nat>, t: T)
    requires m <= |cands|
  {
    forall k :: 0 <= k < m && shortId(cands[k].id) in group ==> wtxid(cands[k].tx) == wtxid(t)
  }

  /** A slot for these short ids after m transactions of the pool: the only one that fits, or nothing if several do. */
  ghost function PoolChoice<T>(shortId: nat -> nat, pool: seq<Candidate<T>>, m: nat, group: set<nat>, tx0: Option<T>): Option<T>
    requires m <= |pool|
  {
    match FirstIn(shortId, pool, m, group)
    case None => tx0
    case Some(k) => if OnlyIn(shortId, pool, m, group, k) then Some(pool[k].tx) else None
  }

  /** The slot after n extra transactions too: the choice of the pool, or the first extra one, if all extra ones agree with it. */
  ghost function Choice<T>(shortId: nat -> nat, wtxid: T -> nat, pool: seq<Candidate<T>>, m: nat, extra: seq<Candidate<T>>, n: nat,
                           group: set<nat>, tx0: Option<T>): Option<T>
    requires m <= |pool| && n <= |extra|
  {
    var claim := match FirstIn(shortId, pool, m, group)
                 case Some(_) => PoolChoice(shortId, pool, m, group, tx0)
                 case None => (match FirstIn(shortId, extra, n, group) case Some(k) => Some(extra[k].tx) case None => None);
    if FirstIn(shortId, pool, m, group).None? && FirstIn(shortId, extra, n, group).None? then tx0
    else if claim.Some? && AgreeIn(shortId, wtxid, extra, n, group, claim.value) then claim else None
  }

  /** The short ids whose slots are stored as position w. */
  function Group<H, T>(c: CompactBlock<H, T>, w: nat): set<nat>
    requires |SlotsTo(c.prefilled, c.Count())| == |c.shorts|
  {
    set k | 0 <= k < |c.shorts| && SlotsTo(c.prefilled, c.Count())[k] % MAX_POSITIONS == w :: c.shorts[k]
  }

  ghost function PrefilledAt<T>(pre: seq<Prefilled<T>>, w: nat): Option<T>
  {
    if IsPrefilled(pre, w) then
      var i :| 0 <= i < |pre| && Position(pre, i) == w;
      Some(pre[i].tx)
    else None
  }

  /** What is at hand after a compact block was taken in, position by position. */
  ghost predicate Received<H, T>(c: CompactBlock<H, T>, shortId: nat -> nat, wtxid: T -> nat, pool: seq<Candidate<T>>, m: nat,
                                 extra: seq<Candidate<T>>, n: nat, avail: seq<Option<T>>)
  {
    && |avail| == c.Count() && |SlotsTo(c.prefilled, c.Count())| == |c.shorts| && m <= |pool| && n <= |extra|
    && (forall i :: 0 <= i < |c.prefilled| ==> Position(c.prefilled, i) < |avail|)
    && (forall w: nat :: w < |avail| ==>
          avail[w] == Choice(shortId, wtxid, pool, m, extra, n, Group(c, w), PrefilledAt(c.prefilled, w)))
  }

  /** Some candidate scanned has the short id of slot w, and the slot holds a transaction. */
  ghost predicate Taken<H, T>(c: CompactBlock<H, T>, shortId: nat -> nat, pool: seq<Candidate<T>>, m: nat,
                              extra: seq<Candidate<T>>, n: nat, avail: seq<Option<T>>, w: nat)
    requires |SlotsTo(c.prefilled, c.Count())| == |c.shorts| && m <= |pool| && n <= |extra| && w < |avail|
  {
    avail[w].Some? && (FirstIn(shortId, pool, m, Group(c, w)).Some? || FirstIn(shortId, extra, n, Group(c, w)).Some?)
  }

  /** The scans stop early only when every short id has its transaction; the counter says how many have. */
  ghost predicate ScansEnd<H, T>(c: CompactBlock<H, T>, shortId: nat -> nat, pool: seq<Candidate<T>>, m: nat,
                                 extra: seq<Candidate<T>>, n: nat, avail: seq<Option<T>>, count: nat)
    requires |SlotsTo(c.prefilled, c.Count())| == |c.shorts| && m <= |pool| && n <= |extra|
  {
    && count == |set w: nat | w < |avail| && Taken(c, shortId, pool, m, extra, n, avail, w)|
    && (n == |extra| || count == |c.shorts|)
    && (m == |pool| || |set w: nat | w < |avail| && TakenFromPool(c, shortId, pool, m, w)| == |c.shorts|)
  }

  ghost predicate TakenFromPool<H, T>(c: CompactBlock<H, T>, shortId: nat -> nat, pool: seq<Candidate<T>>, m: nat, w: nat)
    requires |SlotsTo(c.prefilled, c.Count())| == |c.shorts| && m <= |pool|
  {
    && FirstIn(shortId, pool, m, Group(c, w)).Some?
    && PoolChoice(shortId, pool, m, Group(c, w), PrefilledAt(c.prefilled, w)).Some?
  }

  /** The compact block is one of vtx, whose transactions have these ids. */
  ghost predicate Describes<H, T>(c: CompactBlock<H, T>, vtx: seq<T>, shortId: nat -> nat, idOf: T -> nat)
  {
    && |vtx| == c.Count() && |SlotsTo(c.prefilled, |vtx|)| == |c.shorts|
    && (forall i :: 0 <= i < |c.prefilled| ==>
          Position(c.prefilled, i) < |vtx| && vtx[Position(c.prefilled, i)] == c.prefilled[i].tx)
    && (forall k :: 0 <= k < |c.shorts| ==> shortId(idOf(vtx[SlotsTo(c.prefilled, |vtx|)[k]])) == c.shorts[k])
  }

  /** No candidate has the short id of another transaction of the block. */
  ghost predicate NoCollision<H, T>(c: CompactBlock<H, T>, vtx: seq<T>, shortId: nat -> nat, cands: seq<Candidate<T>>)
    requires |SlotsTo(c.prefilled, |vtx|)| == |c.shorts|
  {
    forall j, k :: 0 <= j < |cands| && 0 <= k < |c.shorts| && shortId(cands[j].id) == c.shorts[k] ==>
      cands[j].tx == vtx[SlotsTo(c.prefilled, |vtx|)[k]]
  }

  ghost predicate PartOf<T>(avail: seq<Option<T>>, vtx: seq<T>)
  {
    |avail| == |vtx| && forall p :: 0 <= p < |avail| && avail[p].Some? ==> avail[p].value == vtx[p]
  }

  /** A choice is what was there before, or a candidate with one of the short ids. */
  lemma ChoiceSource<T>(shortId: nat -> nat, wtxid: T -> nat, pool: seq<Candidate<T>>, m: nat, extra: seq<Candidate<T>>, n: nat,
                        group: set<nat>, tx0: Option<T>)
    requires m <= |pool| && n <= |extra|
    ensures var r := Choice(shortId, wtxid, pool, m, extra, n, group, tx0);
            || r == tx0 || r.None?
            || (exists j :: 0 <= j < |pool| && shortId(pool[j].id) in group && r == Some(pool[j].tx))
            || (exists j :: 0 <= j < |extra| && shortId(extra[j].id) in group && r == Some(extra[j].tx))
  {
    hide AgreeIn, OnlyIn;
    var r := Choice(shortId, wtxid, pool, m, extra, n, group, tx0);
    if r.Some? && r != tx0 {
      match FirstIn(shortId, pool, m, group)
      case Some(k) => assert shortId(pool[k].id) in group && r == Some(pool[k].tx);
      case None =>
        var k := FirstIn(shortId, extra, n, group).value;
        assert shortId(extra[k].id) in group && r == Some(extra[k].tx);
    }
  }

  lemma NoChoice<T>(shortId: nat -> nat, wtxid: T -> nat, pool: seq<Candidate<T>>, m: nat, extra: seq<Candidate<T>>, n: nat, tx0: Option<T>)
    requires m <= |pool| && n <= |extra|
    ensures Choice(shortId, wtxid, pool, m, extra, n, {}, tx0) == tx0
  {
  }

  /** Up to 65536 positions, a slot belongs to its own short id, and a prefilled one to none. */
  lemma GroupExact<H, T>(c: CompactBlock<H, T>, w: nat)
    requires |SlotsTo(c.prefilled, c.Count())| == |c.shorts| && c.Count() <= MAX_POSITIONS && w < c.Count()
    ensures IsPrefilled(c.prefilled, w) ==> Group(c, w) == {}
    ensures forall k :: 0 <= k < |c.shorts| && SlotsTo(c.prefilled, c.Count())[k] == w ==> Group(c, w) == {c.shorts[k]}
  {
    hide IsPrefilled, Position;
  }

  lemma PrefilledIs<T>(pre: seq<Prefilled<T>>, i: nat)
    requires i < |pre|
    ensures PrefilledAt(pre, Position(pre, i)) == Some(pre[i].tx)
  {
    var w := Position(pre, i);
    assert IsPrefilled(pre, w);
    var j :| 0 <= j < |pre| && Position(pre, j) == w && PrefilledAt(pre, w) == Some(pre[j].tx);
    if j < i {
      PositionsIncrease(pre, j, i);
    } else if i < j {
      PositionsIncrease(pre, i, j);
    }
  }

  /** Everything at hand is a transaction of the block, in its place. */
  lemma ReceivedRight<H, T>(c: CompactBlock<H, T>, vtx: seq<T>, shortId: nat -> nat, idOf: T -> nat, wtxid: T -> nat,
                            pool: seq<Candidate<T>>, m: nat, extra: seq<Candidate<T>>, n: nat, avail: seq<Option<T>>)
    requires Describes(c, vtx, shortId, idOf) && Received(c, shortId, wtxid, pool, m, extra, n, avail) && c.Count() <= MAX_POSITIONS
    requires NoCollision(c, vtx, shortId, pool) && NoCollision(c, vtx, shortId, extra)
    ensures PartOf(avail, vtx)
  {
    hide SlotsTo, Choice, Group, PrefilledAt;
    forall p: nat | p < |avail| && avail[p].Some? ensures avail[p].value == vtx[p] {
      var group, tx0 := Group(c, p), PrefilledAt(c.prefilled, p);
      assert avail[p] == Choice(shortId, wtxid, pool, m, extra, n, group, tx0);
      GroupExact(c, p);
      if IsPrefilled(c.prefilled, p) {
        var i :| 0 <= i < |c.prefilled| && Position(c.prefilled, i) == p;
        PrefilledIs(c.prefilled, i);
        NoChoice(shortId, wtxid, pool, m, extra, n, tx0);
      } else {
        var k := SlotListed(c.prefilled, |vtx|, p);
        NotPrefilled(c.prefilled, p);
        ChoiceSource(shortId, wtxid, pool, m, extra, n, group, tx0);
      }
    }
  }

  lemma NotPrefilled<T>(pre: seq<Prefilled<T>>, w: nat)
    requires !IsPrefilled(pre, w)
    ensures PrefilledAt(pre, w).None?
  {
  }

  /** Beyond 65536 positions nothing is ever put: those slots stay empty, whatever is at hand. */
  lemma BeyondStaysEmpty<H, T>(isNull: T -> bool, c: CompactBlock<H, T>, shortId: nat -> nat, wtxid: T -> nat,
                               pool: seq<Candidate<T>>, m: nat, extra: seq<Candidate<T>>, n: nat, avail: seq<Option<T>>, w: nat)
    requires EntriesOk(isNull, c.prefilled, |c.shorts|) && Received(c, shortId, wtxid, pool, m, extra, n, avail)
    requires MAX_POSITIONS <= w < |avail|
    ensures avail[w].None?
  {
    hide SlotsTo, Choice, PrefilledAt;
    assert Group(c, w) == {};
    forall i | 0 <= i < |c.prefilled| ensures Position(c.prefilled, i) != w {
      assert EntryOk(isNull, c.prefilled, |c.shorts|, i);
    }
    NotPrefilled(c.prefilled, w);
    NoChoice(shortId, wtxid, pool, m, extra, n, None);
  }

  /**
   Instead its transaction goes to the position 65536 below, or a multiple of that:
   it takes a slot that is another's, even one that was prefilled.
   */
  lemma WronglyFilled<H, T>(c: CompactBlock<H, T>, shortId: nat -> nat, wtxid: T -> nat,
                            pool: seq<Candidate<T>>, extra: seq<Candidate<T>>, avail: seq<Option<T>>, k: nat, j: nat)
    requires Received(c, shortId, wtxid, pool, |pool|, extra, |extra|, avail)
    requires k < |c.shorts| && SlotsTo(c.prefilled, c.Count())[k] >= MAX_POSITIONS
    requires j < |pool| && shortId(pool[j].id) == c.shorts[k]
    requires var group := Group(c, SlotsTo(c.prefilled, c.Count())[k] % MAX_POSITIONS);
             && (forall i :: 0 <= i < |pool| && i != j ==> shortId(pool[i].id) !in group)
             && (forall i :: 0 <= i < |extra| ==> shortId(extra[i].id) !in group)
    ensures var slot := SlotsTo(c.prefilled, c.Count())[k];
            slot % MAX_POSITIONS != slot && slot % MAX_POSITIONS < |avail| && avail[slot % MAX_POSITIONS] == Some(pool[j].tx)
  {
    hide SlotsTo, PrefilledAt;
    var w := SlotsTo(c.prefilled, c.Count())[k] % MAX_POSITIONS;
    assert c.shorts[k] in Group(c, w);
    hide Group;
    var first := FirstIn(shortId, pool, |pool|, Group(c, w));
    assert first == Some(j);
    assert OnlyIn(shortId, pool, |pool|, Group(c, w), j);
  }

  predicate Rising(slots: seq<nat>)
  {
    forall a, b :: 0 <= a < b < |slots| ==> slots[a] < slots[b]
  }

  // ----- The scans compute the choices

  /** A candidate hits a stored position exactly if its short id is one of those stored there. */
  lemma HitsGroup<H, T>(c: CompactBlock<H, T>, ids: map<nat, nat>, shortId: nat -> nat, cands: seq<Candidate<T>>, j: nat, w: nat)
    requires |SlotsTo(c.prefilled, c.Count())| == |c.shorts| == |ids| && j < |cands|
    requires Ranked(c.shorts, ids, Wrapped(SlotsTo(c.prefilled, c.Count())), |c.shorts|)
    ensures Hits(ids, shortId, cands, j, w) <==> shortId(cands[j].id) in Group(c, w)
  {
    hide SlotsTo, DistinctTo;
    var slots := Wrapped(SlotsTo(c.prefilled, c.Count()));
    var key := shortId(cands[j].id);
    if key in Group(c, w) {
      var k :| 0 <= k < |c.shorts| && SlotsTo(c.prefilled, c.Count())[k] % MAX_POSITIONS == w && c.shorts[k] == key;
      assert ids[c.shorts[k]] == slots[k];
    }
    if key in ids && ids[key] == w {
      var k :| 0 <= k < |c.shorts| && c.shorts[k] == key && ids[key] == slots[k];
    }
  }

  lemma FirstSame<H, T>(c: CompactBlock<H, T>, ids: map<nat, nat>, shortId: nat -> nat, cands: seq<Candidate<T>>, m: nat, w: nat)
    requires |SlotsTo(c.prefilled, c.Count())| == |c.shorts| == |ids| && m <= |cands|
    requires Ranked(c.shorts, ids, Wrapped(SlotsTo(c.prefilled, c.Count())), |c.shorts|)
    ensures FirstHit(ids, shortId, cands, m, w) == FirstIn(shortId, cands, m, Group(c, w))
    ensures forall j :: 0 <= j < m ==> (Hits(ids, shortId, cands, j, w) <==> shortId(cands[j].id) in Group(c, w))
  {
    hide Ranked, SlotsTo, Group, Hits, FirstHit, FirstIn, Wrapped;
    forall j | 0 <= j < m ensures Hits(ids, shortId, cands, j, w) <==> shortId(cands[j].id) in Group(c, w) {
      HitsGroup(c, ids, shortId, cands, j, w);
    }
  }

  /** A position that is stored for a short id ends with its choice. */
  lemma StoredChoice<H, T>(c: CompactBlock<H, T>, ids: map<nat, nat>, shortId: nat -> nat, wtxid: T -> nat,
                           pool: seq<Candidate<T>>, m: nat, extra: seq<Candidate<T>>, n: nat, w: nat,
                           tx0: Option<T>, tx1: Option<T>, have1: bool, tx: Option<T>, have: bool)
    requires |SlotsTo(c.prefilled, c.Count())| == |c.shorts| == |ids| && m <= |pool| && n <= |extra|
    requires Ranked(c.shorts, ids, Wrapped(SlotsTo(c.prefilled, c.Count())), |c.shorts|)
    requires PoolSlot(ids, shortId, pool, m, w, tx0, tx1, have1)
    requires ExtraSlot(ids, shortId, wtxid, extra, n, w, tx1, have1, tx, have)
    ensures tx == Choice(shortId, wtxid, pool, m, extra, n, Group(c, w), tx0)
    ensures tx1 == PoolChoice(shortId, pool, m, Group(c, w), tx0) && have1 == FirstIn(shortId, pool, m, Group(c, w)).Some?
    ensures have == (have1 || FirstIn(shortId, extra, n, Group(c, w)).Some?)
  {
    FirstSame(c, ids, shortId, pool, m, w);
    FirstSame(c, ids, shortId, extra, n, w);
    hide Ranked, SlotsTo, Group, Hits, FirstHit, FirstIn, Wrapped;
    var group := Group(c, w);
    var first := FirstIn(shortId, pool, m, group);
    if first.Some? {
      assert Only(ids, shortId, pool, m, w, first.value) <==> OnlyIn(shortId, pool, m, group, first.value);
    }
    var claim := Claim(ids, shortId, extra, n, w, tx1, have1);
    if claim.Some? {
      assert Agree(ids, shortId, wtxid, extra, n, w, claim.value) <==> AgreeIn(shortId, wtxid, extra, n, group, claim.value);
    }
  }

  lemma StoredValues<H, T>(c: CompactBlock<H, T>, ids: map<nat, nat>, w: nat)
    requires |SlotsTo(c.prefilled, c.Count())| == |c.shorts| == |ids|
    requires Ranked(c.shorts, ids, Wrapped(SlotsTo(c.prefilled, c.Count())), |c.shorts|)
    ensures w in ids.Values <==> Group(c, w) != {}
  {
    hide SlotsTo, DistinctTo;
    var slots := Wrapped(SlotsTo(c.prefilled, c.Count()));
    if w in ids.Values {
      var key :| key in ids && ids[key] == w;
      var k :| 0 <= k < |c.shorts| && c.shorts[k] == key && ids[key] == slots[k];
      assert c.shorts[k] in Group(c, w);
    }
    if Group(c, w) != {} {
      var k :| 0 <= k < |c.shorts| && SlotsTo(c.prefilled, c.Count())[k] % MAX_POSITIONS == w;
      assert ids[c.shorts[k]] == w;
    }
  }

  /** What the two scans leave at one position. */
  ghost predicate Settled<H, T>(c: CompactBlock<H, T>, ids: map<nat, nat>, shortId: nat -> nat, wtxid: T -> nat,
                                pool: seq<Candidate<T>>, m: nat, extra: seq<Candidate<T>>, n: nat, w: nat,
                                tx0: Option<T>, tx1: Option<T>, have1: bool, tx: Option<T>, have: bool)
    requires |SlotsTo(c.prefilled, c.Count())| == |c.shorts| && m <= |pool| && n <= |extra|
  {
    && tx == Choice(shortId, wtxid, pool, m, extra, n, Group(c, w), tx0)
    && (w in ids.Values && have1 && tx1.Some? <==>
          FirstIn(shortId, pool, m, Group(c, w)).Some? && PoolChoice(shortId, pool, m, Group(c, w), tx0).Some?)
    && (w in ids.Values && have && tx.Some? <==>
          tx.Some? && (FirstIn(shortId, pool, m, Group(c, w)).Some? || FirstIn(shortId, extra, n, Group(c, w)).Some?))
  }

  lemma PositionSettled<H, T>(c: CompactBlock<H, T>, ids: map<nat, nat>, shortId: nat -> nat, wtxid: T -> nat,
                              pool: seq<Candidate<T>>, m: nat, extra: seq<Candidate<T>>, n: nat, start: seq<Option<T>>,
                              avail1: seq<Option<T>>, have1: seq<bool>, count1: nat, avail: seq<Option<T>>, have: seq<bool>, count: nat, w: nat)
    requires |SlotsTo(c.prefilled, c.Count())| == |c.shorts| == |ids|
    requires Ranked(c.shorts, ids, Wrapped(SlotsTo(c.prefilled, c.Count())), |c.shorts|)
    requires PoolScanned(ids, shortId, pool, m, start, avail1, have1, count1)
    requires ExtraScanned(ids, shortId, wtxid, extra, n, avail1, have1, avail, have, count)
    requires w < |start|
    ensures |avail| == |start| == |have| == |avail1| == |have1|
    ensures Settled(c, ids, shortId, wtxid, pool, m, extra, n, w, start[w], avail1[w], have1[w], avail[w], have[w])
  {
    hide Ranked, SlotsTo, Group, Hits, FirstHit, Wrapped, Choice, PoolChoice, PoolSlot, ExtraSlot;
    StoredValues(c, ids, w);
    if w in ids.Values {
      StoredChoice(c, ids, shortId, wtxid, pool, m, extra, n, w, start[w], avail1[w], have1[w], avail[w], have[w]);
    } else {
      NoChoice(shortId, wtxid, pool, m, extra, n, start[w]);
      assert Group(c, w) == {};
    }
  }

  /** The scans leave each position with its choice, and count those they filled. */
  lemma ScansReceive<H, T>(c: CompactBlock<H, T>, ids: map<nat, nat>, shortId: nat -> nat, wtxid: T -> nat,
                           pool: seq<Candidate<T>>, m: nat, extra: seq<Candidate<T>>, n: nat, start: seq<Option<T>>,
                           avail1: seq<Option<T>>, have1: seq<bool>, count1: nat, avail: seq<Option<T>>, have: seq<bool>, count: nat)
    requires |start| == c.Count() && Placed(start, c.prefilled, |c.prefilled|)
    requires Ranked(c.shorts, ids, Wrapped(Holes(start)), |c.shorts|) && |ids| == |c.shorts|
    requires PoolScanned(ids, shortId, pool, m, start, avail1, have1, count1) && (m == |pool| || count1 == |ids|)
    requires ExtraScanned(ids, shortId, wtxid, extra, n, avail1, have1, avail, have, count) && (n == |extra| || count == |ids|)
    ensures Received(c, shortId, wtxid, pool, m, extra, n, avail) && ScansEnd(c, shortId, pool, m, extra, n, avail, count)
  {
    HolesAreSlots(start, c.prefilled, |start|);
    HolesCounted(start, c.prefilled);
    ScanBounds(ids, shortId, wtxid, pool, m, extra, n, start, avail1, have1, count1, avail, have, count);
    hide SlotsTo, HolesTo, Holes, PoolScanned, ExtraScanned, Placed, Ranked, Choice, PoolChoice, Group, FirstIn, Wrapped, PrefilledAt, Available,
         Settled;
    forall w: nat | w < |start|
      ensures start[w] == PrefilledAt(c.prefilled, w)
      ensures Settled(c, ids, shortId, wtxid, pool, m, extra, n, w, start[w], avail1[w], have1[w], avail[w], have[w])
    {
      StartPrefilled(start, c.prefilled, w);
      PositionSettled(c, ids, shortId, wtxid, pool, m, extra, n, start, avail1, have1, count1, avail, have, count, w);
    }
    forall i | 0 <= i < |c.prefilled| ensures Position(c.prefilled, i) < |avail| {
      PlacedAt(start, c.prefilled, i);
    }
    SettledReceive(c, ids, shortId, wtxid, pool, m, extra, n, start, avail1, have1, avail, have);
    SettledCounts(c, ids, shortId, wtxid, pool, m, extra, n, start, avail1, have1, avail, have);
  }

  lemma SettledReceive<H, T>(c: CompactBlock<H, T>, ids: map<nat, nat>, shortId: nat -> nat, wtxid: T -> nat,
                             pool: seq<Candidate<T>>, m: nat, extra: seq<Candidate<T>>, n: nat, start: seq<Option<T>>,
                             avail1: seq<Option<T>>, have1: seq<bool>, avail: seq<Option<T>>, have: seq<bool>)
    requires |avail| == |start| == |have| == |avail1| == |have1| == c.Count()
    requires |SlotsTo(c.prefilled, c.Count())| == |c.shorts| && m <= |pool| && n <= |extra|
    requires forall i :: 0 <= i < |c.prefilled| ==> Position(c.prefilled, i) < |avail|
    requires forall w: nat :: w < |start| ==>
               && start[w] == PrefilledAt(c.prefilled, w)
               && Settled(c, ids, shortId, wtxid, pool, m, extra, n, w, start[w], avail1[w], have1[w], avail[w], have[w])
    ensures Received(c, shortId, wtxid, pool, m, extra, n, avail)
  {
    hide SlotsTo, Choice, PoolChoice, Group, FirstIn, PrefilledAt;
  }

  lemma SettledCounts<H, T>(c: CompactBlock<H, T>, ids: map<nat, nat>, shortId: nat -> nat, wtxid: T -> nat,
                            pool: seq<Candidate<T>>, m: nat, extra: seq<Candidate<T>>, n: nat, start: seq<Option<T>>,
                            avail1: seq<Option<T>>, have1: seq<bool>, avail: seq<Option<T>>, have: seq<bool>)
    requires |avail| == |start| == |have| == |avail1| == |have1| == c.Count()
    requires |SlotsTo(c.prefilled, c.Count())| == |c.shorts| && m <= |pool| && n <= |extra|
    requires forall w: nat :: w < |start| ==>
               && start[w] == PrefilledAt(c.prefilled, w)
               && Settled(c, ids, shortId, wtxid, pool, m, extra, n, w, start[w], avail1[w], have1[w], avail[w], have[w])
    ensures Available(avail1, have1, ids) == set w: nat | w < |avail| && TakenFromPool(c, shortId, pool, m, w)
    ensures Available(avail, have, ids) == set w: nat | w < |avail| && Taken(c, shortId, pool, m, extra, n, avail, w)
  {
    hide SlotsTo, Choice, PoolChoice, Group, FirstIn, PrefilledAt;
  }

  lemma ScanBounds<T>(ids: map<nat, nat>, shortId: nat -> nat, wtxid: T -> nat,
                      pool: seq<Candidate<T>>, m: nat, extra: seq<Candidate<T>>, n: nat, start: seq<Option<T>>,
                      avail1: seq<Option<T>>, have1: seq<bool>, count1: nat, avail: seq<Option<T>>, have: seq<bool>, count: nat)
    requires PoolScanned(ids, shortId, pool, m, start, avail1, have1, count1)
    requires ExtraScanned(ids, shortId, wtxid, extra, n, avail1, have1, avail, have, count)
    ensures |avail| == |start| == |have| == |avail1| == |have1| && m <= |pool| && n <= |extra|
    ensures count1 == |Available(avail1, have1, ids)| && count == |Available(avail, have, ids)|
  {
  }

  lemma StartPrefilled<T>(start: seq<Option<T>>, pre: seq<Prefilled<T>>, w: nat)
    requires Placed(start, pre, |pre|) && w < |start|
    ensures start[w] == PrefilledAt(pre, w)
  {
    if IsPrefilled(pre, w) {
      var i :| 0 <= i < |pre| && Position(pre, i) == w;
      PrefilledIs(pre, i);
      assert start[Position(pre, i)] == Some(pre[i].tx);
    }
  }

  lemma PlacedAt<T>(avail: seq<Option<T>>, pre: seq<Prefilled<T>>, i: nat)
    requires Placed(avail, pre, |pre|) && i < |pre|
    ensures Position(pre, i) < |avail| && avail[Position(pre, i)] == Some(pre[i].tx)
  {
  }

  // ----- Completing the block

  /** The transactions at hand, and the missing ones in the holes, in order. */
  function Merge<T>(avail: seq<Option<T>>, missing: seq<T>): (vtx: seq<T>)
    requires |missing| == |Holes(avail)|
    ensures |vtx| == |avail|
  {
    seq(|avail|, p requires 0 <= p < |avail| => HolesPrefix(avail, p + 1, |avail|); Filler(avail, missing, p))
  }

  function Filler<T>(avail: seq<Option<T>>, missing: seq<T>, p: nat): T
    requires p < |avail| && |missing| >= |HolesTo(avail, p + 1)|
  {
    if avail[p].Some? then avail[p].value else missing[|HolesTo(avail, p)|]
  }

  function MissingOf<T>(vtx: seq<T>, avail: seq<Option<T>>): seq<T>
    requires |vtx| == |avail|
  {
    seq(|Holes(avail)|, k requires 0 <= k < |Holes(avail)| => vtx[Holes(avail)[k]])
  }

  /** A part of a block, completed by what it lacks, is the block. */
  lemma MergeMissing<T>(avail: seq<Option<T>>, vtx: seq<T>)
    requires PartOf(avail, vtx)
    ensures Merge(avail, MissingOf(vtx, avail)) == vtx
  {
    hide HolesTo;
    var merged := Merge(avail, MissingOf(vtx, avail));
    forall p | 0 <= p < |avail| ensures merged[p] == vtx[p] {
      if avail[p].None? {
        HoleRank(avail, p);
      }
    }
  }

  lemma HoleRank<T>(avail: seq<Option<T>>, p: nat)
    requires p < |avail| && avail[p].None?
    ensures |HolesTo(avail, p)| < |Holes(avail)| && Holes(avail)[|HolesTo(avail, p)|] == p
  {
    HolesPrefix(avail, p + 1, |avail|);
    assert HolesTo(avail, p + 1)[|HolesTo(avail, p)|] == p;
  }

  datatype Checked = Passed | Corrupt | Refused

  class PartialBlock<H, T> {
    var header: Option<H>
    var available: seq<Option<T>>
    var prefilledCount: nat
    var mempoolCount: nat

    constructor ()
      ensures header.None? && available == [] && mempoolCount == 0
    {
      header := None;
      available := [];
      prefilledCount := 0;
      mempoolCount := 0;
    }

    method InitData(c: CompactBlock<H, T>, isNull: T -> bool, shortId: nat -> nat, wtxid: T -> nat,
                    pool: seq<Candidate<T>>, extra: seq<Candidate<T>>, crowded: set<nat>)
      returns (status: ReadStatus, ghost m: nat, ghost n: nat)
      requires header.None? && available == [] && mempoolCount == 0
      requires EntriesOk(isNull, c.prefilled, |c.shorts|) ==> |c.prefilled| < MAX_POSITIONS || c.shorts == []
      modifies this
      ensures status == Invalid <==> !Wellformed(isNull, c)
      ensures status == Failed <==> Wellformed(isNull, c) &&
                                    (!DistinctTo(c.shorts, |c.shorts|) || exists i :: 0 <= i < |c.shorts| && i in crowded)
      ensures status in {Ok, Invalid, Failed}
      ensures status == Ok ==> header == c.header && Received(c, shortId, wtxid, pool, m, extra, n, available)
      ensures status == Ok ==> ScansEnd(c, shortId, pool, m, extra, n, available, mempoolCount)
      ensures status == Ok ==> prefilledCount == |c.prefilled|
    {
      hide Placed, Received, Ranked, Holes, EntriesOk, DistinctTo, WithinReach, ScansEnd, SlotsTo;
      m, n := 0, 0;
      if c.header.None? || (c.shorts == [] && c.prefilled == []) {
        return Invalid, m, n;
      }
      if c.Count() > MAX_TRANSACTIONS {
        return Invalid, m, n;
      }
      header := c.header;
      var ok, start, _ := Prefill(isNull, c.prefilled, |c.shorts|);
      available := start;
      if !ok {
        return Invalid, m, n;
      }
      prefilledCount := |c.prefilled|;
      HolesCounted(start, c.prefilled);
      FewPrefilled(isNull, c.prefilled, |c.shorts|);
      ReachExact(isNull, c.prefilled, |c.shorts|, start);
      var mapping := MapShortIds(start, c.shorts, crowded);
      if mapping.Crowded? {
        return Failed, m, n;
      }
      RankedCount(c.shorts, mapping.ids, Wrapped(Holes(start)));
      if |mapping.ids| != |c.shorts| {
        return Failed, m, n;
      }
      available, mempoolCount, m, n := Scan(c, mapping.ids, shortId, wtxid, pool, extra, start);
      return Ok, m, n;
    }

    static method Scan(c: CompactBlock<H, T>, ids: map<nat, nat>, shortId: nat -> nat, wtxid: T -> nat,
                       pool: seq<Candidate<T>>, extra: seq<Candidate<T>>, start: seq<Option<T>>)
      returns (avail: seq<Option<T>>, count: nat, ghost m: nat, ghost n: nat)
      requires |start| == c.Count() && Placed(start, c.prefilled, |c.prefilled|)
      requires Ranked(c.shorts, ids, Wrapped(Holes(start)), |c.shorts|) && |ids| == |c.shorts|
      ensures Received(c, shortId, wtxid, pool, m, extra, n, avail) && ScansEnd(c, shortId, pool, m, extra, n, avail, count)
    {
      hide Received, Placed, PoolScanned, ExtraScanned, PoolSlot, ExtraSlot, ScansEnd, SlotsTo, Wrapped, Ranked;
      SlotsInside(c.shorts, ids, start);
      var avail1, have1, count1;
      avail1, have1, count1, m := ScanPool(ids, shortId, pool, start);
      PoolDone(ids, shortId, pool, m, start, avail1, have1, count1);
      ghost var have;
      avail, count, have, n := ScanExtra(ids, shortId, wtxid, extra, avail1, have1, count1);
      ScansReceive(c, ids, shortId, wtxid, pool, m, extra, n, start, avail1, have1, count1, avail, have, count);
    }

    /** Completes the block with the missing transactions, in order. */
    method FillBlock(missing: seq<T>, check: seq<T> -> Checked) returns (status: ReadStatus, vtx: seq<Option<T>>)
      requires header.Some?
      modifies this
      ensures |missing| == old(|Holes(available)|) ==>
                var merged := Merge(old(available), missing);
                && |vtx| == |merged| && (forall p :: 0 <= p < |vtx| ==> vtx[p] == Some(merged[p]))
                && status == match check(merged) case Passed => Ok case Corrupt => Failed case Refused => CheckBlockFailed
      ensures |missing| != old(|Holes(available)|) ==> status == Invalid
      ensures |missing| >= old(|Holes(available)|) ==> header.None? && available == []
      ensures |missing| < old(|Holes(available)|) ==> header == old(header)
    {
      hide HolesTo;
      ghost var avail := available;
      vtx := seq(|available|, _ => None);
      var offset := 0;
      NoHolesBelowZero(avail);
      for i := 0 to |available|
        invariant header == old(header) && |available| == |avail|
        invariant forall p :: i <= p < |avail| ==> available[p] == avail[p]
        invariant offset == |HolesTo(avail, i)| <= |missing|
        invariant FilledTo(avail, missing, vtx, i)
      {
        HoleCount(avail, i);
        if available[i].None? {
          if |missing| <= offset {
            return Invalid, vtx;
          }
          vtx := vtx[i := Some(missing[offset])];
          offset := offset + 1;
        } else {
          vtx := vtx[i := available[i]];
          available := available[i := None];
        }
      }
      header := None;
      available := [];
      if |missing| != offset {
        return Invalid, vtx;
      }
      FillDone(avail, missing, vtx);
      var merged := Values(vtx);
      match check(merged) {
        case Passed => status := Ok;
        case Corrupt => status := Failed;
        case Refused => status := CheckBlockFailed;
      }
    }
  }

  /** The first i transactions are in place. */
  ghost predicate FilledTo<T>(avail: seq<Option<T>>, missing: seq<T>, vtx: seq<Option<T>>, i: nat)
  {
    i <= |avail| == |vtx| && forall p: nat :: p < i ==> vtx[p] == Filling(avail, missing, p)
  }

  function Filling<T>(avail: seq<Option<T>>, missing: seq<T>, p: nat): Option<T>
    requires p < |avail|
  {
    if avail[p].Some? then avail[p]
    else if |HolesTo(avail, p)| < |missing| then Some(missing[|HolesTo(avail, p)|]) else None
  }

  lemma FillDone<T>(avail: seq<Option<T>>, missing: seq<T>, vtx: seq<Option<T>>)
    requires FilledTo(avail, missing, vtx, |avail|) && |missing| == |Holes(avail)|
    ensures forall p :: 0 <= p < |vtx| ==> vtx[p] == Some(Merge(avail, missing)[p])
    ensures Values(vtx) == Merge(avail, missing)
  {
    hide HolesTo;
    forall p: nat | p < |vtx| ensures vtx[p] == Some(Merge(avail, missing)[p]) {
      HoleCount(avail, p);
    }
  }

  function Values<T>(s: seq<Option<T>>): seq<T>
    requires forall p :: 0 <= p < |s| ==> s[p].Some?
  {
    seq(|s|, p requires 0 <= p < |s| => s[p].value)
  }

  lemma NoHolesBelowZero<T>(avail: seq<Option<T>>)
    ensures |HolesTo(avail, 0)| == 0
  {
  }

  lemma HoleCount<T>(avail: seq<Option<T>>, i: nat)
    requires i < |avail|
    ensures |HolesTo(avail, i + 1)| == |HolesTo(avail, i)| + if avail[i].None? then 1 else 0
    ensures |HolesTo(avail, i + 1)| <= |Holes(avail)|
  {
    HolesPrefix(avail, i + 1, |avail|);
  }

  lemma HolesCounted<T>(avail: seq<Option<T>>, pre: seq<Prefilled<T>>)
    requires Placed(avail, pre, |pre|)
    ensures |Holes(avail)| == |avail| - |pre| && Rising(Holes(avail))
  {
  }

  lemma SlotsInside<T>(shorts: seq<nat>, ids: map<nat, nat>, start: seq<Option<T>>)
    requires Ranked(shorts, ids, Wrapped(Holes(start)), |shorts|)
    ensures forall p <- ids.Values :: p < |start|
  {
    hide HolesTo, DistinctTo, Wrapped;
    var holes := Holes(start);
    assert forall j :: 0 <= j < |holes| ==> holes[j] < |start|;
    hide Holes;
    forall p <- ids.Values ensures p < |start| {
      var key :| key in ids && ids[key] == p;
      var j :| 0 <= j < |shorts| && shorts[j] == key && ids[key] == Wrapped(holes)[j];
      NotMore(holes[j]);
    }
  }

  lemma NotMore(x: nat)
    ensures x % MAX_POSITIONS <= x
  {
  }

  lemma PoolDone<T>(ids: map<nat, nat>, shortId: nat -> nat, pool: seq<Candidate<T>>, m: nat,
                    start: seq<Option<T>>, avail: seq<Option<T>>, have: seq<bool>, count: nat)
    requires PoolScanned(ids, shortId, pool, m, start, avail, have, count)
    ensures SlotsOk(avail, have, ids) && count == |Available(avail, have, ids)|
  {
  }

  // ----- The sender's side, and the whole way

  /** Only the coinbase is prefilled. */
  method Compress<H, T>(header: H, vtx: seq<T>, shortId: nat -> nat, idOf: T -> nat) returns (c: CompactBlock<H, T>)
    requires |vtx| > 0
    ensures c.header == Some(header) && c.prefilled == [Prefilled(0, vtx[0])] && Describes(c, vtx, shortId, idOf)
  {
    hide SlotsTo;
    var shorts := [];
    for i := 1 to |vtx|
      invariant |shorts| == i - 1 && forall k :: 0 <= k < i - 1 ==> shorts[k] == shortId(idOf(vtx[k + 1]))
    {
      shorts := shorts + [shortId(idOf(vtx[i]))];
    }
    c := CompactBlock(Some(header), shorts, [Prefilled(0, vtx[0])]);
    AfterCoinbase(c.prefilled, |vtx|);
  }

  lemma {:induction false} AfterCoinbase<T>(pre: seq<Prefilled<T>>, n: nat)
    requires |pre| == 1 && pre[0].index == 0 && n > 0
    ensures |SlotsTo(pre, n)| == n - 1 && forall k :: 0 <= k < n - 1 ==> SlotsTo(pre, n)[k] == k + 1
  {
    assert IsPrefilled(pre, 0) by { assert Position(pre, 0) == 0; }
    if n > 1 {
      AfterCoinbase(pre, n - 1);
      assert !IsPrefilled(pre, n - 1);
    } else {
      assert SlotsTo(pre, 0) == [];
    }
  }

  /**
   A block sent in compact form and taken in without a collision is rebuilt
   exactly once the transactions that are still missing are supplied.
   */
  method Relay<H, T>(header: H, vtx: seq<T>, isNull: T -> bool, shortId: nat -> nat, idOf: T -> nat, wtxid: T -> nat,
                     pool: seq<Candidate<T>>, extra: seq<Candidate<T>>, crowded: set<nat>, check: seq<T> -> Checked)
    returns (init: ReadStatus, fill: ReadStatus, rebuilt: seq<Option<T>>)
    requires 0 < |vtx| <= MAX_POSITIONS && !isNull(vtx[0]) && check(vtx) == Passed
    requires forall j, k :: 0 <= j < |pool| && 0 < k < |vtx| && shortId(pool[j].id) == shortId(idOf(vtx[k])) ==> pool[j].tx == vtx[k]
    requires forall j, k :: 0 <= j < |extra| && 0 < k < |vtx| && shortId(extra[j].id) == shortId(idOf(vtx[k])) ==> extra[j].tx == vtx[k]
    ensures init in {Ok, Failed}
    ensures init == Ok ==> fill == Ok && |rebuilt| == |vtx| && forall p :: 0 <= p < |vtx| ==> rebuilt[p] == Some(vtx[p])
  {
    hide SlotsTo, Received, Describes, NoCollision, Holes, ScansEnd;
    var c := Compress(header, vtx, shortId, idOf);
    CompressedSafe(c, vtx, isNull, shortId, idOf, pool, extra);
    var partial := new PartialBlock<H, T>();
    ghost var m, n;
    init, m, n := partial.InitData(c, isNull, shortId, wtxid, pool, extra, crowded);
    fill, rebuilt := init, [];
    if init == Ok {
      ReceivedRight(c, vtx, shortId, idOf, wtxid, pool, m, extra, n, partial.available);
      MergeMissing(partial.available, vtx);
      fill, rebuilt := partial.FillBlock(MissingOf(vtx, partial.available), check);
    }
  }

  lemma CompressedSafe<H, T>(c: CompactBlock<H, T>, vtx: seq<T>, isNull: T -> bool, shortId: nat -> nat, idOf: T -> nat,
                             pool: seq<Candidate<T>>, extra: seq<Candidate<T>>)
    requires 0 < |vtx| <= MAX_POSITIONS && !isNull(vtx[0]) && c.header.Some?
    requires c.prefilled == [Prefilled(0, vtx[0])] && Describes(c, vtx, shortId, idOf)
    requires forall j, k :: 0 <= j < |pool| && 0 < k < |vtx| && shortId(pool[j].id) == shortId(idOf(vtx[k])) ==> pool[j].tx == vtx[k]
    requires forall j, k :: 0 <= j < |extra| && 0 < k < |vtx| && shortId(extra[j].id) == shortId(idOf(vtx[k])) ==> extra[j].tx == vtx[k]
    ensures Wellformed(isNull, c) && c.Count() == |vtx|
    ensures |SlotsTo(c.prefilled, |vtx|)| == |c.shorts| && NoCollision(c, vtx, shortId, pool) && NoCollision(c, vtx, shortId, extra)
  {
    hide SlotsTo;
    AfterCoinbase(c.prefilled, |vtx|);
  }
}
