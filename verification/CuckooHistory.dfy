/**
 What the cuckoo cache answers over whole runs: only what was inserted is
 found, and an element that is neither erased nor lost lives through exactly one
 ageing after its insertion.
 */
module CuckooHistory {
  import opened CuckooCache

  // ----- Lookup

  /** In a table in order, an element is found exactly when it is anywhere in the table. */
  lemma ContainsMembership<E>(f: Hash<E>, default: E, t: Table<E>, e: E)
    requires TableOk(f, default, t) && e != default
    ensures Contains(f, t, e) <==> e in t.elems
  {
    var locs := Locs(f, |t.elems|, e);
    var k := FirstHolding(t, locs, e, 0);
    if e in t.elems {
      var i :| 0 <= i < |t.elems| && t.elems[i] == e;
      assert i in locs;
      var j :| 0 <= j < WAYS && locs[j] == i;
    }
  }

  // ----- Where the elements of a table come from

  lemma {:induction false} DisplaceOrigin<E>(f: Hash<E>, t: Table<E>, e: E, last: int, epoch: bool, depth: nat, x: E)
    requires Shaped(t) && x in Displace(f, t, e, last, epoch, depth).t.elems
    ensures x in t.elems || x == e
    decreases depth
  {
    hide Locs, FirstFree, Victim;
    if depth > 0 {
      var locs := Locs(f, |t.elems|, e);
      if FirstFree(t, locs, 0) == WAYS {
        var v := Victim(locs, last);
        var t' := t.(elems := t.elems[v := e], recent := t.recent[v := epoch]);
        DisplaceOrigin(f, t', t.elems[v], v, t.recent[v], depth - 1, x);
      }
    }
  }

  lemma InsertOrigin<E>(f: Hash<E>, t: Table<E>, e: E, depth: nat, x: E)
    requires Shaped(t) && x in Insert(f, t, e, depth).t.elems
    ensures x in t.elems || x == e
  {
    hide Locs, FirstHolding, Displace;
    if FirstHolding(t, Locs(f, |t.elems|, e), e, 0) == WAYS {
      DisplaceOrigin(f, t, e, -1, true, depth, x);
    }
  }

  lemma ApplyOrigin<E>(f: Hash<E>, s: State<E>, op: Op<E>, x: E)
    requires Shaped(s.t) && x in Apply(f, s, op).t.elems
    ensures x in s.t.elems || (op.InsertOp? && op.e == x)
  {
    hide Insert, Locs, FirstHolding;
    match op
    case InsertOp(e, depth) => InsertOrigin(f, EpochCheck(s).t, e, depth, x);
    case EraseOp(e) =>
  }

  predicate Inserts<E(==)>(ops: seq<Op<E>>, x: E)
  {
    exists k :: 0 <= k < |ops| && ops[k].InsertOp? && ops[k].e == x
  }

  lemma {:induction false} RunOrigin<E>(f: Hash<E>, default: E, s: State<E>, ops: seq<Op<E>>, x: E)
    requires TableOk(f, default, s.t) && EpochBound(s) && s.epochSize >= 1
    requires x in RunOf(f, default, s, ops).t.elems
    ensures x in s.t.elems || Inserts(ops, x)
    decreases |ops|
  {
    if ops != [] {
      hide TableOk, EpochBound, Apply;
      ApplyKeeps(f, default, s, ops[0]);
      RunOrigin(f, default, Apply(f, s, ops[0]), ops[1..], x);
      if Inserts(ops[1..], x) {
        var k :| 0 <= k < |ops[1..]| && ops[1..][k].InsertOp? && ops[1..][k].e == x;
        assert ops[k + 1] == ops[1..][k];
      } else {
        OkShaped(f, default, s.t);
        ApplyOrigin(f, s, ops[0], x);
        assert ops[0].InsertOp? && ops[0].e == x ==> Inserts(ops, x);
      }
    }
  }

  lemma OkShaped<E>(f: Hash<E>, default: E, t: Table<E>)
    requires TableOk(f, default, t)
    ensures Shaped(t)
  {
  }

  /** From a cache that was just set up, whatever is found was inserted in the run, or is the default element. */
  lemma FoundWasInserted<E>(f: Hash<E>, default: E, s: State<E>, ops: seq<Op<E>>, x: E)
    requires TableOk(f, default, s.t) && EpochBound(s) && s.epochSize >= 1
    requires forall i :: 0 <= i < |s.t.elems| ==> s.t.elems[i] == default
    ensures var r := RunOf(f, default, s, ops);
            && Shaped(r.t)
            && ((exists k :: 0 <= k < 8 && r.t.elems[Loc(f, |r.t.elems|, x, k)] == x) ==> x == default || Inserts(ops, x))
            && (Contains(f, r.t, x) ==> x == default || Inserts(ops, x))
  {
    hide TableOk, EpochBound, RunOf, Loc, Contains;
    RunKeeps(f, default, s, ops);
    var r := RunOf(f, default, s, ops);
    OkShaped(f, default, r.t);
    ContainsExactly(f, r.t, x);
    if x in r.t.elems {
      RunOrigin(f, default, s, ops, x);
    }
  }

  // ----- Epochs

  /** The live slots that belong to the current epoch. */
  function CurrentSlots<E>(t: Table<E>): set<nat>
    requires Shaped(t)
  {
    set i: nat | i < |t.elems| && !t.collected[i] && t.recent[i]
  }

  lemma {:induction false} RecentCountIs(collected: seq<bool>, recent: seq<bool>)
    requires |collected| == |recent|
    ensures RecentCount(collected, recent) == |set i: nat | i < |collected| && !collected[i] && recent[i]|
  {
    var all := set i: nat | i < |collected| && !collected[i] && recent[i];
    if collected == [] {
      assert all == {};
    } else {
      var n := |collected| - 1;
      RecentCountIs(collected[..n], recent[..n]);
      var front := set i: nat | i < |collected[..n]| && !collected[..n][i] && recent[..n][i];
      if !collected[n] && recent[n] {
        assert all == front + {n};
      } else {
        assert all == front;
      }
    }
  }

  /** The next insertion starts a new epoch. */
  predicate Ages<E>(s: State<E>)
    requires Shaped(s.t)
  {
    s.counter == 0 && |CurrentSlots(s.t)| >= s.epochSize
  }

  /**
   What the epoch check does: a live element becomes erasable exactly when an
   epoch ends and it belongs to the one before; everything of the ending epoch
   stays live and belongs to the old epoch from then on. No other flag changes.
   The next look is due after as many insertions as can end the epoch at the
   earliest, but at least a sixteenth of it.
   */
  lemma EpochCheckEffect<E>(s: State<E>)
    requires Shaped(s.t)
    ensures var r := EpochCheck(s);
            && Shaped(r.t) && r.t.elems == s.t.elems && r.epochSize == s.epochSize
            && (forall i :: 0 <= i < |s.t.elems| ==>
                  && (r.t.collected[i] <==> s.t.collected[i] || (Ages(s) && !s.t.recent[i]))
                  && (r.t.recent[i] <==> s.t.recent[i] && !Ages(s)))
            && (s.counter != 0 ==> r.counter == s.counter - 1)
            && (Ages(s) ==> r.counter == s.epochSize)
            && (s.counter == 0 && !Ages(s) ==>
                  && r.counter >= 1 && r.counter >= s.epochSize - |CurrentSlots(s.t)| && r.counter >= s.epochSize / 16
                  && r.counter in {1, s.epochSize - |CurrentSlots(s.t)|, s.epochSize / 16})
  {
    RecentCountIs(s.t.collected, s.t.recent);
    assert CurrentSlots(s.t) == set i: nat | i < |s.t.collected| && !s.t.collected[i] && s.t.recent[i];
  }

  // ----- Following one element

  /** A live slot of the current or of the old epoch holds an element. */
  ghost predicate At<E>(t: Table<E>, x: E, current: bool)
    requires Shaped(t)
  {
    exists i: nat :: i < |t.elems| && !t.collected[i] && t.elems[i] == x && t.recent[i] == current
  }

  lemma AtSlot<E>(t: Table<E>, i: nat)
    requires Shaped(t) && i < |t.elems| && !t.collected[i]
    ensures At(t, t.elems[i], t.recent[i])
  {
  }

  /** Eviction moves every element with its epoch, except one it loses. */
  lemma {:induction false} DisplaceMoves<E>(f: Hash<E>, t: Table<E>, e: E, last: int, epoch: bool, depth: nat, x: E, current: bool)
    requires Shaped(t) && (At(t, x, current) || (x == e && current == epoch))
    ensures var r := Displace(f, t, e, last, epoch, depth);
            Shaped(r.t) && ((r.Dropped? && r.lost == x) || At(r.t, x, current))
    decreases depth
  {
    hide Locs, FirstFree, Victim;
    if depth > 0 {
      var locs := Locs(f, |t.elems|, e);
      var k := FirstFree(t, locs, 0);
      if k < WAYS {
        PutAt(t, locs[k], e, epoch, x, current);
      } else {
        var v := Victim(locs, last);
        var t' := t.(elems := t.elems[v := e], recent := t.recent[v := epoch]);
        EvictAt(t, v, e, epoch, x, current);
        DisplaceMoves(f, t', t.elems[v], v, t.recent[v], depth - 1, x, current);
      }
    }
  }

  lemma PutAt<E>(t: Table<E>, l: nat, e: E, epoch: bool, x: E, current: bool)
    requires Shaped(t) && l < |t.elems| && t.collected[l]
    ensures At(Put(t, l, e, epoch), x, current) <==> At(t, x, current) || (x == e && current == epoch)
  {
    var u := Put(t, l, e, epoch);
    AtSlot(u, l);
    if At(t, x, current) {
      var i: nat :| i < |t.elems| && !t.collected[i] && t.elems[i] == x && t.recent[i] == current;
      AtSlot(u, i);
    }
    if At(u, x, current) {
      var i: nat :| i < |u.elems| && !u.collected[i] && u.elems[i] == x && u.recent[i] == current;
      if i != l {
        AtSlot(t, i);
      }
    }
  }

  lemma EvictAt<E>(t: Table<E>, v: nat, e: E, epoch: bool, x: E, current: bool)
    requires Shaped(t) && v < |t.elems| && !t.collected[v]
    ensures var u := t.(elems := t.elems[v := e], recent := t.recent[v := epoch]);
            && (At(t, x, current) ==> At(u, x, current) || (x == t.elems[v] && current == t.recent[v]))
            && (x == e && current == epoch ==> At(u, x, current))
            && (At(u, x, current) ==> At(t, x, current) || (x == e && current == epoch))
            && At(t, t.elems[v], t.recent[v])
  {
    var u := t.(elems := t.elems[v := e], recent := t.recent[v := epoch]);
    AtSlot(t, v);
    AtSlot(u, v);
    if At(t, x, current) {
      var i: nat :| i < |t.elems| && !t.collected[i] && t.elems[i] == x && t.recent[i] == current;
      if i != v {
        AtSlot(u, i);
      }
    }
    if At(u, x, current) {
      var i: nat :| i < |u.elems| && !u.collected[i] && u.elems[i] == x && u.recent[i] == current;
      if i != v {
        AtSlot(t, i);
      }
    }
  }

  /** Eviction makes nothing live that was not, and moves nothing into another epoch. */
  lemma {:induction false} DisplaceAddsNone<E>(f: Hash<E>, t: Table<E>, e: E, last: int, epoch: bool, depth: nat, x: E, current: bool)
    requires Shaped(t)
    requires var r := Displace(f, t, e, last, epoch, depth); Shaped(r.t) && At(r.t, x, current)
    ensures At(t, x, current) || (x == e && current == epoch)
    decreases depth
  {
    hide Locs, FirstFree, Victim;
    if depth > 0 {
      var locs := Locs(f, |t.elems|, e);
      var k := FirstFree(t, locs, 0);
      if k < WAYS {
        PutAt(t, locs[k], e, epoch, x, current);
      } else {
        var v := Victim(locs, last);
        var t' := t.(elems := t.elems[v := e], recent := t.recent[v := epoch]);
        EvictAt(t, v, e, epoch, x, current);
        DisplaceAddsNone(f, t', t.elems[v], v, t.recent[v], depth - 1, x, current);
      }
    }
  }

  /** An insertion leaves the new element live in the current epoch and all others as they were, except one it loses. */
  lemma InsertMoves<E>(f: Hash<E>, t: Table<E>, e: E, depth: nat, x: E, current: bool)
    requires Shaped(t)
    ensures var r := Insert(f, t, e, depth);
            && Shaped(r.t)
            && (x == e && current ==> (r.Dropped? && r.lost == x) || At(r.t, x, current))
            && (x != e && At(t, x, current) ==> (r.Dropped? && r.lost == x) || At(r.t, x, current))
            && (x != e && At(r.t, x, current) ==> At(t, x, current))
  {
    hide Locs, FirstHolding, Displace;
    var locs := Locs(f, |t.elems|, e);
    var k := FirstHolding(t, locs, e, 0);
    if k < WAYS {
      RenewAt(t, locs[k], x, current);
    } else {
      var r := Displace(f, t, e, -1, true, depth);
      if At(t, x, current) || (x == e && current) {
        DisplaceMoves(f, t, e, -1, true, depth, x, current);
      } else {
        DisplaceShaped(f, t, e, depth);
        if At(r.t, x, current) {
          DisplaceAddsNone(f, t, e, -1, true, depth, x, current);
        }
      }
    }
  }

  lemma DisplaceShaped<E>(f: Hash<E>, t: Table<E>, e: E, depth: nat)
    requires Shaped(t)
    ensures Shaped(Displace(f, t, e, -1, true, depth).t)
  {
    DisplaceMoves(f, t, e, -1, true, depth, e, true);
  }

  lemma RenewAt<E>(t: Table<E>, l: nat, x: E, current: bool)
    requires Shaped(t) && l < |t.elems|
    ensures var u := t.(collected := t.collected[l := false], recent := t.recent[l := true]);
            && At(u, t.elems[l], true)
            && (x != t.elems[l] ==> (At(u, x, current) <==> At(t, x, current)))
  {
    var u := t.(collected := t.collected[l := false], recent := t.recent[l := true]);
    AtSlot(u, l);
    if x != t.elems[l] && At(t, x, current) {
      var i: nat :| i < |t.elems| && !t.collected[i] && t.elems[i] == x && t.recent[i] == current;
      AtSlot(u, i);
    }
    if x != t.elems[l] && At(u, x, current) {
      var i: nat :| i < |u.elems| && !u.collected[i] && u.elems[i] == x && u.recent[i] == current;
      AtSlot(t, i);
    }
  }

  /** Ageing discards what is old and makes old what is current. */
  lemma AgeingMoves<E>(s: State<E>, x: E)
    requires Shaped(s.t)
    ensures var r := EpochCheck(s);
            && Shaped(r.t)
            && (At(r.t, x, true) <==> At(s.t, x, true) && !Ages(s))
            && (At(r.t, x, false) <==> if Ages(s) then At(s.t, x, true) else At(s.t, x, false))
  {
    EpochCheckEffect(s);
    hide EpochCheck, Ages;
    var r := EpochCheck(s);
    forall c | At(s.t, x, c) ensures !Ages(s) ==> At(r.t, x, c) {
      var i: nat :| i < |s.t.elems| && !s.t.collected[i] && s.t.elems[i] == x && s.t.recent[i] == c;
      if !Ages(s) {
        AtSlot(r.t, i);
      }
    }
    if At(s.t, x, true) && Ages(s) {
      var i: nat :| i < |s.t.elems| && !s.t.collected[i] && s.t.elems[i] == x && s.t.recent[i] == true;
      AtSlot(r.t, i);
    }
    forall c | At(r.t, x, c) ensures At(s.t, x, if Ages(s) then true else c) && !(c && Ages(s)) {
      var i: nat :| i < |r.t.elems| && !r.t.collected[i] && r.t.elems[i] == x && r.t.recent[i] == c;
      AtSlot(s.t, i);
    }
  }

  /** Erasing an element that occurs once makes it erasable, and touches no other element. */
  lemma EraseMoves<E>(f: Hash<E>, default: E, t: Table<E>, e: E, x: E, current: bool)
    requires TableOk(f, default, t)
    ensures var u := Erase(f, t, e);
            && Shaped(u) && u.elems == t.elems && u.recent == t.recent
            && (x != e ==> (At(u, x, current) <==> At(t, x, current)))
            && (At(u, x, current) ==> At(t, x, current))
            && (e != default ==> !At(u, e, current))
  {
    hide Placed, Distinct, Locs, FirstHolding;
    var u := Erase(f, t, e);
    if At(t, x, current) && x != e {
      var i: nat :| i < |t.elems| && !t.collected[i] && t.elems[i] == x && t.recent[i] == current;
      AtSlot(u, i);
    }
    if At(u, x, current) {
      var i: nat :| i < |u.elems| && !u.collected[i] && u.elems[i] == x && u.recent[i] == current;
      AtSlot(t, i);
    }
    if e != default {
      ErasedGone(f, default, t, e, current);
    }
  }

  lemma ErasedGone<E>(f: Hash<E>, default: E, t: Table<E>, e: E, current: bool)
    requires TableOk(f, default, t) && e != default
    ensures !At(Erase(f, t, e), e, current)
  {
    var u := Erase(f, t, e);
    var locs := Locs(f, |t.elems|, e);
    forall i: nat | i < |u.elems| && u.elems[i] == e ensures u.collected[i] {
      assert i in locs;
      var j :| 0 <= j < WAYS && locs[j] == i;
      assert FirstHolding(t, locs, e, 0) <= j;
    }
  }

  // ----- Lives of elements over whole runs

  /** A step neither erases an element nor loses it. */
  predicate SparedBy<E(==)>(f: Hash<E>, s: State<E>, op: Op<E>, x: E)
    requires Shaped(s.t)
  {
    match op
    case InsertOp(e, depth) => var r := Insert(f, EpochCheck(s).t, e, depth); r.Stored? || r.lost != x
    case EraseOp(e) => e != x
  }

  ghost predicate Spared<E>(f: Hash<E>, default: E, s: State<E>, ops: seq<Op<E>>, x: E)
    requires TableOk(f, default, s.t) && EpochBound(s) && s.epochSize >= 1
    decreases |ops|
  {
    ops != [] ==>
      && SparedBy(f, s, ops[0], x)
      && (ApplyKeeps(f, default, s, ops[0]); Spared(f, default, Apply(f, s, ops[0]), ops[1..], x))
  }

  /** How many epochs end in a run. */
  ghost function Agings<E>(f: Hash<E>, default: E, s: State<E>, ops: seq<Op<E>>): nat
    requires TableOk(f, default, s.t) && EpochBound(s) && s.epochSize >= 1
    decreases |ops|
  {
    if ops == [] then 0
    else
      ApplyKeeps(f, default, s, ops[0]);
      (if ops[0].InsertOp? && Ages(s) then 1 else 0) + Agings(f, default, Apply(f, s, ops[0]), ops[1..])
  }

  /** One step: without an ageing a spared element keeps its epoch, or gains the current one; an ageing makes it old. */
  lemma ApplySpares<E>(f: Hash<E>, default: E, s: State<E>, op: Op<E>, x: E)
    requires TableOk(f, default, s.t) && EpochBound(s) && s.epochSize >= 1 && SparedBy(f, s, op, x)
    ensures var r, ages := Apply(f, s, op), op.InsertOp? && Ages(s);
            && Shaped(r.t)
            && (At(s.t, x, true) && !ages ==> At(r.t, x, true))
            && (At(s.t, x, true) || (At(s.t, x, false) && !ages) ==> At(r.t, x, true) || At(r.t, x, false))
  {
    hide Insert, Erase, EpochCheck, Ages, At, EpochBound, TableOk;
    OkShaped(f, default, s.t);
    match op
    case InsertOp(e, depth) =>
      AgeingMoves(s, x);
      InsertMoves(f, EpochCheck(s).t, e, depth, x, true);
      InsertMoves(f, EpochCheck(s).t, e, depth, x, false);
    case EraseOp(e) =>
      EraseMoves(f, default, s.t, e, x, true);
      EraseMoves(f, default, s.t, e, x, false);
  }

  /** A spared element of the current epoch is live after any run in which at most one epoch ends. */
  lemma {:induction false} RunSpares<E>(f: Hash<E>, default: E, s: State<E>, ops: seq<Op<E>>, x: E)
    requires TableOk(f, default, s.t) && EpochBound(s) && s.epochSize >= 1
    requires Spared(f, default, s, ops, x)
    ensures var r, n := RunOf(f, default, s, ops), Agings(f, default, s, ops);
            && Shaped(r.t)
            && (n == 0 && At(s.t, x, true) ==> At(r.t, x, true))
            && (n == 0 && At(s.t, x, false) ==> At(r.t, x, true) || At(r.t, x, false))
            && (n <= 1 && At(s.t, x, true) ==> At(r.t, x, true) || At(r.t, x, false))
    decreases |ops|
  {
    if ops != [] {
      hide TableOk, EpochBound, Apply, At, Ages, SparedBy;
      ApplyKeeps(f, default, s, ops[0]);
      ApplySpares(f, default, s, ops[0], x);
      RunSpares(f, default, Apply(f, s, ops[0]), ops[1..], x);
    }
  }

  /** One step in which an element is not inserted makes it neither live nor current. */
  lemma ApplyAddsNone<E>(f: Hash<E>, default: E, s: State<E>, op: Op<E>, x: E)
    requires TableOk(f, default, s.t) && EpochBound(s) && s.epochSize >= 1 && !(op.InsertOp? && op.e == x)
    ensures var r, ages := Apply(f, s, op), op.InsertOp? && Ages(s);
            && Shaped(r.t)
            && (At(r.t, x, true) ==> At(s.t, x, true) && !ages)
            && (At(r.t, x, false) ==> if ages then At(s.t, x, true) else At(s.t, x, false))
  {
    hide Insert, Erase, EpochCheck, Ages, At, EpochBound, TableOk;
    OkShaped(f, default, s.t);
    match op
    case InsertOp(e, depth) =>
      AgeingMoves(s, x);
      InsertMoves(f, EpochCheck(s).t, e, depth, x, true);
      InsertMoves(f, EpochCheck(s).t, e, depth, x, false);
    case EraseOp(e) =>
      EraseMoves(f, default, s.t, e, x, true);
      EraseMoves(f, default, s.t, e, x, false);
  }

  /** An element that is not inserted again is not live after a run in which two epochs end. */
  lemma {:induction false} RunForgets<E>(f: Hash<E>, default: E, s: State<E>, ops: seq<Op<E>>, x: E)
    requires TableOk(f, default, s.t) && EpochBound(s) && s.epochSize >= 1
    requires !Inserts(ops, x)
    ensures var r, n := RunOf(f, default, s, ops), Agings(f, default, s, ops);
            && Shaped(r.t)
            && (At(r.t, x, true) ==> At(s.t, x, true) && n == 0)
            && (At(r.t, x, false) ==> (At(s.t, x, true) && n == 1) || (At(s.t, x, false) && n == 0))
    decreases |ops|
  {
    if ops != [] {
      hide TableOk, EpochBound, Apply, At, Ages;
      assert !(ops[0].InsertOp? && ops[0].e == x);
      TailInserts(ops, x);
      ApplyKeeps(f, default, s, ops[0]);
      ApplyAddsNone(f, default, s, ops[0], x);
      RunForgets(f, default, Apply(f, s, ops[0]), ops[1..], x);
    }
  }

  lemma TailInserts<E>(ops: seq<Op<E>>, x: E)
    requires ops != []
    ensures Inserts(ops[1..], x) ==> Inserts(ops, x)
  {
    if Inserts(ops[1..], x) {
      var k :| 0 <= k < |ops[1..]| && ops[1..][k].InsertOp? && ops[1..][k].e == x;
      assert ops[k + 1] == ops[1..][k];
    }
  }

  lemma AtLive<E>(t: Table<E>, x: E)
    requires Shaped(t)
    ensures x in Live(t.elems, t.collected) <==> At(t, x, true) || At(t, x, false)
  {
    if x in Live(t.elems, t.collected) {
      var i := LiveFrom(t.elems, t.collected, x);
      AtSlot(t, i);
    }
    forall c | At(t, x, c) ensures x in Live(t.elems, t.collected) {
      var i: nat :| i < |t.elems| && !t.collected[i] && t.elems[i] == x && t.recent[i] == c;
      LiveHas(t.elems, t.collected, i);
    }
  }

  /**
   The life of an element, over every run after its insertion. If it is neither
   erased nor lost, it is live and found until a second epoch ends. If it is not
   inserted again, it is erasable once a second epoch has ended.
   */
  lemma LifeOfElement<E>(f: Hash<E>, default: E, s: State<E>, x: E, depth: nat, ops: seq<Op<E>>)
    requires TableOk(f, default, s.t) && EpochBound(s) && s.epochSize >= 1
    ensures TableOk(f, default, Apply(f, s, InsertOp(x, depth)).t) && EpochBound(Apply(f, s, InsertOp(x, depth)))
    ensures Apply(f, s, InsertOp(x, depth)).epochSize == s.epochSize
    ensures var u := Apply(f, s, InsertOp(x, depth));
            var r, n := RunOf(f, default, u, ops), Agings(f, default, u, ops);
            && Shaped(r.t)
            && (SparedBy(f, s, InsertOp(x, depth), x) && Spared(f, default, u, ops, x) && n <= 1 ==>
                  x in Live(r.t.elems, r.t.collected) && Contains(f, r.t, x))
            && (n >= 2 && !Inserts(ops, x) ==> x !in Live(r.t.elems, r.t.collected))
  {
    hide TableOk, EpochBound, Insert, EpochCheck, At, Live, Contains, RunOf, Agings, Spared, Inserts;
    ApplyKeeps(f, default, s, InsertOp(x, depth));
    OkShaped(f, default, s.t);
    AgeingMoves(s, x);
    InsertMoves(f, EpochCheck(s).t, x, depth, x, true);
    var u := Apply(f, s, InsertOp(x, depth));
    hide Apply;
    OkShaped(f, default, u.t);
    RunKeeps(f, default, u, ops);
    var r := RunOf(f, default, u, ops);
    OkShaped(f, default, r.t);
    AtLive(r.t, x);
    if SparedBy(f, s, InsertOp(x, depth), x) && Spared(f, default, u, ops, x) {
      RunSpares(f, default, u, ops, x);
    }
    if !Inserts(ops, x) {
      RunForgets(f, default, u, ops, x);
    }
  }
}
