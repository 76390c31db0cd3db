/**
 The operations of the address manager on values, that each keeps the whole
 consistency invariant, and what each does to the tables.
 */
module AddrManOps {
  import opened Powers
  import opened AddrManState

  // ----- Adding addresses

  /** Give an entry a slot in the new table, or drop it when it has none and gets none. */
  function Place(s: State, id: int, source: NetAddr, now: int): State
    requires id in s.info
    requires Inv(s, {}, {}) || Inv(s, {id}, {})
  {
    var slot := NewSlot(s.h, s.info[id].service, NewBucket(s.h, s.info[id].service, source));
    SlotOwner(s, id, slot);
    if s.vNew[slot] == id then s
    else if Displaceable(s, id, slot, now) then Link(ClearNew(s, slot), id, slot)
    else if s.info[id].refCount == 0 then Delete(s, id)
    else s
  }

  predicate Displaceable(s: State, id: int, slot: nat, now: int)
    requires slot < |s.vNew| && id in s.info && (s.vNew[slot] == EMPTY || s.vNew[slot] in s.info)
  {
    || s.vNew[slot] == EMPTY
    || IsTerrible(s.info[s.vNew[slot]], now)
    || (s.info[s.vNew[slot]].refCount > 1 && s.info[id].refCount == 0)
  }

  lemma SlotOwner(s: State, id: int, slot: nat)
    requires Inv(s, {}, {}) || Inv(s, {id}, {})
    requires slot < NEW_SLOTS && id in s.info
    ensures |s.vNew| == NEW_SLOTS && (s.vNew[slot] == EMPTY || s.vNew[slot] in s.info)
    ensures Listed(s.info, s.random)
    ensures s.vNew[slot] != id ==> id in ClearNew(s, slot).info && |ClearNew(s, slot).vNew| == NEW_SLOTS
  {
    hide Indexed, TriedTable, RefCounts, IdsInRange, TriedIds, NewIds, Refs, NewTable, Listed;
    ClearNewKeeps(s, slot, if Inv(s, {}, {}) then {} else {id}, {});
    ClearNewEffect(s, slot);
  }

  /** An entry that already has a slot keeps the invariant when placed again. */
  lemma PlaceAgainKeeps(s: State, id: int, source: NetAddr, now: int)
    requires Consistent(s) && id in s.info && !s.info[id].inTried && s.info[id].refCount < BUCKETS_PER_ADDRESS
    ensures Consistent(Place(s, id, source, now))
  {
    hide Indexed, Listed, TriedTable, NewTable, IdsInRange, TriedIds, NewIds, Refs;
    var slot := NewSlot(s.h, s.info[id].service, NewBucket(s.h, s.info[id].service, source));
    SlotOwner(s, id, slot);
    if s.vNew[slot] != id && Displaceable(s, id, slot, now) {
      PlaceByClearing(s, id, slot, {});
    }
  }

  lemma PlaceByClearing(s: State, id: int, slot: nat, pending: set<int>)
    requires Inv(s, pending, {}) && pending <= {id} && id in s.info && !s.info[id].inTried
    requires s.info[id].refCount < BUCKETS_PER_ADDRESS
    requires slot < NEW_SLOTS && |s.vNew| == NEW_SLOTS && s.vNew[slot] != id
    requires s.vNew[slot] == EMPTY || s.vNew[slot] in s.info
    requires NewSlot(s.h, s.info[id].service, slot / BUCKET_SIZE) == slot
    ensures Listed(s.info, s.random) && id in ClearNew(s, slot).info
    ensures Consistent(Link(ClearNew(s, slot), id, slot))
  {
    hide Indexed, Listed, TriedTable, NewTable, RefCounts, IdsInRange, TriedIds, NewIds, Refs;
    ClearNewKeeps(s, slot, pending, {});
    ClearNewEffect(s, slot);
    hide ClearNew;
    var t := ClearNew(s, slot);
    LinkKeeps(t, id, slot, pending, {});
    assert pending - {id} == {};
  }

  /** A pending entry is placed or dropped. */
  lemma PlaceNewKeeps(s: State, id: int, source: NetAddr, now: int)
    requires Inv(s, {id}, {}) && id in s.info
    ensures Consistent(Place(s, id, source, now))
  {
    hide Indexed, Listed, TriedTable, NewTable, RefCounts, IdsInRange, TriedIds, NewIds, Refs;
    var slot := NewSlot(s.h, s.info[id].service, NewBucket(s.h, s.info[id].service, source));
    SlotOwner(s, id, slot);
    LooseHasNoRefs(s, id, {id}, {});
    NoSlotHolds(s.vNew, id, slot);
    if Displaceable(s, id, slot, now) {
      PlaceByClearing(s, id, slot, {id});
    } else {
      DeleteKeeps(s, id, {id}, {});
      assert {id} - {id} == {};
    }
  }

  lemma NoSlotHolds(table: seq<int>, id: int, slot: nat)
    requires slot < |table| && Refs(table, id) == {}
    ensures table[slot] != id
  {
    assert slot !in Refs(table, id);
  }

  /** The statistics of a known entry after its address is announced again. */
  function Announced(i: Info, a: Address, penalty: int, now: int): (r: Info)
    ensures SameLinks(i, r)
  {
    var interval := if now - a.time < 24 * 60 * 60 then 60 * 60 else 24 * 60 * 60;
    var time := if a.time != 0 && (i.time == 0 || i.time < a.time - interval - penalty)
                then U32(Max0(a.time - penalty)) else i.time;
    i.(time := time, services := i.services + a.services)
  }

  /** Whether a known entry is refused a further reference. */
  predicate Refused(i: Info, a: Address, rnd: nat)
  {
    || a.time == 0 || (i.time != 0 && a.time <= i.time)
    || i.inTried
    || i.refCount == BUCKETS_PER_ADDRESS
    || (i.refCount > 0 && rnd % Pow2(i.refCount) != 0)
  }

  datatype AddResult = AddResult(s: State, added: bool)

  function Add(s: State, a: Address, source: NetAddr, timePenalty: int, now: int, rnd: nat): AddResult
    requires Consistent(s)
  {
    if !s.h.isRoutable(a.service.net) then AddResult(s, false)
    else
      var penalty := if a.service.net == source then 0 else timePenalty;
      var id := Find(s, a.service.net);
      if id != EMPTY then
        var i := Announced(s.info[id], a, penalty, now);
        var t := SetInfo(s, id, i);
        TouchKeeps(s, id, i, {}, {});
        AddResult(if Refused(i, a, rnd) then t else Place(t, id, source, now), false)
      else
        var t := Created(s, a, source, penalty);
        CreatedKeeps(s, a, source, penalty);
        AddResult(Place(t, s.idCount, source, now), true)
  }

  /** The state after creating an entry and counting it. */
  function Created(s: State, a: Address, source: NetAddr, penalty: int): State
  {
    var t := Create(s, a, source);
    var i := t.info[s.idCount];
    SetInfo(t, s.idCount, i.(time := U32(Max0(i.time - penalty)))).(nNew := s.nNew + 1)
  }

  lemma CreatedKeeps(s: State, a: Address, source: NetAddr, penalty: int)
    requires Consistent(s) && Find(s, a.service.net) == EMPTY
    ensures Inv(Created(s, a, source, penalty), {s.idCount}, {})
    ensures s.idCount in Created(s, a, source, penalty).info
  {
    hide Listed, TriedTable, NewTable, RefCounts, IdsInRange, TriedIds, NewIds, Refs;
    NotIndexed(s, a.service.net);
    CreateKeeps(s, a, source, {});
    assert {} + {s.idCount} == {s.idCount};
    var t := Create(s, a, source);
    var i := t.info[s.idCount];
    TouchKeeps(t.(nNew := s.nNew + 1), s.idCount, i.(time := U32(Max0(i.time - penalty))), {s.idCount}, {});
  }

  lemma NotIndexed(s: State, net: NetAddr)
    requires Consistent(s) && Find(s, net) == EMPTY
    ensures net !in s.addrs
  {
    hide Listed, TriedTable, NewTable, RefCounts, TriedIds, NewIds, Refs;
  }

  lemma AddKeeps(s: State, a: Address, source: NetAddr, timePenalty: int, now: int, rnd: nat)
    requires Consistent(s)
    ensures Consistent(Add(s, a, source, timePenalty, now, rnd).s)
  {
    hide Inv, Place, Pow2, U32;
    if s.h.isRoutable(a.service.net) {
      var penalty := if a.service.net == source then 0 else timePenalty;
      var id := Find(s, a.service.net);
      if id != EMPTY {
        var i := Announced(s.info[id], a, penalty, now);
        TouchKeeps(s, id, i, {}, {});
        if !Refused(i, a, rnd) {
          var t := SetInfo(s, id, i);
          RefCountBounded(t, id);
          PlaceAgainKeeps(t, id, source, now);
        }
      } else {
        CreatedKeeps(s, a, source, penalty);
        PlaceNewKeeps(Created(s, a, source, penalty), s.idCount, source, now);
      }
    }
  }

  lemma RefCountBounded(s: State, id: int)
    requires Consistent(s) && id in s.info
    ensures 0 <= s.info[id].refCount <= BUCKETS_PER_ADDRESS
  {
    hide Indexed, Listed, TriedTable, NewTable, IdsInRange, TriedIds, NewIds, Refs;
  }

  /** The entry displaced from a slot lost one reference, and is gone if that was its last. */
  predicate Displaced(before: map<int, Info>, after: map<int, Info>, id: int)
  {
    if id == EMPTY then after.Keys == before.Keys
    else
      && id in before
      && after.Keys == (if before[id].refCount == 1 then before.Keys - {id} else before.Keys)
      && (id in after ==> SameEntry(after[id], before[id].(refCount := before[id].refCount - 1)))
  }

  /** Placing an entry touches only it and the occupant it displaces. */
  lemma PlaceEffect(s: State, id: int, source: NetAddr, now: int)
    requires id in s.info
    requires Inv(s, {}, {}) || Inv(s, {id}, {})
    ensures |s.vNew| == NEW_SLOTS
    ensures var t := Place(s, id, source, now);
            var slot := NewSlot(s.h, s.info[id].service, NewBucket(s.h, s.info[id].service, source));
            var holder := s.vNew[slot];
            && (holder == EMPTY || holder in s.info)
            && t == s.(info := t.info, addrs := t.addrs, random := t.random, nNew := t.nNew, vNew := t.vNew)
            && (forall n :: n in t.info && n != id && n != holder ==> n in s.info && SameEntry(s.info[n], t.info[n]))
            && if holder != id && Displaceable(s, id, slot, now) then
                 && t.vNew == s.vNew[slot := id]
                 && Displaced(s.info, t.info, holder)
                 && id in t.info && SameEntry(t.info[id], s.info[id].(refCount := s.info[id].refCount + 1))
               else
                 && t.vNew == s.vNew
                 && t.info.Keys == (if s.info[id].refCount == 0 && holder != id then s.info.Keys - {id} else s.info.Keys)
                 && forall n :: n in t.info ==> SameEntry(s.info[n], t.info[n])
  {
    hide Indexed, Listed, TriedTable, NewTable, RefCounts, IdsInRange, TriedIds, NewIds, Refs, IsTerrible;
    var slot := NewSlot(s.h, s.info[id].service, NewBucket(s.h, s.info[id].service, source));
    SlotOwner(s, id, slot);
    if s.vNew[slot] == id {
    } else if Displaceable(s, id, slot, now) {
      ClearNewEffect(s, slot);
      hide ClearNew;
    } else if s.info[id].refCount == 0 {
      DeleteEffect(s, id);
      hide Delete;
    }
  }

  /** A time moved back by a penalty, but not before the epoch, in the 32 bits kept of it. */
  function Penalised(time: int, penalty: int): int
  {
    if time < penalty then 0 else (time - penalty) % 0x1_0000_0000
  }

  lemma PenalisedTime(time: int, penalty: int)
    ensures U32(Max0(time - penalty)) == Penalised(time, penalty)
  {
  }

  /**
   An unknown routable address is stored in the slot its source selects when
   that slot is free or its holder can be displaced, and otherwise not at all.
   */
  lemma AddUnknown(s: State, a: Address, source: NetAddr, timePenalty: int, now: int, rnd: nat)
    requires Consistent(s) && s.h.isRoutable(a.service.net) && Find(s, a.service.net) == EMPTY
    ensures |s.vNew| == NEW_SLOTS
    ensures var r, id := Add(s, a, source, timePenalty, now, rnd), s.idCount;
            var t := r.s;
            var penalty := if a.service.net == source then 0 else timePenalty;
            var slot := NewSlot(s.h, a.service, NewBucket(s.h, a.service, source));
            var holder := s.vNew[slot];
            && r.added && id !in s.info
            && (holder == EMPTY || holder in s.info)
            && if holder == EMPTY || IsTerrible(s.info[holder], now) || s.info[holder].refCount > 1 then
                 && t.vNew == s.vNew[slot := id]
                 && id in t.info && t.info[id].service == a.service && t.info[id].source == source
                 && t.info[id].services == a.services && t.info[id].time == Penalised(a.time, penalty)
                 && t.info[id].attempts == 0 && t.info[id].lastTry == 0 && t.info[id].lastSuccess == 0
                 && t.info[id].refCount == 1 && !t.info[id].inTried
                 && Displaced(s.info, t.info - {id}, holder)
                 && forall n :: n in t.info && n != id && n != holder ==> SameEntry(s.info[n], t.info[n])
               else
                 && t.vNew == s.vNew && t.info.Keys == s.info.Keys
                 && forall n :: n in t.info ==> SameEntry(s.info[n], t.info[n])
  {
    hide Indexed, Listed, TriedTable, NewTable, RefCounts, IdsInRange, TriedIds, NewIds, Refs, IsTerrible, U32, Max0, Penalised, NewSlot, NewBucket;
    var penalty := if a.service.net == source then 0 else timePenalty;
    CreatedKeeps(s, a, source, penalty);
    PenalisedTime(a.time, penalty);
    var c, id := Created(s, a, source, penalty), s.idCount;
    FreshId(s.info, s.idCount);
    var slot := NewSlot(s.h, a.service, NewBucket(s.h, a.service, source));
    SlotOwner(c, id, slot);
    LooseHasNoRefs(c, id, {id}, {});
    NoSlotHolds(c.vNew, id, slot);
    PlaceEffect(c, id, source, now);
    hide Place;
    assert c.info - {id} == s.info;
    var t := Place(c, id, source, now);
    assert (t.info - {id}).Keys == t.info.Keys - {id};
  }

  lemma FreshId(info: map<int, Info>, idCount: int)
    requires IdsInRange(info, idCount)
    ensures idCount !in info
  {
  }

  /** A known address gains at most one reference, and otherwise only statistics. */
  lemma AddKnown(s: State, a: Address, source: NetAddr, timePenalty: int, now: int, rnd: nat)
    requires Consistent(s) && s.h.isRoutable(a.service.net) && Find(s, a.service.net) != EMPTY
    ensures |s.vNew| == NEW_SLOTS
    ensures var r, id := Add(s, a, source, timePenalty, now, rnd), s.addrs[a.service.net];
            var t := r.s;
            var penalty := if a.service.net == source then 0 else timePenalty;
            var i := Announced(s.info[id], a, penalty, now);
            var slot := NewSlot(s.h, i.service, NewBucket(s.h, i.service, source));
            var holder := s.vNew[slot];
            && !r.added && (holder == EMPTY || holder in s.info)
            && if || a.time == 0 || (i.time != 0 && a.time <= i.time) || i.inTried || i.refCount == 8
                  || !(i.refCount >= 0 && rnd % Pow2(i.refCount) == 0) || holder == id || (holder != EMPTY && !IsTerrible(s.info[holder], now)) then
                 t == s.(info := s.info[id := i])
               else
                 && t.vNew == s.vNew[slot := id]
                 && Displaced(s.info, t.info, holder)
                 && id in t.info && SameEntry(t.info[id], i.(refCount := i.refCount + 1))
                 && forall n :: n in t.info && n != id && n != holder ==> SameEntry(s.info[n], t.info[n])
  {
    hide Indexed, Listed, TriedTable, NewTable, RefCounts, IdsInRange, TriedIds, NewIds, Refs, IsTerrible, Pow2, Announced;
    var penalty := if a.service.net == source then 0 else timePenalty;
    var id := Find(s, a.service.net);
    var i := Announced(s.info[id], a, penalty, now);
    var u := SetInfo(s, id, i);
    TouchKeeps(s, id, i, {}, {});
    var slot := NewSlot(s.h, i.service, NewBucket(s.h, i.service, source));
    SlotOwner(u, id, slot);
    PlaceEffect(u, id, source, now);
    NewHasRefs(u, id);
    assert u.info.Keys == s.info.Keys;
    if !Refused(i, a, rnd) && (s.vNew[slot] == id || !Displaceable(u, id, slot, now)) {
    } else {
      hide Place;
    }
  }

  /**
   What an announcement changes in a known entry: it adds services, and it
   never moves the time back. The time follows the announcement, less the
   penalty, once it lags behind by more than an hour, or by more than a day if
   the announcement itself is a day old.
   */
  lemma AnnouncedEffect(i: Info, a: Address, penalty: int, now: int)
    requires 0 <= i.time < 0x1_0000_0000 && 0 <= a.time < 0x1_0000_0000 && 0 <= penalty
    ensures var r, lag := Announced(i, a, penalty, now), if now - a.time < 24 * 3600 then 3600 else 24 * 3600;
            && r == i.(time := r.time, services := r.services)
            && (forall x :: x in r.services <==> x in i.services || x in a.services)
            && r.time >= i.time
            && (a.time == 0 ==> r.time == i.time)
            && (a.time != 0 ==> r.time >= a.time - penalty - lag)
            && (a.time != 0 && i.time == 0 ==> r.time == Penalised(a.time, penalty))
            && (i.time != 0 && i.time >= a.time - penalty - lag ==> r.time == i.time)
            && (r.time != i.time ==> r.time == Penalised(a.time, penalty))
  {
  }

  lemma NewHasRefs(s: State, id: int)
    requires Consistent(s) && id in s.info
    ensures !s.info[id].inTried ==> s.info[id].refCount > 0
  {
    hide Indexed, Listed, TriedTable, NewTable, IdsInRange, TriedIds, NewIds, Refs;
  }

  // ----- Moving entries to the tried table

  /** The new-table slot an entry goes to under its own source. */
  function HomeSlot(h: Hashes, i: Info): (slot: nat)
    ensures slot < NEW_SLOTS
  {
    NewSlot(h, i.service, NewBucket(h, i.service, i.source))
  }

  /** Move the occupant of a tried slot back to the new table, while `id` is adrift. */
  function Demote(s: State, slot: nat, id: int): State
    requires Inv(s, {}, {id})
    requires slot < |s.vTried| && s.vTried[slot] in s.info && s.vTried[slot] != EMPTY
  {
    var evicted := s.vTried[slot];
    var e := Evict(s, slot);
    var home := HomeSlot(s.h, e.info[evicted]);
    DemoteReady(s, slot, home, id);
    var t := Link(ClearNew(e, home), evicted, home);
    t.(nNew := t.nNew + 1)
  }

  lemma DemoteReady(s: State, slot: nat, home: nat, id: int)
    requires Inv(s, {}, {id})
    requires slot < |s.vTried| && s.vTried[slot] != EMPTY && s.vTried[slot] in s.info && home < NEW_SLOTS
    ensures var e := Evict(s, slot);
            && Listed(e.info, e.random) && |e.vNew| == NEW_SLOTS
            && (e.vNew[home] == EMPTY || e.vNew[home] in e.info)
            && e.vNew[home] != s.vTried[slot]
            && s.vTried[slot] in ClearNew(e, home).info
            && |ClearNew(e, home).vNew| == NEW_SLOTS
  {
    hide Indexed, Listed, TriedTable, NewTable, RefCounts, IdsInRange, TriedIds, NewIds, Refs;
    EvictKeeps(s, slot, {id});
    var e, evicted := Evict(s, slot), s.vTried[slot];
    ClearNewKeeps(e, home, {}, {id} + {evicted});
    LooseHasNoRefs(e, evicted, {}, {id} + {evicted});
    NoSlotHolds(e.vNew, evicted, home);
    ClearNewEffect(e, home);
  }

  lemma DemoteKeeps(s: State, slot: nat, id: int)
    requires Inv(s, {}, {id})
    requires slot < |s.vTried| && s.vTried[slot] in s.info && s.vTried[slot] != EMPTY
    ensures Inv(Demote(s, slot, id), {}, {id})
  {
    hide Inv, ClearNew, Listed;
    var evicted := s.vTried[slot];
    var e := Evict(s, slot);
    var home := HomeSlot(s.h, e.info[evicted]);
    DemoteReady(s, slot, home, id);
    HomeCleared(s, slot, home, id);
    var c := ClearNew(e, home);
    var d := c.(nNew := c.nNew + 1);
    LooseHasNoRefs(d, evicted, {evicted}, {id});
    LinkKeeps(d, evicted, home, {evicted}, {id});
    assert {evicted} - {evicted} == {};
  }

  /** The evicted entry is counted as new again, and its home slot is empty. */
  lemma HomeCleared(s: State, slot: nat, home: nat, id: int)
    requires Inv(s, {}, {id}) && slot < |s.vTried| && s.vTried[slot] in s.info && s.vTried[slot] != EMPTY
    requires home == HomeSlot(s.h, s.info[s.vTried[slot]])
    ensures var e, evicted := Evict(s, slot), s.vTried[slot];
            && evicted != id && Listed(e.info, e.random) && |e.vNew| == NEW_SLOTS && (e.vNew[home] == EMPTY || e.vNew[home] in e.info)
            && var c := ClearNew(e, home);
               && Inv(c.(nNew := c.nNew + 1), {evicted}, {id})
               && evicted in c.info && c.h == s.h && c.info[evicted].service == s.info[evicted].service
               && |c.vNew| == NEW_SLOTS && c.vNew[home] == EMPTY
  {
    hide Indexed, Listed, TriedTable, NewTable, RefCounts, IdsInRange, TriedIds, NewIds, Refs;
    DemoteReady(s, slot, home, id);
    EvictKeeps(s, slot, {id});
    var e, evicted := Evict(s, slot), s.vTried[slot];
    var adrift := {id} + {evicted};
    ClearNewKeeps(e, home, {}, adrift);
    ClearNewEffect(e, home);
    NotAdriftAndTried(s, slot, id);
    assert adrift - {evicted} == {id};
    assert {} + {evicted} == {evicted};
    hide ClearNew;
    SettleKeeps(ClearNew(e, home), evicted, {}, adrift);
  }

  lemma NotAdriftAndTried(s: State, slot: nat, id: int)
    requires Inv(s, {}, {id}) && slot < |s.vTried| && s.vTried[slot] != EMPTY
    ensures s.vTried[slot] != id
  {
    hide Indexed, Listed, NewTable, RefCounts, IdsInRange, TriedIds, Refs;
  }

  function MakeTried(s: State, id: int): State
    requires Consistent(s) && id in s.info && !s.info[id].inTried
  {
    DetachKeeps(s, id);
    var d := Detach(s, id);
    var slot := TriedSlot(s.h, s.info[id].service);
    TableLengths(d);
    TriedOccupant(d, slot, id);
    Promote(if d.vTried[slot] == EMPTY then d else Demote(d, slot, id), id)
  }

  lemma TriedOccupant(s: State, slot: nat, id: int)
    requires Inv(s, {}, {id}) && slot < |s.vTried|
    ensures s.vTried[slot] == EMPTY || s.vTried[slot] in s.info
    ensures s.vTried[slot] != EMPTY ==> id in Demote(s, slot, id).info
                                        && |Demote(s, slot, id).vTried| == |s.vTried|
  {
    hide Indexed, Listed, NewTable, RefCounts, IdsInRange, TriedIds, Refs, NewIds;
    if s.vTried[slot] != EMPTY {
      DemoteKeeps(s, slot, id);
      DemoteFrame(s, slot, id);
      LooseHasNoRefs(Demote(s, slot, id), id, {}, {id});
    }
  }

  lemma DemoteFrame(s: State, slot: nat, id: int)
    requires Inv(s, {}, {id})
    requires slot < |s.vTried| && s.vTried[slot] in s.info && s.vTried[slot] != EMPTY
    ensures Demote(s, slot, id).vTried == s.vTried[slot := EMPTY]
    ensures Demote(s, slot, id).h == s.h
  {
    hide Indexed, Listed, TriedTable, NewTable, RefCounts, IdsInRange, TriedIds, NewIds, Refs;
    var e := Evict(s, slot);
    var home := HomeSlot(s.h, e.info[s.vTried[slot]]);
    DemoteReady(s, slot, home, id);
    ClearNewEffect(e, home);
    hide ClearNew;
  }

  lemma MakeTriedKeeps(s: State, id: int)
    requires Consistent(s) && id in s.info && !s.info[id].inTried
    ensures Consistent(MakeTried(s, id))
  {
    hide Indexed, Listed, TriedTable, NewTable, RefCounts, IdsInRange, TriedIds, NewIds, Refs, Demote;
    DetachKeeps(s, id);
    var d := Detach(s, id);
    var slot := TriedSlot(s.h, s.info[id].service);
    TableLengths(d);
    TriedOccupant(d, slot, id);
    if d.vTried[slot] == EMPTY {
      PromoteKeeps(d, id, {});
    } else {
      DemoteKeeps(d, slot, id);
      DemoteEffect(d, slot, id);
      PromoteKeeps(Demote(d, slot, id), id, {});
    }
  }

  /** Demotion changes the evicted entry, and the entry it displaces from its home slot. */
  lemma DemoteEffect(s: State, slot: nat, id: int)
    requires Inv(s, {}, {id})
    requires slot < |s.vTried| && s.vTried[slot] in s.info && s.vTried[slot] != EMPTY
    ensures |s.vNew| == NEW_SLOTS
    ensures var t, evicted := Demote(s, slot, id), s.vTried[slot];
            var home := HomeSlot(s.h, s.info[evicted]);
            var displaced := s.vNew[home];
            && t == s.(info := t.info, addrs := t.addrs, random := t.random, nNew := t.nNew, nTried := s.nTried - 1,
                       vNew := s.vNew[home := evicted], vTried := s.vTried[slot := EMPTY])
            && Displaced(s.info, t.info, displaced)
            && evicted in t.info && evicted != id && evicted != displaced && id != displaced && id in t.info
            && SameEntry(t.info[evicted], s.info[evicted].(inTried := false, refCount := s.info[evicted].refCount + 1))
            && (forall n :: n in t.info && n != evicted && n != displaced ==> SameEntry(s.info[n], t.info[n]))
  {
    hide Indexed, Listed, TriedTable, NewTable, RefCounts, IdsInRange, TriedIds, NewIds, Refs;
    var e := Evict(s, slot);
    var evicted := s.vTried[slot];
    var home := HomeSlot(s.h, e.info[evicted]);
    DemoteReady(s, slot, home, id);
    NotAdriftAndTried(s, slot, id);
    LooseHasNoRefs(s, id, {}, {id});
    NoSlotHolds(s.vNew, id, home);
    ClearNewEffect(e, home);
    hide ClearNew;
    assert e.info.Keys == s.info.Keys;
  }

  /**
   Moving an entry to tried: it leaves every new slot and takes its tried slot.
   A previous occupant goes back to the new table with one reference, at the
   slot of its own source, displacing what is there; all others are untouched.
   */
  lemma MakeTriedEffect(s: State, id: int)
    requires Consistent(s) && id in s.info && !s.info[id].inTried
    ensures |s.vTried| == TRIED_SLOTS && |s.vNew| == NEW_SLOTS
    ensures var t, slot := MakeTried(s, id), TriedSlot(s.h, s.info[id].service);
            var evicted, cleared := s.vTried[slot], Without(s.vNew, id);
            && t == s.(info := t.info, addrs := t.addrs, random := t.random, nNew := t.nNew, nTried := t.nTried,
                       vNew := t.vNew, vTried := s.vTried[slot := id])
            && id in t.info && SameEntry(t.info[id], s.info[id].(inTried := true, refCount := 0))
            && evicted != id
            && (evicted == EMPTY ==>
                  && t.vNew == cleared && t.info == s.info[id := t.info[id]])
            && (evicted != EMPTY ==>
                  && evicted in s.info && evicted in t.info
                  && SameEntry(t.info[evicted], s.info[evicted].(inTried := false, refCount := 1))
                  && var home := HomeSlot(s.h, s.info[evicted]);
                     && t.vNew == cleared[home := evicted]
                     && Displaced(s.info, t.info, cleared[home])
                     && forall n :: n in t.info && n !in {id, evicted, cleared[home]} ==> SameEntry(s.info[n], t.info[n]))
  {
    hide Indexed, Listed, TriedTable, NewTable, RefCounts, IdsInRange, TriedIds, NewIds, Refs, Demote, Without;
    DetachKeeps(s, id);
    TableLengths(s);
    var d := Detach(s, id);
    var slot := TriedSlot(s.h, s.info[id].service);
    TableLengths(d);
    TriedOccupant(d, slot, id);
    if d.vTried[slot] != EMPTY {
      DemoteEffect(d, slot, id);
      TriedHasNoRefs(d, slot, id);
      assert d.info.Keys == s.info.Keys;
    } else {
      NoEmptyId(s.info, s.idCount);
      var t := MakeTried(s, id);
      assert t.info == s.info[id := t.info[id]];
    }
  }

  lemma TriedHasNoRefs(s: State, slot: nat, id: int)
    requires Inv(s, {}, {id}) && slot < |s.vTried| && s.vTried[slot] != EMPTY
    ensures s.vTried[slot] in s.info && s.info[s.vTried[slot]].inTried && s.info[s.vTried[slot]].refCount == 0
  {
    hide Indexed, Listed, NewTable, IdsInRange, TriedIds, NewIds, Refs;
  }

  function Good(s: State, svc: Service, testBeforeEvict: bool, time: int): State
    requires Consistent(s)
  {
    var u := s.(lastGood := time);
    var id := Find(u, svc.net);
    if id == EMPTY || u.info[id].service != svc then u
    else
      var i := Succeeded(u.info[id], time);
      var t := SetInfo(u, id, i);
      TouchKeeps(u, id, i, {}, {});
      if i.inTried then t
      else
        var slot := TriedSlot(s.h, svc);
        TableLengths(t);
        if testBeforeEvict && t.vTried[slot] != EMPTY then
          if |t.collisions| < COLLISION_LIMIT then t.(collisions := t.collisions + {id}) else t
        else MakeTried(t, id)
  }

  function Succeeded(i: Info, time: int): Info
  {
    i.(lastSuccess := time, lastTry := time, attempts := 0)
  }

  lemma GoodKeeps(s: State, svc: Service, testBeforeEvict: bool, time: int)
    requires Consistent(s)
    ensures Consistent(Good(s, svc, testBeforeEvict, time))
  {
    hide Indexed, Listed, TriedTable, NewTable, RefCounts, IdsInRange, TriedIds, NewIds, Refs, MakeTried;
    var u := s.(lastGood := time);
    var id := Find(u, svc.net);
    if id != EMPTY && u.info[id].service == svc {
      var i := Succeeded(u.info[id], time);
      var t := SetInfo(u, id, i);
      TouchKeeps(u, id, i, {}, {});
      TableLengths(t);
      if !i.inTried && (!testBeforeEvict || t.vTried[TriedSlot(s.h, svc)] == EMPTY) {
        MakeTriedKeeps(t, id);
      }
    }
  }

  /** A successful connection is recorded in an entry: nothing else about the address changes. */
  predicate Reached(was: Info, now: Info, time: int)
  {
    && now.lastSuccess == time && now.lastTry == time && now.attempts == 0
    && now.service == was.service && now.time == was.time && now.services == was.services
    && now.source == was.source && now.lastCountAttempt == was.lastCountAttempt
  }

  /**
   An entry holds its tried slot after a successful connection, without any
   reference in the new table. The holder it replaced, if any, is in the new
   table with one reference, at the slot of its own source, displacing what is
   there. Nothing else changes.
   */
  ghost predicate TookSlot(s: State, t: State, id: int, slot: nat, time: int)
    requires id in s.info && slot < |s.vTried| && |s.vNew| == NEW_SLOTS
  {
    var holder, cleared := s.vTried[slot], Without(s.vNew, id);
    && t == s.(info := t.info, addrs := t.addrs, random := t.random, nNew := t.nNew, nTried := t.nTried,
               vNew := t.vNew, vTried := s.vTried[slot := id], lastGood := time)
    && id in t.info && Reached(s.info[id], t.info[id], time) && t.info[id].inTried && t.info[id].refCount == 0
    && if holder == EMPTY || holder == id then
         t.vNew == cleared && t.info == s.info[id := t.info[id]]
       else
         && holder in s.info && holder in t.info
         && SameEntry(t.info[holder], s.info[holder].(inTried := false, refCount := 1))
         && var home := HomeSlot(s.h, s.info[holder]);
            && t.vNew == cleared[home := holder]
            && Displaced(s.info, t.info, cleared[home])
            && forall n :: n in t.info && n !in {id, holder, cleared[home]} ==> SameEntry(s.info[n], t.info[n])
  }

  /**
   What a successful connection does: an unknown service only moves the clock;
   an entry that would have to evict a tried one waits as a collision, while
   there is room for it, when it must be tested first; every other entry holds
   its tried slot afterwards.
   */
  lemma GoodEffect(s: State, svc: Service, testBeforeEvict: bool, time: int)
    requires Consistent(s)
    ensures |s.vTried| == TRIED_SLOTS && |s.vNew| == NEW_SLOTS
    ensures var t := Good(s, svc, testBeforeEvict, time);
            if svc.net !in s.addrs || s.addrs[svc.net] !in s.info || s.info[s.addrs[svc.net]].service != svc then
              t == s.(lastGood := time)
            else
              var id, slot := s.addrs[svc.net], TriedSlot(s.h, svc);
              if testBeforeEvict && !s.info[id].inTried && s.vTried[slot] != EMPTY then
                && id in t.info && Reached(s.info[id], t.info[id], time) && SameLinks(s.info[id], t.info[id])
                && t == s.(lastGood := time, info := s.info[id := t.info[id]], collisions := t.collisions)
                && t.collisions == (if |s.collisions| < 10 then s.collisions + {id} else s.collisions)
              else
                TookSlot(s, t, id, slot, time)
  {
    hide Indexed, Listed, TriedTable, NewTable, RefCounts, IdsInRange, TriedIds, NewIds, Refs, MakeTried, Without;
    TableLengths(s);
    NoEmptyId(s.info, s.idCount);
    var u := s.(lastGood := time);
    var id := Find(u, svc.net);
    if id != EMPTY && u.info[id].service == svc {
      var i := Succeeded(u.info[id], time);
      var t := SetInfo(u, id, i);
      TouchKeeps(u, id, i, {}, {});
      if i.inTried {
        TriedStands(s, id);
      } else if !testBeforeEvict || t.vTried[TriedSlot(s.h, svc)] == EMPTY {
        MakeTriedEffect(t, id);
        MovedTook(s, t, id, time);
      }
    }
  }

  /** A tried entry is in its slot, and nowhere in the new table. */
  lemma TriedStands(s: State, id: int)
    requires Consistent(s) && id in s.info && s.info[id].inTried
    ensures |s.vTried| == TRIED_SLOTS && s.vTried == s.vTried[TriedSlot(s.h, s.info[id].service) := id]
    ensures s.vTried[TriedSlot(s.h, s.info[id].service)] == id
    ensures s.info[id].refCount == 0 && Without(s.vNew, id) == s.vNew
  {
    hide Indexed, Listed, NewTable, IdsInRange, TriedIds, NewIds, Refs;
    EmptyRefs(s.vNew, id);
  }

  lemma EmptyRefs(table: seq<int>, id: int)
    ensures |Refs(table, id)| == 0 ==> Without(table, id) == table
  {
    if |Refs(table, id)| == 0 {
      forall i: nat | i < |table| ensures table[i] != id {
        assert i !in Refs(table, id);
      }
    }
  }

  lemma MovedTook(s: State, u: State, id: int, time: int)
    requires Consistent(s) && id in s.info && !s.info[id].inTried
    requires u == s.(lastGood := time, info := s.info[id := Succeeded(s.info[id], time)]) && Consistent(u)
    ensures |s.vTried| == TRIED_SLOTS && |s.vNew| == NEW_SLOTS
    ensures TookSlot(s, MakeTried(u, id), id, TriedSlot(s.h, s.info[id].service), time)
  {
    hide Indexed, Listed, TriedTable, NewTable, RefCounts, IdsInRange, TriedIds, NewIds, Refs, MakeTried, Without;
    TableLengths(s);
    NoEmptyId(s.info, s.idCount);
    MakeTriedEffect(u, id);
    var holder := s.vTried[TriedSlot(s.h, s.info[id].service)];
    assert u.info.Keys == s.info.Keys;
    if holder != EMPTY {
      NoRefsTo(s, id, HomeSlot(s.h, s.info[holder]));
    }
  }

  lemma NoRefsTo(s: State, id: int, slot: nat)
    requires slot < |s.vNew| && id != EMPTY
    ensures Without(s.vNew, id)[slot] != id
  {
  }

  // ----- Statistics

  function Attempt(s: State, svc: Service, countFailure: bool, time: int): State
  {
    var id := Find(s, svc.net);
    if id == EMPTY || s.info[id].service != svc then s
    else
      var i := s.info[id].(lastTry := time);
      SetInfo(s, id, if countFailure && i.lastCountAttempt < s.lastGood
                     then i.(lastCountAttempt := time, attempts := i.attempts + 1) else i)
  }

  function Connected(s: State, svc: Service, time: int): State
  {
    var id := Find(s, svc.net);
    if id == EMPTY || s.info[id].service != svc then s
    else if time - s.info[id].time > 20 * 60 then SetInfo(s, id, s.info[id].(time := U32(time)))
    else s
  }

  function SetServices(s: State, svc: Service, services: set<nat>): State
  {
    var id := Find(s, svc.net);
    if id == EMPTY || s.info[id].service != svc then s
    else SetInfo(s, id, s.info[id].(services := services))
  }

  /** The manager has an entry for exactly this service. */
  predicate Knows(s: State, svc: Service)
  {
    svc.net in s.addrs && s.addrs[svc.net] in s.info && s.info[s.addrs[svc.net]].service == svc
  }

  /**
   An attempt is recorded with its time, and it is counted as a failure exactly
   when that is asked for and no attempt has been counted since the last success
   of any connection. A connection refreshes a time that lags behind by more than
   twenty minutes. An unknown service, or another port, changes nothing.
   */
  lemma StatisticsEffect(s: State, svc: Service, countFailure: bool, time: int, services: set<nat>)
    requires EMPTY !in s.info
    ensures !Knows(s, svc) ==> Attempt(s, svc, countFailure, time) == Connected(s, svc, time) == SetServices(s, svc, services) == s
    ensures Knows(s, svc) ==>
              var id := s.addrs[svc.net];
              var was, tried, met, set_ := s.info[id], Attempt(s, svc, countFailure, time), Connected(s, svc, time), SetServices(s, svc, services);
              var counts := countFailure && was.lastCountAttempt < s.lastGood;
              && id in tried.info && id in met.info
              && tried == s.(info := s.info[id := was.(lastTry := time, attempts := tried.info[id].attempts,
                                                       lastCountAttempt := tried.info[id].lastCountAttempt)])
              && tried.info[id].attempts - was.attempts == (if counts then 1 else 0)
              && tried.info[id].lastCountAttempt == (if counts then time else was.lastCountAttempt)
              && met == s.(info := s.info[id := was.(time := met.info[id].time)])
              && (time <= was.time + 1200 ==> met == s)
              && (was.time + 1200 < time < 0x1_0000_0000 && 0 <= was.time ==> met.info[id].time == time)
              && set_ == s.(info := s.info[id := was.(services := services)])
  {
    if Knows(s, svc) {
      var id := s.addrs[svc.net];
      assert s == s.(info := s.info[id := s.info[id]]);
    }
  }

  datatype Call = Call(service: Service, countFailure: bool, time: int)

  /** A series of attempts. */
  function Attempts(s: State, calls: seq<Call>): State
  {
    if calls == [] then s
    else
      var last := calls[|calls| - 1];
      Attempt(Attempts(s, calls[..|calls| - 1]), last.service, last.countFailure, last.time)
  }

  /** A series of attempts changes nothing but the records of entries, and no service. */
  lemma {:induction false} AttemptsFrame(s: State, calls: seq<Call>)
    requires EMPTY !in s.info
    ensures var t := Attempts(s, calls);
            && t == s.(info := t.info) && t.info.Keys == s.info.Keys
            && forall n :: n in s.info ==> t.info[n].service == s.info[n].service
  {
    if calls != [] {
      var front, last := calls[..|calls| - 1], calls[|calls| - 1];
      AttemptsFrame(s, front);
      StatisticsEffect(Attempts(s, front), last.service, last.countFailure, last.time, {});
    }
  }

  predicate Blamed(calls: seq<Call>, svc: Service)
  {
    exists k :: 0 <= k < |calls| && calls[k].countFailure && calls[k].service == svc
  }

  /**
   Between two successes an entry is blamed at most once, however many attempts
   fail: the first counted attempt adds one, and no later one does.
   */
  lemma {:induction false} BlamedOnce(s: State, calls: seq<Call>, n: int)
    requires EMPTY !in s.info && Indexed(s.info, s.addrs) && n in s.info
    requires forall k :: 0 <= k < |calls| ==> calls[k].time >= s.lastGood
    ensures var t, counts := Attempts(s, calls), s.info[n].lastCountAttempt < s.lastGood && Blamed(calls, s.info[n].service);
            && n in t.info
            && t.info[n].attempts == s.info[n].attempts + (if counts then 1 else 0)
            && (t.info[n].lastCountAttempt < s.lastGood <==> s.info[n].lastCountAttempt < s.lastGood && !counts)
  {
    if calls != [] {
      hide Blamed;
      var front, last := calls[..|calls| - 1], calls[|calls| - 1];
      BlamedOnce(s, front, n);
      AttemptsFrame(s, front);
      BlamedSplit(calls, s.info[n].service);
      var u := Attempts(s, front);
      assert last.time >= s.lastGood;
      StatisticsEffect(u, last.service, last.countFailure, last.time, {});
    }
  }

  lemma BlamedSplit(calls: seq<Call>, svc: Service)
    requires calls != []
    ensures var last := calls[|calls| - 1];
            Blamed(calls, svc) <==> Blamed(calls[..|calls| - 1], svc) || (last.countFailure && last.service == svc)
  {
    var front, last := calls[..|calls| - 1], calls[|calls| - 1];
    if Blamed(front, svc) {
      var k :| 0 <= k < |front| && front[k].countFailure && front[k].service == svc;
      assert calls[k] == front[k];
    }
    if Blamed(calls, svc) && !(last.countFailure && last.service == svc) {
      var k :| 0 <= k < |calls| && calls[k].countFailure && calls[k].service == svc;
      assert front[k] == calls[k];
    }
  }

  lemma StatisticsKeep(s: State, svc: Service, countFailure: bool, time: int, services: set<nat>)
    requires Consistent(s)
    ensures Consistent(Attempt(s, svc, countFailure, time))
    ensures Consistent(Connected(s, svc, time))
    ensures Consistent(SetServices(s, svc, services))
  {
    hide Inv, U32;
    var id := Find(s, svc.net);
    if id != EMPTY && s.info[id].service == svc {
      TouchKeeps(s, id, Attempt(s, svc, countFailure, time).info[id], {}, {});
      TouchKeeps(s, id, s.info[id].(time := U32(time)), {}, {});
      TouchKeeps(s, id, s.info[id].(services := services), {}, {});
    }
  }

  // ----- Sampling addresses

  function Limit(n: nat): nat
  {
    var nodes := GETADDR_MAX_PCT * n / 100;
    if nodes > GETADDR_MAX then GETADDR_MAX else nodes
  }

  function AsAddress(i: Info): Address { Address(i.service, i.time, i.services) }

  datatype Sample = Sample(s: State, out: seq<Address>)

  /** The n-th draw, among the positions not drawn yet. */
  function Draw(rnd: nat -> nat, n: nat, size: nat): (pos: nat)
    requires n < size
    ensures n <= pos < size
  {
    rnd(n) % (size - n) + n
  }

  /** The sampling loop from position n on; `rnd(n)` is the n-th random draw. */
  function Gather(s: State, rnd: nat -> nat, now: int, limit: nat, n: nat, out: seq<Address>): Sample
    requires Consistent(s) && n <= |s.random|
    decreases |s.random| - n
  {
    if n == |s.random| || |out| >= limit then Sample(s, out)
    else
      var pos := Draw(rnd, n, |s.random|);
      SwapKeeps(s, n, pos, {}, {});
      var t := SwapRandom(s, n, pos);
      ListedAt(t.info, t.random, n);
      var i := t.info[t.random[n]];
      Gather(t, rnd, now, limit, n + 1, if IsTerrible(i, now) then out else out + [AsAddress(i)])
  }

  function GetAddr(s: State, rnd: nat -> nat, now: int): Sample
    requires Consistent(s)
  {
    Gather(s, rnd, now, Limit(|s.random|), 0, [])
  }

  /** The usable addresses of a list of ids, in order. */
  function Usable(info: map<int, Info>, ids: seq<int>, now: int): seq<Address>
    requires forall k :: 0 <= k < |ids| ==> ids[k] in info
  {
    if ids == [] then []
    else
      var last := info[ids[|ids| - 1]];
      Usable(info, ids[..|ids| - 1], now) + (if IsTerrible(last, now) then [] else [AsAddress(last)])
  }

  /** Only the random order differs. */
  ghost predicate Reordered(s: State, t: State)
  {
    && t == s.(info := t.info, random := t.random)
    && |t.random| == |s.random|
    && t.info.Keys == s.info.Keys
    && (forall n :: n in s.info ==> SameEntry(s.info[n], t.info[n]))
  }

  lemma SwapReorders(s: State, i: int, j: int)
    requires 0 <= i < |s.random| && 0 <= j < |s.random| && s.random[i] in s.info && s.random[j] in s.info
    ensures Reordered(s, SwapRandom(s, i, j))
    ensures |SwapRandom(s, i, j).random| == |s.random|
    ensures forall n :: 0 <= n <= i && n <= j ==> SwapRandom(s, i, j).random[..n] == s.random[..n]
  {
  }

  lemma ReorderedRefl(s: State)
    ensures Reordered(s, s)
  {
  }

  lemma ReorderedTrans(s: State, t: State, u: State)
    requires Reordered(s, t) && Reordered(t, u)
    ensures Reordered(s, u)
  {
  }

  lemma {:induction false} UsableFrame(a: map<int, Info>, b: map<int, Info>, ids: seq<int>, now: int)
    requires forall k :: 0 <= k < |ids| ==> ids[k] in a && ids[k] in b
    requires forall n :: n in a && n in b ==> SameEntry(a[n], b[n])
    ensures Usable(a, ids, now) == Usable(b, ids, now)
  {
    if ids != [] {
      UsableFrame(a, b, ids[..|ids| - 1], now);
      assert SameEntry(a[ids[|ids| - 1]], b[ids[|ids| - 1]]);
    }
  }

  /** Every id in the random order is live. */
  predicate AllLive(s: State)
  {
    forall k :: 0 <= k < |s.random| ==> s.random[k] in s.info
  }

  lemma ListedLive(s: State)
    requires Consistent(s)
    ensures AllLive(s)
  {
    hide Indexed, TriedTable, NewTable, RefCounts, IdsInRange, TriedIds, NewIds, Refs;
  }

  lemma {:induction false} GatherCollects(s: State, rnd: nat -> nat, now: int, limit: nat, n: nat, out: seq<Address>)
      returns (m: nat)
    requires Consistent(s) && n <= |s.random| && AllLive(s)
    requires out == Usable(s.info, s.random[..n], now) && |out| <= limit
    ensures var r := Gather(s, rnd, now, limit, n, out);
            && Consistent(r.s) && Reordered(s, r.s) && AllLive(r.s)
            && n <= m <= |r.s.random| && r.out == Usable(r.s.info, r.s.random[..m], now)
            && |r.out| <= limit && (m == |r.s.random| || |r.out| == limit)
    decreases |s.random| - n
  {
    hide Inv, IsTerrible, Usable, SameEntry, Reordered, Draw, AsAddress;
    if n == |s.random| || |out| >= limit {
      m := n;
      ReorderedRefl(s);
    } else {
      var pos := Draw(rnd, n, |s.random|);
      SwapKeeps(s, n, pos, {}, {});
      SwapReorders(s, n, pos);
      var t := SwapRandom(s, n, pos);
      ListedLive(t);
      GatherStep(s, t, now, n);
      hide SwapRandom;
      var i := t.info[t.random[n]];
      var next := if IsTerrible(i, now) then out else out + [AsAddress(i)];
      m := GatherCollects(t, rnd, now, limit, n + 1, next);
      ReorderedTrans(s, t, Gather(t, rnd, now, limit, n + 1, next).s);
    }
  }

  lemma GatherStep(s: State, t: State, now: int, n: nat)
    requires AllLive(s) && AllLive(t) && n < |s.random| && Reordered(s, t)
    requires t.random[..n] == s.random[..n]
    ensures var i := t.info[t.random[n]];
            Usable(t.info, t.random[..n + 1], now) ==
            Usable(s.info, s.random[..n], now) + (if IsTerrible(i, now) then [] else [AsAddress(i)])
  {
    UsableFrame(s.info, t.info, s.random[..n], now);
    assert t.random[..n + 1][..n] == t.random[..n];
  }

  /** The usable addresses of distinct ids are distinct, live and usable, and all of them. */
  lemma {:induction false} UsableSound(info: map<int, Info>, addrs: map<NetAddr, int>, ids: seq<int>, now: int)
    requires Indexed(info, addrs)
    requires forall k :: 0 <= k < |ids| ==> ids[k] in info
    requires forall j, k :: 0 <= j < k < |ids| ==> ids[j] != ids[k]
    ensures var u := Usable(info, ids, now);
            && (forall a :: a in u ==> a.service.net in addrs && addrs[a.service.net] in ids
                                       && a == AsAddress(info[addrs[a.service.net]])
                                       && !IsTerrible(info[addrs[a.service.net]], now))
            && (forall id :: id in ids && !IsTerrible(info[id], now) ==> AsAddress(info[id]) in u)
            && (forall j, k :: 0 <= j < k < |u| ==> u[j].service.net != u[k].service.net)
  {
    hide IsTerrible;
    if ids != [] {
      var front, last := ids[..|ids| - 1], ids[|ids| - 1];
      assert ids == front + [last];
      UsableSound(info, addrs, front, now);
      var u, v := Usable(info, front, now), Usable(info, ids, now);
      forall j, k | 0 <= j < k < |v| ensures v[j].service.net != v[k].service.net {
        assert v[j] in u;
      }
    }
  }

  /**
   The sample lists distinct live addresses of usable entries, at most 2500 and at
   most 23 percent of all; it is cut short only by these limits, and the tables are
   untouched.
   */
  lemma GetAddrSound(s: State, rnd: nat -> nat, now: int)
    requires Consistent(s)
    ensures var r, size := GetAddr(s, rnd, now), |s.random|;
            && Consistent(r.s) && Reordered(s, r.s)
            && |r.out| <= 2500 && 100 * |r.out| <= 23 * size
            && (forall j, k :: 0 <= j < k < |r.out| ==> r.out[j].service.net != r.out[k].service.net)
            && (forall a :: a in r.out ==> a.service.net in s.addrs && s.addrs[a.service.net] in s.info
                                           && a == AsAddress(s.info[s.addrs[a.service.net]])
                                           && !IsTerrible(s.info[s.addrs[a.service.net]], now))
            && (|r.out| < 2500 && 100 * (|r.out| + 1) <= 23 * size ==>
                  forall id :: id in s.info && !IsTerrible(s.info[id], now) ==> AsAddress(s.info[id]) in r.out)
  {
    hide Inv, IsTerrible, Gather, Usable, SameEntry, AsAddress, Limit;
    LimitBounds(|s.random|);
    ListedLive(s);
    EmptyUsable(s, now);
    var m := GatherCollects(s, rnd, now, Limit(|s.random|), 0, []);
    var r := GetAddr(s, rnd, now);
    SampleDistinct(r.s);
    var ids := r.s.random[..m];
    UsableSound(r.s.info, r.s.addrs, ids, now);
    SameVerdicts(s, r.s, now);
    forall a | a in r.out ensures a.service.net in s.addrs && s.addrs[a.service.net] in s.info
                                  && a == AsAddress(s.info[s.addrs[a.service.net]])
                                  && !IsTerrible(s.info[s.addrs[a.service.net]], now) {
      var id := r.s.addrs[a.service.net];
      assert id in ids && id in r.s.info && id in s.info;
      assert AsAddress(s.info[id]) == AsAddress(r.s.info[id]);
    }
    if |r.out| < Limit(|s.random|) {
      assert ids == r.s.random;
      forall id | id in s.info && !IsTerrible(s.info[id], now) ensures AsAddress(s.info[id]) in r.out {
        PositionOf(r.s.info, r.s.random, id);
      }
    }
  }

  lemma LimitBounds(n: nat)
    ensures Limit(n) <= 2500 && 100 * Limit(n) <= 23 * n
    ensures Limit(n) == 2500 || 100 * (Limit(n) + 1) > 23 * n
  {
  }

  lemma EmptyUsable(s: State, now: int)
    requires AllLive(s)
    ensures Usable(s.info, s.random[..0], now) == []
  {
  }

  lemma SampleDistinct(s: State)
    requires Consistent(s)
    ensures Indexed(s.info, s.addrs) && Listed(s.info, s.random)
    ensures forall j, k :: 0 <= j < k < |s.random| ==> s.random[j] != s.random[k]
  {
    hide Indexed, TriedTable, NewTable, RefCounts, IdsInRange, TriedIds, NewIds, Refs;
  }

  lemma SameVerdicts(s: State, t: State, now: int)
    requires Reordered(s, t)
    ensures forall n :: n in s.info ==> IsTerrible(s.info[n], now) == IsTerrible(t.info[n], now)
                                        && AsAddress(s.info[n]) == AsAddress(t.info[n])
  {
  }
}
