/**
 The address manager object.  Every method is proved to move the object's state
 exactly as the functions of AddrManOps and AddrManRuns do; the assertions of
 the source appear as assertions.
 */
module AddrMan {
  import opened Powers
  import opened AddrManState
  import S = AddrManState
  import Ops = AddrManOps
  import Runs = AddrManRuns
  import Trips = AddrManRoundTrip
  import opened AddrManOps
  import opened AddrManRuns
  import opened AddrManSerialize
  import opened AddrManHistory
  import opened OrderedSets

  class Manager {
    var h: Hashes
    var idCount: int
    var mapInfo: map<int, Info>
    var mapAddr: map<NetAddr, int>
    var vRandom: seq<int>
    var nTried: int
    const vvTried: array<int>
    var nNew: int
    const vvNew: array<int>
    var lastGood: int
    var triedCollisions: set<int>

    ghost predicate Valid()
      reads this
    {
      vvNew != vvTried && vvNew.Length == NEW_SLOTS && vvTried.Length == TRIED_SLOTS
    }

    ghost function View(): State
      reads this, vvNew, vvTried
    {
      State(h, idCount, mapInfo, mapAddr, vRandom, nTried, vvTried[..], nNew, vvNew[..], lastGood, triedCollisions)
    }

    constructor (h: Hashes)
      ensures Valid() && View() == EmptyState(h, {}) && fresh(vvNew) && fresh(vvTried)
    {
      this.h := h;
      idCount, mapInfo, mapAddr, vRandom, nTried, nNew, lastGood := 0, map[], map[], [], 0, 0, 1;
      triedCollisions := {};
      vvNew := new int[NEW_SLOTS](_ => EMPTY);
      vvTried := new int[TRIED_SLOTS](_ => EMPTY);
      new;
      assert vvNew[..] == seq(NEW_SLOTS, _ => EMPTY);
      assert vvTried[..] == seq(TRIED_SLOTS, _ => EMPTY);
    }

    method Clear(h: Hashes)
      requires Valid()
      modifies this, vvNew, vvTried
      ensures Valid() && View() == EmptyState(h, old(triedCollisions))
    {
      vRandom := [];
      this.h := h;
      for i := 0 to NEW_SLOTS
        invariant Valid() && forall k :: 0 <= k < i ==> vvNew[k] == EMPTY
        modifies vvNew
      {
        vvNew[i] := EMPTY;
      }
      for i := 0 to TRIED_SLOTS
        invariant Valid() && forall k :: 0 <= k < i ==> vvTried[k] == EMPTY
        invariant forall k :: 0 <= k < NEW_SLOTS ==> vvNew[k] == EMPTY
        modifies vvTried
      {
        vvTried[i] := EMPTY;
      }
      idCount, nTried, nNew, lastGood := 0, 0, 0, 1;
      mapInfo, mapAddr := map[], map[];
      assert vvNew[..] == seq(NEW_SLOTS, _ => EMPTY);
      assert vvTried[..] == seq(TRIED_SLOTS, _ => EMPTY);
    }

    method Find(net: NetAddr) returns (id: int)
      ensures id == S.Find(View(), net)
    {
      if net in mapAddr && mapAddr[net] in mapInfo {
        id := mapAddr[net];
      } else {
        id := EMPTY;
      }
    }

    method Create(a: Address, source: NetAddr) returns (id: int)
      requires Valid()
      modifies this
      ensures Valid() && View() == S.Create(old(View()), a, source) && id == old(idCount)
    {
      id := idCount;
      idCount := idCount + 1;
      mapInfo := mapInfo[id := FreshInfo(a, source)];
      mapAddr := mapAddr[a.service.net := id];
      mapInfo := mapInfo[id := mapInfo[id].(randomPos := |vRandom|)];
      vRandom := vRandom + [id];
      assert mapInfo == old(mapInfo)[id := FreshInfo(a, source).(randomPos := |old(vRandom)|)];
    }

    method SwapRandom(pos1: int, pos2: int)
      requires Valid() && Listed(mapInfo, vRandom)
      requires pos1 == pos2 || (0 <= pos1 < |vRandom| && 0 <= pos2 < |vRandom|)
      modifies this`mapInfo, this`vRandom
      ensures Valid() && View() == S.SwapRandom(old(View()), pos1, pos2)
    {
      if pos1 == pos2 {
        return;
      }
      assert pos1 < |vRandom| && pos2 < |vRandom|;
      var id1, id2 := vRandom[pos1], vRandom[pos2];
      assert id1 in mapInfo;
      assert id2 in mapInfo;
      mapInfo := mapInfo[id1 := mapInfo[id1].(randomPos := pos2)];
      mapInfo := mapInfo[id2 := mapInfo[id2].(randomPos := pos1)];
      vRandom := vRandom[pos1 := id2];
      vRandom := vRandom[pos2 := id1];
    }

    method Delete(id: int)
      requires Valid() && Deletable(View(), id)
      requires !mapInfo[id].inTried && mapInfo[id].refCount == 0
      modifies this
      ensures Valid() && View() == S.Delete(old(View()), id)
    {
      assert id in mapInfo;
      assert !mapInfo[id].inTried;
      assert mapInfo[id].refCount == 0;
      PositionOf(mapInfo, vRandom, id);
      SwapRandom(mapInfo[id].randomPos, |vRandom| - 1);
      vRandom := vRandom[..|vRandom| - 1];
      mapAddr := mapAddr - {mapInfo[id].service.net};
      mapInfo := mapInfo - {id};
      nNew := nNew - 1;
    }

    method ClearNew(slot: nat, ghost pending: set<int>, ghost adrift: set<int>)
      requires Valid() && Inv(View(), pending, adrift) && slot < NEW_SLOTS
      modifies this, vvNew
      ensures Valid() && Inv(View(), pending, adrift)
      ensures Listed(old(mapInfo), old(vRandom)) && (old(vvNew[slot]) == EMPTY || old(vvNew[slot]) in old(mapInfo))
      ensures View() == S.ClearNew(old(View()), slot)
      ensures vvNew[slot] == EMPTY
    {
      hide Indexed, Listed, TriedTable, NewTable, RefCounts, IdsInRange, TriedIds, NewIds, Refs;
      ClearNewKeeps(View(), slot, pending, adrift);
      if vvNew[slot] != EMPTY {
        UnlinkKeeps(View(), slot, pending, adrift);
        ghost var u := Unlink(View(), slot);
        var id := vvNew[slot];
        assert mapInfo[id].refCount > 0;
        mapInfo := mapInfo[id := mapInfo[id].(refCount := mapInfo[id].refCount - 1)];
        vvNew[slot] := EMPTY;
        assert View() == u;
        if mapInfo[id].refCount == 0 {
          LooseHasNoRefs(u, id, pending + {id}, adrift);
          Delete(id);
        }
      }
    }

    method MakeTried(id: int)
      requires Valid() && Consistent(View()) && id in mapInfo && !mapInfo[id].inTried
      modifies this, vvNew, vvTried
      ensures Valid() && View() == Ops.MakeTried(old(View()), id)
    {
      hide Indexed, Listed, TriedTable, NewTable, RefCounts, IdsInRange, TriedIds, NewIds, Without, Demote, Refs;
      ghost var s := View();
      LeaveNewTable(id);
      nNew := nNew - 1;
      assert View() == Detach(s, id);
      assert mapInfo[id].refCount == 0;
      DetachKeeps(s, id);

      var slot := TriedSlot(h, mapInfo[id].service);
      if vvTried[slot] != EMPTY {
        MakeRoom(slot, id);
      }
      ghost var d := View();
      LooseHasNoRefs(d, id, {}, {id});
      assert vvTried[slot] == EMPTY;
      vvTried[slot] := id;
      nTried := nTried + 1;
      mapInfo := mapInfo[id := mapInfo[id].(inTried := true)];
      assert View() == Promote(d, id);
    }

    /** Remove an entry from all new buckets, dropping one reference for each. */
    method LeaveNewTable(id: int)
      requires Valid() && Consistent(View()) && id in mapInfo && !mapInfo[id].inTried
      modifies this`mapInfo, vvNew
      ensures Valid()
      ensures mapInfo == old(mapInfo)[id := old(mapInfo)[id].(refCount := 0)]
      ensures vvNew[..] == Without(old(vvNew[..]), id)
    {
      hide Indexed, Listed, TriedTable, IdsInRange, TriedIds, NewIds, NewTable, Refs, Cleared, Without;
      NoEmptyId(mapInfo, idCount);
      ghost var table, info := vvNew[..], mapInfo;
      var svc := mapInfo[id].service;
      ClearedEnds(table, id);
      for bucket := 0 to NEW_BUCKETS
        invariant Valid() && id in mapInfo && vvNew[..] == Cleared(table, id, bucket)
        invariant mapInfo == info[id := info[id].(refCount := |Refs(vvNew[..], id)|)]
        modifies this`mapInfo, vvNew
      {
        ClearedStep(h, info, table, id, bucket);
        var slot := NewSlot(h, svc, bucket);
        if vvNew[slot] == id {
          vvNew[slot] := EMPTY;
          mapInfo := mapInfo[id := mapInfo[id].(refCount := mapInfo[id].refCount - 1)];
        }
      }
    }

    /** Take the occupant of a tried slot out of the tried table. */
    method LeaveTriedTable(slot: nat)
      requires Valid() && slot < TRIED_SLOTS && vvTried[slot] in mapInfo
      modifies this, vvTried
      ensures Valid() && View() == Evict(old(View()), slot)
    {
      var id := vvTried[slot];
      mapInfo := mapInfo[id := mapInfo[id].(inTried := false)];
      vvTried[slot] := EMPTY;
      nTried := nTried - 1;
    }

    /** Move the occupant of a tried slot back to the new table. */
    method MakeRoom(slot: nat, ghost id: int)
      requires Valid() && Inv(View(), {}, {id}) && slot < TRIED_SLOTS && vvTried[slot] != EMPTY
      modifies this, vvNew, vvTried
      ensures Valid() && old(vvTried[slot]) in old(mapInfo)
      ensures View() == Demote(old(View()), slot, id)
      ensures Inv(View(), {}, {id}) && id in mapInfo && mapInfo[id].service == old(mapInfo)[id].service
      ensures vvTried[..] == old(vvTried[..])[slot := EMPTY] && h == old(h)
    {
      hide Indexed, Listed, TriedTable, NewTable, RefCounts, IdsInRange, TriedIds, NewIds, Refs;
      ghost var s := View();
      var evicted := vvTried[slot];
      EvictKeeps(s, slot, {id});
      assert evicted in mapInfo;
      LeaveTriedTable(slot);

      var home := HomeSlot(h, mapInfo[evicted]);
      DemoteReady(s, slot, home, id);
      ClearNew(home, {}, {id} + {evicted});
      assert vvNew[home] == EMPTY;
      LooseHasNoRefs(View(), evicted, {}, {id} + {evicted});
      mapInfo := mapInfo[evicted := mapInfo[evicted].(refCount := 1)];
      vvNew[home] := evicted;
      nNew := nNew + 1;
      DemoteKeeps(s, slot, id);
      DemoteEffect(s, slot, id);
    }

    method Good(svc: Service, testBeforeEvict: bool, time: int, rnd: nat)
      requires Valid() && Consistent(View())
      modifies this, vvNew, vvTried
      ensures Valid() && Consistent(View())
      ensures View() == Ops.Good(old(View()), svc, testBeforeEvict, time)
    {
      hide Indexed, Listed, TriedTable, NewTable, RefCounts, IdsInRange, TriedIds, NewIds, Refs;
      GoodKeeps(View(), svc, testBeforeEvict, time);
      lastGood := time;
      var id := Find(svc.net);
      if id == EMPTY || mapInfo[id].service != svc {
        return;
      }
      ghost var u := View();
      mapInfo := mapInfo[id := Succeeded(mapInfo[id], time)];
      assert View() == SetInfo(u, id, mapInfo[id]);
      TouchKeeps(u, id, mapInfo[id], {}, {});
      if mapInfo[id].inTried {
        return;
      }
      var bucket := FindBucket(id, rnd);
      if bucket == -1 {
        return;
      }
      var slot := TriedSlot(h, mapInfo[id].service);
      if testBeforeEvict && vvTried[slot] != EMPTY {
        if |triedCollisions| < COLLISION_LIMIT {
          triedCollisions := triedCollisions + {id};
        }
      } else {
        MakeTried(id);
      }
    }

    /** A bucket the entry is in, searching from a random one; there always is one. */
    method FindBucket(id: int, rnd: nat) returns (bucket: int)
      requires Valid() && Consistent(View()) && id in mapInfo && !mapInfo[id].inTried
      ensures 0 <= bucket < NEW_BUCKETS && vvNew[NewSlot(h, mapInfo[id].service, bucket)] == id
    {
      hide Inv, NewSlot;
      var svc, start := mapInfo[id].service, rnd % NEW_BUCKETS;
      bucket := -1;
      var n := 0;
      while n < NEW_BUCKETS
        invariant 0 <= n <= NEW_BUCKETS && bucket == -1
        invariant forall b: nat :: b < NEW_BUCKETS && Turn(b, start) < n ==> vvNew[NewSlot(h, svc, b)] != id
      {
        var b := (n + start) % NEW_BUCKETS;
        TurnOf(n, start);
        if vvNew[NewSlot(h, svc, b)] == id {
          bucket := b;
          return;
        }
        n := n + 1;
      }
      ghost var slot := HeldSlot(View(), id);
      assert false;
    }

    method Add(a: Address, source: NetAddr, timePenalty: int, now: int, rnd: nat) returns (added: bool)
      requires Valid() && Consistent(View())
      modifies this, vvNew, vvTried
      ensures Valid() && Consistent(View())
      ensures AddResult(View(), added) == Ops.Add(old(View()), a, source, timePenalty, now, rnd)
    {
      hide Indexed, Listed, TriedTable, NewTable, RefCounts, IdsInRange, TriedIds, NewIds, Refs, IsTerrible, U32, Announced, Pow2, Place;
      AddKeeps(View(), a, source, timePenalty, now, rnd);
      if !h.isRoutable(a.service.net) {
        return false;
      }
      added := false;
      var id := Find(a.service.net);
      var penalty := if a.service.net == source then 0 else timePenalty;
      ghost var s := View();
      if id != EMPTY {
        mapInfo := mapInfo[id := Announced(mapInfo[id], a, penalty, now)];
        assert View() == SetInfo(s, id, mapInfo[id]);
        TouchKeeps(s, id, mapInfo[id], {}, {});
        RefCountBounded(View(), id);
        NewHasRefs(View(), id);
        var refused := IsRefused(id, a, rnd);
        if refused {
          return;
        }
        PlaceEntry(id, source, now, {});
      } else {
        CreatedKeeps(s, a, source, penalty);
        hide Created;
        id := CreateCounted(a, source, penalty);
        added := true;
        LooseHasNoRefs(View(), id, {id}, {});
        PlaceEntry(id, source, now, {id});
      }
    }

    method CreateCounted(a: Address, source: NetAddr, penalty: int) returns (id: int)
      requires Valid()
      modifies this
      ensures Valid() && View() == Created(old(View()), a, source, penalty) && id == old(idCount)
    {
      id := Create(a, source);
      mapInfo := mapInfo[id := mapInfo[id].(time := U32(Max0(mapInfo[id].time - penalty)))];
      nNew := nNew + 1;
    }

    /** Whether a known entry gets no further reference; the chance halves with each it has. */
    method IsRefused(id: int, a: Address, rnd: nat) returns (refused: bool)
      requires id in mapInfo && mapInfo[id].refCount >= 0
      ensures refused == Refused(mapInfo[id], a, rnd)
    {
      var i := mapInfo[id];
      if a.time == 0 || (i.time != 0 && a.time <= i.time) || i.inTried || i.refCount == BUCKETS_PER_ADDRESS {
        return true;
      }
      var factor, n := 1, 0;
      while n < i.refCount
        invariant 0 <= n <= i.refCount && factor == Pow2(n)
      {
        factor := factor * 2;
        n := n + 1;
      }
      refused := factor > 1 && rnd % factor != 0;
    }

    method PlaceEntry(id: int, source: NetAddr, now: int, ghost pending: set<int>)
      requires Valid() && id in mapInfo && !mapInfo[id].inTried && pending <= {id}
      requires Inv(View(), pending, {}) && (mapInfo[id].refCount == 0 ==> id in pending)
      modifies this, vvNew
      ensures Valid() && (pending == {} || pending == {id})
      ensures View() == Place(old(View()), id, source, now)
    {
      hide Indexed, Listed, TriedTable, NewTable, RefCounts, IdsInRange, TriedIds, NewIds, Refs, IsTerrible;
      assert pending == {} || pending == {id};
      var slot := NewSlot(h, mapInfo[id].service, NewBucket(h, mapInfo[id].service, source));
      ghost var s := View();
      SlotOwner(s, id, slot);
      if vvNew[slot] != id {
        var insert := vvNew[slot] == EMPTY;
        if !insert {
          var existing := mapInfo[vvNew[slot]];
          if IsTerrible(existing, now) || (existing.refCount > 1 && mapInfo[id].refCount == 0) {
            insert := true;
          }
        }
        if insert {
          ClearNew(slot, pending, {});
          mapInfo := mapInfo[id := mapInfo[id].(refCount := mapInfo[id].refCount + 1)];
          vvNew[slot] := id;
        } else if mapInfo[id].refCount == 0 {
          Delete(id);
        }
      }
    }

    method Attempt(svc: Service, countFailure: bool, time: int)
      requires Valid()
      modifies this`mapInfo
      ensures Valid() && View() == Ops.Attempt(old(View()), svc, countFailure, time)
    {
      var id := Find(svc.net);
      if id == EMPTY || mapInfo[id].service != svc {
        return;
      }
      var i := mapInfo[id].(lastTry := time);
      if countFailure && i.lastCountAttempt < lastGood {
        i := i.(lastCountAttempt := time, attempts := i.attempts + 1);
      }
      mapInfo := mapInfo[id := i];
    }

    method Connected(svc: Service, time: int)
      requires Valid()
      modifies this`mapInfo
      ensures Valid() && View() == Ops.Connected(old(View()), svc, time)
    {
      var id := Find(svc.net);
      if id == EMPTY || mapInfo[id].service != svc {
        return;
      }
      if time - mapInfo[id].time > 20 * 60 {
        mapInfo := mapInfo[id := mapInfo[id].(time := U32(time))];
      }
    }

    method SetServices(svc: Service, services: set<nat>)
      requires Valid()
      modifies this`mapInfo
      ensures Valid() && View() == Ops.SetServices(old(View()), svc, services)
    {
      var id := Find(svc.net);
      if id == EMPTY || mapInfo[id].service != svc {
        return;
      }
      mapInfo := mapInfo[id := mapInfo[id].(services := services)];
    }

    method GetAddr(draws: nat -> nat, now: int) returns (out: seq<Address>)
      requires Valid() && Consistent(View())
      modifies this`mapInfo, this`vRandom
      ensures Valid() && Consistent(View())
      ensures Sample(View(), out) == Ops.GetAddr(old(View()), draws, now)
    {
      hide Indexed, Listed, TriedTable, NewTable, RefCounts, IdsInRange, TriedIds, NewIds, Refs, IsTerrible, Draw;
      var nodes := GETADDR_MAX_PCT * |vRandom| / 100;
      if nodes > GETADDR_MAX {
        nodes := GETADDR_MAX;
      }
      out := [];
      var n := 0;
      while n < |vRandom| && |out| < nodes
        invariant Valid() && n <= |vRandom| && Consistent(View()) && nodes == Limit(old(|vRandom|))
        invariant Gather(View(), draws, now, nodes, n, out) == Ops.GetAddr(old(View()), draws, now)
      {
        ghost var s := View();
        var pos := Draw(draws, n, |vRandom|);
        SwapKeeps(s, n, pos, {}, {});
        SwapRandom(n, pos);
        ListedAt(mapInfo, vRandom, n);
        assert vRandom[n] in mapInfo;
        if !IsTerrible(mapInfo[vRandom[n]], now) {
          out := out + [AsAddress(mapInfo[vRandom[n]])];
        }
        n := n + 1;
      }
    }

    method ResolveCollisions(now: int, rnd: nat)
      requires Valid() && Consistent(View())
      modifies this, vvNew, vvTried
      ensures Valid() && Consistent(View())
      ensures View() == ResolveFrom(old(View()), old(triedCollisions), now)
    {
      hide Indexed, Listed, TriedTable, NewTable, RefCounts, IdsInRange, TriedIds, NewIds, Refs, ResolveOne;
      var todo := triedCollisions;
      while todo != {}
        invariant Valid() && Consistent(View())
        invariant ResolveFrom(View(), todo, now) == ResolveFrom(old(View()), old(triedCollisions), now)
        decreases todo
      {
        var id := Least(todo);
        ResolveOneKeeps(View(), id, now);
        ResolveCollision(id, now, rnd);
        todo := todo - {id};
      }
    }

    method ResolveCollision(id: int, now: int, rnd: nat)
      requires Valid() && Consistent(View())
      modifies this, vvNew, vvTried
      ensures Valid() && View() == ResolveOne(old(View()), id, now)
    {
      hide Indexed, Listed, TriedTable, NewTable, RefCounts, IdsInRange, TriedIds, NewIds, Refs;
      var erase := false;
      if id !in mapInfo {
        erase := true;
      } else {
        var slot := TriedSlot(h, mapInfo[id].service);
        TriedHolder(View(), slot);
        if !h.isValid(mapInfo[id].service.net) {
          erase := true;
        } else if vvTried[slot] != EMPTY {
          var holder := mapInfo[vvTried[slot]];
          if now - holder.lastSuccess < REPLACEMENT_HOURS * (60 * 60) {
            erase := true;
          } else if now - holder.lastTry < REPLACEMENT_HOURS * (60 * 60) {
            if now - holder.lastTry > 60 {
              Good(mapInfo[id].service, false, now, rnd);
              erase := true;
            }
          }
        } else {
          Good(mapInfo[id].service, false, now, rnd);
          erase := true;
        }
      }
      if erase {
        triedCollisions := triedCollisions - {id};
      }
    }

    method SelectTriedCollision(rnd: nat) returns (entry: Info)
      requires Valid()
      modifies this`mapInfo, this`triedCollisions
      ensures Valid() && Selection(View(), entry) == SelectCollision(old(View()), rnd)
    {
      if |triedCollisions| == 0 {
        return NoInfo;
      }
      var id := Nth(triedCollisions, rnd % |triedCollisions|);
      if id !in mapInfo {
        triedCollisions := triedCollisions - {id};
        return NoInfo;
      }
      var holder := vvTried[TriedSlot(h, mapInfo[id].service)];
      if holder !in mapInfo {
        mapInfo := mapInfo[holder := NoInfo];
      }
      entry := mapInfo[holder];
    }

    /** The consistency check of the source; it returns 0 exactly when the checked facts hold. */
    method Check() returns (err: int)
      requires Valid()
      ensures err == 0 <==> CheckPasses(View())
    {
      hide TriedTable, NewTable, NewExact;
      if |vRandom| != nTried + nNew {
        return -7;
      }
      var setTried, mapNew;
      err, setTried, mapNew := CheckEntries();
      if err != 0 {
        return;
      }
      if |setTried| != nTried {
        return -9;
      }
      assert mapNew.Keys == NewIds(mapInfo);
      if |mapNew| != nNew {
        return -10;
      }
      err := CheckTried(setTried);
      if err != 0 {
        return;
      }
      err := CheckNew(mapNew);
      if err != 0 {
        return;
      }
      if h.keyIsNull {
        return -16;
      }
    }

    method CheckEntries() returns (err: int, setTried: set<int>, mapNew: map<int, int>)
      requires Valid()
      ensures err == 0 <==> forall n :: n in mapInfo ==> EntryOk(View(), n)
      ensures err == 0 ==> setTried == TriedIds(mapInfo)
      ensures err == 0 ==> mapNew == map n | n in NewIds(mapInfo) :: mapInfo[n].refCount
    {
      err, setTried, mapNew := 0, {}, map[];
      var todo := mapInfo.Keys;
      while todo != {}
        invariant err == 0 && todo <= mapInfo.Keys
        invariant forall n :: n in mapInfo && n !in todo ==> EntryOk(View(), n)
        invariant setTried == set n | n in mapInfo && n !in todo && mapInfo[n].inTried
        invariant mapNew == map n | n in mapInfo && n !in todo && !mapInfo[n].inTried :: mapInfo[n].refCount
        decreases todo
      {
        var n := Least(todo);
        todo := todo - {n};
        err := CheckEntry(n);
        if err != 0 {
          return;
        }
        if mapInfo[n].inTried {
          setTried := setTried + {n};
        } else {
          mapNew := mapNew[n := mapInfo[n].refCount];
        }
      }
    }

    method CheckEntry(n: int) returns (err: int)
      requires Valid() && n in mapInfo
      ensures err == 0 <==> EntryOk(View(), n)
    {
      var info := mapInfo[n];
      if info.inTried {
        if info.lastSuccess == 0 { return -1; }
        if info.refCount != 0 { return -2; }
      } else {
        if info.refCount < 0 || info.refCount > BUCKETS_PER_ADDRESS { return -3; }
        if info.refCount == 0 { return -4; }
      }
      if (if info.service.net in mapAddr then mapAddr[info.service.net] else 0) != n { return -5; }
      if info.randomPos < 0 || info.randomPos >= |vRandom| || vRandom[info.randomPos] != n { return -14; }
      if info.lastTry < 0 { return -6; }
      if info.lastSuccess < 0 { return -8; }
      return 0;
    }

    method CheckTried(ids: set<int>) returns (err: int)
      requires Valid() && ids == TriedIds(mapInfo)
      ensures err == 0 <==> TriedTable(h, mapInfo, vvTried[..]) && EMPTY !in ids
    {
      var setTried := ids;
      for i := 0 to TRIED_SLOTS
        invariant forall k :: 0 <= k < i && vvTried[k] != EMPTY ==>
          vvTried[k] in ids && TriedSlot(h, mapInfo[vvTried[k]].service) == k && vvTried[k] !in setTried
        invariant setTried <= ids
        invariant forall n :: n in ids && n !in setTried ==> n != EMPTY && n in vvTried[..i]
      {
        if vvTried[i] != EMPTY {
          if vvTried[i] !in setTried { return -11; }
          var slot := TriedSlot(h, mapInfo[vvTried[i]].service);
          if slot / BUCKET_SIZE != i / BUCKET_SIZE { return -17; }
          if slot != i { return -18; }
          setTried := setTried - {vvTried[i]};
        }
        assert vvTried[..i + 1] == vvTried[..i] + [vvTried[i]];
      }
      if setTried != {} {
        Inhabited(setTried);
        ghost var n :| n in setTried;
        assert n in mapInfo && mapInfo[n].inTried;
        return -13;
      }
      forall n | n in mapInfo && mapInfo[n].inTried ensures vvTried[TriedSlot(h, mapInfo[n].service)] == n {
        assert n in ids && n in vvTried[..TRIED_SLOTS];
        var k :| 0 <= k < TRIED_SLOTS && vvTried[..TRIED_SLOTS][k] == n;
        assert vvTried[k] == n;
      }
      return 0;
    }

    method CheckNew(counts: map<int, int>) returns (err: int)
      requires Valid() && counts == map n | n in NewIds(mapInfo) :: mapInfo[n].refCount
      requires forall n :: n in counts ==> counts[n] > 0
      ensures err == 0 <==> NewTable(h, mapInfo, vvNew[..]) && NewExact(mapInfo, vvNew[..]) && EMPTY !in counts
    {
      hide Refs;
      var mapNew := counts;
      TallyStart(counts);
      for i := 0 to NEW_SLOTS
        invariant forall k :: 0 <= k < i && vvNew[k] != EMPTY ==>
          vvNew[k] in counts && NewSlot(h, mapInfo[vvNew[k]].service, k / BUCKET_SIZE) == k
        invariant Tally(counts, mapNew, vvNew[..i])
      {
        hide Tally;
        assert vvNew[..i + 1] == vvNew[..i] + [vvNew[i]];
        if vvNew[i] != EMPTY {
          if vvNew[i] !in mapNew {
            TallyOver(counts, mapNew, vvNew[..], i);
            return -12;
          }
          TallyStep(counts, mapNew, vvNew[..i], vvNew[i]);
          if NewSlot(h, mapInfo[vvNew[i]].service, i / BUCKET_SIZE) != i { return -19; }
          mapNew := mapNew[vvNew[i] := mapNew[vvNew[i]] - 1];
          if mapNew[vvNew[i]] == 0 {
            mapNew := mapNew - {vvNew[i]};
          }
        } else {
          TallySkip(counts, mapNew, vvNew[..i]);
        }
      }
      assert vvNew[..NEW_SLOTS] == vvNew[..];
      if mapNew.Keys != {} {
        Inhabited(mapNew.Keys);
        ghost var n :| n in mapNew.Keys;
        assert n in counts;
        return -15;
      }
      return 0;
    }

    /** Writes the manager to a stream. */
    method Serialize() returns (z: Stream)
      requires Valid() && Consistent(View())
      ensures z == SerializedOf(View())
    {
      hide Inv, Sorted, SaveSet, BucketOf;
      var newEntries, mapUnkIds := WriteEntries(false);
      var triedEntries, _ := WriteEntries(true);
      var buckets := [];
      for bucket := 0 to NEW_BUCKETS
        invariant |buckets| == bucket && forall b :: 0 <= b < bucket ==> buckets[b] == BucketOf(vvNew[..], Sorted(Referenced(mapInfo)), b)
      {
        var indexes := WriteBucket(bucket, mapUnkIds);
        buckets := buckets + [indexes];
      }
      z := Stream(1, 32, h, nNew, nTried, Toggle30(NEW_BUCKETS), newEntries, triedEntries, buckets);
    }

    /** Writes the entries of one table in ascending order of id, and numbers them. */
    method WriteEntries(tried: bool) returns (entries: seq<Saved>, index: map<int, int>)
      requires Valid() && Consistent(View())
      ensures var t := if tried then TriedIds(mapInfo) else Referenced(mapInfo);
              && entries == SaveSet(mapInfo, t)
              && (forall k :: 0 <= k < |Sorted(t)| ==> Sorted(t)[k] in index && index[Sorted(t)[k]] == k)
    {
      ghost var t := if tried then TriedIds(mapInfo) else Referenced(mapInfo);
      CountOf(View(), tried);
      hide Inv, Sorted, Listed, Collected, SaveSet;
      var ids := Sorted(mapInfo.Keys);
      CollectStart(mapInfo, t, ids);
      ghost var written: seq<int> := [];
      var nIds := 0;
      entries, index := [], map[];
      for k := 0 to |ids|
        invariant Collected(mapInfo, t, ids, k, written, entries, index) && nIds == |written|
      {
        var id := ids[k];
        CollectNext(mapInfo, t, ids, k, written, entries, index);
        index := index[id := nIds];
        if (if tried then mapInfo[id].inTried else mapInfo[id].refCount != 0) {
          assert nIds != if tried then nTried else nNew;
          entries := entries + [Save(mapInfo[id])];
          written := written + [id];
          nIds := nIds + 1;
        }
      }
      CollectEnd(mapInfo, t, ids, written, entries, index);
    }

    method WriteBucket(bucket: nat, mapUnkIds: map<int, int>) returns (indexes: seq<int>)
      requires Valid() && Consistent(View()) && bucket < NEW_BUCKETS
      requires var news := Sorted(Referenced(mapInfo));
               forall k :: 0 <= k < |news| ==> news[k] in mapUnkIds && mapUnkIds[news[k]] == k
      ensures indexes == BucketOf(vvNew[..], Sorted(Referenced(mapInfo)), bucket)
    {
      hide Inv, Sorted, Referenced;
      ghost var news := Sorted(Referenced(mapInfo));
      indexes := [];
      for i := 0 to BUCKET_SIZE
        invariant indexes == BucketTo(vvNew[..], news, bucket, i)
      {
        var id := vvNew[bucket * BUCKET_SIZE + i];
        if id != EMPTY {
          HeldReferenced(View(), bucket * BUCKET_SIZE + i);
          indexes := indexes + [mapUnkIds[id]];
        }
      }
    }

    /** Reads a stream into the manager; fails on a wrong key size, an impossible count or too little data. */
    method Unserialize(z: Stream, key: Hashes) returns (failed: bool)
      requires Valid() && Given(z)
      modifies this, vvNew, vvTried
      ensures Valid()
      ensures failed <==> !Unserialized(z, old(triedCollisions)).Loaded?
      ensures failed && !Unserialized(z, old(triedCollisions)).EndOfData? ==> mapInfo == map[] && mapAddr == map[] && vRandom == []
      ensures !failed ==> View() == Unserialized(z, old(triedCollisions)).state
    {
      hide LoadNew, LoadTried, LoadBuckets, Prune, Sorted, Toggle30, Listed, Dense, Link, NewSlot, TriedSlot, NewBucket;
      Clear(key);
      if z.keySize != 32 {
        return true;
      }
      h, nNew, nTried := z.h, z.nNew, z.nTried;
      var nUBuckets := z.nUBuckets;
      if z.version != 0 {
        nUBuckets := Toggle30(nUBuckets);
      }
      if nNew > NEW_SLOTS {
        return true;
      }
      if nTried > TRIED_SLOTS {
        return true;
      }
      failed := ReadTables(z, nUBuckets, z.version == 1 && nUBuckets == NEW_BUCKETS);
      if !failed {
        PruneLost();
      }
    }

    /** Reads the entries and the buckets, as far as the data goes. */
    method ReadTables(z: Stream, nUBuckets: int, usable: bool) returns (failed: bool)
      requires Valid() && Given(z) && View() == Started(z, triedCollisions)
      requires nUBuckets == BucketCount(z) && usable == AddrManSerialize.Usable(z)
      modifies this, vvNew, vvTried
      ensures Valid() && failed == !Whole(z)
      ensures !failed ==>
        && Listed(mapInfo, vRandom)
        && View() == var u1 := LoadNew(old(View()), z.newEntries, usable, |z.newEntries|);
                     var u2 := LoadTried(u1.(idCount := z.nNew), z.triedEntries, |z.triedEntries|);
                     LoadBuckets(u2, z.buckets, usable, |z.buckets|)
    {
      hide LoadNew, LoadTried, LoadBuckets, Toggle30, Listed, Dense;
      ghost var start := View();
      ReadNew(z.newEntries, usable);
      if |z.newEntries| < z.nNew {
        return true;
      }
      LoadNewDense(start, z.newEntries, usable, |z.newEntries|);
      idCount := z.nNew;
      ghost var v := View();
      ReadTried(z.triedEntries);
      if |z.triedEntries| < z.nTried {
        return true;
      }
      ghost var lo := if z.nNew < 0 then z.nNew else 0;
      LoadTriedDense(v, z.triedEntries, lo, |z.triedEntries|);
      DenseListed(mapInfo, vRandom, lo, idCount);
      ghost var u := View();
      ReadBuckets(z.buckets, usable);
      LoadBucketsListed(u, z.buckets, usable, |z.buckets|);
      failed := |z.buckets| < nUBuckets;
    }

    method ReadNew(rs: seq<Saved>, usable: bool)
      requires Valid() && mapInfo == map[] && vRandom == []
      modifies this`mapInfo, this`mapAddr, this`vRandom, vvNew
      ensures Valid() && View() == LoadNew(old(View()), rs, usable, |rs|)
    {
      hide NewSlot, NewBucket;
      ghost var u := View();
      for n := 0 to |rs|
        invariant Valid() && View() == LoadNew(u, rs, usable, n)
      {
        ghost var before := View();
        var r := rs[n];
        mapInfo := mapInfo[n := Blank(r)];
        mapAddr := mapAddr[r.service.net := n];
        mapInfo := mapInfo[n := mapInfo[n].(randomPos := |vRandom|)];
        vRandom := vRandom + [n];
        assert mapInfo == before.info[n := Blank(r).(randomPos := |before.random|)];
        if !usable {
          var slot := NewSlot(h, r.service, NewBucket(h, r.service, r.source));
          if vvNew[slot] == EMPTY {
            vvNew[slot] := n;
            mapInfo := mapInfo[n := mapInfo[n].(refCount := mapInfo[n].refCount + 1)];
          }
        }
      }
    }

    method ReadTried(rs: seq<Saved>)
      requires Valid()
      modifies this`mapInfo, this`mapAddr, this`vRandom, this`idCount, this`nTried, vvTried
      ensures Valid() && View() == LoadTried(old(View()), rs, |rs|)
    {
      hide TriedSlot;
      ghost var u := View();
      var nLost := 0;
      for n := 0 to |rs|
        invariant Valid() && View().(nTried := nTried - nLost) == LoadTried(u, rs, n)
      {
        var r := rs[n];
        var slot := TriedSlot(h, r.service);
        if vvTried[slot] == EMPTY {
          var i := Blank(r).(randomPos := |vRandom|, inTried := true);
          vRandom := vRandom + [idCount];
          mapInfo := mapInfo[idCount := i];
          mapAddr := mapAddr[r.service.net := idCount];
          vvTried[slot] := idCount;
          idCount := idCount + 1;
        } else {
          nLost := nLost + 1;
        }
      }
      nTried := nTried - nLost;
    }

    method ReadBuckets(buckets: seq<seq<int>>, usable: bool)
      requires Valid() && (usable ==> |buckets| <= NEW_BUCKETS)
      modifies this`mapInfo, vvNew
      ensures Valid() && View() == LoadBuckets(old(View()), buckets, usable, |buckets|)
    {
      hide LoadBucket;
      ghost var u := View();
      for b := 0 to |buckets|
        invariant Valid() && View() == LoadBuckets(u, buckets, usable, b)
      {
        ReadBucket(b, buckets[b], usable);
      }
    }

    method ReadBucket(bucket: nat, indexes: seq<int>, usable: bool)
      requires Valid() && (usable ==> bucket < NEW_BUCKETS)
      modifies this`mapInfo, vvNew
      ensures Valid() && View() == LoadBucket(old(View()), bucket, indexes, usable, |indexes|)
    {
      hide NewSlot;
      ghost var u := View();
      for n := 0 to |indexes|
        invariant Valid() && View() == LoadBucket(u, bucket, indexes, usable, n)
      {
        var index := indexes[n];
        if index >= 0 && index < nNew && index in mapInfo {
          var slot := NewSlot(h, mapInfo[index].service, bucket);
          if usable && vvNew[slot] == EMPTY && mapInfo[index].refCount < BUCKETS_PER_ADDRESS {
            mapInfo := mapInfo[index := mapInfo[index].(refCount := mapInfo[index].refCount + 1)];
            vvNew[slot] := index;
          }
        }
      }
    }

    /** Deletes the entries that were left without a slot. */
    method PruneLost()
      requires Valid() && Listed(mapInfo, vRandom)
      modifies this
      ensures Valid() && View() == Prune(old(View()), Sorted(old(mapInfo).Keys), |Sorted(old(mapInfo).Keys)|)
    {
      hide Listed, S.Delete, Sorted;
      ghost var u := View();
      var ids := Sorted(mapInfo.Keys);
      SortedIn(mapInfo.Keys, mapInfo.Keys);
      for n := 0 to |ids|
        invariant Valid() && View() == Prune(u, ids, n)
      {
        PruneListed(u, ids, n);
        var id := ids[n];
        if !mapInfo[id].inTried && mapInfo[id].refCount == 0 {
          Delete(id);
        }
      }
    }
  }

  /** When a walk over the buckets that begins at `start` comes to bucket b. */
  function Turn(b: nat, start: nat): (n: int)
  {
    if b >= start then b - start else b - start + NEW_BUCKETS
  }

  lemma TurnOf(n: nat, start: nat)
    requires n < NEW_BUCKETS && start < NEW_BUCKETS
    ensures var b := (n + start) % NEW_BUCKETS;
            0 <= b < NEW_BUCKETS && Turn(b, start) == n
            && forall c: nat :: c < NEW_BUCKETS && Turn(c, start) == n ==> c == b
  {
  }

  /** `left` holds what is still to be found of `counts` after the slots of `table`. */
  predicate Tally(counts: map<int, int>, left: map<int, int>, table: seq<int>)
  {
    && left.Keys <= counts.Keys
    && (EMPTY in counts ==> EMPTY in left)
    && (forall n :: n in left ==> left[n] > 0)
    && (forall n :: n in counts && n != EMPTY ==> |Refs(table, n)| == counts[n] - (if n in left then left[n] else 0))
  }

  lemma TallyStart(counts: map<int, int>)
    requires forall n :: n in counts ==> counts[n] > 0
    ensures Tally(counts, counts, [])
  {
    assert forall n :: Refs([], n) == {};
  }

  lemma TallyStep(counts: map<int, int>, left: map<int, int>, table: seq<int>, id: int)
    requires Tally(counts, left, table) && id != EMPTY && id in left
    ensures id in counts
    ensures Tally(counts, if left[id] == 1 then left - {id} else left[id := left[id] - 1], table + [id])
    ensures left[id := left[id] - 1] - {id} == left - {id}
  {
    RefsExtend(table, id);
  }

  lemma TallySkip(counts: map<int, int>, left: map<int, int>, table: seq<int>)
    requires Tally(counts, left, table)
    ensures Tally(counts, left, table + [EMPTY])
  {
    RefsExtend(table, EMPTY);
  }

  /** An id whose count is used up, found once more, occurs too often in the whole table. */
  lemma TallyOver(counts: map<int, int>, left: map<int, int>, table: seq<int>, i: nat)
    requires i < |table| && Tally(counts, left, table[..i]) && table[i] != EMPTY && table[i] !in left
    ensures table[i] in counts ==> |Refs(table, table[i])| > counts[table[i]]
  {
    assert table[..i + 1] == table[..i] + [table[i]];
    RefsExtend(table[..i], table[i]);
    RefsPrefix(table, i + 1, table[i]);
  }

  /** What the source's check demands of one entry; a missing index entry reads as id 0. */
  predicate EntryOk(s: State, n: int)
    requires n in s.info
  {
    var i := s.info[n];
    && (if i.inTried then i.lastSuccess != 0 && i.refCount == 0 else 0 < i.refCount <= BUCKETS_PER_ADDRESS)
    && (if i.service.net in s.addrs then s.addrs[i.service.net] else 0) == n
    && 0 <= i.randomPos < |s.random| && s.random[i.randomPos] == n
    && i.lastTry >= 0 && i.lastSuccess >= 0
  }

  predicate NewExact(info: map<int, Info>, vNew: seq<int>)
  {
    forall n :: n in info && !info[n].inTried ==> |Refs(vNew, n)| == info[n].refCount
  }

  /** The facts the consistency check of the source demands of the whole state. */
  predicate CheckPasses(s: State)
  {
    && |s.random| == s.nTried + s.nNew
    && (forall n :: n in s.info ==> EntryOk(s, n))
    && |TriedIds(s.info)| == s.nTried
    && |NewIds(s.info)| == s.nNew
    && TriedTable(s.h, s.info, s.vTried)
    && NewTable(s.h, s.info, s.vNew)
    && NewExact(s.info, s.vNew)
    && EMPTY !in s.info
    && !s.h.keyIsNull
  }

  lemma RefsExtend(table: seq<int>, id: int)
    ensures Refs(table + [id], id) == Refs(table, id) + {|table|}
    ensures forall n :: n != id ==> Refs(table + [id], n) == Refs(table, n)
  {
  }

  lemma RefsPrefix(table: seq<int>, k: nat, id: int)
    requires k <= |table|
    ensures |Refs(table[..k], id)| <= |Refs(table, id)|
  {
    assert Refs(table, id) == Refs(table[..k], id) + (Refs(table, id) - Refs(table[..k], id));
  }

  /** Of a consistent manager the check demands no more than ordered times and a key. */
  lemma ConsistentPasses(s: State)
    requires Consistent(s)
    ensures CheckPasses(s) <==> TimesOk(s) && !s.h.keyIsNull
  {
    hide TriedTable, NewTable;
    NoEmptyId(s.info, s.idCount);
    assert s.info.Keys == TriedIds(s.info) + NewIds(s.info);
    if CheckPasses(s) {
      forall n | n in s.info
        ensures s.info[n].lastTry >= 0 && s.info[n].lastSuccess >= 0 && (s.info[n].inTried ==> s.info[n].lastSuccess != 0)
      {
        assert EntryOk(s, n);
      }
    }
  }

  /** The operations after which the check passes, told by the state before. */
  predicate Passable(s: State, op: Op)
    requires Consistent(s)
  {
    Timely(s, op) && (op.OpClear? ==> !op.h.keyIsNull) && (op.OpLoad? ==> !op.saved.h.keyIsNull)
  }

  /** From a healthy manager that passes the check, an operation leads to one that passes exactly if it is passable. */
  lemma StepPasses(s: State, op: Op)
    requires Healthy(s) && CheckPasses(s) && Allowed(s, op)
    ensures CheckPasses(Step(s, op)) <==> Passable(s, op)
  {
    hide Inv, CollisionsServed, TimesOk, Step, Timely, CheckPasses;
    ConsistentPasses(s);
    StepHealthy(s, op);
    ConsistentPasses(Step(s, op));
    StepTimes(s, op);
    StepKey(s, op);
  }

  lemma StepKey(s: State, op: Op)
    requires Healthy(s) && Allowed(s, op)
    ensures Step(s, op).h == (if op.OpClear? then op.h else if op.OpLoad? then op.saved.h else s.h)
  {
    hide Inv, CollisionsServed, Add, Ops.Good, ResolveFrom, SelectCollision, GetAddr, Attempt, Connected, SetServices,
         SerializedOf, Unserialized, Whole, TimesOk, Trips.SuccessesOk;
    match op
    case OpAdd(a, source, penalty, now, rnd) => AddEvolves(s, a, source, penalty, now, rnd);
    case OpGood(svc, test, time) => GoodEvolves(s, svc, test, time);
    case OpGetAddr(draws, now) => GetAddrEvolves(s, draws, now);
    case OpResolve(now) => ResolveFromEvolves(s, s.collisions, now);
    case OpSelectCollision(rnd) =>
      TriedHolder(s, 0);
      SelectedKey(s, rnd);
    case OpClear(h) =>
    case OpLoad(saved) => Trips.RoundTripHealthy(saved);
    case _ => StatisticsEvolve(s, op);
  }

  lemma SelectedKey(s: State, rnd: nat)
    requires |s.vTried| == TRIED_SLOTS
    ensures SelectCollision(s, rnd).s.h == s.h
  {
  }

  /** The check passes now and after each operation. */
  predicate PassesThroughout(s: State, ops: seq<Op>)
    requires Healthy(s) && Legal(s, ops)
    decreases |ops|
  {
    CheckPasses(s) && (ops == [] || (StepHealthy(s, ops[0]); PassesThroughout(Step(s, ops[0]), ops[1..])))
  }

  predicate PassableRun(s: State, ops: seq<Op>)
    requires Healthy(s) && Legal(s, ops)
    decreases |ops|
  {
    ops == [] || (Passable(s, ops[0]) && (StepHealthy(s, ops[0]); PassableRun(Step(s, ops[0]), ops[1..])))
  }

  /** The check passes throughout a legal run exactly if each operation was passable when it came. */
  lemma {:induction false} RunsPassCheck(s: State, ops: seq<Op>)
    requires Healthy(s) && CheckPasses(s) && Legal(s, ops)
    ensures PassesThroughout(s, ops) <==> PassableRun(s, ops)
    decreases |ops|
  {
    hide Inv, CollisionsServed, TimesOk, Step, Passable, CheckPasses;
    if ops != [] {
      StepHealthy(s, ops[0]);
      StepPasses(s, ops[0]);
      if CheckPasses(Step(s, ops[0])) {
        RunsPassCheck(Step(s, ops[0]), ops[1..]);
      }
    }
  }

  /** A simple condition on the operations alone. */
  predicate PositiveTimes(op: Op)
  {
    match op
    case OpGood(_, _, time) => time > 0
    case OpAttempt(_, _, time) => time >= 0
    case OpClear(h) => !h.keyIsNull
    case OpLoad(saved) => TimesOk(saved) && !saved.h.keyIsNull
    case _ => true
  }

  /** Operations at positive times, under keys that are not null, are passable in every run. */
  lemma {:induction false} PositiveTimesPass(s: State, ops: seq<Op>)
    requires Healthy(s) && Legal(s, ops)
    requires forall k :: 0 <= k < |ops| ==> PositiveTimes(ops[k])
    ensures PassableRun(s, ops)
    decreases |ops|
  {
    hide Inv, CollisionsServed, Step;
    if ops != [] {
      StepHealthy(s, ops[0]);
      TriedHolder(s, 0);
      PositiveTimesPass(Step(s, ops[0]), ops[1..]);
    }
  }

  lemma EmptyPasses(h: Hashes)
    ensures Healthy(EmptyState(h, {})) && (CheckPasses(EmptyState(h, {})) <==> !h.keyIsNull)
  {
    hide Inv, CheckPasses;
    EmptyHealthy(h);
    ConsistentPasses(EmptyState(h, {}));
  }

  /** A new table with an id removed from the first buckets. */
  function Cleared(table: seq<int>, id: int, buckets: nat): seq<int>
  {
    seq(|table|, i requires 0 <= i < |table| => if i / BUCKET_SIZE < buckets && table[i] == id then EMPTY else table[i])
  }

  lemma ClearedEnds(table: seq<int>, id: int)
    requires |table| == NEW_SLOTS && id != EMPTY
    ensures Cleared(table, id, 0) == table
    ensures Cleared(table, id, NEW_BUCKETS) == Without(table, id)
    ensures |Refs(Without(table, id), id)| == 0
  {
    assert Refs(Without(table, id), id) == {};
  }

  /** An entry can be in a bucket only at its own position there. */
  lemma ClearedStep(h: Hashes, info: map<int, Info>, table: seq<int>, id: int, bucket: nat)
    requires NewTable(h, info, table) && id in info && id != EMPTY && bucket < NEW_BUCKETS
    ensures var slot, c := NewSlot(h, info[id].service, bucket), Cleared(table, id, bucket);
            && slot < |c|
            && Cleared(table, id, bucket + 1) == (if c[slot] == id then c[slot := EMPTY] else c)
            && (c[slot] == id ==> |Refs(c[slot := EMPTY], id)| == |Refs(c, id)| - 1)
  {
    var slot, c := NewSlot(h, info[id].service, bucket), Cleared(table, id, bucket);
    forall i | 0 <= i < |table| && i / BUCKET_SIZE == bucket && i != slot ensures table[i] != id {
    }
    if c[slot] == id {
      RefsUpdate(c, slot, EMPTY);
    }
  }

  lemma HeldSlot(s: State, id: int) returns (slot: nat)
    requires Consistent(s) && id in s.info && !s.info[id].inTried
    ensures slot < NEW_SLOTS && |s.vNew| == NEW_SLOTS && s.vNew[slot] == id
    ensures NewSlot(s.h, s.info[id].service, slot / BUCKET_SIZE) == slot
  {
    hide Indexed, Listed, TriedTable, IdsInRange, TriedIds, NewIds;
    NoEmptyId(s.info, s.idCount);
    if !(exists i: nat :: i in Refs(s.vNew, id)) {
      assert false;
    }
    slot :| slot in Refs(s.vNew, id);
  }

  /** The first k ids have been walked over, and those in t written and numbered. */
  ghost predicate Collected(info: map<int, Info>, t: set<int>, ids: seq<int>, k: nat,
                            written: seq<int>, entries: seq<Saved>, index: map<int, int>)
  {
    && k <= |ids| && (forall i, j :: 0 <= i < j < |ids| ==> ids[i] < ids[j])
    && (forall x :: x in ids <==> x in info) && t <= info.Keys
    && (forall x :: x in written <==> x in ids[..k] && x in t)
    && (forall i, j :: 0 <= i < j < |written| ==> written[i] < written[j])
    && |entries| == |written| && (forall j :: 0 <= j < |written| ==> written[j] in info && entries[j] == Save(info[written[j]]))
    && (forall j :: 0 <= j < |written| ==> written[j] in index && index[written[j]] == j)
  }

  lemma CollectStart(info: map<int, Info>, t: set<int>, ids: seq<int>)
    requires ids == Sorted(info.Keys) && t <= info.Keys
    ensures Collected(info, t, ids, 0, [], [], map[])
  {
    hide Sorted;
  }

  lemma CollectNext(info: map<int, Info>, t: set<int>, ids: seq<int>, k: nat, written: seq<int>, entries: seq<Saved>, index: map<int, int>)
    requires k < |ids| && Collected(info, t, ids, k, written, entries, index)
    ensures ids[k] in info && (ids[k] in t ==> |written| < |t|)
    ensures var numbered := index[ids[k] := |written|];
            if ids[k] in t then Collected(info, t, ids, k + 1, written + [ids[k]], entries + [Save(info[ids[k]])], numbered)
            else Collected(info, t, ids, k + 1, written, entries, numbered)
  {
    var id := ids[k];
    assert id in ids;
    assert ids[..k + 1] == ids[..k] + [id];
    forall j | 0 <= j < |written| ensures written[j] < id {
      assert written[j] in written;
      var i :| 0 <= i < k && ids[..k][i] == written[j];
    }
    if id in t {
      InSet(written + [id], t);
    }
  }

  /** A sequence of different members of a set is no longer than the set. */
  lemma {:induction false} InSet(s: seq<int>, t: set<int>)
    requires (forall i, j :: 0 <= i < j < |s| ==> s[i] < s[j]) && forall i :: 0 <= i < |s| ==> s[i] in t
    ensures |s| <= |t|
  {
    if s != [] {
      var n := |s| - 1;
      InSet(s[..n], t - {s[n]});
    }
  }

  lemma CollectEnd(info: map<int, Info>, t: set<int>, ids: seq<int>, written: seq<int>, entries: seq<Saved>, index: map<int, int>)
    requires Collected(info, t, ids, |ids|, written, entries, index)
    ensures written == Sorted(t) && t <= info.Keys && entries == SaveSet(info, t)
    ensures forall k :: 0 <= k < |Sorted(t)| ==> Sorted(t)[k] in index && index[Sorted(t)[k]] == k
  {
    hide Sorted;
    assert ids[..|ids|] == ids;
    SortedUnique(written, t);
    SortedIn(t, info.Keys);
  }

  lemma CountOf(s: State, tried: bool)
    requires Consistent(s)
    ensures |Referenced(s.info)| == s.nNew && |TriedIds(s.info)| == s.nTried
  {
    hide Indexed, Listed, TriedTable, NewTable, IdsInRange, Refs;
    forall n | n in s.info ensures s.info[n].refCount != 0 <==> !s.info[n].inTried {
    }
    assert Referenced(s.info) == NewIds(s.info);
  }

  /** The occupant of a slot of the new table is one of the referenced entries. */
  lemma HeldReferenced(s: State, slot: nat)
    requires Consistent(s) && slot < NEW_SLOTS && |s.vNew| == NEW_SLOTS && s.vNew[slot] != EMPTY
    ensures s.vNew[slot] in Sorted(Referenced(s.info))
  {
    hide Indexed, Listed, TriedTable, IdsInRange, Refs, Sorted;
    assert s.vNew[slot] in s.info && !s.info[s.vNew[slot]].inTried;
  }
}
