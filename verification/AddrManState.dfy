/**
 The address manager as a value: the five mutually redundant indexes, the
 counters, and the steps that change them.  The class in AddrMan.dfy performs
 the same steps on its own fields.

 The two slot tables are flat: slot `BUCKET_SIZE * bucket + position`, holding
 an entry id or EMPTY.  Bucket and position hashing under the secret key is a
 parameter (`Hashes`); only the reduction modulo the table sizes is fixed.
 */
module AddrManState {

  const NEW_BUCKETS := 1024
  const TRIED_BUCKETS := 256
  const BUCKET_SIZE := 64
  const NEW_SLOTS := NEW_BUCKETS * BUCKET_SIZE
  const TRIED_SLOTS := TRIED_BUCKETS * BUCKET_SIZE
  const BUCKETS_PER_ADDRESS := 8
  const HORIZON_DAYS := 30
  const RETRIES := 3
  const MAX_FAILURES := 10
  const MIN_FAIL_DAYS := 7
  const REPLACEMENT_HOURS := 4
  const COLLISION_LIMIT := 10
  const GETADDR_MAX_PCT := 23
  const GETADDR_MAX := 2500
  const EMPTY := -1

  datatype NetAddr = NetAddr(ip: seq<nat>)
  datatype Service = Service(net: NetAddr, port: nat)
  datatype Address = Address(service: Service, time: int, services: set<nat>)

  datatype Info = Info(service: Service, time: int, services: set<nat>, source: NetAddr,
                       lastTry: int, lastCountAttempt: int, lastSuccess: int, attempts: int,
                       refCount: int, inTried: bool, randomPos: int)

  /** The keyed hashes, whether their key is null, and the address predicates the manager calls. */
  datatype Hashes = Hashes(keyIsNull: bool,
                           triedHash: Service -> nat,
                           newHash: (Service, NetAddr) -> nat,
                           position: (Service, bool, nat) -> nat,
                           isRoutable: NetAddr -> bool,
                           isValid: NetAddr -> bool)

  datatype State = State(h: Hashes,
                         idCount: int,
                         info: map<int, Info>,
                         addrs: map<NetAddr, int>,
                         random: seq<int>,
                         nTried: int,
                         vTried: seq<int>,
                         nNew: int,
                         vNew: seq<int>,
                         lastGood: int,
                         collisions: set<int>)

  /** Conversion to the source's 32-bit unsigned time field. */
  function U32(x: int): int { x % 0x1_0000_0000 }

  function Max0(x: int): int { if x < 0 then 0 else x }

  function NewSlot(h: Hashes, svc: Service, bucket: nat): (slot: nat)
    ensures slot / BUCKET_SIZE == bucket
    ensures bucket < NEW_BUCKETS ==> slot < NEW_SLOTS
  {
    BUCKET_SIZE * bucket + h.position(svc, true, bucket) % BUCKET_SIZE
  }

  function NewBucket(h: Hashes, svc: Service, source: NetAddr): (b: nat)
    ensures b < NEW_BUCKETS
  {
    h.newHash(svc, source) % NEW_BUCKETS
  }

  function TriedSlot(h: Hashes, svc: Service): (t: nat)
    ensures t < TRIED_SLOTS
  {
    var bucket := h.triedHash(svc) % TRIED_BUCKETS;
    BUCKET_SIZE * bucket + h.position(svc, false, bucket) % BUCKET_SIZE
  }

  /** The bucket and the position in it that the keyed hashes give an address, in each of the two tables. */
  lemma SlotsByHash(h: Hashes, svc: Service, source: NetAddr, bucket: nat)
    ensures NewBucket(h, svc, source) == h.newHash(svc, source) % 1024
    ensures NewSlot(h, svc, bucket) / 64 == bucket && NewSlot(h, svc, bucket) % 64 == h.position(svc, true, bucket) % 64
    ensures var b := TriedSlot(h, svc) / 64; b == h.triedHash(svc) % 256 && TriedSlot(h, svc) % 64 == h.position(svc, false, b) % 64
  {
  }

  /** Whether the statistics of an entry are bad enough to drop it. */
  predicate IsTerrible(i: Info, now: int)
  {
    if i.lastTry != 0 && i.lastTry >= now - 60 then false
    else if i.time > now + 10 * 60 then true
    else if i.time == 0 || now - i.time > HORIZON_DAYS * 24 * 60 * 60 then true
    else if i.lastSuccess == 0 && i.attempts >= RETRIES then true
    else now - i.lastSuccess > MIN_FAIL_DAYS * 24 * 60 * 60 && i.attempts >= MAX_FAILURES
  }

  /**
   The entries that are dropped: not tried in the last minute, and either from
   the future by ten minutes, or not heard of for thirty days, or failed three
   times without a success, or failed ten times with none for a week. Time alone
   never redeems an entry that is not from the future.
   */
  lemma TerribleTimes(i: Info, now: int, later: int)
    requires now <= later
    ensures IsTerrible(i, now) <==>
              && (i.lastTry == 0 || i.lastTry < now - 60)
              && (|| i.time > now + 600 || i.time == 0 || i.time < now - 2592000
                  || (i.lastSuccess == 0 && i.attempts >= 3)
                  || (i.lastSuccess < now - 604800 && i.attempts >= 10))
    ensures IsTerrible(i, now) && i.time <= now + 600 ==> IsTerrible(i, later)
  {
  }

  function FreshInfo(a: Address, source: NetAddr): Info
  {
    Info(a.service, a.time, a.services, source, 0, 0, 0, 0, 0, false, -1)
  }

  function EmptyState(h: Hashes, collisions: set<int>): State
  {
    State(h, 0, map[], map[], [], 0, seq(TRIED_SLOTS, _ => EMPTY), 0, seq(NEW_SLOTS, _ => EMPTY), 1, collisions)
  }

  // ----- The consistency invariant

  /** The slots of a table that hold an id. */
  function Refs(table: seq<int>, id: int): set<nat>
  {
    set i: nat | i < |table| && table[i] == id
  }

  function TriedIds(info: map<int, Info>): set<int>
  {
    set n | n in info && info[n].inTried
  }

  function NewIds(info: map<int, Info>): set<int>
  {
    set n | n in info && !info[n].inTried
  }

  predicate IdsInRange(info: map<int, Info>, idCount: int)
  {
    forall n :: n in info ==> 0 <= n < idCount
  }

  /** The address index and the entries name each other. */
  predicate Indexed(info: map<int, Info>, addrs: map<NetAddr, int>)
  {
    && (forall n :: n in info ==> info[n].service.net in addrs && addrs[info[n].service.net] == n)
    && (forall a :: a in addrs ==> addrs[a] in info && info[addrs[a]].service.net == a)
  }

  /** The random order lists every entry once, where the entry says it is. */
  predicate Listed(info: map<int, Info>, random: seq<int>)
  {
    && |random| == |info|
    && (forall n :: n in info ==> 0 <= info[n].randomPos < |random| && random[info[n].randomPos] == n)
    && (forall i :: 0 <= i < |random| ==> random[i] in info && info[random[i]].randomPos == i)
  }

  /** Tried entries, and only they, sit in the tried table, each in its own slot. */
  predicate TriedTable(h: Hashes, info: map<int, Info>, vTried: seq<int>)
  {
    && |vTried| == TRIED_SLOTS
    && (forall i :: 0 <= i < |vTried| && vTried[i] != EMPTY ==>
          vTried[i] in info && info[vTried[i]].inTried && TriedSlot(h, info[vTried[i]].service) == i)
    && (forall n :: n in info && info[n].inTried ==> vTried[TriedSlot(h, info[n].service)] == n)
  }

  /** Only entries that are not tried sit in the new table, at their position of each bucket. */
  predicate NewTable(h: Hashes, info: map<int, Info>, vNew: seq<int>)
  {
    && |vNew| == NEW_SLOTS
    && (forall i :: 0 <= i < |vNew| && vNew[i] != EMPTY ==>
          vNew[i] in info && !info[vNew[i]].inTried && NewSlot(h, info[vNew[i]].service, i / BUCKET_SIZE) == i)
  }

  /** Reference counts are exact; only tried, pending and adrift entries have none. */
  predicate RefCounts(info: map<int, Info>, vNew: seq<int>, pending: set<int>, adrift: set<int>)
  {
    forall n :: n in info ==>
      && info[n].refCount == |Refs(vNew, n)|
      && info[n].refCount <= BUCKETS_PER_ADDRESS
      && (info[n].refCount == 0 <==> info[n].inTried || n in pending || n in adrift)
  }

  predicate Counters(info: map<int, Info>, nTried: int, nNew: int, adrift: set<int>)
  {
    && nTried == |TriedIds(info)|
    && nNew + |adrift| == |NewIds(info)|
  }

  /** Entries that operations leave without a slot between their steps. */
  predicate Loose(info: map<int, Info>, pending: set<int>, adrift: set<int>)
  {
    && pending <= NewIds(info)
    && adrift <= NewIds(info)
    && pending !! adrift
  }

  /**
   The invariant with its two exceptions, which operations use between their
   steps: `pending` entries are counted in nNew but hold no slot yet, `adrift`
   entries hold no slot and are not counted.
   */
  predicate Inv(s: State, pending: set<int>, adrift: set<int>)
  {
    && s.idCount >= 0 && IdsInRange(s.info, s.idCount)
    && Indexed(s.info, s.addrs)
    && Listed(s.info, s.random)
    && TriedTable(s.h, s.info, s.vTried)
    && NewTable(s.h, s.info, s.vNew)
    && RefCounts(s.info, s.vNew, pending, adrift)
    && Counters(s.info, s.nTried, s.nNew, adrift)
    && Loose(s.info, pending, adrift)
  }

  predicate Consistent(s: State) { Inv(s, {}, {}) }

  /** The part of the consistency check that speaks of times. */
  predicate TimesOk(s: State)
  {
    forall n :: n in s.info ==>
      && s.info[n].lastTry >= 0
      && s.info[n].lastSuccess >= 0
      && (s.info[n].inTried ==> s.info[n].lastSuccess != 0)
  }

  /** At most ten pending collisions, and each live one has an occupied tried slot. */
  predicate Served(s: State)
  {
    && |s.collisions| <= COLLISION_LIMIT
    && |s.vTried| == TRIED_SLOTS
    && (forall n :: n in s.collisions && n in s.info ==> s.vTried[TriedSlot(s.h, s.info[n].service)] != EMPTY)
  }

  /** Collisions are served, and none waits for an id that is still to be given out. */
  predicate CollisionsServed(s: State)
  {
    Served(s) && forall n :: n in s.collisions ==> 0 <= n < s.idCount
  }

  // ----- Steps

  /** The id the address index gives for a network address, if it is live. */
  function Find(s: State, net: NetAddr): (id: int)
    ensures id != EMPTY ==> net in s.addrs && s.addrs[net] == id && id in s.info
  {
    if net in s.addrs && s.addrs[net] in s.info then s.addrs[net] else EMPTY
  }

  function SetInfo(s: State, id: int, i: Info): State
  {
    s.(info := s.info[id := i])
  }

  function Create(s: State, a: Address, source: NetAddr): State
  {
    s.(idCount := s.idCount + 1,
       info := s.info[s.idCount := FreshInfo(a, source).(randomPos := |s.random|)],
       addrs := s.addrs[a.service.net := s.idCount],
       random := s.random + [s.idCount])
  }

  function SwapRandom(s: State, i: int, j: int): State
    requires i == j || (0 <= i < |s.random| && 0 <= j < |s.random| && s.random[i] in s.info && s.random[j] in s.info)
  {
    if i == j then s else
      var id1, id2 := s.random[i], s.random[j];
      var info1 := s.info[id1 := s.info[id1].(randomPos := j)];
      s.(info := info1[id2 := info1[id2].(randomPos := i)],
         random := s.random[i := id2][j := id1])
  }

  function DropLast(s: State, id: int): State
    requires id in s.info && |s.random| > 0
  {
    s.(random := s.random[..|s.random| - 1],
       addrs := s.addrs - {s.info[id].service.net},
       info := s.info - {id},
       nNew := s.nNew - 1)
  }

  /** What SwapRandom demands of the index it is given. */
  predicate Deletable(s: State, id: int)
  {
    Listed(s.info, s.random) && id in s.info
  }

  function Delete(s: State, id: int): State
    requires Deletable(s, id)
  {
    DropLast(SwapRandom(s, s.info[id].randomPos, |s.random| - 1), id)
  }

  /** Take one reference away from the entry in an occupied slot. */
  function Unlink(s: State, slot: nat): State
    requires slot < |s.vNew| && s.vNew[slot] in s.info
  {
    var id := s.vNew[slot];
    s.(vNew := s.vNew[slot := EMPTY],
       info := s.info[id := s.info[id].(refCount := s.info[id].refCount - 1)])
  }

  function ClearNew(s: State, slot: nat): State
    requires Listed(s.info, s.random)
    requires slot < |s.vNew| && (s.vNew[slot] == EMPTY || s.vNew[slot] in s.info)
  {
    if s.vNew[slot] == EMPTY then s else
      var id := s.vNew[slot];
      var s1 := Unlink(s, slot);
      if s1.info[id].refCount == 0 then Delete(s1, id) else s1
  }

  /** Put an entry into a slot of the new table. */
  function Link(s: State, id: int, slot: nat): State
    requires id in s.info && slot < |s.vNew|
  {
    s.(vNew := s.vNew[slot := id],
       info := s.info[id := s.info[id].(refCount := s.info[id].refCount + 1)])
  }

  /** Take away every reference of an entry and stop counting it as new. */
  function Detach(s: State, id: int): State
    requires id in s.info
  {
    s.(vNew := Without(s.vNew, id),
       info := s.info[id := s.info[id].(refCount := 0)],
       nNew := s.nNew - 1)
  }

  function Without(table: seq<int>, id: int): seq<int>
  {
    seq(|table|, i requires 0 <= i < |table| => if table[i] == id then EMPTY else table[i])
  }

  /** Take the occupant of a tried slot out of the tried table. */
  function Evict(s: State, slot: nat): State
    requires slot < |s.vTried| && s.vTried[slot] in s.info
  {
    var id := s.vTried[slot];
    s.(vTried := s.vTried[slot := EMPTY],
       info := s.info[id := s.info[id].(inTried := false)],
       nTried := s.nTried - 1)
  }

  /** Put an entry into its own slot of the tried table. */
  function Promote(s: State, id: int): State
    requires id in s.info && |s.vTried| == TRIED_SLOTS
  {
    s.(vTried := s.vTried[TriedSlot(s.h, s.info[id].service) := id],
       info := s.info[id := s.info[id].(inTried := true)],
       nTried := s.nTried + 1)
  }

  // ----- What the components of the invariant depend on

  lemma ListedFrame(a: map<int, Info>, b: map<int, Info>, random: seq<int>)
    requires Listed(a, random) && a.Keys == b.Keys
    requires forall n :: n in a ==> a[n].randomPos == b[n].randomPos
    ensures Listed(b, random)
  {
    assert |a| == |a.Keys| == |b.Keys| == |b|;
  }

  lemma ListedAt(info: map<int, Info>, random: seq<int>, i: int)
    requires Listed(info, random) && 0 <= i < |random|
    ensures random[i] in info && info[random[i]].randomPos == i
  {
  }

  /** Nothing but reference counts and list positions changed. */
  lemma TablesFrame(a: map<int, Info>, b: map<int, Info>, s: State)
    requires a.Keys == b.Keys
    requires forall n :: n in a ==> a[n].service == b[n].service && a[n].inTried == b[n].inTried
    requires Indexed(a, s.addrs) && TriedTable(s.h, a, s.vTried) && NewTable(s.h, a, s.vNew)
    ensures Indexed(b, s.addrs) && TriedTable(s.h, b, s.vTried) && NewTable(s.h, b, s.vNew)
  {
  }

  lemma CountersFrame(a: map<int, Info>, b: map<int, Info>, idCount: int)
    requires a.Keys == b.Keys
    requires forall n :: n in a ==> a[n].inTried == b[n].inTried
    ensures TriedIds(a) == TriedIds(b) && NewIds(a) == NewIds(b)
    ensures IdsInRange(a, idCount) ==> IdsInRange(b, idCount)
  {
    assert forall n :: n in a ==> a[n].inTried == b[n].inTried;
  }

  lemma RefCountsFrame(a: map<int, Info>, b: map<int, Info>, vNew: seq<int>, pending: set<int>, adrift: set<int>)
    requires a.Keys == b.Keys
    requires forall n :: n in a ==> a[n].inTried == b[n].inTried && a[n].refCount == b[n].refCount
    requires RefCounts(a, vNew, pending, adrift)
    ensures RefCounts(b, vNew, pending, adrift)
  {
  }

  // ----- Preservation by the steps

  /** The fields the indexes depend on. */
  predicate SameLinks(a: Info, b: Info)
  {
    a.service == b.service && a.refCount == b.refCount && a.inTried == b.inTried && a.randomPos == b.randomPos
  }

  lemma TouchKeeps(s: State, id: int, i: Info, pending: set<int>, adrift: set<int>)
    requires Inv(s, pending, adrift) && id in s.info && SameLinks(s.info[id], i)
    ensures Inv(SetInfo(s, id, i), pending, adrift)
  {
    hide Indexed, Listed, TriedTable, NewTable, RefCounts, IdsInRange, TriedIds, NewIds;
    var info := s.info[id := i];
    assert info.Keys == s.info.Keys;
    ListedFrame(s.info, info, s.random);
    TablesFrame(s.info, info, s);
    CountersFrame(s.info, info, s.idCount);
    RefCountsFrame(s.info, info, s.vNew, pending, adrift);
  }

  lemma SwapListed(info: map<int, Info>, random: seq<int>, i: int, j: int)
    requires Listed(info, random) && 0 <= i < |random| && 0 <= j < |random| && i != j
    ensures random[i] in info && random[j] in info && random[i] != random[j]
    ensures var a := info[random[i] := info[random[i]].(randomPos := j)];
            var b := a[random[j] := a[random[j]].(randomPos := i)];
            b.Keys == info.Keys && Listed(b, random[i := random[j]][j := random[i]])
  {
    var a := info[random[i] := info[random[i]].(randomPos := j)];
    var b := a[random[j] := a[random[j]].(randomPos := i)];
    assert b.Keys == info.Keys;
    assert |b| == |b.Keys| == |info.Keys| == |info|;
  }

  lemma SwapKeeps(s: State, i: int, j: int, pending: set<int>, adrift: set<int>)
    requires Inv(s, pending, adrift)
    requires 0 <= i < |s.random| && 0 <= j < |s.random|
    ensures s.random[i] in s.info && s.random[j] in s.info
    ensures Inv(SwapRandom(s, i, j), pending, adrift)
  {
    hide Indexed, Listed, TriedTable, NewTable, RefCounts, IdsInRange, TriedIds, NewIds;
    ListedAt(s.info, s.random, i);
    ListedAt(s.info, s.random, j);
    if i != j {
      SwapListed(s.info, s.random, i, j);
      var info := SwapRandom(s, i, j).info;
      TablesFrame(s.info, info, s);
      CountersFrame(s.info, info, s.idCount);
      RefCountsFrame(s.info, info, s.vNew, pending, adrift);
    }
  }

  lemma RemoveListed(info: map<int, Info>, random: seq<int>, id: int)
    requires Listed(info, random) && id in info && info[id].randomPos == |random| - 1
    ensures Listed(info - {id}, random[..|random| - 1])
  {
    var t, r := info - {id}, random[..|random| - 1];
    assert t.Keys == info.Keys - {id};
    assert |t| == |t.Keys| == |info.Keys| - 1 == |r|;
    forall n | n in t ensures 0 <= t[n].randomPos < |r| && r[t[n].randomPos] == n {
      assert random[info[n].randomPos] == n;
    }
    forall i | 0 <= i < |r| ensures r[i] in t && t[r[i]].randomPos == i {
      assert random[i] in info && info[random[i]].randomPos == i;
    }
  }

  lemma RemoveIndexed(info: map<int, Info>, addrs: map<NetAddr, int>, id: int)
    requires Indexed(info, addrs) && id in info
    ensures Indexed(info - {id}, addrs - {info[id].service.net})
  {
  }

  lemma RemoveTables(s: State, id: int)
    requires TriedTable(s.h, s.info, s.vTried) && NewTable(s.h, s.info, s.vNew)
    requires id in s.info && !s.info[id].inTried && Refs(s.vNew, id) == {}
    ensures TriedTable(s.h, s.info - {id}, s.vTried) && NewTable(s.h, s.info - {id}, s.vNew)
  {
    forall i | 0 <= i < |s.vNew| ensures s.vNew[i] != id {
      assert i !in Refs(s.vNew, id);
    }
  }

  lemma RemoveCounters(info: map<int, Info>, id: int, idCount: int)
    requires id in info && !info[id].inTried
    ensures TriedIds(info - {id}) == TriedIds(info) && NewIds(info - {id}) == NewIds(info) - {id}
    ensures IdsInRange(info, idCount) ==> IdsInRange(info - {id}, idCount)
  {
  }

  lemma RemoveRefCounts(info: map<int, Info>, vNew: seq<int>, pending: set<int>, adrift: set<int>, id: int)
    requires RefCounts(info, vNew, pending, adrift) && id in info
    ensures RefCounts(info - {id}, vNew, pending - {id}, adrift)
  {
  }

  lemma DropLastKeeps(s: State, id: int, pending: set<int>, adrift: set<int>)
    requires Inv(s, pending, adrift) && id in pending && id in s.info
    requires s.info[id].randomPos == |s.random| - 1
    ensures Inv(DropLast(s, id), pending - {id}, adrift)
  {
    hide Indexed, Listed, TriedTable, NewTable, RefCounts, IdsInRange, TriedIds, NewIds, Refs;
    LooseHasNoRefs(s, id, pending, adrift);
    RemoveListed(s.info, s.random, id);
    RemoveIndexed(s.info, s.addrs, id);
    RemoveTables(s, id);
    RemoveCounters(s.info, id, s.idCount);
    RemoveRefCounts(s.info, s.vNew, pending, adrift, id);
  }

  lemma LooseHasNoRefs(s: State, id: int, pending: set<int>, adrift: set<int>)
    requires Inv(s, pending, adrift) && id in pending + adrift
    ensures id in s.info && !s.info[id].inTried && s.info[id].refCount == 0 && Refs(s.vNew, id) == {}
    ensures id in NewIds(s.info)
  {
    hide Indexed, Listed, TriedTable, NewTable, IdsInRange;
  }

  lemma DeleteKeeps(s: State, id: int, pending: set<int>, adrift: set<int>)
    requires Inv(s, pending, adrift) && id in pending
    ensures Deletable(s, id)
    ensures Inv(Delete(s, id), pending - {id}, adrift)
  {
    hide Indexed, Listed, TriedTable, NewTable, RefCounts, IdsInRange, TriedIds, NewIds, Refs;
    LooseHasNoRefs(s, id, pending, adrift);
    PositionOf(s.info, s.random, id);
    ListedAt(s.info, s.random, |s.random| - 1);
    SwapKeeps(s, s.info[id].randomPos, |s.random| - 1, pending, adrift);
    DropLastKeeps(SwapRandom(s, s.info[id].randomPos, |s.random| - 1), id, pending, adrift);
  }

  lemma PositionOf(info: map<int, Info>, random: seq<int>, id: int)
    requires Listed(info, random) && id in info
    ensures 0 <= info[id].randomPos < |random| && random[info[id].randomPos] == id
    ensures random[|random| - 1] in info
  {
  }

  lemma RefsUpdate(table: seq<int>, slot: nat, id: int)
    requires slot < |table| && table[slot] != id
    ensures slot !in Refs(table, id)
    ensures Refs(table[slot := id], id) == Refs(table, id) + {slot}
    ensures slot in Refs(table, table[slot])
    ensures Refs(table[slot := id], table[slot]) == Refs(table, table[slot]) - {slot}
    ensures forall n :: n != id && n != table[slot] ==> Refs(table[slot := id], n) == Refs(table, n)
  {
  }

  lemma UnlinkTable(s: State, slot: nat)
    requires NewTable(s.h, s.info, s.vNew) && slot < NEW_SLOTS && s.vNew[slot] != EMPTY
    ensures s.vNew[slot] in s.info && !s.info[s.vNew[slot]].inTried
    ensures NewTable(s.h, s.info, s.vNew[slot := EMPTY])
  {
  }

  lemma UnlinkRefCounts(info: map<int, Info>, idCount: int, vNew: seq<int>, pending: set<int>, adrift: set<int>, slot: nat)
    requires RefCounts(info, vNew, pending, adrift) && IdsInRange(info, idCount)
    requires slot < |vNew| && vNew[slot] != EMPTY && vNew[slot] in info && !info[vNew[slot]].inTried
    ensures var id := vNew[slot];
            var r := info[id].refCount - 1;
            r >= 0 && RefCounts(info[id := info[id].(refCount := r)], vNew[slot := EMPTY],
                                if r == 0 then pending + {id} else pending, adrift)
  {
    RefsUpdate(vNew, slot, EMPTY);
    var id := vNew[slot];
    assert |Refs(vNew, id) - {slot}| == |Refs(vNew, id)| - 1;
  }

  lemma UnlinkKeeps(s: State, slot: nat, pending: set<int>, adrift: set<int>)
    requires Inv(s, pending, adrift) && slot < NEW_SLOTS && |s.vNew| == NEW_SLOTS && s.vNew[slot] != EMPTY
    ensures s.vNew[slot] in s.info && s.info[s.vNew[slot]].refCount > 0
    ensures var id := s.vNew[slot];
            var t := Unlink(s, slot);
            Inv(t, if t.info[id].refCount == 0 then pending + {id} else pending, adrift)
  {
    hide Indexed, Listed, TriedTable, NewTable, RefCounts, IdsInRange, TriedIds, NewIds, Refs;
    UnlinkTable(s, slot);
    var id := s.vNew[slot];
    var t := Unlink(s, slot);
    UnlinkRefCounts(s.info, s.idCount, s.vNew, pending, adrift, slot);
    assert t.info.Keys == s.info.Keys;
    ListedFrame(s.info, t.info, s.random);
    TablesFrame(s.info, t.info, s.(vNew := t.vNew));
    CountersFrame(s.info, t.info, s.idCount);
    NotLoose(s, id, slot, pending, adrift);
  }

  lemma NotLoose(s: State, id: int, slot: nat, pending: set<int>, adrift: set<int>)
    requires Inv(s, pending, adrift) && slot < |s.vNew| && s.vNew[slot] == id && id in s.info
    ensures id !in pending && id !in adrift && (!s.info[id].inTried ==> id in NewIds(s.info))
  {
    hide Indexed, Listed, TriedTable, NewTable, IdsInRange;
    assert slot in Refs(s.vNew, id);
  }

  /** Clearing a slot keeps the invariant, whatever the slot held. */
  lemma ClearNewKeeps(s: State, slot: nat, pending: set<int>, adrift: set<int>)
    requires Inv(s, pending, adrift) && slot < NEW_SLOTS
    ensures |s.vNew| == NEW_SLOTS && (s.vNew[slot] == EMPTY || s.vNew[slot] in s.info)
    ensures Inv(ClearNew(s, slot), pending, adrift)
    ensures ClearNew(s, slot).vNew == s.vNew[slot := EMPTY]
  {
    hide Indexed, Listed, TriedTable, NewTable, RefCounts, IdsInRange, TriedIds, NewIds, Refs;
    TableLengths(s);
    if s.vNew[slot] == EMPTY {
      assert s.vNew[slot := EMPTY] == s.vNew;
    } else {
      UnlinkKeeps(s, slot, pending, adrift);
      var id := s.vNew[slot];
      NotLoose(s, id, slot, pending, adrift);
      var t := Unlink(s, slot);
      if t.info[id].refCount == 0 {
        DeleteKeeps(t, id, pending + {id}, adrift);
        assert pending + {id} - {id} == pending;
      }
    }
  }

  lemma TableLengths(s: State)
    requires NewTable(s.h, s.info, s.vNew) && TriedTable(s.h, s.info, s.vTried)
    ensures |s.vNew| == NEW_SLOTS && |s.vTried| == TRIED_SLOTS
  {
  }

  lemma CreateIndexes(s: State, a: Address, i: Info)
    requires s.idCount >= 0 && IdsInRange(s.info, s.idCount) && Indexed(s.info, s.addrs) && Listed(s.info, s.random)
    requires i.service == a.service && a.service.net !in s.addrs && i.randomPos == |s.random|
    ensures var info := s.info[s.idCount := i];
            && IdsInRange(info, s.idCount + 1)
            && Indexed(info, s.addrs[a.service.net := s.idCount])
            && Listed(info, s.random + [s.idCount])
  {
    hide Indexed, Listed;
    assert s.idCount !in s.info;
    CreateIndexed(s.info, s.addrs, s.idCount, i);
    CreateListed(s.info, s.random, s.idCount, i);
  }

  lemma CreateIndexed(info: map<int, Info>, addrs: map<NetAddr, int>, id: int, i: Info)
    requires Indexed(info, addrs) && id !in info && i.service.net !in addrs
    ensures Indexed(info[id := i], addrs[i.service.net := id])
  {
  }

  lemma CreateListed(info: map<int, Info>, random: seq<int>, id: int, i: Info)
    requires Listed(info, random) && id !in info && i.randomPos == |random|
    ensures Listed(info[id := i], random + [id])
  {
    assert info[id := i].Keys == info.Keys + {id};
    assert |info[id := i]| == |info[id := i].Keys| == |info| + 1;
  }

  lemma CreateTables(s: State, i: Info, pending: set<int>)
    requires s.idCount >= 0 && IdsInRange(s.info, s.idCount) && TriedTable(s.h, s.info, s.vTried) && NewTable(s.h, s.info, s.vNew)
    requires RefCounts(s.info, s.vNew, pending, {}) && !i.inTried && i.refCount == 0
    ensures var info := s.info[s.idCount := i];
            && TriedTable(s.h, info, s.vTried) && NewTable(s.h, info, s.vNew)
            && RefCounts(info, s.vNew, pending + {s.idCount}, {})
            && TriedIds(info) == TriedIds(s.info)
            && NewIds(info) == NewIds(s.info) + {s.idCount}
            && s.idCount !in NewIds(s.info)
  {
    var info := s.info[s.idCount := i];
    assert s.idCount !in s.info;
    forall j: nat | j < |s.vNew| ensures s.vNew[j] != s.idCount {
      assert s.vNew[j] == EMPTY || s.vNew[j] in s.info;
    }
    assert Refs(s.vNew, s.idCount) == {};
  }

  /** A created entry is counted as new at once and is pending until it gets a slot. */
  lemma CreateKeeps(s: State, a: Address, source: NetAddr, pending: set<int>)
    requires Inv(s, pending, {}) && a.service.net !in s.addrs
    ensures var t := Create(s, a, source); Inv(t.(nNew := t.nNew + 1), pending + {s.idCount}, {})
  {
    hide Indexed, Listed, TriedTable, NewTable, RefCounts, IdsInRange, TriedIds, NewIds, Refs;
    var i := FreshInfo(a, source).(randomPos := |s.random|);
    CreateIndexes(s, a, i);
    CreateTables(s, i, pending);
  }

  lemma LinkTable(s: State, id: int, slot: nat)
    requires NewTable(s.h, s.info, s.vNew) && slot < NEW_SLOTS && id in s.info && !s.info[id].inTried
    requires NewSlot(s.h, s.info[id].service, slot / BUCKET_SIZE) == slot
    ensures NewTable(s.h, s.info, s.vNew[slot := id])
  {
  }

  lemma LinkRefCounts(info: map<int, Info>, vNew: seq<int>, pending: set<int>, adrift: set<int>, id: int, slot: nat)
    requires RefCounts(info, vNew, pending, adrift) && id in info && !info[id].inTried && EMPTY !in info && id !in adrift
    requires slot < |vNew| && vNew[slot] == EMPTY && info[id].refCount < BUCKETS_PER_ADDRESS
    ensures RefCounts(info[id := info[id].(refCount := info[id].refCount + 1)], vNew[slot := id], pending - {id}, adrift)
  {
    RefsUpdate(vNew, slot, id);
    assert |Refs(vNew, id) + {slot}| == |Refs(vNew, id)| + 1;
  }

  /** Linking into an empty slot settles a pending entry. */
  lemma LinkKeeps(s: State, id: int, slot: nat, pending: set<int>, adrift: set<int>)
    requires Inv(s, pending, adrift) && id in s.info && !s.info[id].inTried && id !in adrift
    requires slot < NEW_SLOTS && |s.vNew| == NEW_SLOTS && s.vNew[slot] == EMPTY
    requires NewSlot(s.h, s.info[id].service, slot / BUCKET_SIZE) == slot
    requires s.info[id].refCount < BUCKETS_PER_ADDRESS
    ensures Inv(Link(s, id, slot), pending - {id}, adrift)
  {
    hide Indexed, Listed, TriedTable, NewTable, RefCounts, IdsInRange, TriedIds, NewIds, Refs;
    NoEmptyId(s.info, s.idCount);
    var t := Link(s, id, slot);
    LinkTable(s, id, slot);
    LinkRefCounts(s.info, s.vNew, pending, adrift, id, slot);
    assert t.info.Keys == s.info.Keys;
    ListedFrame(s.info, t.info, s.random);
    TablesFrame(s.info, t.info, s.(vNew := t.vNew));
    CountersFrame(s.info, t.info, s.idCount);
  }

  lemma NoEmptyId(info: map<int, Info>, idCount: int)
    requires IdsInRange(info, idCount)
    ensures EMPTY !in info
  {
  }

  /** Counting an adrift entry as new makes it pending. */
  lemma SettleKeeps(s: State, id: int, pending: set<int>, adrift: set<int>)
    requires Inv(s, pending, adrift) && id in adrift
    ensures Inv(s.(nNew := s.nNew + 1), pending + {id}, adrift - {id})
  {
    hide Indexed, Listed, TriedTable, NewTable, IdsInRange, TriedIds, NewIds, Refs;
  }

  lemma DetachTable(s: State, id: int)
    requires NewTable(s.h, s.info, s.vNew) && id != EMPTY
    ensures NewTable(s.h, s.info, Without(s.vNew, id))
  {
  }

  lemma DetachRefCounts(info: map<int, Info>, vNew: seq<int>, id: int)
    requires RefCounts(info, vNew, {}, {}) && id in info && !info[id].inTried && EMPTY !in info
    ensures RefCounts(info[id := info[id].(refCount := 0)], Without(vNew, id), {}, {id})
  {
    var w := Without(vNew, id);
    assert Refs(w, id) == {};
    forall n | n in info && n != id ensures Refs(w, n) == Refs(vNew, n) {
    }
  }

  /** An entry taken out of every new bucket is adrift. */
  lemma DetachKeeps(s: State, id: int)
    requires Consistent(s) && id in s.info && !s.info[id].inTried
    ensures Inv(Detach(s, id), {}, {id})
  {
    hide Indexed, Listed, TriedTable, NewTable, RefCounts, IdsInRange, TriedIds, NewIds, Refs, Without;
    NoEmptyId(s.info, s.idCount);
    InNewIds(s.info, id);
    var t := Detach(s, id);
    DetachTable(s, id);
    DetachRefCounts(s.info, s.vNew, id);
    assert t.info.Keys == s.info.Keys;
    ListedFrame(s.info, t.info, s.random);
    TablesFrame(s.info, t.info, s.(vNew := t.vNew));
    CountersFrame(s.info, t.info, s.idCount);
  }

  lemma InNewIds(info: map<int, Info>, id: int)
    requires id in info && !info[id].inTried
    ensures id in NewIds(info)
  {
  }

  lemma EvictTables(s: State, slot: nat)
    requires TriedTable(s.h, s.info, s.vTried) && NewTable(s.h, s.info, s.vNew)
    requires slot < |s.vTried| && s.vTried[slot] != EMPTY
    ensures s.vTried[slot] in s.info && s.info[s.vTried[slot]].inTried
    ensures TriedSlot(s.h, s.info[s.vTried[slot]].service) == slot
    ensures var t := Evict(s, slot); TriedTable(s.h, t.info, t.vTried)
    ensures Refs(s.vNew, s.vTried[slot]) == {}
  {
  }

  lemma EvictNew(s: State, slot: nat)
    requires NewTable(s.h, s.info, s.vNew)
    requires slot < |s.vTried| && s.vTried[slot] in s.info
    ensures var t := Evict(s, slot); NewTable(s.h, t.info, t.vNew)
  {
  }

  lemma EvictCounters(info: map<int, Info>, id: int)
    requires id in info && info[id].inTried
    ensures var b := info[id := info[id].(inTried := false)];
            TriedIds(b) == TriedIds(info) - {id} && NewIds(b) == NewIds(info) + {id}
    ensures id in TriedIds(info) && id !in NewIds(info)
  {
  }

  lemma EvictRefCounts(info: map<int, Info>, vNew: seq<int>, pending: set<int>, adrift: set<int>, id: int)
    requires id in info && info[id].inTried && RefCounts(info, vNew, pending, adrift)
    ensures RefCounts(info[id := info[id].(inTried := false)], vNew, pending, adrift + {id})
  {
  }

  lemma ServiceFrame(a: map<int, Info>, b: map<int, Info>, addrs: map<NetAddr, int>, idCount: int)
    requires a.Keys == b.Keys && IdsInRange(a, idCount) && Indexed(a, addrs)
    requires forall n :: n in a ==> a[n].service == b[n].service
    ensures IdsInRange(b, idCount) && Indexed(b, addrs)
  {
  }

  /** The occupant of a tried slot, taken out, is adrift. */
  lemma EvictKeeps(s: State, slot: nat, adrift: set<int>)
    requires Inv(s, {}, adrift) && slot < |s.vTried| && s.vTried[slot] != EMPTY
    ensures s.vTried[slot] in s.info
    ensures Inv(Evict(s, slot), {}, adrift + {s.vTried[slot]})
  {
    hide Indexed, Listed, TriedTable, NewTable, RefCounts, IdsInRange, TriedIds, NewIds, Refs;
    EvictTables(s, slot);
    EvictNew(s, slot);
    var id, t := s.vTried[slot], Evict(s, slot);
    EvictCounters(s.info, id);
    EvictRefCounts(s.info, s.vNew, {}, adrift, id);
    assert t.info.Keys == s.info.Keys;
    ListedFrame(s.info, t.info, s.random);
    ServiceFrame(s.info, t.info, s.addrs, s.idCount);
  }

  lemma PromoteTables(s: State, id: int)
    requires TriedTable(s.h, s.info, s.vTried) && NewTable(s.h, s.info, s.vNew)
    requires id in s.info && EMPTY !in s.info && !s.info[id].inTried && Refs(s.vNew, id) == {}
    requires s.vTried[TriedSlot(s.h, s.info[id].service)] == EMPTY
    ensures var t := Promote(s, id); TriedTable(s.h, t.info, t.vTried) && NewTable(s.h, t.info, t.vNew)
  {
    forall i: nat | i < |s.vNew| ensures s.vNew[i] != id {
      assert i !in Refs(s.vNew, id);
    }
  }

  lemma PromoteCounters(info: map<int, Info>, id: int)
    requires id in info && !info[id].inTried
    ensures var b := info[id := info[id].(inTried := true)];
            TriedIds(b) == TriedIds(info) + {id} && NewIds(b) == NewIds(info) - {id}
    ensures id !in TriedIds(info) && id in NewIds(info)
  {
  }

  lemma PromoteRefCounts(info: map<int, Info>, vNew: seq<int>, pending: set<int>, id: int)
    requires id in info && RefCounts(info, vNew, pending, {id})
    ensures RefCounts(info[id := info[id].(inTried := true)], vNew, pending, {})
  {
  }

  /** An adrift entry moved into its empty tried slot completes the invariant. */
  lemma PromoteKeeps(s: State, id: int, pending: set<int>)
    requires Inv(s, pending, {id}) && |s.vTried| == TRIED_SLOTS && id in s.info
    requires s.vTried[TriedSlot(s.h, s.info[id].service)] == EMPTY
    ensures Inv(Promote(s, id), pending, {})
  {
    hide Indexed, Listed, TriedTable, NewTable, RefCounts, IdsInRange, TriedIds, NewIds, Refs;
    NoEmptyId(s.info, s.idCount);
    LooseHasNoRefs(s, id, pending, {id});
    var t := Promote(s, id);
    PromoteTables(s, id);
    PromoteCounters(s.info, id);
    PromoteRefCounts(s.info, s.vNew, pending, id);
    assert t.info.Keys == s.info.Keys;
    ListedFrame(s.info, t.info, s.random);
    ServiceFrame(s.info, t.info, s.addrs, s.idCount);
  }

  // ----- What the steps leave alone

  /** Equal but for the position in the random order. */
  predicate SameEntry(a: Info, b: Info)
  {
    a == b.(randomPos := a.randomPos)
  }

  lemma DeleteEffect(s: State, id: int)
    requires Deletable(s, id)
    ensures var t := Delete(s, id);
            && t == s.(info := t.info, addrs := t.addrs, random := t.random, nNew := t.nNew)
            && t.info.Keys == s.info.Keys - {id}
            && (forall n :: n in t.info ==> SameEntry(s.info[n], t.info[n]))
  {
  }

  /** Clearing a slot touches only its occupant, which goes away with its last reference. */
  lemma ClearNewEffect(s: State, slot: nat)
    requires Listed(s.info, s.random)
    requires slot < |s.vNew| && (s.vNew[slot] == EMPTY || s.vNew[slot] in s.info)
    ensures var t, o := ClearNew(s, slot), s.vNew[slot];
            && t == s.(info := t.info, addrs := t.addrs, random := t.random, nNew := t.nNew, vNew := t.vNew)
            && t.vNew == s.vNew[slot := EMPTY]
            && t.info.Keys == (if o != EMPTY && s.info[o].refCount == 1 then s.info.Keys - {o} else s.info.Keys)
            && (forall n :: n in t.info && n != o ==> SameEntry(s.info[n], t.info[n]))
            && (o != EMPTY && o in t.info ==> t.info[o] == s.info[o].(refCount := s.info[o].refCount - 1))
  {
    if s.vNew[slot] == EMPTY {
      assert s.vNew[slot := EMPTY] == s.vNew;
    } else {
      var u, o := Unlink(s, slot), s.vNew[slot];
      assert u.info.Keys == s.info.Keys;
      if u.info[o].refCount == 0 {
        ListedFrame(s.info, u.info, s.random);
        DeleteEffect(u, o);
      }
    }
  }
}
