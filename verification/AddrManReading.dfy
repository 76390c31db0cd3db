/**
 Reading files of any origin into the address manager: written by another
 version, for another number of buckets, or with buckets that say anything.
 */
module AddrManReading {

  import opened AddrManState
  import opened AddrManSerialize

  // ----- Entries without a place

  /** The entries that neither table holds. */
  function Unplaced(info: map<int, Info>): set<int>
  {
    set n | n in info && !info[n].inTried && info[n].refCount == 0
  }

  /** The invariant, but for entries without a place. */
  ghost predicate Almost(s: State) { Inv(s, Unplaced(s.info), {}) }

  lemma AlmostIs(s: State, pending: set<int>)
    requires Inv(s, pending, {})
    ensures pending == Unplaced(s.info) && Almost(s)
  {
    hide Indexed, Listed, TriedTable, NewTable, IdsInRange, TriedIds, Refs;
    forall n ensures n in pending <==> n in Unplaced(s.info) {
      if n in pending {
        assert n in NewIds(s.info);
      }
    }
  }

  // ----- Entries of the new table

  /** A manager to which n entries of the new table were added, and nothing else yet. */
  function AfterNew(u: State, n: nat): State
  {
    u.(idCount := n, nNew := n, nTried := 0)
  }

  function AddressOf(r: Saved): Address { Address(r.service, r.time, r.services) }

  lemma NewEntryKeeps(u: State, r: Saved, n: nat, usable: bool)
    requires Almost(AfterNew(u, n)) && r.service.net !in u.addrs
    ensures Almost(AfterNew(LoadNewOne(u, r, n, usable), n + 1))
  {
    hide Inv, NewSlot, NewBucket, Unplaced;
    var s := AfterNew(u, n);
    var pending := Unplaced(s.info);
    CreateKeeps(s, AddressOf(r), r.source, pending);
    var i := Blank(r).(randomPos := |u.random|);
    var c := Create(s, AddressOf(r), r.source);
    TouchKeeps(c.(nNew := n + 1), n, i, pending + {n}, {});
    var added := u.(info := u.info[n := i], addrs := u.addrs[r.service.net := n], random := u.random + [n]);
    var d := AfterNew(added, n + 1);
    assert SetInfo(c.(nNew := n + 1), n, i).info == d.info;
    AlmostIs(d, pending + {n});
    var slot := NewSlot(u.h, r.service, NewBucket(u.h, r.service, r.source));
    PrimarySlot(u.h, r);
    NewLength(d);
    if !usable && u.vNew[slot] == EMPTY {
      LinkKeeps(d, n, slot, pending + {n}, {});
      assert Link(d, n, slot) == AfterNew(Link(added, n, slot), n + 1);
      AlmostIs(Link(d, n, slot), pending + {n} - {n});
    }
  }

  lemma PrimarySlot(h: Hashes, r: Saved)
    ensures var slot := NewSlot(h, r.service, NewBucket(h, r.service, r.source));
            slot < NEW_SLOTS && NewSlot(h, r.service, slot / BUCKET_SIZE) == slot
  {
  }

  lemma NewLength(s: State)
    requires Almost(s)
    ensures |s.vNew| == NEW_SLOTS && |s.vTried| == TRIED_SLOTS
  {
    hide Indexed, Listed, RefCounts, IdsInRange, TriedIds, NewIds, Refs;
  }

  predicate DistinctNets(rs: seq<Saved>)
  {
    forall i, j :: 0 <= i < j < |rs| ==> rs[i].service.net != rs[j].service.net
  }

  /** One of the first n entries has this address. */
  predicate Among(rs: seq<Saved>, n: nat, a: NetAddr)
  {
    exists k :: 0 <= k < n && k < |rs| && rs[k].service.net == a
  }

  /** Only addresses of the first n entries are known. */
  predicate KnownOnly(addrs: map<NetAddr, int>, rs: seq<Saved>, n: nat)
  {
    forall a :: a in addrs ==> Among(rs, n, a)
  }

  lemma NextUnknown(addrs: map<NetAddr, int>, rs: seq<Saved>, n: nat, id: int)
    requires n < |rs| && DistinctNets(rs) && KnownOnly(addrs, rs, n)
    ensures rs[n].service.net !in addrs
    ensures KnownOnly(addrs, rs, n + 1) && KnownOnly(addrs[rs[n].service.net := id], rs, n + 1)
  {
    forall a | Among(rs, n, a) ensures a != rs[n].service.net && Among(rs, n + 1, a) {
      var k :| 0 <= k < n && k < |rs| && rs[k].service.net == a;
      assert rs[k].service.net != rs[n].service.net;
    }
    assert Among(rs, n + 1, rs[n].service.net);
  }

  /** All entries are new ones. */
  predicate NoneTried(info: map<int, Info>)
  {
    forall n :: n in info ==> !info[n].inTried
  }

  /** The reader's state after n entries of the new table. */
  ghost predicate ReadNew(z: Stream, rs: seq<Saved>, u: State, n: nat)
  {
    && Almost(AfterNew(u, n)) && KnownOnly(u.addrs, rs, n) && NoneTried(u.info)
    && u.h == z.h && u.nNew == z.nNew && u.nTried == z.nTried
  }

  lemma ReadNewNext(z: Stream, rs: seq<Saved>, u: State, n: nat)
    requires ReadNew(z, rs, u, n) && n < |rs| && DistinctNets(rs)
    ensures ReadNew(z, rs, LoadNewOne(u, rs[n], n, Usable(z)), n + 1)
  {
    hide Inv, Almost, Unplaced, KnownOnly, DistinctNets, NewSlot, Usable;
    NextUnknown(u.addrs, rs, n, n);
    NewEntryKeeps(u, rs[n], n, Usable(z));
  }

  lemma {:induction false} NewRead(z: Stream, rs: seq<Saved>, collisions: set<int>, n: nat)
    requires n <= |z.newEntries| <= |rs| && rs[..|z.newEntries|] == z.newEntries && DistinctNets(rs)
    ensures ReadNew(z, rs, LoadNew(Started(z, collisions), z.newEntries, Usable(z), n), n)
  {
    if n == 0 {
      StartAlmost(z, collisions);
    } else {
      hide ReadNew, DistinctNets, LoadNewOne, Usable, Started;
      NewRead(z, rs, collisions, n - 1);
      var u := LoadNew(Started(z, collisions), z.newEntries, Usable(z), n - 1);
      assert z.newEntries[n - 1] == rs[n - 1];
      ReadNewNext(z, rs, u, n - 1);
    }
  }

  lemma StartAlmost(z: Stream, collisions: set<int>)
    ensures Almost(AfterNew(Started(z, collisions), 0))
  {
    var s := AfterNew(Started(z, collisions), 0);
    assert TriedIds(s.info) == {} && NewIds(s.info) == {} && Unplaced(s.info) == {};
  }

  // ----- Entries of the tried table

  lemma TriedEntryKeeps(s: State, r: Saved)
    requires Almost(s) && r.service.net !in s.addrs && |s.vTried| == TRIED_SLOTS
    requires s.vTried[TriedSlot(s.h, r.service)] == EMPTY
    ensures var t := LoadTriedOne(s, r); Almost(t.(nTried := s.nTried + 1))
  {
    hide Inv, TriedSlot, Unplaced;
    var pending, id := Unplaced(s.info), s.idCount;
    FreshUnplaced(s, pending);
    CreateKeeps(s, AddressOf(r), r.source, pending);
    var i := Blank(r).(randomPos := |s.random|);
    var c := Create(s, AddressOf(r), r.source);
    TouchKeeps(c.(nNew := s.nNew + 1), id, i, pending + {id}, {});
    var d := c.(info := c.info[id := i]);
    assert SetInfo(c.(nNew := s.nNew + 1), id, i) == d.(nNew := s.nNew + 1);
    Unsettle(d, pending, id);
    PromoteKeeps(d, id, pending);
    var t := Promote(d, id);
    assert t.info == LoadTriedOne(s, r).info;
    AlmostIs(t, pending);
  }

  lemma FreshUnplaced(s: State, pending: set<int>)
    requires Inv(s, pending, {})
    ensures s.idCount !in pending && s.idCount !in s.info
  {
    hide Indexed, Listed, TriedTable, NewTable, RefCounts, TriedIds, Refs;
  }

  /** A pending entry that is not counted is adrift. */
  lemma Unsettle(s: State, pending: set<int>, id: int)
    requires Inv(s.(nNew := s.nNew + 1), pending + {id}, {}) && id !in pending
    ensures Inv(s, pending, {id})
  {
    hide Indexed, Listed, TriedTable, NewTable, IdsInRange, TriedIds, NewIds, Refs;
    assert |{id}| == 1;
  }

  /** New entries have the ids below the count of new entries, tried ones the others. */
  predicate Parted(info: map<int, Info>, nNew: int)
  {
    forall n :: n in info ==> (info[n].inTried <==> n >= nNew)
  }

  /** The manager after n entries of the tried table, counting those that were not lost. */
  function AfterTried(u: State, z: Stream, n: nat): State
  {
    u.(nTried := u.nTried - z.nTried + n)
  }

  /** The reader's state after n entries of the tried table. */
  ghost predicate ReadTried(z: Stream, rs: seq<Saved>, u: State, n: nat)
  {
    && Almost(AfterTried(u, z, n)) && KnownOnly(u.addrs, rs, |z.newEntries| + n)
    && Parted(u.info, z.nNew) && u.idCount >= z.nNew && u.nNew == z.nNew && u.h == z.h
  }

  lemma ReadTriedNext(z: Stream, rs: seq<Saved>, u: State, n: nat)
    requires ReadTried(z, rs, u, n) && |z.newEntries| + n < |rs| && DistinctNets(rs)
    ensures ReadTried(z, rs, LoadTriedOne(u, rs[|z.newEntries| + n]), n + 1)
  {
    hide Inv, Almost, Unplaced, TriedSlot, KnownOnly, DistinctNets;
    var k := |z.newEntries| + n;
    var r := rs[k];
    NextUnknown(u.addrs, rs, k, u.idCount);
    var s := AfterTried(u, z, n);
    NewLength(s);
    if u.vTried[TriedSlot(u.h, r.service)] == EMPTY {
      TriedEntryKeeps(s, r);
      assert LoadTriedOne(s, r).(nTried := s.nTried + 1) == AfterTried(LoadTriedOne(u, r), z, n + 1);
    } else {
      assert s == AfterTried(LoadTriedOne(u, r), z, n + 1);
    }
  }

  lemma {:induction false} TriedRead(z: Stream, rs: seq<Saved>, start: State, n: nat)
    requires n <= |z.triedEntries| && rs == z.newEntries + z.triedEntries && DistinctNets(rs)
    requires ReadTried(z, rs, start, 0)
    ensures ReadTried(z, rs, LoadTried(start, z.triedEntries, n), n)
  {
    hide ReadTried, DistinctNets, LoadTriedOne;
    if n > 0 {
      TriedRead(z, rs, start, n - 1);
      assert z.triedEntries[n - 1] == rs[|z.newEntries| + (n - 1)];
      ReadTriedNext(z, rs, LoadTried(start, z.triedEntries, n - 1), n - 1);
    }
  }

  // ----- References

  lemma SlotKeeps(u: State, bucket: nat, index: int, usable: bool)
    requires Almost(u) && Parted(u.info, u.nNew)
    ensures var t := LoadSlot(u, bucket, index, usable); Almost(t) && Parted(t.info, t.nNew) && t.nNew == u.nNew
  {
    hide Inv, NewSlot, Unplaced;
    if 0 <= index < u.nNew && index in u.info {
      var slot := NewSlot(u.h, u.info[index].service, bucket);
      SlotHome(u.h, u.info[index].service, bucket);
      NewLength(u);
      if usable && slot < |u.vNew| && u.vNew[slot] == EMPTY && u.info[index].refCount < BUCKETS_PER_ADDRESS {
        LinkKeeps(u, index, slot, Unplaced(u.info), {});
        AlmostIs(Link(u, index, slot), Unplaced(u.info) - {index});
      }
    }
  }

  lemma SlotHome(h: Hashes, svc: Service, bucket: nat)
    ensures var slot := NewSlot(h, svc, bucket); NewSlot(h, svc, slot / BUCKET_SIZE) == slot
  {
  }

  lemma {:induction false} BucketKeeps(u: State, bucket: nat, indexes: seq<int>, usable: bool, n: nat)
    requires n <= |indexes| && Almost(u) && Parted(u.info, u.nNew)
    ensures var t := LoadBucket(u, bucket, indexes, usable, n); Almost(t) && Parted(t.info, t.nNew) && t.nNew == u.nNew
  {
    hide Almost, Parted, LoadSlot;
    if n > 0 {
      BucketKeeps(u, bucket, indexes, usable, n - 1);
      SlotKeeps(LoadBucket(u, bucket, indexes, usable, n - 1), bucket, indexes[n - 1], usable);
    }
  }

  lemma {:induction false} BucketsKeep(u: State, buckets: seq<seq<int>>, usable: bool, n: nat)
    requires n <= |buckets| && Almost(u) && Parted(u.info, u.nNew)
    ensures var t := LoadBuckets(u, buckets, usable, n); Almost(t) && Parted(t.info, t.nNew) && t.nNew == u.nNew
  {
    hide Almost, Parted, LoadBucket;
    if n > 0 {
      BucketsKeep(u, buckets, usable, n - 1);
      BucketKeeps(LoadBuckets(u, buckets, usable, n - 1), n - 1, buckets[n - 1], usable, |buckets[n - 1]|);
    }
  }

  // ----- Dropping what has no place

  /** No id among the first n is without a place. */
  predicate Settled(info: map<int, Info>, ids: seq<int>, n: nat)
    requires n <= |ids|
  {
    forall k :: 0 <= k < n ==> ids[k] !in Unplaced(info)
  }

  lemma {:induction false} PruneKeeps(u: State, ids: seq<int>, n: nat)
    requires n <= |ids| && Almost(u)
    ensures var v := Prune(u, ids, n); Almost(v) && v.info.Keys <= u.info.Keys && Settled(v.info, ids, n)
  {
    hide Inv, Almost, Delete, Listed, Unplaced;
    if n > 0 {
      hide Settled;
      PruneKeeps(u, ids, n - 1);
      PruneOne(Prune(u, ids, n - 1), ids, n - 1);
    }
  }

  lemma PruneOne(v: State, ids: seq<int>, n: nat)
    requires n < |ids| && Almost(v) && Settled(v.info, ids, n)
    ensures var id := ids[n];
            var t := if Deletable(v, id) && !v.info[id].inTried && v.info[id].refCount == 0 then Delete(v, id) else v;
            Almost(t) && t.info.Keys <= v.info.Keys && Settled(t.info, ids, n + 1)
  {
    hide Inv, Almost, Delete, Listed;
    DropUnplaced(v, ids[n]);
  }

  /** An entry without a place can be deleted, and no other loses its place with it. */
  lemma DropUnplaced(v: State, id: int)
    requires Almost(v)
    ensures id in Unplaced(v.info) ==>
              && Deletable(v, id) && Almost(Delete(v, id))
              && Unplaced(Delete(v, id).info) == Unplaced(v.info) - {id} && Delete(v, id).info.Keys == v.info.Keys - {id}
  {
    hide Inv, Delete;
    if id in Unplaced(v.info) {
      DeleteKeeps(v, id, Unplaced(v.info), {});
      AlmostIs(Delete(v, id), Unplaced(v.info) - {id});
      DeleteEffect(v, id);
    }
  }

  // ----- The whole file

  /**
   A file of any version, with any number of buckets and with any references in
   them, is read into a consistent manager if it has as many entries as it says,
   not too many, and no address twice.
   */
  lemma ReadConsistent(z: Stream, collisions: set<int>)
    requires Whole(z) && z.keySize == 32 && 0 <= z.nNew <= NEW_SLOTS && 0 <= z.nTried <= TRIED_SLOTS
    requires DistinctNets(z.newEntries + z.triedEntries)
    ensures Unserialized(z, collisions).Loaded? && Consistent(Unserialized(z, collisions).state)
  {
    hide Inv, Almost, LoadNew, LoadTried, LoadBuckets, Prune, Usable, ReadNew, ReadTried, DistinctNets, Sorted, Toggle30;
    var rs := z.newEntries + z.triedEntries;
    assert rs[..|z.newEntries|] == z.newEntries;
    NewRead(z, rs, collisions, |z.newEntries|);
    var u1 := LoadNew(Started(z, collisions), z.newEntries, Usable(z), |z.newEntries|);
    var v1 := u1.(idCount := z.nNew);
    NewDone(z, rs, u1, v1);
    TriedRead(z, rs, v1, |z.triedEntries|);
    var u2 := LoadTried(v1, z.triedEntries, |z.triedEntries|);
    TriedDone(z, rs, u2);
    BucketsKeep(u2, z.buckets, Usable(z), |z.buckets|);
    var u3 := LoadBuckets(u2, z.buckets, Usable(z), |z.buckets|);
    PrunedConsistent(u3);
  }

  lemma NewDone(z: Stream, rs: seq<Saved>, u: State, v: State)
    requires ReadNew(z, rs, u, |z.newEntries|) && z.nNew == |z.newEntries| && v == u.(idCount := z.nNew)
    ensures ReadTried(z, rs, v, 0)
  {
    hide Indexed, Listed, TriedTable, NewTable, RefCounts, TriedIds, NewIds, Refs, Unplaced, KnownOnly;
    assert AfterTried(v, z, 0) == AfterNew(u, |z.newEntries|);
  }

  lemma TriedDone(z: Stream, rs: seq<Saved>, u: State)
    requires ReadTried(z, rs, u, |z.triedEntries|) && z.nTried == |z.triedEntries|
    ensures Almost(u) && Parted(u.info, u.nNew)
  {
    hide Almost, KnownOnly;
    assert AfterTried(u, z, |z.triedEntries|) == u;
  }

  lemma PrunedConsistent(u: State)
    requires Almost(u)
    ensures var ids := Sorted(u.info.Keys); Consistent(Prune(u, ids, |ids|))
  {
    hide Inv, Prune, Sorted;
    var ids := Sorted(u.info.Keys);
    PruneKeeps(u, ids, |ids|);
    var v := Prune(u, ids, |ids|);
    forall n | n in u.info ensures n !in Unplaced(v.info) {
      assert n in ids;
    }
    assert Unplaced(v.info) == {};
  }

  /** Bit 30 of a number of buckets tells a file of this format from one of the first. */
  function BucketsAnnounced(z: Stream): int
  {
    if z.version == 0 then z.nUBuckets
    else if z.nUBuckets / 0x4000_0000 % 2 == 1 then z.nUBuckets - 0x4000_0000
    else z.nUBuckets + 0x4000_0000
  }

  /**
   When a file is refused, and why: for the size of its key, for too many entries
   of either table, and for less data than it announces. Negative counts announce
   nothing.
   */
  lemma ReadRefused(z: Stream, collisions: set<int>)
    requires Given(z)
    ensures var r := Unserialized(z, collisions);
            && (r.BadKeySize? <==> z.keySize != 32)
            && (r.TooManyNew? <==> z.keySize == 32 && z.nNew > 65536)
            && (r.TooManyTried? <==> z.keySize == 32 && z.nNew <= 65536 && z.nTried > 16384)
            && (r.EndOfData? <==> z.keySize == 32 && z.nNew <= 65536 && z.nTried <= 16384 &&
                                  (|z.newEntries| < z.nNew || |z.triedEntries| < z.nTried || |z.buckets| < BucketsAnnounced(z)))
  {
    hide LoadNew, LoadTried, LoadBuckets, Prune, Sorted;
  }

  // ----- What a file leaves

  /** What is kept of an entry is what the file says. */
  predicate AsSaved(i: Info, r: Saved)
  {
    && i.service == r.service && i.time == r.time && i.services == r.services && i.source == r.source
    && i.lastSuccess == r.lastSuccess && i.attempts == r.attempts
  }

  /** The slot of the new table under an entry's own source. */
  function PrimaryOf(h: Hashes, r: Saved): (slot: nat)
    ensures slot < NEW_SLOTS
  {
    NewSlot(h, r.service, NewBucket(h, r.service, r.source))
  }

  /** Of the first n entries, the first one that belongs in a slot of the new table holds it. */
  ghost predicate FirstNew(h: Hashes, rs: seq<Saved>, n: nat, slot: nat, id: int)
    requires n <= |rs|
  {
    if id == EMPTY then forall k :: 0 <= k < n ==> PrimaryOf(h, rs[k]) != slot
    else 0 <= id < n && PrimaryOf(h, rs[id]) == slot && forall k :: 0 <= k < id ==> PrimaryOf(h, rs[k]) != slot
  }

  ghost predicate FirstsNew(h: Hashes, rs: seq<Saved>, n: nat, vNew: seq<int>)
    requires n <= |rs|
  {
    |vNew| == NEW_SLOTS && forall slot: nat :: slot < NEW_SLOTS ==> FirstNew(h, rs, n, slot, vNew[slot])
  }

  lemma NewTableOf(u: State, r: Saved, n: nat)
    requires |u.vNew| == NEW_SLOTS
    ensures var t, slot := LoadNewOne(u, r, n, false), PrimaryOf(u.h, r);
            t.h == u.h && t.vNew == (if u.vNew[slot] == EMPTY then u.vNew[slot := n] else u.vNew)
  {
  }

  lemma {:induction false} NewLeaves(z: Stream, collisions: set<int>, n: nat)
    requires n <= |z.newEntries| && !Usable(z)
    ensures var u := LoadNew(Started(z, collisions), z.newEntries, Usable(z), n);
            u.h == z.h && FirstsNew(z.h, z.newEntries, n, u.vNew)
  {
    hide Usable, LoadNewOne, PrimaryOf;
    if n > 0 {
      hide Started, FirstsNew;
      NewLeaves(z, collisions, n - 1);
      var u := LoadNew(Started(z, collisions), z.newEntries, Usable(z), n - 1);
      FirstNext(z.h, z.newEntries, n - 1, u.vNew);
      NewTableOf(u, z.newEntries[n - 1], n - 1);
    }
  }

  lemma FirstNext(h: Hashes, rs: seq<Saved>, n: nat, vNew: seq<int>)
    requires n < |rs| && FirstsNew(h, rs, n, vNew)
    ensures |vNew| == NEW_SLOTS
    ensures FirstsNew(h, rs, n + 1, if vNew[PrimaryOf(h, rs[n])] == EMPTY then vNew[PrimaryOf(h, rs[n]) := n] else vNew)
  {
    hide PrimaryOf;
    var slot := PrimaryOf(h, rs[n]);
    var after := if vNew[slot] == EMPTY then vNew[slot := n] else vNew;
    forall j: nat | j < NEW_SLOTS ensures FirstNew(h, rs, n + 1, j, after[j]) {
      assert FirstNew(h, rs, n, j, vNew[j]);
    }
  }

  /** Entry k of the new table in the file has id k, if it is kept. */
  ghost predicate SavedNew(rs: seq<Saved>, info: map<int, Info>)
  {
    forall k :: k in info && k < |rs| ==> 0 <= k && AsSaved(info[k], rs[k])
  }

  predicate KeysBelow(info: map<int, Info>, n: int)
  {
    forall k :: k in info ==> 0 <= k < n
  }

  /** Reading an entry of the new table adds it under its number. */
  lemma NewEntryOf(u: State, r: Saved, n: nat, usable: bool)
    ensures var t := LoadNewOne(u, r, n, usable);
            && t.info.Keys == u.info.Keys + {n} && AsSaved(t.info[n], r)
            && forall k :: k in u.info && k != n ==> t.info[k] == u.info[k]
  {
    hide NewSlot, NewBucket;
  }

  lemma {:induction false} NewSaved(start: State, rs: seq<Saved>, usable: bool, n: nat)
    requires n <= |rs| && start.info == map[]
    ensures var info := LoadNew(start, rs, usable, n).info; SavedNew(rs, info) && KeysBelow(info, n)
  {
    hide LoadNewOne, AsSaved;
    if n > 0 {
      NewSaved(start, rs, usable, n - 1);
      NewEntryOf(LoadNew(start, rs, usable, n - 1), rs[n - 1], n - 1, usable);
    }
  }

  /** Of the first n entries of the tried table, the first one that belongs in a slot holds it. */
  ghost predicate FirstTried(h: Hashes, ts: seq<Saved>, n: nat, slot: nat, id: int, info: map<int, Info>)
    requires n <= |ts|
  {
    if id == EMPTY then forall k :: 0 <= k < n ==> TriedSlot(h, ts[k].service) != slot
    else exists k :: 0 <= k < n && Leads(h, ts, k, slot) && id in info && AsSaved(info[id], ts[k])
  }

  /** Entry k is the first that belongs in a slot of the tried table. */
  predicate Leads(h: Hashes, ts: seq<Saved>, k: nat, slot: nat)
    requires k < |ts|
  {
    TriedSlot(h, ts[k].service) == slot && forall j :: 0 <= j < k ==> TriedSlot(h, ts[j].service) != slot
  }

  ghost predicate FirstsTried(h: Hashes, ts: seq<Saved>, n: nat, vTried: seq<int>, info: map<int, Info>)
    requires n <= |ts|
  {
    |vTried| == TRIED_SLOTS && forall slot: nat :: slot < TRIED_SLOTS ==> FirstTried(h, ts, n, slot, vTried[slot], info)
  }

  /** The next entry of the tried table takes its slot if that is free. */
  lemma FirstTriedNext(h: Hashes, ts: seq<Saved>, n: nat, vTried: seq<int>, info: map<int, Info>, id: int, i: Info)
    requires n < |ts| && FirstsTried(h, ts, n, vTried, info) && id !in info && id != EMPTY && AsSaved(i, ts[n])
    ensures |vTried| == TRIED_SLOTS
    ensures var slot := TriedSlot(h, ts[n].service);
            if vTried[slot] == EMPTY then FirstsTried(h, ts, n + 1, vTried[slot := id], info[id := i])
            else FirstsTried(h, ts, n + 1, vTried, info)
  {
    hide TriedSlot, AsSaved;
    var slot := TriedSlot(h, ts[n].service);
    var after, more := if vTried[slot] == EMPTY then vTried[slot := id] else vTried, if vTried[slot] == EMPTY then info[id := i] else info;
    forall j: nat | j < TRIED_SLOTS ensures FirstTried(h, ts, n + 1, j, after[j], more) {
      assert FirstTried(h, ts, n, j, vTried[j], info);
      if j == slot && vTried[slot] == EMPTY {
        assert Leads(h, ts, n, slot) && more[id] == i;
      } else if vTried[j] != EMPTY {
        var k :| 0 <= k < n && Leads(h, ts, k, j) && vTried[j] in info && AsSaved(info[vTried[j]], ts[k]);
        assert more[vTried[j]] == info[vTried[j]];
      }
    }
  }

  /** What the tried entries read so far leave. */
  ghost predicate TriedLeft(z: Stream, u: State, n: nat)
    requires n <= |z.triedEntries|
  {
    && u.h == z.h && z.nNew <= u.idCount && 0 <= u.idCount && KeysBelow(u.info, u.idCount)
    && FirstsTried(z.h, z.triedEntries, n, u.vTried, u.info)
  }

  lemma TriedLeftNext(z: Stream, u: State, n: nat)
    requires n < |z.triedEntries| && TriedLeft(z, u, n) && SavedNew(z.newEntries, u.info) && z.nNew == |z.newEntries|
    ensures var t := LoadTriedOne(u, z.triedEntries[n]);
            TriedLeft(z, t, n + 1) && SavedNew(z.newEntries, t.info) && t.vNew == u.vNew
  {
    hide TriedSlot, FirstsTried;
    var r := z.triedEntries[n];
    var i := Blank(r).(randomPos := |u.random|, inTried := true);
    FirstTriedNext(z.h, z.triedEntries, n, u.vTried, u.info, u.idCount, i);
  }

  lemma {:induction false} TriedLeaves(z: Stream, start: State, n: nat)
    requires n <= |z.triedEntries| && z.nNew == |z.newEntries|
    requires TriedLeft(z, start, 0) && SavedNew(z.newEntries, start.info)
    ensures var u := LoadTried(start, z.triedEntries, n);
            TriedLeft(z, u, n) && SavedNew(z.newEntries, u.info) && u.vNew == start.vNew
  {
    hide TriedLeft, SavedNew, LoadTriedOne;
    if n > 0 {
      TriedLeaves(z, start, n - 1);
      TriedLeftNext(z, LoadTried(start, z.triedEntries, n - 1), n - 1);
    }
  }

  // ----- References and pruning change no saved field

  /** Entries that are still there say what they said. */
  predicate FieldsKept(a: map<int, Info>, b: map<int, Info>)
  {
    forall n :: n in b ==> n in a && SameFields(a[n], b[n])
  }

  predicate SameFields(a: Info, b: Info)
  {
    a.service == b.service && a.time == b.time && a.services == b.services && a.source == b.source
    && a.lastSuccess == b.lastSuccess && a.attempts == b.attempts
  }

  lemma {:induction false} BucketLeaves(u: State, bucket: nat, indexes: seq<int>, usable: bool, n: nat)
    requires n <= |indexes|
    ensures var t := LoadBucket(u, bucket, indexes, usable, n);
            FieldsKept(u.info, t.info) && t.h == u.h && t.vTried == u.vTried && (!usable ==> t == u)
  {
    hide NewSlot;
    if n > 0 {
      BucketLeaves(u, bucket, indexes, usable, n - 1);
    }
  }

  lemma {:induction false} BucketsLeave(u: State, buckets: seq<seq<int>>, usable: bool, n: nat)
    requires n <= |buckets|
    ensures var t := LoadBuckets(u, buckets, usable, n);
            FieldsKept(u.info, t.info) && t.h == u.h && t.vTried == u.vTried && (!usable ==> t == u)
  {
    hide LoadBucket, SameFields;
    if n > 0 {
      BucketsLeave(u, buckets, usable, n - 1);
      var v := LoadBuckets(u, buckets, usable, n - 1);
      BucketLeaves(v, n - 1, buckets[n - 1], usable, |buckets[n - 1]|);
      KeptTwice(u.info, v.info, LoadBuckets(u, buckets, usable, n).info);
    } else {
      KeptSame(u.info);
    }
  }

  lemma KeptTwice(a: map<int, Info>, b: map<int, Info>, c: map<int, Info>)
    requires FieldsKept(a, b) && FieldsKept(b, c)
    ensures FieldsKept(a, c)
  {
  }

  lemma KeptSame(a: map<int, Info>)
    ensures FieldsKept(a, a)
  {
  }

  lemma {:induction false} PruneLeaves(u: State, ids: seq<int>, n: nat)
    requires n <= |ids|
    ensures var v := Prune(u, ids, n); FieldsKept(u.info, v.info) && v.h == u.h && v.vTried == u.vTried && v.vNew == u.vNew
  {
    hide Delete, SameFields, Listed;
    if n > 0 {
      PruneLeaves(u, ids, n - 1);
      var v := Prune(u, ids, n - 1);
      var id := ids[n - 1];
      if Deletable(v, id) {
        DeleteFields(v, id);
        KeptTwice(u.info, v.info, Delete(v, id).info);
      }
    } else {
      KeptSame(u.info);
    }
  }

  lemma DeleteFields(v: State, id: int)
    requires Deletable(v, id)
    ensures var t := Delete(v, id); FieldsKept(v.info, t.info) && t.h == v.h && t.vTried == v.vTried && t.vNew == v.vNew
  {
    hide Delete, Listed;
    DeleteEffect(v, id);
  }

  lemma FirstsKept(h: Hashes, ts: seq<Saved>, vTried: seq<int>, a: map<int, Info>, b: map<int, Info>)
    requires FirstsTried(h, ts, |ts|, vTried, a) && FieldsKept(a, b)
    requires forall slot: nat :: slot < |vTried| && vTried[slot] != EMPTY ==> vTried[slot] in b
    ensures FirstsTried(h, ts, |ts|, vTried, b)
  {
    hide TriedSlot, Leads;
    forall slot: nat | slot < TRIED_SLOTS ensures FirstTried(h, ts, |ts|, slot, vTried[slot], b) {
      assert FirstTried(h, ts, |ts|, slot, vTried[slot], a);
      if vTried[slot] != EMPTY {
        var k :| 0 <= k < |ts| && Leads(h, ts, k, slot) && vTried[slot] in a && AsSaved(a[vTried[slot]], ts[k]);
        assert SameFields(a[vTried[slot]], b[vTried[slot]]);
        assert AsSaved(b[vTried[slot]], ts[k]);
      }
    }
  }

  lemma SavedKept(rs: seq<Saved>, a: map<int, Info>, b: map<int, Info>)
    requires SavedNew(rs, a) && FieldsKept(a, b)
    ensures SavedNew(rs, b)
  {
  }

  lemma TriedThere(t: State)
    requires Consistent(t)
    ensures forall slot: nat :: slot < |t.vTried| && t.vTried[slot] != EMPTY ==> t.vTried[slot] in t.info
  {
    hide Indexed, Listed, NewTable, RefCounts, IdsInRange, TriedIds, NewIds, Refs;
  }

  /**
   What is left of such a file: every entry says what the file says; each slot of
   the tried table is held by the first of the file's tried entries that belong
   there; and if the version is not 1 or the number of buckets is not 1024, which is
   written with bit 30 toggled, each slot of the new table is held by the first of
   its new entries whose own source selects it.
   */
  lemma FileLeaves(z: Stream, collisions: set<int>)
    requires Whole(z) && z.keySize == 32 && 0 <= z.nNew <= NEW_SLOTS && 0 <= z.nTried <= TRIED_SLOTS
    requires DistinctNets(z.newEntries + z.triedEntries)
    ensures Unserialized(z, collisions).Loaded?
    ensures var t := Unserialized(z, collisions).state;
            && Consistent(t) && t.h == z.h
            && SavedNew(z.newEntries, t.info)
            && FirstsTried(z.h, z.triedEntries, |z.triedEntries|, t.vTried, t.info)
            && (z.version != 1 || z.nUBuckets != 0x4000_0400 ==> FirstsNew(z.h, z.newEntries, |z.newEntries|, t.vNew))
  {
    hide Inv, LoadNew, LoadTried, LoadBuckets, Prune, Usable, DistinctNets, Sorted, Toggle30, TriedLeft, SavedNew, FirstsTried, FirstsNew,
         KeysBelow, FieldsKept;
    ReadConsistent(z, collisions);
    UsableExactly(z);
    var u1 := LoadNew(Started(z, collisions), z.newEntries, Usable(z), |z.newEntries|);
    var v1 := u1.(idCount := z.nNew);
    NewSaved(Started(z, collisions), z.newEntries, Usable(z), |z.newEntries|);
    TriedStart(z, collisions, v1);
    TriedLeaves(z, v1, |z.triedEntries|);
    var u2 := LoadTried(v1, z.triedEntries, |z.triedEntries|);
    BucketsLeave(u2, z.buckets, Usable(z), |z.buckets|);
    var u3 := LoadBuckets(u2, z.buckets, Usable(z), |z.buckets|);
    var ids := Sorted(u3.info.Keys);
    PruneLeaves(u3, ids, |ids|);
    var t := Prune(u3, ids, |ids|);
    KeptTwice(u2.info, u3.info, t.info);
    LeftOver(z, u2, t);
    if !Usable(z) {
      NewLeaves(z, collisions, |z.newEntries|);
    }
  }

  lemma UsableExactly(z: Stream)
    ensures Usable(z) <==> z.version == 1 && z.nUBuckets == 0x4000_0400
  {
  }

  lemma LeftOver(z: Stream, u: State, t: State)
    requires TriedLeft(z, u, |z.triedEntries|) && SavedNew(z.newEntries, u.info) && FieldsKept(u.info, t.info)
    requires Consistent(t) && t.vTried == u.vTried && t.h == u.h
    ensures t.h == z.h
    ensures SavedNew(z.newEntries, t.info) && FirstsTried(z.h, z.triedEntries, |z.triedEntries|, t.vTried, t.info)
  {
    hide Inv, SavedNew, FieldsKept, FirstsTried, KeysBelow;
    TriedThere(t);
    FirstsKept(z.h, z.triedEntries, u.vTried, u.info, t.info);
    SavedKept(z.newEntries, u.info, t.info);
  }

  lemma TriedStart(z: Stream, collisions: set<int>, v: State)
    requires z.nNew == |z.newEntries| && z.nNew >= 0
    requires var u := LoadNew(Started(z, collisions), z.newEntries, Usable(z), |z.newEntries|);
             v == u.(idCount := z.nNew) && KeysBelow(u.info, |z.newEntries|)
    ensures TriedLeft(z, v, 0)
  {
    hide Usable, LoadNew, KeysBelow;
    NewLeavesTried(Started(z, collisions), z.newEntries, Usable(z), |z.newEntries|);
  }

  lemma {:induction false} NewLeavesTried(start: State, rs: seq<Saved>, usable: bool, n: nat)
    requires n <= |rs|
    ensures var u := LoadNew(start, rs, usable, n); u.vTried == start.vTried && u.h == start.h
  {
    hide NewSlot, NewBucket;
    if n > 0 {
      NewLeavesTried(start, rs, usable, n - 1);
    }
  }
}
