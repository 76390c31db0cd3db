/**
 Writing the address manager to a stream and reading it back.  A stream is the
 record of what its reader is given, in order: the header and as many entries and
 buckets as there are before the data ends.  `SerializedOf` and `Load...` are the
 two directions.
 */
module AddrManSerialize {

  import opened AddrManState
  import opened OrderedSets

  const BIT_30 := 0x4000_0000

  /** What is written of an entry; the other fields are kept in memory only. */
  datatype Saved = Saved(service: Service, time: int, services: set<nat>, source: NetAddr, lastSuccess: int, attempts: int)

  datatype Stream = Stream(version: nat, keySize: nat, h: Hashes, nNew: int, nTried: int, nUBuckets: int,
                           newEntries: seq<Saved>, triedEntries: seq<Saved>, buckets: seq<seq<int>>)

  function Save(i: Info): Saved
  {
    Saved(i.service, i.time, i.services, i.source, i.lastSuccess, i.attempts)
  }

  function Blank(r: Saved): Info
  {
    Info(r.service, r.time, r.services, r.source, 0, 0, r.lastSuccess, r.attempts, 0, false, -1)
  }

  /** x with bit 30 toggled. */
  function Toggle30(x: int): int
  {
    if x / BIT_30 % 2 == 1 then x - BIT_30 else x + BIT_30
  }

  lemma ToggleTwice(x: int)
    ensures Toggle30(Toggle30(x)) == x
  {
  }

  // ----- Ids in ascending order

  function Sorted(t: set<int>): (r: seq<int>)
    ensures |r| == |t| && (forall x :: x in r <==> x in t)
    ensures forall i, j :: 0 <= i < j < |r| ==> r[i] < r[j]
  {
    if t == {} then [] else
      var m := Least(t);
      var rest := Sorted(t - {m});
      assert forall x :: x in t <==> x == m || x in t - {m};
      [m] + rest
  }

  function IndexOf(ids: seq<int>, x: int): (i: nat)
    requires x in ids
    ensures i < |ids| && ids[i] == x
  {
    if ids[0] == x then 0 else 1 + IndexOf(ids[1..], x)
  }

  predicate Distinct(ids: seq<int>)
  {
    forall i, j :: 0 <= i < j < |ids| ==> ids[i] != ids[j]
  }

  lemma IndexUnique(ids: seq<int>, i: nat)
    requires Distinct(ids) && i < |ids|
    ensures ids[i] in ids && IndexOf(ids, ids[i]) == i
  {
  }

  // ----- Writing

  function Referenced(info: map<int, Info>): set<int>
  {
    set n | n in info && info[n].refCount != 0
  }

  function SaveAll(info: map<int, Info>, ids: seq<int>): (r: seq<Saved>)
    requires forall i :: 0 <= i < |ids| ==> ids[i] in info
    ensures |r| == |ids| && forall i :: 0 <= i < |ids| ==> r[i] == Save(info[ids[i]])
  {
    seq(|ids|, i requires 0 <= i < |ids| => Save(info[ids[i]]))
  }

  /** The indexes written for the first k positions of a bucket. */
  function BucketTo(vNew: seq<int>, ids: seq<int>, bucket: nat, k: nat): seq<int>
    requires bucket * BUCKET_SIZE + k <= |vNew|
  {
    if k == 0 then []
    else
      var id := vNew[bucket * BUCKET_SIZE + k - 1];
      BucketTo(vNew, ids, bucket, k - 1) + if id == EMPTY then [] else [if id in ids then IndexOf(ids, id) else 0]
  }

  function BucketOf(vNew: seq<int>, ids: seq<int>, bucket: nat): seq<int>
    requires |vNew| == NEW_SLOTS && bucket < NEW_BUCKETS
  {
    BucketTo(vNew, ids, bucket, BUCKET_SIZE)
  }

  /** The entries of a set of ids, in ascending order of id. */
  function SaveSet(info: map<int, Info>, t: set<int>): (r: seq<Saved>)
    requires t <= info.Keys
    ensures |r| == |t|
  {
    SortedIn(t, info.Keys);
    SaveAll(info, Sorted(t))
  }

  lemma SortedIn(t: set<int>, keys: set<int>)
    requires t <= keys
    ensures forall i :: 0 <= i < |Sorted(t)| ==> Sorted(t)[i] in keys
  {
    assert forall i :: 0 <= i < |Sorted(t)| ==> Sorted(t)[i] in Sorted(t);
  }

  function SerializedOf(s: State): Stream
    requires |s.vNew| == NEW_SLOTS
  {
    var news := Sorted(Referenced(s.info));
    Stream(1, 32, s.h, s.nNew, s.nTried, Toggle30(NEW_BUCKETS), SaveSet(s.info, Referenced(s.info)), SaveSet(s.info, TriedIds(s.info)),
           seq(NEW_BUCKETS, b requires 0 <= b < NEW_BUCKETS => BucketOf(s.vNew, news, b)))
  }

  // ----- Reading

  /** An entry of the new table; if the table's slots cannot be used it goes to its primary slot if that is free. */
  function LoadNewOne(u: State, r: Saved, n: nat, usable: bool): State
  {
    var added := u.(info := u.info[n := Blank(r).(randomPos := |u.random|)],
                    addrs := u.addrs[r.service.net := n],
                    random := u.random + [n]);
    var slot := NewSlot(u.h, r.service, NewBucket(u.h, r.service, r.source));
    if !usable && slot < |u.vNew| && u.vNew[slot] == EMPTY then Link(added, n, slot) else added
  }

  function LoadNew(u: State, rs: seq<Saved>, usable: bool, n: nat): State
    requires n <= |rs|
  {
    if n == 0 then u else LoadNewOne(LoadNew(u, rs, usable, n - 1), rs[n - 1], n - 1, usable)
  }

  /** An entry of the tried table, lost if its slot is taken. */
  function LoadTriedOne(u: State, r: Saved): State
  {
    var slot := TriedSlot(u.h, r.service);
    if slot < |u.vTried| && u.vTried[slot] == EMPTY then
      var id := u.idCount;
      u.(info := u.info[id := Blank(r).(randomPos := |u.random|, inTried := true)],
         addrs := u.addrs[r.service.net := id],
         random := u.random + [id],
         vTried := u.vTried[slot := id],
         idCount := id + 1)
    else u.(nTried := u.nTried - 1)
  }

  function LoadTried(u: State, rs: seq<Saved>, n: nat): State
    requires n <= |rs|
  {
    if n == 0 then u else LoadTriedOne(LoadTried(u, rs, n - 1), rs[n - 1])
  }

  /** A reference from a bucket to an entry of the new table. */
  function LoadSlot(u: State, bucket: nat, index: int, usable: bool): State
  {
    if 0 <= index < u.nNew && index in u.info then
      var slot := NewSlot(u.h, u.info[index].service, bucket);
      if usable && slot < |u.vNew| && u.vNew[slot] == EMPTY && u.info[index].refCount < BUCKETS_PER_ADDRESS
      then Link(u, index, slot) else u
    else u
  }

  function LoadBucket(u: State, bucket: nat, indexes: seq<int>, usable: bool, n: nat): State
    requires n <= |indexes|
  {
    if n == 0 then u else LoadSlot(LoadBucket(u, bucket, indexes, usable, n - 1), bucket, indexes[n - 1], usable)
  }

  function LoadBuckets(u: State, buckets: seq<seq<int>>, usable: bool, n: nat): State
    requires n <= |buckets|
  {
    if n == 0 then u else LoadBucket(LoadBuckets(u, buckets, usable, n - 1), n - 1, buckets[n - 1], usable, |buckets[n - 1]|)
  }

  /** Drops entries that ended up nowhere, in ascending order of id. */
  function Prune(u: State, ids: seq<int>, n: nat): State
    requires n <= |ids|
  {
    if n == 0 then u
    else
      var v := Prune(u, ids, n - 1);
      var id := ids[n - 1];
      if Deletable(v, id) && !v.info[id].inTried && v.info[id].refCount == 0 then Delete(v, id) else v
  }

  predicate Usable(s: Stream)
  {
    s.version == 1 && Toggle30(s.nUBuckets) == NEW_BUCKETS
  }

  function BucketCount(s: Stream): int
  {
    if s.version != 0 then Toggle30(s.nUBuckets) else s.nUBuckets
  }

  /** How often a loop up to a count runs; counts are signed. */
  function Times(count: int): nat
  {
    if count < 0 then 0 else count
  }

  /** A reader is given no more entries and buckets than the header makes it ask for. */
  predicate Given(s: Stream)
  {
    |s.newEntries| <= Times(s.nNew) && |s.triedEntries| <= Times(s.nTried) && |s.buckets| <= Times(BucketCount(s))
  }

  /** The stream has as many entries and buckets as it says. */
  predicate Whole(s: Stream): (whole: bool)
    ensures whole ==> Given(s)
  {
    |s.newEntries| == Times(s.nNew) && |s.triedEntries| == Times(s.nTried) && |s.buckets| == Times(BucketCount(s))
  }

  datatype Result = BadKeySize | TooManyNew | TooManyTried | EndOfData | Loaded(state: State)

  function Started(s: Stream, collisions: set<int>): State
  {
    EmptyState(s.h, collisions).(nNew := s.nNew, nTried := s.nTried)
  }

  /** Reads a stream into a cleared manager, which keeps its pending collisions. */
  function Unserialized(s: Stream, collisions: set<int>): Result
    requires Given(s)
  {
    if s.keySize != 32 then BadKeySize
    else if s.nNew > NEW_SLOTS then TooManyNew
    else if s.nTried > TRIED_SLOTS then TooManyTried
    else if !Whole(s) then EndOfData
    else
      var u1 := LoadNew(Started(s, collisions), s.newEntries, Usable(s), |s.newEntries|);
      var u2 := LoadTried(u1.(idCount := s.nNew), s.triedEntries, |s.triedEntries|);
      var u3 := LoadBuckets(u2, s.buckets, Usable(s), |s.buckets|);
      var ids := Sorted(u3.info.Keys);
      Loaded(Prune(u3, ids, |ids|))
  }

  // ----- What reading keeps, whatever the stream holds

  /** Entries from lo up to n, listed in that order. */
  ghost predicate Dense(info: map<int, Info>, random: seq<int>, lo: int, n: int)
  {
    && lo <= n && |random| == n - lo && (forall k :: k in info <==> lo <= k < n)
    && (forall i :: 0 <= i < |random| ==> random[i] == lo + i && info[random[i]].randomPos == i)
  }

  lemma DenseListed(info: map<int, Info>, random: seq<int>, lo: int, n: int)
    requires Dense(info, random, lo, n)
    ensures Listed(info, random)
  {
    RangeSize(info.Keys, lo, n);
    assert |info| == |info.Keys|;
    forall k | k in info ensures 0 <= info[k].randomPos < |random| && random[info[k].randomPos] == k {
      assert random[k - lo] == k;
    }
  }

  lemma {:induction false} LoadNewDense(u: State, rs: seq<Saved>, usable: bool, n: nat)
    requires n <= |rs| && u.info == map[] && u.random == []
    ensures var v := LoadNew(u, rs, usable, n);
            Dense(v.info, v.random, 0, n) && |v.vNew| == |u.vNew| && v.vTried == u.vTried
  {
    if n > 0 {
      LoadNewDense(u, rs, usable, n - 1);
    }
  }

  lemma {:induction false} LoadTriedDense(u: State, rs: seq<Saved>, lo: int, n: nat)
    requires n <= |rs| && Dense(u.info, u.random, lo, u.idCount)
    ensures var v := LoadTried(u, rs, n);
            Dense(v.info, v.random, lo, v.idCount) && |v.vTried| == |u.vTried| && v.vNew == u.vNew
  {
    if n > 0 {
      LoadTriedDense(u, rs, lo, n - 1);
    }
  }

  lemma LoadSlotListed(u: State, bucket: nat, index: int, usable: bool)
    requires Listed(u.info, u.random)
    ensures var v := LoadSlot(u, bucket, index, usable);
            Listed(v.info, v.random) && |v.vNew| == |u.vNew|
  {
    var v := LoadSlot(u, bucket, index, usable);
    if v != u {
      ListedFrame(u.info, v.info, u.random);
    }
  }

  lemma {:induction false} LoadBucketListed(u: State, bucket: nat, indexes: seq<int>, usable: bool, n: nat)
    requires n <= |indexes| && Listed(u.info, u.random)
    ensures var v := LoadBucket(u, bucket, indexes, usable, n);
            Listed(v.info, v.random) && |v.vNew| == |u.vNew|
  {
    hide Listed, LoadSlot;
    if n > 0 {
      LoadBucketListed(u, bucket, indexes, usable, n - 1);
      LoadSlotListed(LoadBucket(u, bucket, indexes, usable, n - 1), bucket, indexes[n - 1], usable);
    }
  }

  lemma {:induction false} LoadBucketsListed(u: State, buckets: seq<seq<int>>, usable: bool, n: nat)
    requires n <= |buckets| && Listed(u.info, u.random)
    ensures var v := LoadBuckets(u, buckets, usable, n);
            Listed(v.info, v.random) && |v.vNew| == |u.vNew|
  {
    hide Listed, LoadBucket;
    if n > 0 {
      LoadBucketsListed(u, buckets, usable, n - 1);
      LoadBucketListed(LoadBuckets(u, buckets, usable, n - 1), n - 1, buckets[n - 1], usable, |buckets[n - 1]|);
    }
  }

  lemma DeleteListed(s: State, id: int)
    requires Deletable(s, id)
    ensures Listed(Delete(s, id).info, Delete(s, id).random) && Delete(s, id).info.Keys == s.info.Keys - {id}
  {
    DeleteEffect(s, id);
    PositionOf(s.info, s.random, id);
    var pos, last := s.info[id].randomPos, |s.random| - 1;
    if pos != last {
      SwapListed(s.info, s.random, pos, last);
    }
    var t := SwapRandom(s, pos, last);
    hide Listed;
    RemoveListed(t.info, t.random, id);
  }

  /** Pruning can always delete what it finds, and leaves the rest to be looked at. */
  lemma {:induction false} PruneListed(u: State, ids: seq<int>, n: nat)
    requires n <= |ids| && Listed(u.info, u.random) && Distinct(ids) && (forall k :: 0 <= k < |ids| ==> ids[k] in u.info)
    ensures var v := Prune(u, ids, n);
            Listed(v.info, v.random) && forall k :: n <= k < |ids| ==> ids[k] in v.info
  {
    hide Listed, Delete;
    if n > 0 {
      PruneListed(u, ids, n - 1);
      var v := Prune(u, ids, n - 1);
      if Deletable(v, ids[n - 1]) {
        DeleteListed(v, ids[n - 1]);
      }
    }
  }

  /** A strictly ascending sequence is the sorted one of its elements. */
  lemma {:induction false} SortedUnique(ids: seq<int>, t: set<int>)
    requires (forall i, j :: 0 <= i < j < |ids| ==> ids[i] < ids[j]) && forall x :: x in ids <==> x in t
    ensures Sorted(t) == ids
  {
    if ids == [] {
      assert forall x :: x !in t;
      assert t == {};
    } else {
      var m, rest := ids[0], ids[1..];
      LeastFirst(ids, t);
      forall x ensures x in rest <==> x in t - {m} {
        assert x in ids <==> x == m || x in rest;
      }
      SortedUnique(rest, t - {m});
    }
  }

  lemma LeastFirst(ids: seq<int>, t: set<int>)
    requires ids != [] && (forall i, j :: 0 <= i < j < |ids| ==> ids[i] < ids[j]) && forall x :: x in ids <==> x in t
    ensures ids[0] in t && Least(t) == ids[0]
  {
    hide Least;
    assert ids[0] in ids;
    assert Least(t) in ids && ids[0] <= Least(t);
  }
}
