/**
 A consistent manager that is written and read back is the same up to the
 numbers of its entries: entry ids[k] of the old manager is entry k of the new.
 */
module AddrManRoundTrip {

  import opened AddrManState
  import opened AddrManRuns
  import opened AddrManSerialize
  import opened OrderedSets

  /** All ids, first those of the new table, then the tried ones. */
  ghost predicate Numbered(s: State, ids: seq<int>, split: nat)
  {
    && Distinct(ids) && split <= |ids|
    && (forall n :: n in ids <==> n in s.info)
    && (forall k :: 0 <= k < |ids| ==> ids[k] in s.info && (s.info[ids[k]].inTried <==> k >= split))
  }

  function Net(s: State, id: int): NetAddr
    requires id in s.info
  {
    s.info[id].service.net
  }

  /** What entry k becomes, with so many references. */
  function Expect(s: State, ids: seq<int>, split: nat, k: nat, refs: nat): Info
    requires k < |ids| && ids[k] in s.info
  {
    Blank(Save(s.info[ids[k]])).(randomPos := k, inTried := k >= split, refCount := refs)
  }

  /** The first n entries have been read, without their slots. */
  ghost predicate Rows(s: State, ids: seq<int>, split: nat, n: nat, info: map<int, Info>, addrs: map<NetAddr, int>, random: seq<int>)
    requires Numbered(s, ids, split)
  {
    && n <= |ids|
    && |random| == n && (forall k :: 0 <= k < n ==> random[k] == k)
    && (forall k :: k in info <==> 0 <= k < n)
    && (forall k: nat :: k < n ==> info[k] == Expect(s, ids, split, k, 0))
    && (forall k: nat :: k < n ==> Net(s, ids[k]) in addrs && addrs[Net(s, ids[k])] == k)
    && (forall a :: a in addrs ==> 0 <= addrs[a] < n && Net(s, ids[addrs[a]]) == a)
  }

  /** Different entries have different addresses. */
  lemma NetsDiffer(s: State, ids: seq<int>, split: nat, i: nat, j: nat)
    requires Numbered(s, ids, split) && Indexed(s.info, s.addrs) && i < |ids| && j < |ids| && i != j
    ensures Net(s, ids[i]) != Net(s, ids[j])
  {
    assert ids[i] != ids[j];
  }

  lemma RowsNext(s: State, ids: seq<int>, split: nat, n: nat, info: map<int, Info>, addrs: map<NetAddr, int>, random: seq<int>)
    requires Numbered(s, ids, split) && Indexed(s.info, s.addrs)
    requires Rows(s, ids, split, n, info, addrs, random) && n < |ids|
    ensures Rows(s, ids, split, n + 1, info[n := Expect(s, ids, split, n, 0)], addrs[Net(s, ids[n]) := n], random + [n])
  {
    forall k: nat | k < n ensures Net(s, ids[k]) != Net(s, ids[n]) {
      NetsDiffer(s, ids, split, k, n);
    }
  }

  // ----- The entries of the new table

  ghost predicate NewLoaded(s: State, ids: seq<int>, split: nat, n: nat, start: State, u: State)
    requires Numbered(s, ids, split)
  {
    && u == start.(info := u.info, addrs := u.addrs, random := u.random)
    && Rows(s, ids, split, n, u.info, u.addrs, u.random)
  }

  lemma {:induction false} LoadsNew(s: State, ids: seq<int>, split: nat, start: State, rs: seq<Saved>, n: nat)
    requires Numbered(s, ids, split) && Indexed(s.info, s.addrs)
    requires start.info == map[] && start.addrs == map[] && start.random == []
    requires |rs| == split && (forall k :: 0 <= k < split ==> rs[k] == Save(s.info[ids[k]]))
    requires n <= split
    ensures NewLoaded(s, ids, split, n, start, LoadNew(start, rs, true, n))
  {
    hide Numbered, Rows, Indexed;
    NumberedIn(s, ids, split);
    if n == 0 {
      RowsEmpty(s, ids, split);
    } else {
      LoadsNew(s, ids, split, start, rs, n - 1);
      var u := LoadNew(start, rs, true, n - 1);
      RowsNext(s, ids, split, n - 1, u.info, u.addrs, u.random);
      RowsCount(s, ids, split, n - 1, u.info, u.addrs, u.random);
    }
  }

  lemma NumberedIn(s: State, ids: seq<int>, split: nat)
    requires Numbered(s, ids, split)
    ensures split <= |ids| && forall k :: 0 <= k < |ids| ==> ids[k] in s.info
  {
  }

  lemma RowsEmpty(s: State, ids: seq<int>, split: nat)
    requires Numbered(s, ids, split)
    ensures Rows(s, ids, split, 0, map[], map[], [])
  {
  }

  lemma RowsCount(s: State, ids: seq<int>, split: nat, n: nat, info: map<int, Info>, addrs: map<NetAddr, int>, random: seq<int>)
    requires Numbered(s, ids, split) && Rows(s, ids, split, n, info, addrs, random)
    ensures |random| == n
  {
  }

  // ----- The entries of the tried table

  function TriedSlotOf(s: State, id: int): (slot: nat)
    requires id in s.info
    ensures slot < TRIED_SLOTS
  {
    TriedSlot(s.h, s.info[id].service)
  }

  /** Entries split up to n are in their tried slots, and nothing else is. */
  ghost predicate TriedRows(s: State, ids: seq<int>, split: nat, n: nat, vTried: seq<int>)
    requires Numbered(s, ids, split)
  {
    && n <= |ids| && |vTried| == TRIED_SLOTS
    && (forall k: nat :: split <= k < n ==> vTried[TriedSlotOf(s, ids[k])] == k)
    && (forall i: nat :: i < TRIED_SLOTS && vTried[i] != EMPTY ==>
          split <= vTried[i] < n && TriedSlotOf(s, ids[vTried[i]]) == i)
  }

  lemma TriedSlotsDiffer(s: State, ids: seq<int>, split: nat, i: nat, j: nat)
    requires Numbered(s, ids, split) && TriedTable(s.h, s.info, s.vTried)
    requires split <= i < |ids| && split <= j < |ids| && i != j
    ensures TriedSlotOf(s, ids[i]) != TriedSlotOf(s, ids[j])
  {
    assert ids[i] != ids[j];
    assert s.vTried[TriedSlotOf(s, ids[i])] == ids[i];
    assert s.vTried[TriedSlotOf(s, ids[j])] == ids[j];
  }

  lemma TriedRowsNext(s: State, ids: seq<int>, split: nat, n: nat, vTried: seq<int>)
    requires Numbered(s, ids, split) && TriedTable(s.h, s.info, s.vTried)
    requires TriedRows(s, ids, split, n, vTried) && split <= n < |ids|
    ensures vTried[TriedSlotOf(s, ids[n])] == EMPTY
    ensures TriedRows(s, ids, split, n + 1, vTried[TriedSlotOf(s, ids[n]) := n])
  {
    hide TriedTable, TriedSlotOf;
    var slot := TriedSlotOf(s, ids[n]);
    forall k: nat | split <= k < n ensures TriedSlotOf(s, ids[k]) != slot {
      TriedSlotsDiffer(s, ids, split, k, n);
    }
  }

  ghost predicate TriedLoaded(s: State, ids: seq<int>, split: nat, n: nat, start: State, u: State)
    requires Numbered(s, ids, split)
  {
    && u == start.(info := u.info, addrs := u.addrs, random := u.random, vTried := u.vTried, idCount := u.idCount)
    && u.idCount == n && split <= n
    && Rows(s, ids, split, n, u.info, u.addrs, u.random)
    && TriedRows(s, ids, split, n, u.vTried)
  }

  lemma {:induction false} LoadsTried(s: State, ids: seq<int>, split: nat, start: State, rs: seq<Saved>, n: nat)
    requires Numbered(s, ids, split) && Indexed(s.info, s.addrs) && TriedTable(s.h, s.info, s.vTried)
    requires TriedLoaded(s, ids, split, split, start, start) && start.h == s.h
    requires |rs| == |ids| - split && (forall k :: split <= k < |ids| ==> rs[k - split] == Save(s.info[ids[k]]))
    requires n <= |rs|
    ensures TriedLoaded(s, ids, split, split + n, start, LoadTried(start, rs, n))
  {
    hide Numbered, Rows, Indexed, TriedRows, TriedTable;
    NumberedIn(s, ids, split);
    if n > 0 {
      LoadsTried(s, ids, split, start, rs, n - 1);
      var u := LoadTried(start, rs, n - 1);
      var k := split + n - 1;
      assert rs[n - 1] == Save(s.info[ids[k]]) by { assert rs[k - split] == Save(s.info[ids[k]]); }
      RowsNext(s, ids, split, k, u.info, u.addrs, u.random);
      RowsCount(s, ids, split, k, u.info, u.addrs, u.random);
      TriedRowsNext(s, ids, split, k, u.vTried);
      TriedLength(s, ids, split, k, u.vTried);
    }
  }

  lemma TriedLength(s: State, ids: seq<int>, split: nat, n: nat, vTried: seq<int>)
    requires Numbered(s, ids, split) && TriedRows(s, ids, split, n, vTried)
    ensures |vTried| == TRIED_SLOTS
  {
  }

  // ----- The slots of the new table

  function RefsTo(table: seq<int>, id: int, m: nat): set<nat>
  {
    set i: nat | i < m && i < |table| && table[i] == id
  }

  function Renumber(ids: seq<int>, id: int): int
  {
    if id in ids then IndexOf(ids, id) else EMPTY
  }

  /** The references from slots below m have been read. */
  ghost predicate SlotRows(s: State, ids: seq<int>, split: nat, m: nat, info: map<int, Info>, vNew: seq<int>)
    requires Numbered(s, ids, split)
  {
    && m <= NEW_SLOTS == |vNew| == |s.vNew|
    && (forall i: nat :: i < NEW_SLOTS ==> vNew[i] == if i < m then Renumber(ids, s.vNew[i]) else EMPTY)
    && (forall k :: k in info <==> 0 <= k < |ids|)
    && (forall k: nat :: k < |ids| ==> info[k] == Expect(s, ids, split, k, |RefsTo(s.vNew, ids[k], m)|))
  }

  lemma RefsToNext(table: seq<int>, id: int, m: nat)
    requires m < |table|
    ensures |RefsTo(table, id, m + 1)| == |RefsTo(table, id, m)| + if table[m] == id then 1 else 0
    ensures RefsTo(table, id, |table|) == Refs(table, id)
  {
    if table[m] == id {
      assert RefsTo(table, id, m + 1) == RefsTo(table, id, m) + {m};
    } else {
      assert RefsTo(table, id, m + 1) == RefsTo(table, id, m);
    }
  }

  lemma RefsToBelow(table: seq<int>, id: int, m: nat)
    requires m <= |table|
    ensures |RefsTo(table, id, m)| <= |Refs(table, id)|
  {
    assert RefsTo(table, id, m) <= Refs(table, id);
    Subset(RefsTo(table, id, m), Refs(table, id));
  }

  lemma Subset(a: set<nat>, b: set<nat>)
    requires a <= b
    ensures |a| <= |b|
  {
    assert b == a + (b - a);
  }

  lemma SlotSkipped(s: State, ids: seq<int>, split: nat, m: nat, info: map<int, Info>, vNew: seq<int>)
    requires Numbered(s, ids, split) && IdsInRange(s.info, s.idCount)
    requires SlotRows(s, ids, split, m, info, vNew) && m < NEW_SLOTS && s.vNew[m] == EMPTY
    ensures SlotRows(s, ids, split, m + 1, info, vNew)
  {
    hide RefsTo;
    assert EMPTY !in ids;
    forall k: nat | k < |ids| ensures |RefsTo(s.vNew, ids[k], m + 1)| == |RefsTo(s.vNew, ids[k], m)| {
      RefsToNext(s.vNew, ids[k], m);
      assert ids[k] in s.info;
    }
  }

  lemma SlotRead(s: State, ids: seq<int>, split: nat, m: nat, info: map<int, Info>, vNew: seq<int>)
    requires Numbered(s, ids, split) && NewTable(s.h, s.info, s.vNew) && RefCounts(s.info, s.vNew, {}, {})
    requires SlotRows(s, ids, split, m, info, vNew) && m < NEW_SLOTS && s.vNew[m] != EMPTY
    ensures s.vNew[m] in ids
    ensures var k := IndexOf(ids, s.vNew[m]);
            && k < split && k in info && vNew[m] == EMPTY && info[k].refCount < BUCKETS_PER_ADDRESS
            && NewSlot(s.h, info[k].service, m / BUCKET_SIZE) == m
            && SlotRows(s, ids, split, m + 1, info[k := info[k].(refCount := info[k].refCount + 1)], vNew[m := k])
  {
    hide RefsTo, NewSlot, Refs;
    var id := s.vNew[m];
    assert id in s.info && !s.info[id].inTried && NewSlot(s.h, s.info[id].service, m / BUCKET_SIZE) == m;
    var k := IndexOf(ids, id);
    RefsToNext(s.vNew, id, m);
    RefsToBelow(s.vNew, id, m + 1);
    SlotReadRows(s, ids, split, m, k, info, vNew);
  }

  lemma SlotReadRows(s: State, ids: seq<int>, split: nat, m: nat, k: nat, info: map<int, Info>, vNew: seq<int>)
    requires Numbered(s, ids, split) && SlotRows(s, ids, split, m, info, vNew)
    requires m < NEW_SLOTS && k < |ids| && s.vNew[m] == ids[k] && k in info && IndexOf(ids, ids[k]) == k
    ensures SlotRows(s, ids, split, m + 1, info[k := info[k].(refCount := info[k].refCount + 1)], vNew[m := k])
  {
    hide RefsTo;
    var after := info[k := info[k].(refCount := info[k].refCount + 1)];
    forall j: nat | j < |ids| ensures after[j] == Expect(s, ids, split, j, |RefsTo(s.vNew, ids[j], m + 1)|) {
      RefsToNext(s.vNew, ids[j], m);
      assert j != k ==> ids[j] != ids[k];
    }
  }

  ghost predicate SlotsLoaded(s: State, ids: seq<int>, split: nat, m: nat, start: State, u: State)
    requires Numbered(s, ids, split)
  {
    u == start.(info := u.info, vNew := u.vNew) && SlotRows(s, ids, split, m, u.info, u.vNew)
  }

  lemma {:induction false} BucketPrefix(vNew: seq<int>, news: seq<int>, b: nat, j: nat, k: nat)
    requires j <= k && b * BUCKET_SIZE + k <= |vNew|
    ensures BucketTo(vNew, news, b, j) <= BucketTo(vNew, news, b, k)
  {
    if j < k {
      BucketPrefix(vNew, news, b, j, k - 1);
    }
  }

  lemma BucketStep(vNew: seq<int>, news: seq<int>, b: nat, k: nat)
    requires b * BUCKET_SIZE + k <= |vNew|
    ensures k == 0 ==> BucketTo(vNew, news, b, k) == []
    ensures k > 0 ==> var id := vNew[b * BUCKET_SIZE + k - 1];
                      BucketTo(vNew, news, b, k) ==
                      BucketTo(vNew, news, b, k - 1) + if id == EMPTY then [] else [if id in news then IndexOf(news, id) else 0]
  {
  }

  /** The facts about the old manager that reading the slots relies on. */
  ghost predicate Sound(s: State, ids: seq<int>, split: nat)
  {
    && Numbered(s, ids, split) && IdsInRange(s.info, s.idCount)
    && NewTable(s.h, s.info, s.vNew) && RefCounts(s.info, s.vNew, {}, {})
  }

  lemma IndexInFront(ids: seq<int>, split: nat, id: int)
    requires Distinct(ids) && split <= |ids| && id in ids && IndexOf(ids, id) < split
    ensures id in ids[..split] && IndexOf(ids[..split], id) == IndexOf(ids, id)
  {
    var k := IndexOf(ids, id);
    var front := ids[..split];
    assert front[k] == id;
    assert Distinct(front);
    IndexUnique(front, k);
  }

  /** One position of a bucket. */
  lemma LoadsPosition(s: State, ids: seq<int>, split: nat, start: State, u: State, b: nat, k: nat)
    requires Sound(s, ids, split) && start.h == s.h && start.nNew == split
    requires b < NEW_BUCKETS && k < BUCKET_SIZE
    requires SlotsLoaded(s, ids, split, b * BUCKET_SIZE + k, start, u)
    ensures |s.vNew| == NEW_SLOTS
    ensures var id := s.vNew[b * BUCKET_SIZE + k];
            if id == EMPTY then SlotsLoaded(s, ids, split, b * BUCKET_SIZE + k + 1, start, u)
            else id in ids[..split] && SlotsLoaded(s, ids, split, b * BUCKET_SIZE + k + 1, start, LoadSlot(u, b, IndexOf(ids[..split], id), true))
  {
    hide SlotRows, Numbered, RefCounts, NewTable, NewSlot;
    SoundLengths(s, ids, split, b * BUCKET_SIZE + k, u);
    var m := b * BUCKET_SIZE + k;
    assert m / BUCKET_SIZE == b;
    if s.vNew[m] == EMPTY {
      SlotSkipped(s, ids, split, m, u.info, u.vNew);
    } else {
      SlotRead(s, ids, split, m, u.info, u.vNew);
      IndexInFront(ids, split, s.vNew[m]);
    }
  }

  lemma SoundLengths(s: State, ids: seq<int>, split: nat, m: nat, u: State)
    requires Sound(s, ids, split) && SlotRows(s, ids, split, m, u.info, u.vNew)
    ensures |s.vNew| == NEW_SLOTS == |u.vNew| && Distinct(ids) && split <= |ids|
  {
  }

  lemma {:induction false} LoadsBucket(s: State, ids: seq<int>, split: nat, start: State, u: State, b: nat, k: nat)
    requires Sound(s, ids, split) && start.h == s.h && start.nNew == split && |s.vNew| == NEW_SLOTS
    requires b < NEW_BUCKETS && k <= BUCKET_SIZE && SlotsLoaded(s, ids, split, b * BUCKET_SIZE, start, u)
    ensures split <= |ids|
    ensures var indexes := BucketTo(s.vNew, ids[..split], b, BUCKET_SIZE);
            var read := |BucketTo(s.vNew, ids[..split], b, k)|;
            read <= |indexes| && SlotsLoaded(s, ids, split, b * BUCKET_SIZE + k, start, LoadBucket(u, b, indexes, true, read))
  {
    hide Sound, SlotsLoaded, LoadSlot, BucketTo;
    BucketStep(s.vNew, ids[..if split <= |ids| then split else 0], b, k);
    assert split <= |ids| by { SoundSplit(s, ids, split); }
    var news := ids[..split];
    var indexes := BucketTo(s.vNew, news, b, BUCKET_SIZE);
    BucketPrefix(s.vNew, news, b, k, BUCKET_SIZE);
    if k > 0 {
      LoadsBucket(s, ids, split, start, u, b, k - 1);
      BucketPrefix(s.vNew, news, b, k - 1, BUCKET_SIZE);
      var read := |BucketTo(s.vNew, news, b, k - 1)|;
      LoadsPosition(s, ids, split, start, LoadBucket(u, b, indexes, true, read), b, k - 1);
      if s.vNew[b * BUCKET_SIZE + k - 1] != EMPTY {
        assert BucketTo(s.vNew, news, b, k)[read] == indexes[read];
      }
    }
  }

  lemma SoundSplit(s: State, ids: seq<int>, split: nat)
    requires Sound(s, ids, split)
    ensures split <= |ids| && Numbered(s, ids, split)
  {
  }

  lemma {:induction false} LoadsBuckets(s: State, ids: seq<int>, split: nat, start: State, buckets: seq<seq<int>>, n: nat)
    requires Sound(s, ids, split) && start.h == s.h && start.nNew == split && |s.vNew| == NEW_SLOTS
    requires SlotsLoaded(s, ids, split, 0, start, start) && split <= |ids|
    requires |buckets| == NEW_BUCKETS && n <= NEW_BUCKETS
    requires forall b: nat :: b < NEW_BUCKETS ==> buckets[b] == BucketTo(s.vNew, ids[..split], b, BUCKET_SIZE)
    ensures SlotsLoaded(s, ids, split, n * BUCKET_SIZE, start, LoadBuckets(start, buckets, true, n))
  {
    hide Sound, SlotsLoaded, LoadBucket;
    SoundSplit(s, ids, split);
    if n > 0 {
      LoadsBuckets(s, ids, split, start, buckets, n - 1);
      LoadsBucket(s, ids, split, start, LoadBuckets(start, buckets, true, n - 1), n - 1, BUCKET_SIZE);
    }
  }

  // ----- The manager that was read

  /** An entry read back: what it was, but for the two times that are not written. */
  predicate Restored(was: Info, now: Info)
  {
    && now.service == was.service && now.time == was.time && now.services == was.services && now.source == was.source
    && now.lastSuccess == was.lastSuccess && now.attempts == was.attempts
    && now.inTried == was.inTried && now.refCount == was.refCount
    && now.lastTry == 0 && now.lastCountAttempt == 0
  }

  /** The entries of a manager under new numbers, listed in the order of these. */
  ghost predicate SameEntries(s: State, ids: seq<int>, split: nat, info: map<int, Info>)
    requires Numbered(s, ids, split)
  {
    && (forall k :: k in info <==> 0 <= k < |ids|)
    && (forall k: nat :: k < |ids| ==> info[k].randomPos == k && Restored(s.info[ids[k]], info[k]))
  }

  ghost predicate SameAddrs(ids: seq<int>, old_: map<NetAddr, int>, new_: map<NetAddr, int>)
  {
    (forall a :: a in new_ <==> a in old_) && (forall a :: a in old_ ==> new_[a] == Renumber(ids, old_[a]))
  }

  ghost predicate SameTable(ids: seq<int>, old_: seq<int>, new_: seq<int>)
  {
    |new_| == |old_| && forall i :: 0 <= i < |old_| ==> new_[i] == Renumber(ids, old_[i])
  }

  ghost predicate InOrder(random: seq<int>, n: nat)
  {
    |random| == n && forall k :: 0 <= k < n ==> random[k] == k
  }

  /** t is s with its entries renumbered; only what is kept in memory alone may differ. */
  ghost predicate SameUpToIds(s: State, ids: seq<int>, split: nat, t: State)
  {
    && Numbered(s, ids, split) && t.h == s.h && t.nNew == s.nNew && t.nTried == s.nTried && t.idCount == |ids|
    && SameEntries(s, ids, split, t.info) && SameAddrs(ids, s.addrs, t.addrs) && InOrder(t.random, |ids|)
    && SameTable(ids, s.vNew, t.vNew) && SameTable(ids, s.vTried, t.vTried)
  }

  lemma TriedSame(s: State, ids: seq<int>, split: nat, vTried: seq<int>)
    requires Numbered(s, ids, split) && TriedTable(s.h, s.info, s.vTried) && IdsInRange(s.info, s.idCount)
    requires TriedRows(s, ids, split, |ids|, vTried)
    ensures SameTable(ids, s.vTried, vTried)
  {
    forall i: nat | i < TRIED_SLOTS ensures vTried[i] == Renumber(ids, s.vTried[i]) {
      var id := s.vTried[i];
      if id == EMPTY {
        assert EMPTY !in s.info;
      } else {
        assert id in ids && TriedSlotOf(s, id) == i;
        var k := IndexOf(ids, id);
        assert split <= k;
        assert vTried[TriedSlotOf(s, ids[k])] == k;
      }
    }
  }

  lemma AddrsSame(s: State, ids: seq<int>, split: nat, info: map<int, Info>, addrs: map<NetAddr, int>, random: seq<int>)
    requires Numbered(s, ids, split) && Indexed(s.info, s.addrs)
    requires Rows(s, ids, split, |ids|, info, addrs, random)
    ensures SameAddrs(ids, s.addrs, addrs) && InOrder(random, |ids|)
  {
    forall a | a in s.addrs ensures a in addrs && addrs[a] == Renumber(ids, s.addrs[a]) {
      var k := IndexOf(ids, s.addrs[a]);
      assert Net(s, ids[k]) == a;
    }
    forall a | a in addrs ensures a in s.addrs {
      assert ids[addrs[a]] in s.info;
    }
  }

  lemma {:induction false} PruneNothing(u: State, ids: seq<int>, n: nat)
    requires n <= |ids| && forall id :: id in u.info ==> u.info[id].inTried || u.info[id].refCount != 0
    ensures Prune(u, ids, n) == u
  {
    hide Listed, Delete;
    if n > 0 {
      PruneNothing(u, ids, n - 1);
    }
  }

  /** Every entry of the new table has a slot. */
  lemma SlottedRefs(s: State, ids: seq<int>, split: nat, k: nat)
    requires Sound(s, ids, split) && k < |ids|
    ensures |s.vNew| == NEW_SLOTS && |RefsTo(s.vNew, ids[k], NEW_SLOTS)| == s.info[ids[k]].refCount
    ensures k < split <==> s.info[ids[k]].refCount != 0
  {
    assert RefsTo(s.vNew, ids[k], NEW_SLOTS) == Refs(s.vNew, ids[k]);
    assert ids[k] in s.info;
  }

  /** With all parts read the manager is the old one, renumbered. */
  lemma AllRead(s: State, ids: seq<int>, split: nat, start: State, u2: State, u3: State)
    requires Sound(s, ids, split) && Indexed(s.info, s.addrs) && TriedTable(s.h, s.info, s.vTried)
    requires TriedLoaded(s, ids, split, |ids|, start, u2) && SlotsLoaded(s, ids, split, NEW_SLOTS, u2, u3)
    requires start.h == s.h && start.nNew == s.nNew && start.nTried == s.nTried
    ensures SameUpToIds(s, ids, split, u3)
    ensures forall id :: id in u3.info ==> u3.info[id].inTried || u3.info[id].refCount != 0
  {
    hide Numbered, Rows, TriedRows, SlotRows, SameEntries, SameAddrs, SameTable, InOrder, Indexed, TriedTable, NewTable, RefCounts, IdsInRange;
    SoundSplit(s, ids, split);
    TriedSame(s, ids, split, u2.vTried);
    AddrsSame(s, ids, split, u2.info, u2.addrs, u2.random);
    SlotsSame(s, ids, split, u3.info, u3.vNew);
  }

  lemma SlotsSame(s: State, ids: seq<int>, split: nat, info: map<int, Info>, vNew: seq<int>)
    requires Sound(s, ids, split) && SlotRows(s, ids, split, NEW_SLOTS, info, vNew)
    ensures SameEntries(s, ids, split, info) && SameTable(ids, s.vNew, vNew)
    ensures forall id :: id in info ==> info[id].inTried || info[id].refCount != 0
  {
    hide RefsTo, NewTable, RefCounts;
    forall k: nat | k < |ids|
      ensures info[k].randomPos == k && Restored(s.info[ids[k]], info[k])
      ensures info[k].inTried || info[k].refCount != 0
    {
      SlottedRefs(s, ids, split, k);
    }
  }

  // ----- The sizes a stream may have

  function IdsIn(table: seq<int>, m: nat): set<int>
    requires m <= |table|
  {
    set i | 0 <= i < m :: table[i]
  }

  lemma {:induction false} IdsInBound(table: seq<int>, m: nat)
    requires m <= |table|
    ensures |IdsIn(table, m)| <= m
  {
    if m == 0 {
      assert IdsIn(table, 0) == {};
    } else {
      IdsInBound(table, m - 1);
      assert IdsIn(table, m) == IdsIn(table, m - 1) + {table[m - 1]};
    }
  }

  /** A consistent manager never writes a count its reader refuses. */
  lemma CountsFit(s: State)
    requires Consistent(s)
    ensures s.nNew <= NEW_SLOTS && s.nTried <= TRIED_SLOTS
  {
    IdsInBound(s.vNew, NEW_SLOTS);
    IdsInBound(s.vTried, TRIED_SLOTS);
    forall n | n in NewIds(s.info) ensures n in IdsIn(s.vNew, NEW_SLOTS) {
      assert s.info[n].refCount != 0;
      HeldSomewhere(s.vNew, n);
    }
    SubsetSize(NewIds(s.info), IdsIn(s.vNew, NEW_SLOTS));
    forall n | n in TriedIds(s.info) ensures n in IdsIn(s.vTried, TRIED_SLOTS) {
      assert s.vTried[TriedSlot(s.h, s.info[n].service)] == n;
    }
    SubsetSize(TriedIds(s.info), IdsIn(s.vTried, TRIED_SLOTS));
  }

  lemma HeldSomewhere(table: seq<int>, n: int)
    requires |Refs(table, n)| != 0
    ensures exists i :: 0 <= i < |table| && table[i] == n
  {
    if !(exists i :: 0 <= i < |table| && table[i] == n) {
      HeldNowhere(table, n);
      assert false;
    }
  }

  lemma HeldNowhere(table: seq<int>, n: int)
    requires forall i :: 0 <= i < |table| ==> table[i] != n
    ensures Refs(table, n) == {}
  {
  }

  // ----- The result is consistent

  lemma EntriesConsistent(s: State, ids: seq<int>, split: nat, t: State)
    requires SameUpToIds(s, ids, split, t) && Indexed(s.info, s.addrs)
    ensures t.idCount >= 0 && IdsInRange(t.info, t.idCount) && Indexed(t.info, t.addrs) && Listed(t.info, t.random)
  {
    hide SameTable, SameAddrs, Indexed, Numbered, SameEntries, InOrder, Listed, IdsInRange;
    ListConsistent(s, ids, split, t.info, t.random);
    IndexConsistent(s, ids, split, t.info, t.addrs);
  }

  lemma ListConsistent(s: State, ids: seq<int>, split: nat, info: map<int, Info>, random: seq<int>)
    requires Numbered(s, ids, split) && SameEntries(s, ids, split, info) && InOrder(random, |ids|)
    ensures IdsInRange(info, |ids|) && Listed(info, random)
  {
    hide Numbered;
    RangeSize(info.Keys, 0, |ids|);
    assert |info| == |info.Keys|;
  }

  lemma IndexConsistent(s: State, ids: seq<int>, split: nat, info: map<int, Info>, addrs: map<NetAddr, int>)
    requires Numbered(s, ids, split) && SameEntries(s, ids, split, info) && SameAddrs(ids, s.addrs, addrs) && Indexed(s.info, s.addrs)
    ensures Indexed(info, addrs)
  {
    forall n | n in info ensures info[n].service.net in addrs && addrs[info[n].service.net] == n {
      assert ids[n] in s.info;
      IndexUnique(ids, n);
    }
    forall a | a in addrs ensures addrs[a] in info && info[addrs[a]].service.net == a {
      assert s.addrs[a] in ids;
      var k := IndexOf(ids, s.addrs[a]);
      assert Restored(s.info[ids[k]], info[k]);
    }
  }

  lemma TablesConsistent(s: State, ids: seq<int>, split: nat, t: State)
    requires SameUpToIds(s, ids, split, t) && IdsInRange(s.info, s.idCount)
    requires TriedTable(s.h, s.info, s.vTried) && NewTable(s.h, s.info, s.vNew)
    ensures TriedTable(t.h, t.info, t.vTried) && NewTable(t.h, t.info, t.vNew)
  {
    hide SameAddrs, InOrder, TriedTable, NewTable, SameEntries, SameTable, Numbered;
    TriedConsistent(s, ids, split, t.info, t.vTried);
    NewConsistent(s, ids, split, t.info, t.vNew);
  }

  lemma TriedConsistent(s: State, ids: seq<int>, split: nat, info: map<int, Info>, vTried: seq<int>)
    requires Numbered(s, ids, split) && SameEntries(s, ids, split, info) && SameTable(ids, s.vTried, vTried)
    requires TriedTable(s.h, s.info, s.vTried) && IdsInRange(s.info, s.idCount)
    ensures TriedTable(s.h, info, vTried)
  {
    hide TriedSlot;
    forall i | 0 <= i < |vTried| && vTried[i] != EMPTY
      ensures vTried[i] in info && info[vTried[i]].inTried && TriedSlot(s.h, info[vTried[i]].service) == i
    {
      assert EMPTY !in s.info;
      var k := IndexOf(ids, s.vTried[i]);
      assert Restored(s.info[ids[k]], info[k]);
    }
    forall n | n in info && info[n].inTried ensures vTried[TriedSlot(s.h, info[n].service)] == n {
      IndexUnique(ids, n);
      assert Restored(s.info[ids[n]], info[n]);
      assert s.vTried[TriedSlot(s.h, s.info[ids[n]].service)] == ids[n];
    }
  }

  lemma NewConsistent(s: State, ids: seq<int>, split: nat, info: map<int, Info>, vNew: seq<int>)
    requires Numbered(s, ids, split) && SameEntries(s, ids, split, info) && SameTable(ids, s.vNew, vNew)
    requires NewTable(s.h, s.info, s.vNew) && IdsInRange(s.info, s.idCount)
    ensures NewTable(s.h, info, vNew)
  {
    hide NewSlot;
    forall i | 0 <= i < |vNew| && vNew[i] != EMPTY
      ensures vNew[i] in info && !info[vNew[i]].inTried && NewSlot(s.h, info[vNew[i]].service, i / BUCKET_SIZE) == i
    {
      assert EMPTY !in s.info;
      var k := IndexOf(ids, s.vNew[i]);
      assert Restored(s.info[ids[k]], info[k]);
    }
  }

  lemma RefCountsConsistent(s: State, ids: seq<int>, split: nat, t: State)
    requires SameUpToIds(s, ids, split, t) && RefCounts(s.info, s.vNew, {}, {})
    ensures RefCounts(t.info, t.vNew, {}, {})
  {
    hide SameAddrs, InOrder;
    forall n | n in t.info
      ensures t.info[n].refCount == |Refs(t.vNew, n)| && t.info[n].refCount <= BUCKETS_PER_ADDRESS
      ensures t.info[n].refCount == 0 <==> t.info[n].inTried
    {
      IndexUnique(ids, n);
      assert ids[n] in s.info;
      RefsSame(ids, s.vNew, t.vNew, n);
    }
  }

  lemma RefsSame(ids: seq<int>, old_: seq<int>, new_: seq<int>, n: nat)
    requires SameTable(ids, old_, new_) && n < |ids| && Distinct(ids) && IndexOf(ids, ids[n]) == n
    ensures Refs(new_, n) == Refs(old_, ids[n])
  {
    forall i: nat | i < |old_| ensures new_[i] == n <==> old_[i] == ids[n] {
    }
  }

  lemma CountersConsistent(s: State, ids: seq<int>, split: nat, t: State)
    requires SameUpToIds(s, ids, split, t) && s.nNew == split && s.nTried == |ids| - split
    ensures Counters(t.info, t.nTried, t.nNew, {})
  {
    hide SameAddrs, InOrder, SameTable;
    RangeSize(NewIds(t.info), 0, split);
    RangeSize(TriedIds(t.info), split, |ids|);
  }

  lemma RenumberedConsistent(s: State, ids: seq<int>, split: nat, t: State)
    requires Consistent(s) && SameUpToIds(s, ids, split, t) && s.nNew == split && s.nTried == |ids| - split
    ensures Consistent(t)
  {
    hide SameUpToIds, IdsInRange, Indexed, Listed, TriedTable, NewTable, RefCounts, Counters;
    EntriesConsistent(s, ids, split, t);
    TablesConsistent(s, ids, split, t);
    RefCountsConsistent(s, ids, split, t);
    CountersConsistent(s, ids, split, t);
  }

  // ----- The theorem

  function WrittenOrder(s: State): seq<int>
  {
    Sorted(Referenced(s.info)) + Sorted(TriedIds(s.info))
  }

  lemma OrderNumbers(s: State)
    requires Consistent(s)
    ensures Numbered(s, WrittenOrder(s), |Sorted(Referenced(s.info))|)
    ensures |Sorted(Referenced(s.info))| == s.nNew && |Sorted(TriedIds(s.info))| == s.nTried
    ensures |WrittenOrder(s)| == s.nNew + s.nTried
  {
    ReferencedNew(s);
    hide Sorted, Indexed, Listed, TriedTable, NewTable, IdsInRange, RefCounts, Referenced, Numbered;
    PartsNumber(s, Sorted(Referenced(s.info)), Sorted(TriedIds(s.info)));
  }

  lemma PartsNumber(s: State, news: seq<int>, trieds: seq<int>)
    requires forall n :: n in news <==> n in s.info && !s.info[n].inTried
    requires forall n :: n in trieds <==> n in s.info && s.info[n].inTried
    requires forall a, b :: 0 <= a < b < |news| ==> news[a] < news[b]
    requires forall a, b :: 0 <= a < b < |trieds| ==> trieds[a] < trieds[b]
    ensures Numbered(s, news + trieds, |news|)
  {
    var ids := news + trieds;
    forall n ensures n in ids <==> n in s.info {
      assert n in ids <==> n in news || n in trieds;
    }
    forall i, j | 0 <= i < j < |ids| ensures ids[i] != ids[j] {
      OrderDistinct(s, news, trieds, i, j);
    }
    forall k | 0 <= k < |ids| ensures ids[k] in s.info && (s.info[ids[k]].inTried <==> k >= |news|) {
      assert k < |news| ==> ids[k] in news;
      assert k >= |news| ==> ids[k] in trieds;
    }
  }

  /** Exactly the entries that are not tried are referenced. */
  lemma ReferencedNew(s: State)
    requires Consistent(s)
    ensures Referenced(s.info) == NewIds(s.info)
  {
    hide Indexed, Listed, TriedTable, NewTable, IdsInRange, Refs;
    forall n | n in s.info ensures s.info[n].refCount != 0 <==> !s.info[n].inTried {
    }
  }

  lemma OrderDistinct(s: State, news: seq<int>, trieds: seq<int>, i: nat, j: nat)
    requires i < j < |news + trieds|
    requires forall n :: n in news ==> n in s.info && !s.info[n].inTried
    requires forall n :: n in trieds ==> n in s.info && s.info[n].inTried
    requires forall a, b :: 0 <= a < b < |news| ==> news[a] < news[b]
    requires forall a, b :: 0 <= a < b < |trieds| ==> trieds[a] < trieds[b]
    ensures (news + trieds)[i] != (news + trieds)[j]
  {
    var ids := news + trieds;
    if i < |news| <= j {
      assert ids[i] in news && ids[j] in trieds;
    }
  }

  lemma ConsistentParts(s: State, ids: seq<int>, split: nat)
    requires Consistent(s) && Numbered(s, ids, split)
    ensures Sound(s, ids, split) && Indexed(s.info, s.addrs) && TriedTable(s.h, s.info, s.vTried) && |s.vNew| == NEW_SLOTS
  {
  }

  /** What is written, in terms of the order it is written in. */
  lemma StreamShape(s: State, ids: seq<int>, split: nat)
    requires |s.vNew| == NEW_SLOTS && ids == WrittenOrder(s) && split == |Sorted(Referenced(s.info))| <= |ids|
    requires s.nNew == split && s.nTried == |ids| - split && (forall k :: 0 <= k < |ids| ==> ids[k] in s.info)
    ensures var z := SerializedOf(s);
            && Whole(z) && Usable(z) && z.keySize == 32 && z.h == s.h && z.nNew == split && z.nTried == |ids| - split
            && |z.newEntries| == split && (forall k :: 0 <= k < split ==> z.newEntries[k] == Save(s.info[ids[k]]))
            && |z.triedEntries| == |ids| - split
            && (forall k :: split <= k < |ids| ==> z.triedEntries[k - split] == Save(s.info[ids[k]]))
            && |z.buckets| == NEW_BUCKETS
            && (forall b: nat :: b < NEW_BUCKETS ==> z.buckets[b] == BucketTo(s.vNew, ids[..split], b, BUCKET_SIZE))
  {
    hide BucketTo, Sorted, SaveAll, Referenced, TriedIds, Whole, Usable;
    var news, trieds := Sorted(Referenced(s.info)), Sorted(TriedIds(s.info));
    OrderParts(news, trieds);
    OrderKnown(s, ids, split, news, trieds);
    SavedParts(s, ids, split, news, trieds);
    hide WrittenOrder;
    StreamWhole(s, split, |ids| - split);
  }

  lemma OrderKnown(s: State, ids: seq<int>, split: nat, news: seq<int>, trieds: seq<int>)
    requires ids == news + trieds && split == |news| && (forall k :: 0 <= k < |ids| ==> ids[k] in s.info)
    ensures (forall k :: 0 <= k < |news| ==> news[k] in s.info) && (forall k :: 0 <= k < |trieds| ==> trieds[k] in s.info)
  {
    forall k | 0 <= k < |news| ensures news[k] in s.info {
      assert ids[k] == news[k];
    }
    forall k | 0 <= k < |trieds| ensures trieds[k] in s.info {
      assert ids[split + k] == trieds[k];
    }
  }

  lemma StreamWhole(s: State, news: nat, trieds: nat)
    requires |s.vNew| == NEW_SLOTS && s.nNew == news && s.nTried == trieds
    requires var z := SerializedOf(s); |z.newEntries| == news && |z.triedEntries| == trieds
    ensures Whole(SerializedOf(s)) && Usable(SerializedOf(s))
  {
    hide SaveSet, BucketOf, Referenced, TriedIds, Sorted;
    ToggleTwice(NEW_BUCKETS);
  }

  lemma OrderParts(news: seq<int>, trieds: seq<int>)
    ensures (news + trieds)[..|news|] == news
    ensures forall k :: 0 <= k < |news| ==> (news + trieds)[k] == news[k]
    ensures forall k :: |news| <= k < |news + trieds| ==> (news + trieds)[k] == trieds[k - |news|]
  {
  }

  lemma SavedParts(s: State, ids: seq<int>, split: nat, news: seq<int>, trieds: seq<int>)
    requires ids == news + trieds && split == |news|
    requires (forall k :: 0 <= k < |news| ==> news[k] in s.info) && (forall k :: 0 <= k < |trieds| ==> trieds[k] in s.info)
    ensures forall k :: 0 <= k < |ids| ==> ids[k] in s.info
    ensures forall k :: 0 <= k < split ==> SaveAll(s.info, news)[k] == Save(s.info[ids[k]])
    ensures forall k :: split <= k < |ids| ==> SaveAll(s.info, trieds)[k - split] == Save(s.info[ids[k]])
  {
  }

  lemma StartedShape(s: State, ids: seq<int>, split: nat, z: Stream, collisions: set<int>)
    requires Numbered(s, ids, split) && z.h == s.h
    ensures var start := Started(z, collisions);
            && start.info == map[] && start.addrs == map[] && start.random == [] && start.h == s.h
            && start.nNew == z.nNew && start.nTried == z.nTried && start.collisions == collisions && start.lastGood == 1
            && Vacant(start.vNew, NEW_SLOTS) && TriedRows(s, ids, split, split, start.vTried)
  {
  }

  predicate Vacant(table: seq<int>, n: nat)
  {
    |table| == n && forall i :: 0 <= i < n ==> table[i] == EMPTY
  }

  lemma TriedBegins(s: State, ids: seq<int>, split: nat, start: State, u: State)
    requires Numbered(s, ids, split) && NewLoaded(s, ids, split, split, start, u)
    requires TriedRows(s, ids, split, split, start.vTried)
    ensures var v := u.(idCount := split);
            TriedLoaded(s, ids, split, split, v, v) && v == start.(info := v.info, addrs := v.addrs, random := v.random, idCount := split)
  {
    hide Rows, TriedRows, Numbered;
  }

  lemma SlotsBegin(s: State, ids: seq<int>, split: nat, v: State, u: State)
    requires Numbered(s, ids, split) && TriedLoaded(s, ids, split, |ids|, v, u) && Vacant(v.vNew, NEW_SLOTS) && |s.vNew| == NEW_SLOTS
    ensures SlotsLoaded(s, ids, split, 0, u, u)
    ensures u.h == v.h && u.nNew == v.nNew && u.nTried == v.nTried && u.collisions == v.collisions && u.lastGood == v.lastGood
  {
    hide TriedRows, Numbered;
    forall k: nat | k < |ids| ensures ids[k] in s.info && |RefsTo(s.vNew, ids[k], 0)| == 0 {
      assert RefsTo(s.vNew, ids[k], 0) == {};
      NumberedIn(s, ids, split);
    }
  }

  lemma LoadedIs(z: Stream, collisions: set<int>, u1: State, v1: State, u2: State, u3: State)
    requires Whole(z) && Usable(z) && z.keySize == 32 && z.nNew <= NEW_SLOTS && z.nTried <= TRIED_SLOTS
    requires u1 == LoadNew(Started(z, collisions), z.newEntries, true, |z.newEntries|)
    requires v1 == u1.(idCount := z.nNew) && u2 == LoadTried(v1, z.triedEntries, |z.triedEntries|)
    requires u3 == LoadBuckets(u2, z.buckets, true, |z.buckets|)
    requires forall id :: id in u3.info ==> u3.info[id].inTried || u3.info[id].refCount != 0
    ensures Unserialized(z, collisions) == Loaded(u3)
  {
    hide LoadNew, LoadTried, LoadBuckets, Prune, Sorted;
    var ids := Sorted(u3.info.Keys);
    PruneNothing(u3, ids, |ids|);
  }

  /**
   Serializing a consistent manager and reading it back loses nothing: the
   result is consistent, and it is the same manager under new numbers.
   */
  lemma RoundTrip(s: State, collisions: set<int>)
    requires Consistent(s)
    ensures |s.vNew| == NEW_SLOTS && Whole(SerializedOf(s))
    ensures var r := Unserialized(SerializedOf(s), collisions);
            r.Loaded? && Consistent(r.state) && SameUpToIds(s, WrittenOrder(s), |Sorted(Referenced(s.info))|, r.state)
            && r.state.collisions == collisions && r.state.lastGood == 1
  {
    hide *;
    var ids, split := WrittenOrder(s), |Sorted(Referenced(s.info))|;
    OrderNumbers(s);
    CountsFit(s);
    ConsistentParts(s, ids, split);
    NumberedIn(s, ids, split);
    StreamShape(s, ids, split);
    var stream := SerializedOf(s);
    var start := Started(stream, collisions);
    StartedShape(s, ids, split, stream, collisions);
    LoadsNew(s, ids, split, start, stream.newEntries, split);
    var u1 := LoadNew(start, stream.newEntries, true, split);
    var v1 := u1.(idCount := stream.nNew);
    TriedBegins(s, ids, split, start, u1);
    LoadsTried(s, ids, split, v1, stream.triedEntries, |ids| - split);
    var u2 := LoadTried(v1, stream.triedEntries, |ids| - split);
    SlotsBegin(s, ids, split, v1, u2);
    LoadsBuckets(s, ids, split, u2, stream.buckets, NEW_BUCKETS);
    var u3 := LoadBuckets(u2, stream.buckets, true, NEW_BUCKETS);
    assert NEW_BUCKETS * BUCKET_SIZE == NEW_SLOTS by { SlotCount(); }
    AllRead(s, ids, split, v1, u2, u3);
    LoadedIs(stream, collisions, u1, v1, u2, u3);
    RenumberedConsistent(s, ids, split, u3);
    OthersKept(s, ids, split, u2, u3);
  }

  lemma SlotCount()
    ensures NEW_BUCKETS * BUCKET_SIZE == NEW_SLOTS
  {
  }

  lemma OthersKept(s: State, ids: seq<int>, split: nat, u2: State, u3: State)
    requires Numbered(s, ids, split) && SlotsLoaded(s, ids, split, NEW_SLOTS, u2, u3)
    ensures u3.collisions == u2.collisions && u3.lastGood == u2.lastGood
  {
  }

  /** The recorded successes, which are all of the times a stream holds, are in order. */
  predicate SuccessesOk(s: State)
  {
    forall n :: n in s.info ==> s.info[n].lastSuccess >= 0 && (s.info[n].inTried ==> s.info[n].lastSuccess != 0)
  }

  /** What is read back without pending collisions is healthy, and its times are in order exactly when the successes were. */
  lemma RoundTripHealthy(s: State)
    requires Consistent(s)
    ensures |s.vNew| == NEW_SLOTS && Whole(SerializedOf(s))
    ensures var r := Unserialized(SerializedOf(s), {});
            r.Loaded? && Healthy(r.state) && r.state.h == s.h && r.state.collisions == {}
            && (TimesOk(r.state) <==> SuccessesOk(s))
  {
    hide Inv, SerializedOf, Unserialized, Whole, SameUpToIds, WrittenOrder, Referenced, Sorted, TimesOk, SuccessesOk;
    RoundTrip(s, {});
    var t := Unserialized(SerializedOf(s), {}).state;
    TriedLengthOf(t);
    TimesRead(s, WrittenOrder(s), |Sorted(Referenced(s.info))|, t);
  }

  lemma TimesRead(s: State, ids: seq<int>, split: nat, t: State)
    requires SameUpToIds(s, ids, split, t)
    ensures t.h == s.h && (TimesOk(t) <==> SuccessesOk(s))
  {
    hide SameAddrs, SameTable, InOrder;
    forall k: nat | k < |ids| ensures TimesReadAt(s, ids, t, k) {
      assert Restored(s.info[ids[k]], t.info[k]);
    }
    if TimesOk(t) {
      forall n | n in s.info ensures s.info[n].lastSuccess >= 0 && (s.info[n].inTried ==> s.info[n].lastSuccess != 0) {
        var k: nat :| k < |ids| && ids[k] == n;
        assert TimesReadAt(s, ids, t, k);
      }
    }
    if SuccessesOk(s) {
      forall n | n in t.info
        ensures t.info[n].lastTry >= 0 && t.info[n].lastSuccess >= 0 && (t.info[n].inTried ==> t.info[n].lastSuccess != 0)
      {
        assert TimesReadAt(s, ids, t, n);
      }
    }
  }

  predicate TimesReadAt(s: State, ids: seq<int>, t: State, k: nat)
  {
    && k < |ids| && ids[k] in s.info && k in t.info
    && t.info[k].lastTry == 0 && t.info[k].lastSuccess == s.info[ids[k]].lastSuccess
    && t.info[k].inTried == s.info[ids[k]].inTried
  }

  lemma TriedLengthOf(s: State)
    requires Consistent(s)
    ensures |s.vTried| == TRIED_SLOTS
  {
  }
}
