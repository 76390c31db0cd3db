/** The ascending order in which a set of integers is walked. */
module OrderedSets {
  lemma Inhabited(t: set<int>)
    requires t != {}
    ensures exists m :: m in t
  {
    if !(exists m :: m in t) {
      assert false;
    }
  }

  lemma {:induction false} LeastExists(t: set<int>)
    requires t != {}
    ensures exists m :: m in t && forall x :: x in t ==> m <= x
  {
    Inhabited(t);
    var m :| m in t;
    if t != {m} {
      LeastExists(t - {m});
      var k :| k in t - {m} && forall x :: x in t - {m} ==> k <= x;
      var least := if m < k then m else k;
      assert forall x :: x in t ==> x == m || x in t - {m};
      assert least in t && forall x :: x in t ==> least <= x;
    }
  }

  lemma {:induction false} RangeSize(t: set<int>, lo: int, hi: int)
    requires lo <= hi && forall x :: x in t <==> lo <= x < hi
    ensures |t| == hi - lo
    decreases hi - lo
  {
    if lo == hi {
      assert forall x :: x !in t;
      assert t == {};
    } else {
      RangeSize(t - {hi - 1}, lo, hi - 1);
      assert t == (t - {hi - 1}) + {hi - 1};
    }
  }

  function Least(t: set<int>): (m: int)
    requires t != {}
    ensures m in t && forall x :: x in t ==> m <= x
  {
    LeastExists(t);
    var m :| m in t && forall x :: x in t ==> m <= x;
    m
  }

  /** The k-th id in ascending order. */
  function Nth(t: set<int>, k: nat): (m: int)
    requires k < |t|
    ensures m in t
  {
    if k == 0 then Least(t) else Nth(t - {Least(t)}, k - 1)
  }

  lemma {:induction false} NthFinds(t: set<int>, n: int) returns (k: nat)
    requires n in t
    ensures k < |t| && Nth(t, k) == n
    decreases t
  {
    if n == Least(t) {
      k := 0;
    } else {
      var j := NthFinds(t - {Least(t)}, n);
      k := j + 1;
    }
  }
}

/**
 Collision handling, and whole runs of the address manager: every sequence of
 operations from an empty manager, with any random choices.
 */
module AddrManRuns {
  import opened Powers
  import opened AddrManState
  import opened AddrManOps
  import opened OrderedSets

  // ----- Test-before-evict collisions

  datatype Verdict = Wait | Discard | Swap

  /** What the last connections to the present tried entry say about a collision with it. */
  function Judge(holder: Info, now: int): Verdict
  {
    if now - holder.lastSuccess < REPLACEMENT_HOURS * (60 * 60) then Discard
    else if now - holder.lastTry < REPLACEMENT_HOURS * (60 * 60) && now - holder.lastTry > 60 then Swap
    else Wait
  }

  lemma TriedHolder(s: State, slot: nat)
    requires Consistent(s) && slot < TRIED_SLOTS
    ensures |s.vTried| == TRIED_SLOTS && (s.vTried[slot] == EMPTY || s.vTried[slot] in s.info)
  {
    hide Indexed, Listed, NewTable, RefCounts, IdsInRange, TriedIds, NewIds, Refs;
  }

  function VerdictOn(s: State, id: int, now: int): Verdict
    requires Consistent(s)
  {
    if id !in s.info || !s.h.isValid(s.info[id].service.net) then Discard
    else
      var slot := TriedSlot(s.h, s.info[id].service);
      TriedHolder(s, slot);
      if s.vTried[slot] != EMPTY then Judge(s.info[s.vTried[slot]], now) else Swap
  }

  function ResolveOne(s: State, id: int, now: int): State
    requires Consistent(s)
  {
    match VerdictOn(s, id, now)
    case Wait => s
    case Discard => s.(collisions := s.collisions - {id})
    case Swap =>
      var t := Good(s, s.info[id].service, false, now);
      t.(collisions := t.collisions - {id})
  }

  /** Resolve the collisions in `todo`, smallest id first. */
  function ResolveFrom(s: State, todo: set<int>, now: int): State
    requires Consistent(s)
    decreases todo
  {
    if todo == {} then s
    else
      var id := Least(todo);
      ResolveOneKeeps(s, id, now);
      ResolveFrom(ResolveOne(s, id, now), todo - {id}, now)
  }

  lemma ResolveOneKeeps(s: State, id: int, now: int)
    requires Consistent(s)
    ensures Consistent(ResolveOne(s, id, now))
  {
    hide Indexed, Listed, TriedTable, NewTable, RefCounts, IdsInRange, TriedIds, NewIds, Refs, Good;
    if VerdictOn(s, id, now) == Swap {
      GoodKeeps(s, s.info[id].service, false, now);
    }
  }

  lemma {:induction false} ResolveFromKeeps(s: State, todo: set<int>, now: int)
    requires Consistent(s)
    ensures Consistent(ResolveFrom(s, todo, now))
    decreases todo
  {
    hide Inv, ResolveOne;
    if todo != {} {
      var id := Least(todo);
      ResolveOneKeeps(s, id, now);
      ResolveFromKeeps(ResolveOne(s, id, now), todo - {id}, now);
    }
  }

  /** A tried entry that connected in the last four hours keeps its slot. */
  predicate Proven(holder: Info, now: int) { now - holder.lastSuccess < 14400 }

  /** A tried entry that did not, and that was tried more than a minute and less than four hours ago, loses it. */
  predicate Failing(holder: Info, now: int) { !Proven(holder, now) && 60 < now - holder.lastTry < 14400 }

  /**
   What becomes of one pending collision. It is forgotten when its entry is gone
   or has no valid address, and when the holder of its slot is proven. Its entry
   takes the slot when this is empty or its holder is failing. It stays pending
   otherwise.
   */
  lemma ResolveOneEffect(s: State, id: int, now: int)
    requires Consistent(s)
    ensures |s.vTried| == TRIED_SLOTS && |s.vNew| == NEW_SLOTS
    ensures var t, left := ResolveOne(s, id, now), s.(collisions := s.collisions - {id});
            if id !in s.info || !s.h.isValid(s.info[id].service.net) then t == left
            else
              var slot := TriedSlot(s.h, s.info[id].service);
              var holder := s.vTried[slot];
              && (holder == EMPTY ==> TookSlot(left, t, id, slot, now))
              && (holder != EMPTY ==> holder in s.info)
              && (holder != EMPTY && Proven(s.info[holder], now) ==> t == left)
              && (holder != EMPTY && Failing(s.info[holder], now) ==> TookSlot(left, t, id, slot, now))
              && (holder != EMPTY && !Proven(s.info[holder], now) && !Failing(s.info[holder], now) ==> t == s)
  {
    hide Inv, Good, TookSlot;
    TriedHolder(s, 0);
    LengthsOf(s);
    if id in s.info && s.h.isValid(s.info[id].service.net) {
      var slot := TriedSlot(s.h, s.info[id].service);
      TriedHolder(s, slot);
      GoodEffect(s, s.info[id].service, false, now);
      IndexedAt(s, id);
      TookFrame(s, Good(s, s.info[id].service, false, now), id, slot, now, s.collisions - {id});
    }
  }

  lemma LengthsOf(s: State)
    requires Consistent(s)
    ensures |s.vTried| == TRIED_SLOTS && |s.vNew| == NEW_SLOTS
  {
    hide Indexed, Listed, RefCounts, IdsInRange, TriedIds, NewIds, Refs;
  }

  lemma IndexedAt(s: State, id: int)
    requires Consistent(s) && id in s.info
    ensures s.info[id].service.net in s.addrs && s.addrs[s.info[id].service.net] == id
  {
    hide Listed, TriedTable, NewTable, RefCounts, IdsInRange, TriedIds, NewIds, Refs;
  }

  lemma TookFrame(s: State, t: State, id: int, slot: nat, time: int, collisions: set<int>)
    requires id in s.info && slot < |s.vTried| && |s.vNew| == NEW_SLOTS
    requires TookSlot(s, t, id, slot, time)
    ensures t.collisions == s.collisions
    ensures TookSlot(s.(collisions := collisions), t.(collisions := collisions), id, slot, time)
  {
    hide Without, Displaced, HomeSlot;
  }

  /** The slot an entry collides over. */
  predicate Disputes(s: State, id: int, slot: nat)
  {
    id in s.info && s.h.isValid(s.info[id].service.net) && TriedSlot(s.h, s.info[id].service) == slot
  }

  /** A tried slot that is empty or whose holder is failing. */
  predicate Yields(s: State, slot: nat, now: int)
    requires slot < |s.vTried|
  {
    s.vTried[slot] == EMPTY || (s.vTried[slot] in s.info && Failing(s.info[s.vTried[slot]], now))
  }

  /** A tried slot about whose holder nothing is known yet. */
  predicate Undecided(s: State, slot: nat, now: int)
    requires slot < |s.vTried|
  {
    s.vTried[slot] in s.info && !Proven(s.info[s.vTried[slot]], now) && !Failing(s.info[s.vTried[slot]], now)
  }

  /** A tried slot has the holder it had, with the times it had, or no holder as before. */
  predicate SlotStays(s: State, u: State, slot: nat)
    requires slot < |s.vTried| && slot < |u.vTried|
  {
    && u.vTried[slot] == s.vTried[slot]
    && (s.vTried[slot] in s.info ==>
          && s.vTried[slot] in u.info
          && u.info[s.vTried[slot]].lastTry == s.info[s.vTried[slot]].lastTry
          && u.info[s.vTried[slot]].lastSuccess == s.info[s.vTried[slot]].lastSuccess)
  }

  /** A tried slot that yielded went to one of the entries that disputed it. */
  predicate SlotGranted(s: State, u: State, slot: nat, now: int)
    requires slot < |s.vTried| && slot < |u.vTried|
  {
    && Yields(s, slot, now) && u.vTried[slot] in s.collisions && Disputes(s, u.vTried[slot], slot)
    && u.vTried[slot] in u.info && u.info[u.vTried[slot]].lastSuccess == now
  }

  /** What has become of a collision that was dealt with. */
  predicate Dealt(s: State, u: State, id: int, now: int)
    requires |s.vTried| == |u.vTried| == TRIED_SLOTS
  {
    && (id in u.collisions ==> id in s.info && Disputes(s, id, TriedSlot(s.h, s.info[id].service))
                               && Undecided(s, TriedSlot(s.h, s.info[id].service), now))
    && (id in u.info && id in s.info && Disputes(s, id, TriedSlot(s.h, s.info[id].service)) ==>
          var slot := TriedSlot(s.h, s.info[id].service);
          && (Undecided(s, slot, now) ==> id in u.collisions)
          && (Yields(s, slot, now) ==> SlotGranted(s, u, slot, now)))
  }

  /** Entries and their services are as before, but some entries may be gone. */
  ghost predicate Thinned(s: State, u: State)
  {
    u.h == s.h && forall n :: n in u.info ==> n in s.info && u.info[n].service == s.info[n].service
  }

  ghost predicate SlotsFair(s: State, u: State, now: int)
    requires |s.vTried| == |u.vTried|
  {
    forall slot: nat :: slot < |s.vTried| ==> SlotStays(s, u, slot) || SlotGranted(s, u, slot, now)
  }

  ghost predicate AllDealt(s: State, u: State, todo: set<int>, now: int)
    requires |s.vTried| == |u.vTried| == TRIED_SLOTS
  {
    && u.collisions <= s.collisions && todo <= u.collisions
    && forall id :: id in s.collisions && id !in todo ==> Dealt(s, u, id, now)
  }

  /** The collisions of `s` outside `todo` are dealt with in `u`. */
  ghost predicate Progress(s: State, u: State, todo: set<int>, now: int)
  {
    && Consistent(s) && Consistent(u) && |s.vTried| == |u.vTried| == TRIED_SLOTS
    && Thinned(s, u) && SlotsFair(s, u, now) && AllDealt(s, u, todo, now)
  }

  /** Taking a slot leaves every other tried slot as it was. */
  lemma TookOthers(s: State, t: State, id: int, slot: nat, time: int, other: nat)
    requires Consistent(s) && id in s.info && slot == TriedSlot(s.h, s.info[id].service) && other < TRIED_SLOTS && other != slot
    requires |s.vTried| == TRIED_SLOTS && |s.vNew| == NEW_SLOTS && TookSlot(s, t, id, slot, time)
    ensures |t.vTried| == |s.vTried| && SlotStays(s, t, other)
  {
    hide Indexed, Listed, RefCounts, IdsInRange, TriedIds, NewIds, Refs, HomeSlot;
    var n, holder := s.vTried[other], s.vTried[slot];
    TriedHolder(s, other);
    NoEmptyIn(s);
    if n in s.info && holder != EMPTY && holder != id {
      var home := HomeSlot(s.h, s.info[holder]);
      if s.vNew[home] != EMPTY {
        NewHolder(s, home);
      }
    }
  }

  lemma NewHolder(s: State, slot: nat)
    requires Consistent(s) && slot < |s.vNew| && s.vNew[slot] != EMPTY
    ensures s.vNew[slot] in s.info && !s.info[s.vNew[slot]].inTried
  {
    hide Indexed, Listed, TriedTable, RefCounts, IdsInRange, TriedIds, NewIds, Refs;
  }

  lemma TookThins(s: State, t: State, id: int, slot: nat, time: int)
    requires id in s.info && slot < |s.vTried| && |s.vNew| == NEW_SLOTS && TookSlot(s, t, id, slot, time)
    requires EMPTY !in s.info
    ensures Thinned(s, t)
  {
    hide Without, HomeSlot;
    assert t.info.Keys <= s.info.Keys;
  }

  lemma NoEmptyIn(s: State)
    requires Consistent(s)
    ensures EMPTY !in s.info
  {
    hide Indexed, Listed, TriedTable, NewTable, RefCounts, TriedIds, NewIds, Refs;
  }

  /** Forgetting one collision is progress when it is over. */
  lemma ProgressForget(s: State, u: State, todo: set<int>, id: int, now: int)
    requires Progress(s, u, todo, now) && id in todo
    requires var t := u.(collisions := u.collisions - {id}); Consistent(t) && Dealt(s, t, id, now)
    ensures Progress(s, u.(collisions := u.collisions - {id}), todo - {id}, now)
  {
    hide Inv, Undecided, Yields, Disputes, Thinned;
    var t := u.(collisions := u.collisions - {id});
    forall slot: nat | slot < |s.vTried| ensures SlotStays(s, t, slot) || SlotGranted(s, t, slot, now) {
      assert SlotStays(s, u, slot) || SlotGranted(s, u, slot, now);
    }
    forall n | n in s.collisions && n !in todo - {id} ensures Dealt(s, t, n, now) {
      if n != id {
        assert Dealt(s, u, n, now);
      }
    }
    ThinnedFrame(s, u, t);
  }

  lemma ThinnedFrame(s: State, u: State, t: State)
    requires Thinned(s, u) && t.h == u.h && t.info == u.info
    ensures Thinned(s, t)
  {
  }

  /** A collision that is forgotten was over: its entry is gone or invalid, or the holder of its slot is proven. */
  lemma ForgottenDealt(s: State, u: State, todo: set<int>, id: int, now: int)
    requires Progress(s, u, todo, now) && id in todo
    requires id in u.info && u.h.isValid(u.info[id].service.net) ==>
               var holder := u.vTried[TriedSlot(u.h, u.info[id].service)];
               holder != EMPTY && holder in u.info && Proven(u.info[holder], now)
    ensures Dealt(s, u.(collisions := u.collisions - {id}), id, now)
  {
    hide Inv, AllDealt;
    NoEmptyIn(s);
    if id in u.info && u.h.isValid(u.info[id].service.net) {
      var slot := TriedSlot(s.h, s.info[id].service);
      assert SlotStays(s, u, slot) || SlotGranted(s, u, slot, now);
    }
  }

  /** A collision that stays pending is over a slot about whose holder nothing is known. */
  lemma StaysDealt(s: State, u: State, todo: set<int>, id: int, now: int)
    requires Progress(s, u, todo, now) && id in todo
    requires id in u.info && Disputes(u, id, TriedSlot(u.h, u.info[id].service))
    requires Undecided(u, TriedSlot(u.h, u.info[id].service), now)
    ensures Progress(s, u, todo - {id}, now)
  {
    hide Inv;
    var slot := TriedSlot(s.h, s.info[id].service);
    NoEmptyIn(s);
    NoEmptyIn(u);
    assert SlotStays(s, u, slot) || SlotGranted(s, u, slot, now);
    assert Dealt(s, u, id, now);
  }

  /** Taking a slot that yields now is taking one that yielded before any collision was dealt with. */
  lemma YieldedBefore(s: State, u: State, slot: nat, now: int)
    requires Consistent(s) && |s.vTried| == |u.vTried| == TRIED_SLOTS && slot < TRIED_SLOTS
    requires SlotsFair(s, u, now) && Yields(u, slot, now)
    requires EMPTY !in u.info
    ensures Yields(s, slot, now)
  {
    hide Inv;
    assert SlotStays(s, u, slot) || SlotGranted(s, u, slot, now);
    TriedHolder(s, slot);
  }

  lemma TookDealt(s: State, u: State, t: State, todo: set<int>, id: int, slot: nat, now: int)
    requires Progress(s, u, todo, now) && id in todo && Disputes(u, id, slot) && Yields(u, slot, now)
    requires |u.vNew| == NEW_SLOTS && TookSlot(u.(collisions := u.collisions - {id}), t, id, slot, now)
    requires Consistent(t) && EMPTY !in u.info
    ensures Progress(s, t, todo - {id}, now)
  {
    hide Inv, TookSlot, Failing, Proven;
    var left := u.(collisions := u.collisions - {id});
    ConsistentFrame(u, u.collisions - {id});
    TookThins(left, t, id, slot, now);
    YieldedBefore(s, u, slot, now);
    TookHolds(left, t, id, slot, now);
    forall j: nat | j < TRIED_SLOTS && j != slot ensures SlotStays(u, t, j) {
      TookOthers(left, t, id, slot, now, j);
    }
    forall j: nat | j < |s.vTried| ensures SlotStays(s, t, j) || SlotGranted(s, t, j, now) {
      if j != slot {
        assert SlotStays(u, t, j);
        assert SlotStays(s, u, j) || SlotGranted(s, u, j, now);
      }
    }
    forall n | n in s.collisions && n !in todo - {id} ensures Dealt(s, t, n, now) {
      TookDealtAt(s, u, t, todo, id, slot, now, n);
    }
  }

  lemma TookHolds(s: State, t: State, id: int, slot: nat, now: int)
    requires id in s.info && slot < |s.vTried| && |s.vNew| == NEW_SLOTS && TookSlot(s, t, id, slot, now)
    ensures |t.vTried| == |s.vTried| && t.vTried[slot] == id && id in t.info && t.info[id].lastSuccess == now
    ensures t.collisions == s.collisions && t.h == s.h
  {
    hide Without, HomeSlot, Displaced;
  }

  lemma TookDealtAt(s: State, u: State, t: State, todo: set<int>, id: int, slot: nat, now: int, n: int)
    requires Progress(s, u, todo, now) && id in todo && n in s.collisions && n !in todo - {id}
    requires |t.vTried| == TRIED_SLOTS && slot < TRIED_SLOTS && Thinned(u, t) && Disputes(u, id, slot) && Yields(s, slot, now)
    requires t.collisions == u.collisions - {id} && SlotGranted(s, t, slot, now)
    requires forall j: nat :: j < TRIED_SLOTS && j != slot ==> SlotStays(u, t, j)
    ensures Dealt(s, t, n, now)
  {
    hide Inv;
    NoEmptyIn(s);
    if n != id {
      assert Dealt(s, u, n, now);
      if n in t.info && n in s.info && Disputes(s, n, TriedSlot(s.h, s.info[n].service)) {
        var j := TriedSlot(s.h, s.info[n].service);
        if j != slot {
          assert SlotStays(u, t, j);
        }
      }
    }
  }

  lemma ProgressStep(s: State, u: State, todo: set<int>, id: int, now: int)
    requires Progress(s, u, todo, now) && id in todo
    ensures Progress(s, ResolveOne(u, id, now), todo - {id}, now)
  {
    hide Inv, TookSlot, SlotsFair, AllDealt, Dealt, Thinned, Failing, Proven, ResolveOne;
    ResolveOneKeeps(u, id, now);
    ResolveOneEffect(u, id, now);
    NoEmptyIn(u);
    var t := ResolveOne(u, id, now);
    if id in u.info && u.h.isValid(u.info[id].service.net) {
      var slot := TriedSlot(u.h, u.info[id].service);
      if Yields(u, slot, now) {
        TookDealt(s, u, t, todo, id, slot, now);
      } else if Undecided(u, slot, now) {
        StaysDealt(s, u, todo, id, now);
      } else {
        ForgottenDealt(s, u, todo, id, now);
        ProgressForget(s, u, todo, id, now);
      }
    } else {
      ForgottenDealt(s, u, todo, id, now);
      ProgressForget(s, u, todo, id, now);
    }
  }

  lemma {:induction false} ResolveProgress(s: State, u: State, todo: set<int>, now: int)
    requires Progress(s, u, todo, now)
    ensures Progress(s, ResolveFrom(u, todo, now), {}, now)
    decreases todo
  {
    hide Inv, ResolveOne, Progress;
    ProgressConsistent(s, u, todo, now);
    if todo != {} {
      var id := Least(todo);
      ResolveOneKeeps(u, id, now);
      ProgressStep(s, u, todo, id, now);
      ResolveProgress(s, ResolveOne(u, id, now), todo - {id}, now);
    }
  }

  lemma ProgressConsistent(s: State, u: State, todo: set<int>, now: int)
    requires Progress(s, u, todo, now)
    ensures Consistent(u)
  {
    hide Inv;
  }

  /**
   Resolving all pending collisions, told by the state before. A tried slot
   changes hands exactly when it is empty or its holder is failing and one of
   the entries that dispute it is still there; it then goes to one of these,
   reached just now, and all of them stop waiting. Collisions with a proven
   holder are forgotten, those about whose holder nothing is known stay.
   */
  lemma ResolveAllEffect(s: State, now: int)
    requires Consistent(s)
    ensures var t := ResolveFrom(s, s.collisions, now);
            && Consistent(t) && |s.vTried| == |t.vTried| == TRIED_SLOTS && Thinned(s, t)
            && t.collisions <= s.collisions
            && (forall slot: nat :: slot < TRIED_SLOTS ==> SlotStays(s, t, slot) || SlotGranted(s, t, slot, now))
            && (forall id :: id in s.collisions ==> Dealt(s, t, id, now))
  {
    hide Inv, ResolveFrom;
    TriedHolder(s, 0);
    ResolveProgress(s, s, s.collisions, now);
  }

  /** The entry a default-constructed record stands for. */
  const NoInfo := Info(Service(NetAddr([]), 0), 0, {}, NetAddr([]), 0, 0, 0, 0, 0, false, -1)

  datatype Selection = Selection(s: State, entry: Info)

  /** Looking up a missing id inserts a default record, as the source's map does. */
  function SelectCollision(s: State, rnd: nat): Selection
    requires |s.vTried| == TRIED_SLOTS
  {
    if s.collisions == {} then Selection(s, NoInfo)
    else
      var id := Nth(s.collisions, rnd % |s.collisions|);
      if id !in s.info then Selection(s.(collisions := s.collisions - {id}), NoInfo)
      else
        var holder := s.vTried[TriedSlot(s.h, s.info[id].service)];
        if holder in s.info then Selection(s, s.info[holder])
        else Selection(SetInfo(s, holder, NoInfo), NoInfo)
  }

  // ----- How a state may evolve

  /** Ids are never reused, addresses of entries never change, and occupied tried slots stay occupied. */
  ghost predicate Evolves(s: State, t: State)
  {
    && t.h == s.h && s.idCount <= t.idCount && |s.vTried| == |t.vTried|
    && (forall i :: 0 <= i < |s.vTried| && s.vTried[i] != EMPTY ==> t.vTried[i] != EMPTY)
    && (forall n :: n in t.info && n < s.idCount ==> n in s.info && t.info[n].service == s.info[n].service)
  }

  lemma EvolvesTrans(s: State, t: State, u: State)
    requires Evolves(s, t) && Evolves(t, u)
    ensures Evolves(s, u)
  {
  }

  /** Times of entries are as before, and none became tried. */
  predicate TimesKept(a: map<int, Info>, b: map<int, Info>)
  {
    forall n :: n in b && n in a ==>
      b[n].lastTry == a[n].lastTry && b[n].lastSuccess == a[n].lastSuccess && (b[n].inTried ==> a[n].inTried)
  }

  lemma PlaceEvolves(s: State, id: int, source: NetAddr, now: int)
    requires id in s.info
    requires Inv(s, {}, {}) || Inv(s, {id}, {})
    ensures var t := Place(s, id, source, now);
            Evolves(s, t) && t.collisions == s.collisions && t.info.Keys <= s.info.Keys && TimesKept(s.info, t.info)
  {
    hide Indexed, Listed, TriedTable, NewTable, RefCounts, TriedIds, NewIds, Refs, IdsInRange, Place, IsTerrible;
    PlaceEffect(s, id, source, now);
    NoEmptyId(s.info, s.idCount);
  }

  lemma AddEvolves(s: State, a: Address, source: NetAddr, timePenalty: int, now: int, rnd: nat)
    requires Consistent(s)
    ensures var t := Add(s, a, source, timePenalty, now, rnd).s;
            Evolves(s, t) && t.collisions == s.collisions && (TimesOk(s) ==> TimesOk(t))
  {
    hide Indexed, Listed, TriedTable, NewTable, RefCounts, TriedIds, NewIds, Refs, Pow2, U32, Place, Refused;
    if s.h.isRoutable(a.service.net) {
      var penalty := if a.service.net == source then 0 else timePenalty;
      var id := Find(s, a.service.net);
      if id != EMPTY {
        var i := Announced(s.info[id], a, penalty, now);
        TouchKeeps(s, id, i, {}, {});
        var t := SetInfo(s, id, i);
        PlaceEvolves(t, id, source, now);
      } else {
        CreatedKeeps(s, a, source, penalty);
        PlaceEvolves(Created(s, a, source, penalty), s.idCount, source, now);
      }
    }
  }

  lemma MakeTriedEvolves(s: State, id: int)
    requires Consistent(s) && id in s.info && !s.info[id].inTried
    ensures var t := MakeTried(s, id);
            && Evolves(s, t) && t.collisions == s.collisions && t.info.Keys <= s.info.Keys
            && TimesKept(s.info - {id}, t.info)
            && id in t.info && t.info[id].lastTry == s.info[id].lastTry && t.info[id].lastSuccess == s.info[id].lastSuccess
            && t.info[id].inTried
  {
    hide IdsInRange, Indexed, Listed, TriedTable, NewTable, RefCounts, TriedIds, NewIds, Refs, MakeTried, Without;
    MakeTriedEffect(s, id);
    NoEmptyId(s.info, s.idCount);
  }

  lemma GoodEvolves(s: State, svc: Service, testBeforeEvict: bool, time: int)
    requires Consistent(s)
    ensures var t := Good(s, svc, testBeforeEvict, time);
            && Evolves(s, t)
            && (TimesOk(s) && time > 0 ==> TimesOk(t))
            && (!testBeforeEvict ==> t.collisions == s.collisions)
            && (CollisionsServed(s) ==> CollisionsServed(t))
  {
    hide Indexed, Listed, TriedTable, NewTable, RefCounts, TriedIds, NewIds, Refs, MakeTried;
    var u := s.(lastGood := time);
    var id := Find(u, svc.net);
    if id != EMPTY && u.info[id].service == svc {
      var i := Succeeded(u.info[id], time);
      var t := SetInfo(u, id, i);
      TouchKeeps(u, id, i, {}, {});
      TableLengths(t);
      if !i.inTried && (!testBeforeEvict || t.vTried[TriedSlot(s.h, svc)] == EMPTY) {
        MakeTriedEvolves(t, id);
      }
    }
  }

  /** The calls of Good after which the recorded times are in order. */
  predicate GoodTimely(s: State, svc: Service, testBeforeEvict: bool, time: int)
    requires |s.vTried| == TRIED_SLOTS
  {
    var id := Find(s, svc.net);
    || id == EMPTY || s.info[id].service != svc || time > 0
    || (time == 0 && !s.info[id].inTried && testBeforeEvict && s.vTried[TriedSlot(s.h, svc)] != EMPTY)
  }

  lemma GoodTimes(s: State, svc: Service, testBeforeEvict: bool, time: int)
    requires Consistent(s) && TimesOk(s)
    ensures |s.vTried| == TRIED_SLOTS
    ensures TimesOk(Good(s, svc, testBeforeEvict, time)) <==> GoodTimely(s, svc, testBeforeEvict, time)
  {
    hide Indexed, Listed, TriedTable, NewTable, RefCounts, TriedIds, NewIds, Refs, MakeTried, Evolves;
    TableLengths(s);
    var u := s.(lastGood := time);
    var id := Find(u, svc.net);
    if id != EMPTY && u.info[id].service == svc {
      var i := Succeeded(u.info[id], time);
      var t := SetInfo(u, id, i);
      TouchKeeps(u, id, i, {}, {});
      if !i.inTried && (!testBeforeEvict || t.vTried[TriedSlot(s.h, svc)] == EMPTY) {
        MakeTriedEvolves(t, id);
      }
      assert id in Good(s, svc, testBeforeEvict, time).info;
    }
  }

  /** The calls of Attempt after which the recorded times are in order. */
  predicate AttemptTimely(s: State, svc: Service, time: int)
  {
    var id := Find(s, svc.net);
    id == EMPTY || s.info[id].service != svc || time >= 0
  }

  lemma AttemptTimes(s: State, svc: Service, countFailure: bool, time: int)
    requires TimesOk(s)
    ensures TimesOk(Attempt(s, svc, countFailure, time)) <==> AttemptTimely(s, svc, time)
  {
    var id := Find(s, svc.net);
    if id != EMPTY && s.info[id].service == svc {
      assert id in Attempt(s, svc, countFailure, time).info;
    }
  }

  lemma SubsetSize(a: set<int>, b: set<int>)
    requires a <= b
    ensures |a| <= |b|
  {
    assert b == a + (b - a);
  }

  lemma ServedEvolves(s: State, t: State)
    requires CollisionsServed(s) && Evolves(s, t) && t.collisions <= s.collisions
    ensures CollisionsServed(t)
  {
    SubsetSize(t.collisions, s.collisions);
  }

  lemma ResolveOneEvolves(s: State, id: int, now: int)
    requires Consistent(s)
    ensures var t := ResolveOne(s, id, now);
            && Evolves(s, t) && t.collisions <= s.collisions
            && (TimesOk(s) && now > 0 ==> TimesOk(t))
  {
    hide Inv, Good, TimesOk;
    if VerdictOn(s, id, now) == Swap {
      GoodEvolves(s, s.info[id].service, false, now);
      TimesFrame(Good(s, s.info[id].service, false, now), ResolveOne(s, id, now));
    } else {
      TimesFrame(s, ResolveOne(s, id, now));
    }
  }

  lemma TimesFrame(s: State, t: State)
    requires s.info == t.info
    ensures TimesOk(s) == TimesOk(t)
  {
  }

  lemma {:induction false} ResolveFromEvolves(s: State, todo: set<int>, now: int)
    requires Consistent(s)
    ensures var t := ResolveFrom(s, todo, now);
            && Evolves(s, t) && t.collisions <= s.collisions
            && (TimesOk(s) && now > 0 ==> TimesOk(t))
    decreases todo
  {
    hide Inv, ResolveOne, TimesOk, Evolves;
    if todo != {} {
      var id := Least(todo);
      ResolveOneKeeps(s, id, now);
      ResolveOneEvolves(s, id, now);
      var t := ResolveOne(s, id, now);
      ResolveFromEvolves(t, todo - {id}, now);
      EvolvesTrans(s, t, ResolveFrom(t, todo - {id}, now));
    } else {
      EvolvesRefl(s);
    }
  }

  /** No pending collision leads to a swap. */
  predicate NoSwaps(s: State, todo: set<int>, now: int)
    requires Consistent(s)
  {
    forall id :: id in todo ==> VerdictOn(s, id, now) != Swap
  }

  lemma {:induction false} ResolveWithoutSwaps(s: State, todo: set<int>, now: int)
    requires Consistent(s) && NoSwaps(s, todo, now)
    ensures ResolveFrom(s, todo, now).info == s.info
    decreases todo
  {
    hide Inv, Good;
    if todo != {} {
      var id := Least(todo);
      ResolveOneKeeps(s, id, now);
      var t := ResolveOne(s, id, now);
      forall n | n in todo - {id} ensures VerdictOn(t, n, now) != Swap {
        assert VerdictOn(s, n, now) != Swap;
      }
      ResolveWithoutSwaps(t, todo - {id}, now);
    }
  }

  /** A served collision is never resolved by a swap at a time that is not positive. */
  lemma EarlyNoSwaps(s: State, now: int)
    requires Consistent(s) && Served(s) && TimesOk(s) && now <= 0
    ensures NoSwaps(s, s.collisions, now)
  {
    hide Inv;
    forall id | id in s.collisions ensures VerdictOn(s, id, now) != Swap {
      if id in s.info {
        TriedHolder(s, TriedSlot(s.h, s.info[id].service));
      }
    }
  }

  /** Resolving served collisions keeps the recorded times in order, at whatever time it happens. */
  lemma ResolveTimes(s: State, now: int)
    requires Consistent(s) && Served(s) && TimesOk(s)
    ensures TimesOk(ResolveFrom(s, s.collisions, now))
  {
    hide Inv, ResolveFrom, TimesOk, Served, Evolves;
    if now > 0 {
      ResolveFromEvolves(s, s.collisions, now);
    } else {
      EarlyNoSwaps(s, now);
      ResolveWithoutSwaps(s, s.collisions, now);
      TimesFrame(s, ResolveFrom(s, s.collisions, now));
    }
  }

  lemma EvolvesRefl(s: State)
    ensures Evolves(s, s)
  {
  }

  // ----- Served collisions

  predicate Healthy(s: State)
  {
    Consistent(s) && CollisionsServed(s)
  }

  lemma EmptyHealthy(h: Hashes)
    ensures Healthy(EmptyState(h, {})) && TimesOk(EmptyState(h, {}))
  {
    var s := EmptyState(h, {});
    assert TriedIds(s.info) == {};
    assert NewIds(s.info) == {};
  }

  /** A served collision is answered with the tried entry that holds its slot, changing nothing. */
  lemma SelectServed(s: State, rnd: nat)
    requires Healthy(s)
    ensures |s.vTried| == TRIED_SLOTS
    ensures var r := SelectCollision(s, rnd);
            && Healthy(r.s) && r.s.info == s.info && r.s.collisions <= s.collisions
            && (s.collisions == {} ==> r == Selection(s, NoInfo))
            && (s.collisions != {} ==>
                  var id := Nth(s.collisions, rnd % |s.collisions|);
                  if id in s.info then
                    && r.s == s
                    && var slot := TriedSlot(s.h, s.info[id].service);
                       s.vTried[slot] in s.info && s.info[s.vTried[slot]].inTried && r.entry == s.info[s.vTried[slot]]
                  else r == Selection(s.(collisions := s.collisions - {id}), NoInfo))
  {
    TriedHolder(s, 0);
    if s.collisions != {} {
      var id := Nth(s.collisions, rnd % |s.collisions|);
      if id in s.info {
        var slot := TriedSlot(s.h, s.info[id].service);
        TriedHolder(s, slot);
        HolderTried(s, slot);
      } else {
        hide Inv, Nth;
        ServedEvolves(s, s.(collisions := s.collisions - {id}));
        ConsistentFrame(s, s.collisions - {id});
      }
    }
  }

  lemma HolderTried(s: State, slot: nat)
    requires Consistent(s) && slot < |s.vTried| && s.vTried[slot] != EMPTY && s.vTried[slot] in s.info
    ensures s.info[s.vTried[slot]].inTried
  {
    hide Indexed, Listed, NewTable, RefCounts, IdsInRange, TriedIds, NewIds, Refs;
  }

  lemma ConsistentFrame(s: State, collisions: set<int>)
    requires Consistent(s)
    ensures Consistent(s.(collisions := collisions))
  {
    hide Indexed, Listed, TriedTable, NewTable, RefCounts, IdsInRange, TriedIds, NewIds, Refs;
  }

  lemma GetAddrEvolves(s: State, draws: nat -> nat, now: int)
    requires Consistent(s)
    ensures var t := GetAddr(s, draws, now).s;
            Consistent(t) && Evolves(s, t) && t.collisions == s.collisions && (TimesOk(s) ==> TimesOk(t))
  {
    hide Inv, GetAddr, IsTerrible;
    GetAddrSound(s, draws, now);
  }

  lemma AddLeavesTried(s: State, a: Address, source: NetAddr, timePenalty: int, now: int, rnd: nat)
    requires Consistent(s)
    ensures Add(s, a, source, timePenalty, now, rnd).s.vTried == s.vTried
    ensures Add(s, a, source, timePenalty, now, rnd).s.h == s.h
  {
    hide Indexed, Listed, TriedTable, NewTable, RefCounts, TriedIds, NewIds, Refs, Place, Refused, IsTerrible;
    var penalty := if a.service.net == source then 0 else timePenalty;
    var id := Find(s, a.service.net);
    if s.h.isRoutable(a.service.net) {
      if id != EMPTY {
        var i := Announced(s.info[id], a, penalty, now);
        TouchKeeps(s, id, i, {}, {});
        PlaceEffect(SetInfo(s, id, i), id, source, now);
      } else {
        CreatedKeeps(s, a, source, penalty);
        PlaceEffect(Created(s, a, source, penalty), s.idCount, source, now);
      }
    }
  }
}
