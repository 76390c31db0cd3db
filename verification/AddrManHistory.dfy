/**
 Whole runs of the address manager: every sequence of operations, with any random
 choices, including clearing the manager and reading it back from a file.
 */
module AddrManHistory {
  import opened AddrManState
  import opened AddrManOps
  import opened AddrManRuns
  import opened AddrManSerialize
  import RoundTrips = AddrManRoundTrip
  import opened OrderedSets

  datatype Op =
    | OpAdd(address: Address, source: NetAddr, penalty: int, now: int, rnd: nat)
    | OpGood(service: Service, testBeforeEvict: bool, time: int)
    | OpAttempt(service: Service, countFailure: bool, time: int)
    | OpConnected(service: Service, time: int)
    | OpSetServices(service: Service, services: set<nat>)
    | OpGetAddr(draws: nat -> nat, now: int)
    | OpResolve(now: int)
    | OpSelectCollision(rnd: nat)
    | OpClear(h: Hashes)
    | OpLoad(saved: State)

  /** Files hold what a consistent manager wrote. */
  predicate Ready(op: Op)
  {
    op.OpLoad? ==> Consistent(op.saved)
  }

  /** The state after one operation; the random choices are part of the operation. */
  function Step(s: State, op: Op): State
    requires Consistent(s) && Ready(op)
  {
    match op
    case OpAdd(a, source, penalty, now, rnd) => Add(s, a, source, penalty, now, rnd).s
    case OpGood(svc, test, time) => Good(s, svc, test, time)
    case OpAttempt(svc, count, time) => Attempt(s, svc, count, time)
    case OpConnected(svc, time) => Connected(s, svc, time)
    case OpSetServices(svc, services) => SetServices(s, svc, services)
    case OpGetAddr(draws, now) => GetAddr(s, draws, now).s
    case OpResolve(now) => ResolveFrom(s, s.collisions, now)
    case OpSelectCollision(rnd) => TriedHolder(s, 0); SelectCollision(s, rnd).s
    case OpClear(h) => EmptyState(h, s.collisions)
    case OpLoad(saved) => RoundTrips.RoundTrip(saved, s.collisions); Unserialized(SerializedOf(saved), s.collisions).state
  }

  /** The manager may be cleared or read back only while no collision is pending. */
  predicate Allowed(s: State, op: Op)
  {
    Ready(op) && (op.OpClear? || op.OpLoad? ==> s.collisions == {})
  }

  lemma StatisticsEvolve(s: State, op: Op)
    requires Consistent(s) && (op.OpAttempt? || op.OpConnected? || op.OpSetServices?)
    ensures Consistent(Step(s, op)) && Evolves(s, Step(s, op)) && Step(s, op).collisions == s.collisions
    ensures TimesOk(s) && !op.OpAttempt? ==> TimesOk(Step(s, op))
  {
    hide Inv, U32;
    match op
    case OpAttempt(svc, count, time) => StatisticsKeep(s, svc, count, time, {});
    case OpConnected(svc, time) => StatisticsKeep(s, svc, false, time, {});
    case OpSetServices(svc, services) => StatisticsKeep(s, svc, false, 0, services);
  }

  /** Every operation, with every choice, keeps the manager healthy. */
  lemma StepHealthy(s: State, op: Op)
    requires Healthy(s) && Allowed(s, op)
    ensures Healthy(Step(s, op))
  {
    hide Inv, CollisionsServed, Add, Good, ResolveFrom, SelectCollision, Evolves, GetAddr, Attempt, Connected, SetServices,
         SerializedOf, Unserialized, Whole, TimesOk, RoundTrips.SuccessesOk, RoundTrips.SameUpToIds;
    match op
    case OpAdd(a, source, penalty, now, rnd) =>
      AddKeeps(s, a, source, penalty, now, rnd);
      AddEvolves(s, a, source, penalty, now, rnd);
      ServedEvolves(s, Step(s, op));
    case OpGood(svc, test, time) =>
      GoodKeeps(s, svc, test, time);
      GoodEvolves(s, svc, test, time);
    case OpGetAddr(draws, now) =>
      GetAddrEvolves(s, draws, now);
      ServedEvolves(s, Step(s, op));
    case OpResolve(now) =>
      ResolveFromKeeps(s, s.collisions, now);
      ResolveFromEvolves(s, s.collisions, now);
      ServedEvolves(s, Step(s, op));
    case OpSelectCollision(rnd) =>
      TriedHolder(s, 0);
      SelectServed(s, rnd);
    case OpClear(h) =>
      EmptyHealthy(h);
    case OpLoad(saved) =>
      RoundTrips.RoundTripHealthy(saved);
    case _ =>
      StatisticsEvolve(s, op);
      ServedEvolves(s, Step(s, op));
  }

  // ----- When the recorded times stay in order

  /** The operations after which the recorded times are in order, told by the state before. */
  predicate Timely(s: State, op: Op)
    requires Consistent(s)
  {
    match op
    case OpGood(svc, test, time) => TriedHolder(s, 0); GoodTimely(s, svc, test, time)
    case OpAttempt(svc, _, time) => AttemptTimely(s, svc, time)
    case OpLoad(saved) => RoundTrips.SuccessesOk(saved)
    case _ => true
  }

  lemma StepTimes(s: State, op: Op)
    requires Healthy(s) && Allowed(s, op) && TimesOk(s)
    ensures TimesOk(Step(s, op)) <==> Timely(s, op)
  {
    hide Inv, CollisionsServed, Add, Good, ResolveFrom, SelectCollision, Evolves, TimesOk, GetAddr, Attempt, Connected, SetServices,
         GoodTimely, AttemptTimely, SerializedOf, Unserialized, Whole, RoundTrips.SuccessesOk, RoundTrips.SameUpToIds;
    match op
    case OpAdd(a, source, penalty, now, rnd) => AddEvolves(s, a, source, penalty, now, rnd);
    case OpGood(svc, test, time) =>
      TriedHolder(s, 0);
      GoodTimes(s, svc, test, time);
    case OpAttempt(svc, count, time) => AttemptTimes(s, svc, count, time);
    case OpGetAddr(draws, now) => GetAddrEvolves(s, draws, now);
    case OpResolve(now) =>
      HealthyServed(s);
      ResolveTimes(s, now);
    case OpSelectCollision(rnd) =>
      TriedHolder(s, 0);
      SelectServed(s, rnd);
      TimesFrame(s, SelectCollision(s, rnd).s);
    case OpClear(h) => EmptyHealthy(h);
    case OpLoad(saved) => RoundTrips.RoundTripHealthy(saved);
    case _ => StatisticsEvolve(s, op);
  }

  lemma HealthyServed(s: State)
    requires Healthy(s)
    ensures Served(s)
  {
  }

  // ----- Runs

  /** The runs in which the manager is never cleared or read back under a pending collision. */
  predicate Legal(s: State, ops: seq<Op>)
    requires Healthy(s)
    decreases |ops|
  {
    ops == [] ||
    (Allowed(s, ops[0]) && (StepHealthy(s, ops[0]); Legal(Step(s, ops[0]), ops[1..])))
  }

  function Run(s: State, ops: seq<Op>): State
    requires Healthy(s) && Legal(s, ops)
    decreases |ops|
  {
    if ops == [] then s
    else
      StepHealthy(s, ops[0]);
      Run(Step(s, ops[0]), ops[1..])
  }

  predicate TimelyRun(s: State, ops: seq<Op>)
    requires Healthy(s) && Legal(s, ops)
    decreases |ops|
  {
    ops == [] ||
    (Timely(s, ops[0]) && (StepHealthy(s, ops[0]); TimelyRun(Step(s, ops[0]), ops[1..])))
  }

  /** Every legal run stays healthy, and it keeps the times in order if each operation does. */
  lemma {:induction false} RunHealthy(s: State, ops: seq<Op>)
    requires Healthy(s) && Legal(s, ops)
    ensures Healthy(Run(s, ops))
    ensures TimesOk(s) && TimelyRun(s, ops) ==> TimesOk(Run(s, ops))
    decreases |ops|
  {
    hide Inv, CollisionsServed, TimesOk, Step, Timely;
    if ops != [] {
      StepHealthy(s, ops[0]);
      RunHealthy(Step(s, ops[0]), ops[1..]);
      if TimesOk(s) {
        StepTimes(s, ops[0]);
      }
    }
  }

  // ----- Clearing under a pending collision

  /** t is reached from s by allowed operations. */
  ghost predicate Reaches(s: State, ops: seq<Op>, t: State)
    decreases |ops|
  {
    if ops == [] then t == s
    else Consistent(s) && Allowed(s, ops[0]) && Reaches(Step(s, ops[0]), ops[1..], t)
  }

  lemma {:induction false} ReachesHealthy(s: State, ops: seq<Op>, t: State)
    requires Healthy(s) && Reaches(s, ops, t)
    ensures Healthy(t)
    decreases |ops|
  {
    hide Inv, CollisionsServed, Step;
    if ops != [] {
      StepHealthy(s, ops[0]);
      ReachesHealthy(Step(s, ops[0]), ops[1..], t);
    }
  }

  lemma ReachesFirst(s: State, op: Op, ops: seq<Op>, t: State)
    requires Consistent(s) && Allowed(s, op) && Reaches(Step(s, op), ops, t)
    ensures Reaches(s, [op] + ops, t)
  {
    hide Inv, Step;
    assert ([op] + ops)[1..] == ops;
  }

  /** Different addresses that a manager accepts. */
  predicate Acceptable(h: Hashes, supply: seq<Service>)
  {
    && (forall i :: 0 <= i < |supply| ==> h.isRoutable(supply[i].net))
    && (forall i, j :: 0 <= i < j < |supply| ==> supply[i].net != supply[j].net)
  }

  function AddFresh(svc: Service): Op
  {
    OpAdd(Address(svc, 0, {}), svc.net, 0, 0, 0)
  }

  /** Only the first addresses of the supply are known, all without a time, and none is tried. */
  predicate Filling(s: State, supply: seq<Service>)
  {
    && Consistent(s) && 0 <= s.idCount <= |supply| && Acceptable(s.h, supply)
    && (forall n :: n in s.info ==>
          && s.info[n].time == 0 && s.info[n].lastTry == 0
          && exists i :: 0 <= i < s.idCount && s.info[n].service == supply[i])
  }

  lemma UnknownFresh(s: State, supply: seq<Service>)
    requires Filling(s, supply) && s.idCount < |supply|
    ensures Find(s, supply[s.idCount].net) == EMPTY
  {
    hide Listed, TriedTable, NewTable, RefCounts, IdsInRange, TriedIds, NewIds, Refs;
    var id := Find(s, supply[s.idCount].net);
    if id != EMPTY {
      assert false;
    }
  }

  /** Adding the next address stores it under the next id, whatever is in its slot. */
  lemma FillStep(s: State, supply: seq<Service>)
    requires Filling(s, supply) && s.idCount < |supply|
    ensures var t := Step(s, AddFresh(supply[s.idCount]));
            && Filling(t, supply) && t.idCount == s.idCount + 1 && s.idCount in t.info
            && t.info[s.idCount].service == supply[s.idCount] && !t.info[s.idCount].inTried
            && t.vTried == s.vTried && t.h == s.h && t.collisions == s.collisions
  {
    hide Inv, Add;
    var svc := supply[s.idCount];
    var a := Address(svc, 0, {});
    UnknownFresh(s, supply);
    AddKeeps(s, a, svc.net, 0, 0, 0);
    AddUnknown(s, a, svc.net, 0, 0, 0);
    AddedPlainly(s, a, svc.net);
    var t := Add(s, a, svc.net, 0, 0, 0).s;
    forall n | n in t.info
      ensures t.info[n].time == 0 && t.info[n].lastTry == 0
      ensures exists i :: 0 <= i < t.idCount && t.info[n].service == supply[i]
    {
      if n == s.idCount {
        assert t.info[n].service == supply[s.idCount];
      } else {
        assert n in s.info && t.info[n].service == s.info[n].service;
        var i :| 0 <= i < s.idCount && s.info[n].service == supply[i];
        assert t.info[n].service == supply[i];
      }
    }
  }

  /** An unknown address without a time is created so, and all others keep their times and services. */
  lemma AddedPlainly(s: State, a: Address, source: NetAddr)
    requires Consistent(s) && s.h.isRoutable(a.service.net) && Find(s, a.service.net) == EMPTY && a.time == 0
    ensures var t := Add(s, a, source, 0, 0, 0).s;
            && t == s.(info := t.info, addrs := t.addrs, random := t.random, nNew := t.nNew, vNew := t.vNew, idCount := s.idCount + 1)
            && (s.idCount in t.info ==> t.info[s.idCount].time == 0 && t.info[s.idCount].lastTry == 0)
            && (forall n :: n in t.info && n != s.idCount ==>
                  n in s.info && t.info[n].time == s.info[n].time && t.info[n].lastTry == s.info[n].lastTry
                  && t.info[n].service == s.info[n].service)
  {
    hide Indexed, Listed, TriedTable, NewTable, RefCounts, TriedIds, NewIds, Refs, IdsInRange, Place, IsTerrible;
    CreatedKeeps(s, a, source, 0);
    var c := Created(s, a, source, 0);
    PlaceEffect(c, s.idCount, source, 0);
    NoEmptyId(c.info, c.idCount);
  }

  /** Adding addresses one after the other gives out every id up to n, the last of them live. */
  lemma {:induction false} FillUpTo(s: State, supply: seq<Service>, n: nat) returns (ops: seq<Op>, t: State)
    requires Filling(s, supply) && s.idCount <= n < |supply|
    ensures Reaches(s, ops, t) && Consistent(t) && n in t.info
    ensures t.vTried == s.vTried && t.h == s.h && t.collisions == s.collisions
    decreases n - s.idCount
  {
    hide Inv, Step, Acceptable;
    var op := AddFresh(supply[s.idCount]);
    FillStep(s, supply);
    var u := Step(s, op);
    if s.idCount == n {
      ops, t := [], u;
    } else {
      ops, t := FillUpTo(u, supply, n);
    }
    ReachesFirst(s, op, ops, t);
    ops := [op] + ops;
  }

  lemma EmptyFilling(h: Hashes, collisions: set<int>, supply: seq<Service>)
    requires Acceptable(h, supply)
    ensures Filling(EmptyState(h, collisions), supply)
  {
    hide Inv;
    EmptyHealthy(h);
    ConsistentFrame(EmptyState(h, {}), collisions);
  }

  /**
   Clearing keeps pending collisions while ids start again.  Left with a collision,
   the manager comes to an id that waits for a tried slot nobody occupies, and then
   selecting it returns no entry and leaves a record that breaks the invariant.
   */
  lemma ClearStrandsCollision(s: State, h: Hashes, supply: seq<Service>, n: int) returns (ops: seq<Op>, t: State, rnd: nat)
    requires Healthy(s) && n in s.collisions && Acceptable(h, supply) && |supply| >= s.idCount
    ensures Reaches(EmptyState(h, s.collisions), ops, t) && Consistent(t)
    ensures n in t.collisions && n in t.info && !Served(t)
    ensures |t.vTried| == TRIED_SLOTS && SelectCollision(t, rnd).entry == NoInfo && !Consistent(SelectCollision(t, rnd).s)
  {
    hide Inv, Reaches, Nth, Acceptable;
    var e := EmptyState(h, s.collisions);
    EmptyFilling(h, s.collisions, supply);
    ops, t := FillUpTo(e, supply, n);
    rnd := NthFinds(t.collisions, n);
    NoNullRecord(t);
    NoNullRecord(SelectCollision(t, rnd).s);
  }

  lemma NoNullRecord(s: State)
    ensures Consistent(s) ==> EMPTY !in s.info
  {
    if Consistent(s) {
      NoEmptyId(s.info, s.idCount);
    }
  }

  /** Clearing is safe for everything that may follow exactly when no collision is pending. */
  lemma ClearSafe(s: State, h: Hashes, supply: seq<Service>)
    requires Healthy(s) && Acceptable(h, supply) && |supply| >= s.idCount
    ensures s.collisions == {} <==> forall ops, t :: Reaches(EmptyState(h, s.collisions), ops, t) ==> Served(t)
  {
    hide Inv, Acceptable;
    if s.collisions == {} {
      EmptyHealthy(h);
      forall ops, t | Reaches(EmptyState(h, s.collisions), ops, t) ensures Served(t) {
        ReachesHealthy(EmptyState(h, s.collisions), ops, t);
      }
    } else {
      Inhabited(s.collisions);
      var n :| n in s.collisions;
      var ops, t, rnd := ClearStrandsCollision(s, h, supply, n);
    }
  }

  /** Pending collisions do arise: two addresses of one tried slot, each added and marked good. */
  lemma PendingReached(h: Hashes, a: Service, b: Service) returns (ops: seq<Op>, t: State)
    requires Acceptable(h, [a, b]) && TriedSlot(h, a) == TriedSlot(h, b)
    ensures Reaches(EmptyState(h, {}), ops, t) && Healthy(t) && t.collisions == {1} && 1 in t.info && t.info[1].service == b
  {
    hide Inv, Step, Reaches, Acceptable;
    var supply := [a, b];
    BothAcceptable(h, a, b);
    var e := EmptyState(h, {});
    EmptyFilling(h, {}, supply);
    EmptyHealthy(h);
    FillStep(e, supply);
    var s1 := Step(e, AddFresh(a));
    FirstGood(s1, a);
    var s2 := Step(s1, OpGood(a, true, 1));
    SecondAdded(s2, b);
    var s3 := Step(s2, AddFresh(b));
    SecondGood(s3, b);
    t := Step(s3, OpGood(b, true, 1));
    FourSteps(e, AddFresh(a), OpGood(a, true, 1), AddFresh(b), OpGood(b, true, 1), t);
    ops := [AddFresh(a), OpGood(a, true, 1), AddFresh(b), OpGood(b, true, 1)];
    ReachesHealthy(e, ops, t);
  }

  lemma BothAcceptable(h: Hashes, a: Service, b: Service)
    requires Acceptable(h, [a, b])
    ensures h.isRoutable(a.net) && h.isRoutable(b.net) && a.net != b.net
  {
    var supply := [a, b];
    assert supply[0] == a && supply[1] == b;
  }

  lemma FirstGood(s: State, a: Service)
    requires Consistent(s) && s.idCount == 1 && 0 in s.info && s.info[0].service == a && !s.info[0].inTried
    requires |s.vTried| == TRIED_SLOTS && s.vTried[TriedSlot(s.h, a)] == EMPTY
    ensures var t := Step(s, OpGood(a, true, 1));
            && Consistent(t) && t.idCount == 1 && t.h == s.h && t.collisions == s.collisions
            && t.info.Keys == {0} && t.info[0].inTried && t.info[0].service == a
            && |t.vTried| == TRIED_SLOTS && t.vTried[TriedSlot(s.h, a)] == 0
  {
    hide Listed, TriedTable, NewTable, RefCounts, TriedIds, NewIds, Refs, MakeTried, Without;
    GoodKeeps(s, a, true, 1);
    var i := Succeeded(s.info[0], 1);
    var u := SetInfo(s.(lastGood := 1), 0, i);
    assert Find(s.(lastGood := 1), a.net) == 0;
    TouchKeeps(s.(lastGood := 1), 0, i, {}, {});
    MakeTriedEffect(u, 0);
    assert u.info.Keys == s.info.Keys;
    assert forall n :: n in s.info ==> n == 0;
    assert s.info.Keys == {0};
  }

  lemma SecondAdded(s: State, b: Service)
    requires Consistent(s) && s.idCount == 1 && s.info.Keys == {0} && s.info[0].inTried && s.info[0].service.net != b.net
    requires s.h.isRoutable(b.net)
    ensures var t := Step(s, AddFresh(b));
            && Consistent(t) && t.h == s.h && t.collisions == s.collisions && t.vTried == s.vTried
            && 1 in t.info && !t.info[1].inTried && t.info[1].service == b
  {
    hide Listed, TriedTable, RefCounts, TriedIds, NewIds, Refs, Add;
    var address := Address(b, 0, {});
    assert Find(s, b.net) == EMPTY;
    AddKeeps(s, address, b.net, 0, 0, 0);
    AddUnknown(s, address, b.net, 0, 0, 0);
    AddEvolves(s, address, b.net, 0, 0, 0);
    AddLeavesTried(s, address, b.net, 0, 0, 0);
  }

  lemma SecondGood(s: State, b: Service)
    requires Consistent(s) && 1 in s.info && s.info[1].service == b && !s.info[1].inTried && s.collisions == {}
    requires |s.vTried| == TRIED_SLOTS && s.vTried[TriedSlot(s.h, b)] != EMPTY
    ensures var t := Step(s, OpGood(b, true, 1)); t.collisions == {1} && 1 in t.info && t.info[1].service == b
  {
    hide Listed, TriedTable, NewTable, RefCounts, TriedIds, NewIds, Refs;
    assert Find(s.(lastGood := 1), b.net) == 1;
    assert {} + {1} == {1};
  }

  lemma FourSteps(s: State, op1: Op, op2: Op, op3: Op, op4: Op, t: State)
    requires Consistent(s) && Allowed(s, op1) && Consistent(Step(s, op1)) && Allowed(Step(s, op1), op2)
    requires var s2 := Step(Step(s, op1), op2);
             && Consistent(s2) && Allowed(s2, op3) && Consistent(Step(s2, op3)) && Allowed(Step(s2, op3), op4)
             && t == Step(Step(s2, op3), op4)
    ensures Reaches(s, [op1, op2, op3, op4], t)
  {
    hide Inv, Step;
    var s1 := Step(s, op1);
    var s2 := Step(s1, op2);
    var s3 := Step(s2, op3);
    assert Reaches(t, [], t);
    ReachesFirst(s3, op4, [], t);
    ReachesFirst(s2, op3, [op4], t);
    ReachesFirst(s1, op2, [op3, op4], t);
    ReachesFirst(s, op1, [op2, op3, op4], t);
    assert [op4] + [] == [op4] && [op3] + [op4] == [op3, op4] && [op2] + [op3, op4] == [op2, op3, op4];
    assert [op1] + [op2, op3, op4] == [op1, op2, op3, op4];
  }
}
