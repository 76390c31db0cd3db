/**
 The script check queue: one master and any number of workers that share a queue
 of checks under one mutex.  Each critical section and each execution of a batch
 is one atomic step; wakeups may be spurious.
 */
module CheckQueue {

  type Tid = nat

  const MASTER: Tid := 0

  /** A check and the verdict it gives when it runs. */
  datatype Check = Check(id: nat, ok: bool)

  datatype Thread =
    | Outside
    | Entering
    | Blocked(notified: bool)
    | Executing(batch: seq<Check>, fOk: bool)
    | Executed(batch: seq<Check>, fOk: bool)

  /**
   The shared fields and the threads, with three histories of the session since
   the master last returned: the checks added, those executed, and those whose
   batch was reported back.
   */
  datatype State = State(queue: seq<Check>, nIdle: int, nTotal: int, fAllOk: bool, nTodo: int, batchSize: nat,
                         threads: map<Tid, Thread>,
                         added: multiset<Check>, ran: multiset<Check>, reported: multiset<Check>)

  datatype Step =
    | Join(t: Tid)
    | Lock(t: Tid)
    | Wake(t: Tid)
    | Execute(t: Tid)
    | Add(checks: seq<Check>, woken: Tid)

  function Init(batchSize: nat): State
  {
    State([], 0, 0, true, 0, batchSize, map[MASTER := Outside], multiset{}, multiset{}, multiset{})
  }

  // ----- Steps

  function Reverse(s: seq<Check>): (r: seq<Check>)
    ensures multiset(r) == multiset(s) && |r| == |s|
  {
    if s == [] then []
    else
      assert s == [s[0]] + s[1..];
      Reverse(s[1..]) + [s[0]]
  }

  /** How many checks a thread takes: a share of the queue, at least one, at most a batch. */
  function Share(batchSize: nat, queued: nat, nTotal: int, nIdle: int): (n: nat)
    requires queued > 0 && nTotal + nIdle + 1 > 0
    ensures 1 <= n <= queued
  {
    var part := queued / (nTotal + nIdle + 1);
    DivideBound(queued, nTotal + nIdle + 1);
    var n := if batchSize < part then batchSize else part;
    if n < 1 then 1 else n
  }

  lemma DivideBound(a: nat, b: int)
    requires b > 0
    ensures 0 <= a / b <= a
  {
    MulNonNegative(a / b, b - 1);
  }

  lemma MulNonNegative(x: int, y: int)
    requires x >= 0 && y >= 0
    ensures x * y >= 0
  {
  }

  /** Execute a batch: once a check fails, the rest are skipped. */
  function RunBatch(batch: seq<Check>, fOk: bool): bool
  {
    if batch == [] then fOk else RunBatch(batch[1..], fOk && batch[0].ok)
  }

  function Executes(batch: seq<Check>, fOk: bool): multiset<Check>
  {
    if batch == [] || !fOk then multiset{}
    else multiset{batch[0]} + Executes(batch[1..], batch[0].ok)
  }

  /** Wake the master if it is blocked. */
  function NotifyMaster(threads: map<Tid, Thread>): map<Tid, Thread>
  {
    if MASTER in threads && threads[MASTER].Blocked? then threads[MASTER := Blocked(true)] else threads
  }

  /** Wake one blocked worker, or all of them. */
  function NotifyWorkers(threads: map<Tid, Thread>, n: nat, woken: Tid): map<Tid, Thread>
  {
    map t | t in threads ::
      if t != MASTER && threads[t].Blocked? && (n > 1 || (n == 1 && t == woken)) then Blocked(true) else threads[t]
  }

  /** The clean-up at the start of a critical section. */
  function Report(s: State, t: Tid): State
    requires t in s.threads
  {
    match s.threads[t]
    case Executed(batch, fOk) =>
      var todo := s.nTodo - |batch|;
      s.(fAllOk := s.fAllOk && fOk,
         nTodo := todo,
         reported := s.reported + multiset(batch),
         threads := (if todo == 0 && t != MASTER then NotifyMaster(s.threads) else s.threads)[t := Entering])
    case _ => s.(nTotal := s.nTotal + 1)
  }

  predicate Returns(s: State, t: Tid)
  {
    s.queue == [] && t == MASTER && s.nTodo == 0
  }

  /** The rest of the critical section: return, block, or take a batch. */
  function Proceed(s: State, t: Tid): State
    requires t in s.threads && (s.queue != [] ==> s.nTotal + s.nIdle + 1 > 0)
  {
    if s.queue == [] then
      if Returns(s, t) then
        s.(nTotal := s.nTotal - 1, fAllOk := true, threads := s.threads[t := Outside],
           added := multiset{}, ran := multiset{}, reported := multiset{})
      else s.(nIdle := s.nIdle + 1, threads := s.threads[t := Blocked(false)])
    else
      var n := Share(s.batchSize, |s.queue|, s.nTotal, s.nIdle);
      var rest := |s.queue| - n;
      s.(queue := s.queue[..rest], threads := s.threads[t := Executing(Reverse(s.queue[rest..]), s.fAllOk)])
  }

  /** A worker that is blocked and was not woken. */
  predicate Asleep(threads: map<Tid, Thread>, t: Tid)
  {
    t in threads && t != MASTER && threads[t] == Blocked(false)
  }

  /** Notifying one worker wakes one that is asleep, if any is; which one is not said. */
  predicate Enabled(s: State, step: Step)
  {
    match step
    case Join(t) => t !in s.threads || s.threads[t].Outside?
    case Lock(t) => t in s.threads && (s.threads[t].Entering? || s.threads[t].Executed?)
    case Wake(t) => t in s.threads && s.threads[t].Blocked?
    case Execute(t) => t in s.threads && s.threads[t].Executing?
    case Add(checks, woken) =>
      && MASTER in s.threads && s.threads[MASTER].Outside?
      && (|checks| == 1 && (exists t :: t in s.threads && Asleep(s.threads, t)) ==> Asleep(s.threads, woken))
  }

  /** The state of a thread's critical section just before it returns, blocks or takes a batch. */
  function Locked(s: State, step: Step): State
    requires Enabled(s, step) && (step.Lock? || step.Wake?)
  {
    if step.Lock? then Report(s, step.t) else s.(nIdle := s.nIdle - 1)
  }

  function Next(s: State, step: Step): State
    requires Enabled(s, step)
    requires step.Lock? || step.Wake? ==> Locked(s, step).nTotal + Locked(s, step).nIdle + 1 > 0
  {
    match step
    case Join(t) => s.(threads := s.threads[t := Entering])
    case Lock(t) => Proceed(Locked(s, step), t)
    case Wake(t) => Proceed(Locked(s, step), t)
    case Execute(t) =>
      var b := s.threads[t];
      s.(threads := s.threads[t := Executed(b.batch, RunBatch(b.batch, b.fOk))], ran := s.ran + Executes(b.batch, b.fOk))
    case Add(checks, woken) =>
      s.(queue := s.queue + checks, nTodo := s.nTodo + |checks|, added := s.added + multiset(checks),
         threads := NotifyWorkers(s.threads, |checks|, woken))
  }

  // ----- What threads hold

  function Batch(t: Thread): seq<Check>
  {
    if t.Executing? || t.Executed? then t.batch else []
  }

  function RunPart(t: Thread): seq<Check>
  {
    if t.Executed? then t.batch else []
  }

  ghost function Gather(m: map<Tid, seq<Check>>): multiset<Check>
    decreases m.Keys
  {
    if m.Keys == {} then multiset{}
    else
      Inhabited(m.Keys);
      var t :| t in m.Keys;
      multiset(m[t]) + Gather(m - {t})
  }

  lemma Inhabited(s: set<Tid>)
    requires s != {}
    ensures exists t :: t in s
  {
    if !(exists t :: t in s) {
      assert false;
    }
  }

  lemma {:induction false} GatherSplit(m: map<Tid, seq<Check>>, t: Tid)
    requires t in m
    ensures Gather(m) == multiset(m[t]) + Gather(m - {t})
    decreases m.Keys
  {
    Inhabited(m.Keys);
    var u :| u in m.Keys && Gather(m) == multiset(m[u]) + Gather(m - {u});
    if u != t {
      GatherSplit(m - {u}, t);
      GatherSplit(m - {t}, u);
      assert m - {u} - {t} == m - {t} - {u};
    }
  }

  function Batches(threads: map<Tid, Thread>): map<Tid, seq<Check>>
  {
    map t | t in threads :: Batch(threads[t])
  }

  function RunParts(threads: map<Tid, Thread>): map<Tid, seq<Check>>
  {
    map t | t in threads :: RunPart(threads[t])
  }

  /** All checks in batches, and those of them in executed batches. */
  ghost function Held(threads: map<Tid, Thread>): multiset<Check> { Gather(Batches(threads)) }

  ghost function HeldRun(threads: map<Tid, Thread>): multiset<Check> { Gather(RunParts(threads)) }

  /** Replacing one thread changes what is held by its batch. */
  lemma HeldUpdate(threads: map<Tid, Thread>, t: Tid, x: Thread)
    requires t in threads
    ensures Held(threads[t := x]) == Held(threads) - multiset(Batch(threads[t])) + multiset(Batch(x))
    ensures multiset(Batch(threads[t])) <= Held(threads)
    ensures |Held(threads[t := x])| == |Held(threads)| - |Batch(threads[t])| + |Batch(x)|
    ensures HeldRun(threads[t := x]) == HeldRun(threads) - multiset(RunPart(threads[t])) + multiset(RunPart(x))
    ensures multiset(RunPart(threads[t])) <= HeldRun(threads)
  {
    hide Gather;
    GatherUpdate(Batches(threads), Batches(threads[t := x]), t);
    GatherUpdate(RunParts(threads), RunParts(threads[t := x]), t);
  }

  lemma GatherUpdate(m: map<Tid, seq<Check>>, u: map<Tid, seq<Check>>, t: Tid)
    requires t in m && m.Keys == u.Keys && forall k :: k in m && k != t ==> m[k] == u[k]
    ensures Gather(u) == Gather(m) - multiset(m[t]) + multiset(u[t]) && multiset(m[t]) <= Gather(m)
    ensures |Gather(u)| == |Gather(m)| - |m[t]| + |u[t]|
  {
    hide Gather;
    GatherSplit(m, t);
    GatherSplit(u, t);
    assert m - {t} == u - {t};
  }

  lemma HeldNew(threads: map<Tid, Thread>, t: Tid, x: Thread)
    requires t !in threads && Batch(x) == []
    ensures Held(threads[t := x]) == Held(threads) && HeldRun(threads[t := x]) == HeldRun(threads)
  {
    hide Gather;
    var u := threads[t := x];
    GatherSplit(Batches(u), t);
    assert Batches(u) - {t} == Batches(threads);
    GatherSplit(RunParts(u), t);
    assert RunParts(u) - {t} == RunParts(threads);
  }

  /** What is held depends only on the batches. */
  lemma HeldFrame(a: map<Tid, Thread>, b: map<Tid, Thread>)
    requires a.Keys == b.Keys
    requires forall t :: t in a ==> Batch(a[t]) == Batch(b[t]) && RunPart(a[t]) == RunPart(b[t])
    ensures Held(a) == Held(b) && HeldRun(a) == HeldRun(b)
  {
    assert Batches(a) == Batches(b);
    assert RunParts(a) == RunParts(b);
  }

  // ----- The invariant

  function BlockedSet(threads: map<Tid, Thread>): set<Tid> { set t | t in threads && threads[t].Blocked? }

  function InsideSet(threads: map<Tid, Thread>): set<Tid>
  {
    set t | t in threads && (threads[t].Blocked? || threads[t].Executing? || threads[t].Executed?)
  }

  predicate AllGood(ran: multiset<Check>) { forall c :: c in ran ==> c.ok }

  predicate SomeBad(threads: map<Tid, Thread>) { exists t :: t in threads && threads[t].Executed? && !threads[t].fOk }

  /** Every check is queued, held in a batch, or reported; nTodo counts the unreported ones. */
  ghost predicate Conserved(s: State)
  {
    && s.added == multiset(s.queue) + Held(s.threads) + s.reported
    && s.nTodo == |s.queue| + |Held(s.threads)|
    && s.ran <= s.reported + HeldRun(s.threads)
  }

  predicate Counted(s: State)
  {
    s.nIdle == |BlockedSet(s.threads)| && s.nTotal == |InsideSet(s.threads)|
  }

  /** As long as no check failed, every verdict so far is good and nothing was skipped. */
  ghost predicate Honest(s: State)
  {
    && (AllGood(s.ran) ==> s.fAllOk && s.ran == s.reported + HeldRun(s.threads) && AllGoodSoFar(s.threads))
    && (!AllGood(s.ran) ==> !s.fAllOk || SomeBad(s.threads))
  }

  predicate AllGoodSoFar(threads: map<Tid, Thread>)
  {
    forall t :: t in threads && (threads[t].Executing? || threads[t].Executed?) ==> threads[t].fOk
  }

  /** A master blocked without a pending wakeup has an empty queue and work outstanding. */
  predicate Awaited(s: State)
  {
    && MASTER in s.threads
    && (s.threads[MASTER] == Blocked(false) ==> s.queue == [] && s.nTodo > 0)
  }

  predicate NonEmptyBatches(threads: map<Tid, Thread>)
  {
    forall t :: t in threads && (threads[t].Executing? || threads[t].Executed?) ==> threads[t].batch != []
  }

  ghost predicate Inv(s: State)
  {
    Conserved(s) && Counted(s) && Honest(s) && Awaited(s) && NonEmptyBatches(s.threads)
  }

  lemma InitInv(batchSize: nat)
    ensures Inv(Init(batchSize))
  {
    var s := Init(batchSize);
    HeldNew(map[], MASTER, Outside);
    assert map[][MASTER := Outside] == s.threads;
    assert Held(map[]) == multiset{} && HeldRun(map[]) == multiset{};
    assert BlockedSet(s.threads) == {} && InsideSet(s.threads) == {};
  }

  // ----- Preservation, step by step

  /** Which sets a thread belongs to after it is replaced. */
  lemma CountUpdate(threads: map<Tid, Thread>, t: Tid, x: Thread)
    ensures BlockedSet(threads[t := x]) == if x.Blocked? then BlockedSet(threads) + {t} else BlockedSet(threads) - {t}
    ensures InsideSet(threads[t := x]) ==
            if x.Blocked? || x.Executing? || x.Executed? then InsideSet(threads) + {t} else InsideSet(threads) - {t}
  {
  }

  lemma {:induction false} RunBatchGood(batch: seq<Check>, fOk: bool)
    ensures Executes(batch, fOk) <= multiset(batch)
    ensures fOk ==> (RunBatch(batch, fOk) <==> AllGood(multiset(batch)))
    ensures fOk && RunBatch(batch, fOk) ==> Executes(batch, fOk) == multiset(batch)
    ensures fOk && !RunBatch(batch, fOk) ==> !AllGood(Executes(batch, fOk))
    ensures !fOk ==> !RunBatch(batch, fOk) && Executes(batch, fOk) == multiset{}
  {
    if batch != [] {
      assert batch == [batch[0]] + batch[1..];
      RunBatchGood(batch[1..], fOk && batch[0].ok);
      RunBatchGood(batch[1..], batch[0].ok);
      if fOk && !batch[0].ok {
        assert batch[0] in Executes(batch, fOk);
      } else if fOk && !RunBatch(batch, fOk) {
        var c :| c in Executes(batch[1..], true) && !c.ok;
        assert c in Executes(batch, fOk);
      }
    }
  }

  lemma StatusUpdate(threads: map<Tid, Thread>, t: Tid, x: Thread)
    ensures SomeBad(threads) && !(t in threads && threads[t].Executed? && !threads[t].fOk) ==> SomeBad(threads[t := x])
    ensures x.Executed? && !x.fOk ==> SomeBad(threads[t := x])
    ensures AllGoodSoFar(threads) && (x.Executing? || x.Executed? ==> x.fOk) ==> AllGoodSoFar(threads[t := x])
    ensures NonEmptyBatches(threads) && (x.Executing? || x.Executed? ==> x.batch != []) ==> NonEmptyBatches(threads[t := x])
  {
    if SomeBad(threads) {
      var u :| u in threads && threads[u].Executed? && !threads[u].fOk;
      assert u != t ==> threads[t := x][u] == threads[u];
    }
    if x.Executed? && !x.fOk {
      assert threads[t := x][t] == x;
    }
  }

  lemma JoinKeeps(s: State, t: Tid)
    requires Inv(s) && Enabled(s, Join(t))
    ensures Inv(Next(s, Join(t)))
  {
    hide Held, HeldRun, SomeBad, AllGoodSoFar, NonEmptyBatches, BlockedSet, InsideSet, AllGood;
    JoinHeld(s.threads, t);
    NotInside(s.threads, t);
    CountUpdate(s.threads, t, Entering);
    StatusUpdate(s.threads, t, Entering);
  }

  lemma JoinHeld(threads: map<Tid, Thread>, t: Tid)
    requires t in threads ==> threads[t].Outside?
    ensures Held(threads[t := Entering]) == Held(threads) && HeldRun(threads[t := Entering]) == HeldRun(threads)
  {
    hide Held, HeldRun;
    if t in threads {
      HeldUpdate(threads, t, Entering);
      Restore(Held(threads), multiset([]));
      Restore(HeldRun(threads), multiset([]));
    } else {
      HeldNew(threads, t, Entering);
    }
  }

  lemma NotInside(threads: map<Tid, Thread>, t: Tid)
    requires t in threads ==> threads[t].Outside? || threads[t].Entering?
    ensures BlockedSet(threads) - {t} == BlockedSet(threads) && InsideSet(threads) - {t} == InsideSet(threads)
    ensures t !in InsideSet(threads)
  {
  }

  lemma ExecuteKeeps(s: State, t: Tid)
    requires Inv(s) && Enabled(s, Execute(t))
    ensures Inv(Next(s, Execute(t)))
  {
    hide Conserved, Honest, RunBatch, Executes, NonEmptyBatches;
    var n := Next(s, Execute(t));
    ExecuteConserved(s, t);
    ExecuteHonest(s, t);
    CountUpdate(s.threads, t, n.threads[t]);
    assert BlockedSet(n.threads) == BlockedSet(s.threads) && InsideSet(n.threads) == InsideSet(s.threads);
    BatchNonEmpty(s.threads, t);
    StatusUpdate(s.threads, t, n.threads[t]);
  }

  lemma ExecuteConserved(s: State, t: Tid)
    requires Conserved(s) && Enabled(s, Execute(t))
    ensures Conserved(Next(s, Execute(t)))
  {
    hide Held, HeldRun, RunBatch, Executes;
    var b := s.threads[t];
    HeldUpdate(s.threads, t, Executed(b.batch, RunBatch(b.batch, b.fOk)));
    RunBatchGood(b.batch, b.fOk);
    Restore(Held(s.threads), multiset(b.batch));
  }

  lemma Restore(h: multiset<Check>, b: multiset<Check>)
    requires b <= h
    ensures h - b + b == h
  {
  }

  lemma BatchNonEmpty(threads: map<Tid, Thread>, t: Tid)
    requires NonEmptyBatches(threads) && t in threads && (threads[t].Executing? || threads[t].Executed?)
    ensures threads[t].batch != []
  {
  }

  lemma ExecuteHonest(s: State, t: Tid)
    requires Honest(s) && Enabled(s, Execute(t))
    ensures Honest(Next(s, Execute(t)))
  {
    hide Held, HeldRun, RunBatch, Executes, SomeBad;
    var b := s.threads[t];
    var n := Next(s, Execute(t));
    HeldUpdate(s.threads, t, n.threads[t]);
    RunBatchGood(b.batch, b.fOk);
    StatusUpdate(s.threads, t, n.threads[t]);
    if AllGood(n.ran) {
      assert AllGood(s.ran);
      assert AllGood(Executes(b.batch, b.fOk));
      assert n.ran == n.reported + HeldRun(n.threads);
    } else if AllGood(s.ran) {
      assert !AllGood(Executes(b.batch, b.fOk));
    }
  }

  lemma NotifyFrame(s: State, threads: map<Tid, Thread>)
    requires threads.Keys == s.threads.Keys
    requires forall t :: t in threads ==> threads[t] == s.threads[t] || (s.threads[t].Blocked? && threads[t].Blocked?)
    ensures Held(threads) == Held(s.threads) && HeldRun(threads) == HeldRun(s.threads)
    ensures BlockedSet(threads) == BlockedSet(s.threads) && InsideSet(threads) == InsideSet(s.threads)
    ensures AllGoodSoFar(threads) == AllGoodSoFar(s.threads) && NonEmptyBatches(threads) == NonEmptyBatches(s.threads)
    ensures SomeBad(threads) == SomeBad(s.threads)
  {
    HeldFrame(s.threads, threads);
    forall t | t in threads ensures threads[t].Blocked? == s.threads[t].Blocked? {
    }
    if SomeBad(s.threads) {
      var u :| u in s.threads && s.threads[u].Executed? && !s.threads[u].fOk;
      assert threads[u] == s.threads[u];
    }
  }

  lemma AddKeeps(s: State, checks: seq<Check>, woken: Tid)
    requires Inv(s) && Enabled(s, Add(checks, woken))
    ensures Inv(Next(s, Add(checks, woken)))
  {
    hide Held, HeldRun, SomeBad, AllGoodSoFar, NonEmptyBatches, BlockedSet, InsideSet;
    NotifyFrame(s, NotifyWorkers(s.threads, |checks|, woken));
  }

  /** The invariant inside a critical section of thread t, which holds no batch. */
  ghost predicate Mid(s: State, t: Tid)
  {
    && t in s.threads && MASTER in s.threads && Batch(s.threads[t]) == []
    && !s.threads[t].Executing? && !s.threads[t].Executed?
    && Conserved(s) && Honest(s) && NonEmptyBatches(s.threads)
    && s.nIdle == |BlockedSet(s.threads) - {t}| && s.nTotal == |InsideSet(s.threads) + {t}|
    && (t != MASTER ==> Awaited(s))
  }

  lemma ReportMid(s: State, t: Tid)
    requires Inv(s) && Enabled(s, Lock(t))
    ensures Mid(Report(s, t), t)
  {
    if s.threads[t].Executed? {
      ReportExecuted(s, t);
    } else {
      assert BlockedSet(s.threads) - {t} == BlockedSet(s.threads);
      assert t !in InsideSet(s.threads);
    }
  }

  lemma ReportExecuted(s: State, t: Tid)
    requires Inv(s) && t in s.threads && s.threads[t].Executed?
    ensures Mid(Report(s, t), t)
  {
    hide Conserved, Honest, BlockedSet, InsideSet, NonEmptyBatches, Report, Awaited;
    ReportFields(s, t);
    ReportConserved(s, t);
    ReportHonest(s, t);
    ReportAwaited(s, t);
  }

  /** The counters and the kinds of threads after a batch is reported. */
  lemma ReportFields(s: State, t: Tid)
    requires t in s.threads && s.threads[t].Executed? && NonEmptyBatches(s.threads)
    ensures var n := Report(s, t);
            && n.nIdle == s.nIdle && n.nTotal == s.nTotal && t in n.threads && n.threads[t] == Entering
            && BlockedSet(n.threads) - {t} == BlockedSet(s.threads) && InsideSet(n.threads) + {t} == InsideSet(s.threads)
            && NonEmptyBatches(n.threads)
  {
    hide Held, HeldRun, BlockedSet, InsideSet, AllGoodSoFar, NonEmptyBatches, SomeBad;
    var threads := Notified(s, t);
    NotifyFrame(s, threads);
    ReportCounts(s.threads, threads, t);
    StatusUpdate(threads, t, Entering);
  }

  /** The worker that reports the last check wakes a master that waits for it. */
  lemma ReportAwaited(s: State, t: Tid)
    requires t in s.threads && s.threads[t].Executed? && Awaited(s) && Report(s, t).nTodo >= 0
    ensures MASTER in Report(s, t).threads && (t != MASTER ==> Awaited(Report(s, t)))
  {
  }

  lemma ReportConserved(s: State, t: Tid)
    requires Conserved(s) && t in s.threads && s.threads[t].Executed?
    ensures Conserved(Report(s, t)) && Report(s, t).nTodo >= 0
  {
    hide Held, HeldRun, NotifyMaster;
    ReportHeld(s, t);
    MoveReported(multiset(s.queue), Held(s.threads), s.reported, multiset(s.threads[t].batch));
    MoveReported(multiset{}, HeldRun(s.threads), s.reported, multiset(s.threads[t].batch));
  }

  /** The threads at the start of a critical section, with the master woken if need be. */
  function Notified(s: State, t: Tid): map<Tid, Thread>
    requires t in s.threads && s.threads[t].Executed?
  {
    if s.nTodo - |s.threads[t].batch| == 0 && t != MASTER then NotifyMaster(s.threads) else s.threads
  }

  lemma NotifiedFrame(s: State, t: Tid)
    requires t in s.threads && s.threads[t].Executed?
    ensures Report(s, t).threads == Notified(s, t)[t := Entering]
    ensures t in Notified(s, t) && Notified(s, t)[t] == s.threads[t]
    ensures Held(Notified(s, t)) == Held(s.threads) && HeldRun(Notified(s, t)) == HeldRun(s.threads)
  {
    hide Held, HeldRun, BlockedSet, InsideSet, AllGoodSoFar, NonEmptyBatches, SomeBad;
    NotifyFrame(s, Notified(s, t));
  }

  /** A batch that is reported is no longer held. */
  lemma ReportHeld(s: State, t: Tid)
    requires t in s.threads && s.threads[t].Executed?
    ensures var n, b := Report(s, t).threads, multiset(s.threads[t].batch);
            && Held(n) == Held(s.threads) - b + multiset([]) && b <= Held(s.threads)
            && |Held(n)| == |Held(s.threads)| - |s.threads[t].batch|
            && HeldRun(n) == HeldRun(s.threads) - b + multiset([]) && b <= HeldRun(s.threads)
  {
    NotifiedFrame(s, t);
    hide Held, HeldRun, Report, Notified;
    HeldUpdate(Notified(s, t), t, Entering);
  }

  lemma MoveReported(q: multiset<Check>, h: multiset<Check>, r: multiset<Check>, b: multiset<Check>)
    requires b <= h
    ensures q + h + r == q + (h - b + multiset([])) + (r + b)
    ensures h + r == (r + b) + (h - b + multiset([]))
  {
  }

  lemma ReportCounts(before: map<Tid, Thread>, threads: map<Tid, Thread>, t: Tid)
    requires t in before && before[t].Executed?
    requires BlockedSet(threads) == BlockedSet(before) && InsideSet(threads) == InsideSet(before)
    ensures BlockedSet(threads[t := Entering]) - {t} == BlockedSet(before)
    ensures InsideSet(threads[t := Entering]) + {t} == InsideSet(before)
  {
    CountUpdate(threads, t, Entering);
    assert t in InsideSet(before) && t !in BlockedSet(before);
  }

  lemma ReportHonest(s: State, t: Tid)
    requires Honest(s) && t in s.threads && s.threads[t].Executed?
    ensures Honest(Report(s, t))
  {
    hide Held, HeldRun, SomeBad, AllGood, AllGoodSoFar, NonEmptyBatches, BlockedSet, InsideSet;
    var threads := Notified(s, t);
    NotifyFrame(s, threads);
    ReportHeld(s, t);
    StatusUpdate(threads, t, Entering);
    ReportVerdict(s.threads, t);
    MoveReported(multiset{}, HeldRun(s.threads), s.reported, multiset(s.threads[t].batch));
  }

  /** A batch that is reported as good so far was good. */
  lemma ReportVerdict(threads: map<Tid, Thread>, t: Tid)
    requires t in threads && threads[t].Executed?
    ensures AllGoodSoFar(threads) ==> threads[t].fOk
  {
  }

  lemma WakeMid(s: State, t: Tid)
    requires Inv(s) && Enabled(s, Wake(t))
    ensures Mid(s.(nIdle := s.nIdle - 1), t)
  {
    hide Held, HeldRun, AllGood, SomeBad, AllGoodSoFar, NonEmptyBatches;
    assert t in BlockedSet(s.threads);
    assert InsideSet(s.threads) + {t} == InsideSet(s.threads);
  }

  /** Nothing is held when the counter says so. */
  lemma {:induction false} GatherEmpty(m: map<Tid, seq<Check>>)
    ensures (forall t :: t in m ==> m[t] == []) ==> Gather(m) == multiset{}
    ensures Gather(m) == multiset{} ==> forall t :: t in m ==> m[t] == []
    decreases m.Keys
  {
    if m.Keys != {} {
      Inhabited(m.Keys);
      var u :| u in m.Keys && Gather(m) == multiset(m[u]) + Gather(m - {u});
      GatherEmpty(m - {u});
      assert multiset(m[u]) == multiset{} <==> |m[u]| == 0;
      forall t | t in m && Gather(m) == multiset{} ensures m[t] == [] {
        assert multiset(m[u]) <= Gather(m);
        assert Gather(m - {u}) <= Gather(m);
        if t != u { assert t in m - {u}; }
      }
    }
  }

  lemma NothingHeld(threads: map<Tid, Thread>)
    requires |Held(threads)| == 0
    ensures Held(threads) == multiset{} && HeldRun(threads) == multiset{}
    ensures NonEmptyBatches(threads) ==> forall t :: t in threads ==> !threads[t].Executing? && !threads[t].Executed?
  {
    GatherEmpty(Batches(threads));
    forall t | t in threads ensures Batch(threads[t]) == [] {
      assert t in Batches(threads) && Batches(threads)[t] == [];
    }
    forall t | t in RunParts(threads) ensures RunParts(threads)[t] == [] {
      assert Batch(threads[t]) == [];
    }
    GatherEmpty(RunParts(threads));
  }

  lemma ReturnKeeps(s: State, t: Tid)
    requires Mid(s, t) && Returns(s, t)
    ensures Inv(Proceed(s, t))
  {
    hide Held, HeldRun;
    NothingHeld(s.threads);
    var n := Proceed(s, t);
    HeldUpdate(s.threads, t, Outside);
    CountUpdate(s.threads, t, Outside);
    StatusUpdate(s.threads, t, Outside);
    assert InsideSet(n.threads) == (InsideSet(s.threads) + {t}) - {t};
  }

  lemma BlockKeeps(s: State, t: Tid)
    requires Mid(s, t) && s.queue == [] && !Returns(s, t)
    ensures Inv(Proceed(s, t))
  {
    hide Held, HeldRun, AllGood, SomeBad, AllGoodSoFar, NonEmptyBatches;
    HeldUpdate(s.threads, t, Blocked(false));
    assert Held(s.threads) - multiset([]) + multiset([]) == Held(s.threads);
    assert HeldRun(s.threads) - multiset([]) + multiset([]) == HeldRun(s.threads);
    CountUpdate(s.threads, t, Blocked(false));
    StatusUpdate(s.threads, t, Blocked(false));
    assert BlockedSet(s.threads) + {t} == (BlockedSet(s.threads) - {t}) + {t};
  }

  lemma TakeKeeps(s: State, t: Tid)
    requires Mid(s, t) && s.queue != []
    ensures s.nTotal + s.nIdle + 1 > 0
    ensures Inv(Proceed(s, t))
  {
    hide Conserved, NonEmptyBatches, Honest, Reverse, Share;
    var n := Share(s.batchSize, |s.queue|, s.nTotal, s.nIdle);
    var batch := Reverse(s.queue[|s.queue| - n..]);
    TakeConserved(s, t, n);
    TakeHonest(s, t, batch, s.queue[..|s.queue| - n]);
    CountUpdate(s.threads, t, Executing(batch, s.fAllOk));
    StatusUpdate(s.threads, t, Executing(batch, s.fAllOk));
    assert InsideSet(s.threads) + {t} == (InsideSet(s.threads) + {t}) + {t};
  }

  lemma TakeConserved(s: State, t: Tid, n: nat)
    requires t in s.threads && Batch(s.threads[t]) == [] && Conserved(s) && 1 <= n <= |s.queue|
    ensures var rest := |s.queue| - n;
            Conserved(s.(queue := s.queue[..rest],
                         threads := s.threads[t := Executing(Reverse(s.queue[rest..]), s.fAllOk)]))
  {
    hide Held, HeldRun, Reverse;
    var rest := |s.queue| - n;
    var batch := Reverse(s.queue[rest..]);
    HeldUpdate(s.threads, t, Executing(batch, s.fAllOk));
    assert s.queue == s.queue[..rest] + s.queue[rest..];
    TakeMoves(multiset(s.queue[..rest]), multiset(batch), Held(s.threads), s.reported);
    assert HeldRun(s.threads) - multiset([]) + multiset([]) == HeldRun(s.threads);
  }

  lemma TakeMoves(q: multiset<Check>, b: multiset<Check>, h: multiset<Check>, r: multiset<Check>)
    ensures (q + b) + h + r == q + (h - multiset([]) + b) + r
  {
  }

  lemma TakeHonest(s: State, t: Tid, batch: seq<Check>, q: seq<Check>)
    requires t in s.threads && Batch(s.threads[t]) == [] && !s.threads[t].Executed? && Honest(s)
    ensures Honest(s.(queue := q, threads := s.threads[t := Executing(batch, s.fAllOk)]))
  {
    hide Held, HeldRun, AllGood, SomeBad, AllGoodSoFar;
    HeldUpdate(s.threads, t, Executing(batch, s.fAllOk));
    assert HeldRun(s.threads) - multiset([]) + multiset([]) == HeldRun(s.threads);
    StatusUpdate(s.threads, t, Executing(batch, s.fAllOk));
  }

  lemma ProceedKeeps(s: State, t: Tid)
    requires Mid(s, t)
    ensures s.nTotal + s.nIdle + 1 > 0
    ensures Inv(Proceed(s, t))
  {
    hide Conserved, Honest, NonEmptyBatches, Inv, Proceed;
    if s.queue != [] {
      TakeKeeps(s, t);
    } else if Returns(s, t) {
      ReturnKeeps(s, t);
    } else {
      BlockKeeps(s, t);
    }
  }

  lemma LockedMid(s: State, step: Step)
    requires Inv(s) && Enabled(s, step) && (step.Lock? || step.Wake?)
    ensures Mid(Locked(s, step), step.t)
    ensures Locked(s, step).nTotal + Locked(s, step).nIdle + 1 > 0
  {
    hide Conserved, Honest, NonEmptyBatches;
    if step.Lock? {
      ReportMid(s, step.t);
    } else {
      WakeMid(s, step.t);
    }
  }

  /** Every step of every thread keeps the invariant. */
  lemma NextKeeps(s: State, step: Step)
    requires Inv(s) && Enabled(s, step)
    ensures step.Lock? || step.Wake? ==> Locked(s, step).nTotal + Locked(s, step).nIdle + 1 > 0
    ensures Inv(Next(s, step))
  {
    hide Inv, Proceed, Locked;
    match step
    case Join(t) => JoinKeeps(s, t);
    case Execute(t) => ExecuteKeeps(s, t);
    case Add(checks, woken) => AddKeeps(s, checks, woken);
    case Lock(t) =>
      LockedMid(s, step);
      ProceedKeeps(Locked(s, step), t);
    case Wake(t) =>
      LockedMid(s, step);
      ProceedKeeps(Locked(s, step), t);
  }

  // ----- Runs, and what the master may conclude

  /** The interleavings of the threads: sequences of steps, each enabled when taken. */
  ghost predicate Interleaving(s: State, steps: seq<Step>)
    requires Inv(s)
    decreases |steps|
  {
    steps == [] ||
    (Enabled(s, steps[0]) && (NextKeeps(s, steps[0]); Interleaving(Next(s, steps[0]), steps[1..])))
  }

  ghost function Run(s: State, steps: seq<Step>): State
    requires Inv(s) && Interleaving(s, steps)
    decreases |steps|
  {
    if steps == [] then s
    else
      NextKeeps(s, steps[0]);
      Run(Next(s, steps[0]), steps[1..])
  }

  lemma {:induction false} RunKeeps(s: State, steps: seq<Step>)
    requires Inv(s) && Interleaving(s, steps)
    ensures Inv(Run(s, steps))
    decreases |steps|
  {
    hide Inv, Next, Enabled, Locked;
    if steps != [] {
      NextKeeps(s, steps[0]);
      RunKeeps(Next(s, steps[0]), steps[1..]);
    }
  }

  /**
   When the master's wait returns, every check added since the last return was
   reported.  It returns true only if all of them ran and were good, and false
   only if one of them ran and was bad.
   */
  lemma WaitIsSound(batchSize: nat, steps: seq<Step>, step: Step)
    requires Inv(Init(batchSize)) && Interleaving(Init(batchSize), steps)
    requires var s := Run(Init(batchSize), steps);
             Enabled(s, step) && (step.Lock? || step.Wake?) && Returns(Locked(s, step), step.t)
    ensures var m := Locked(Run(Init(batchSize), steps), step);
            && m.reported == m.added
            && (m.fAllOk ==> m.ran == m.added && AllGood(m.added))
            && (!m.fAllOk ==> m.ran <= m.added && exists c :: c in m.ran && c in m.added && !c.ok)
  {
    hide Inv, Interleaving, Run, Enabled, Locked;
    InitInv(batchSize);
    RunKeeps(Init(batchSize), steps);
    var s := Run(Init(batchSize), steps);
    LockedMid(s, step);
    MidSound(Locked(s, step));
  }

  lemma MidSound(m: State)
    requires Mid(m, MASTER) && Returns(m, MASTER)
    ensures m.reported == m.added
    ensures m.fAllOk ==> m.ran == m.added && AllGood(m.added)
    ensures !m.fAllOk ==> m.ran <= m.added && exists c :: c in m.ran && c in m.added && !c.ok
  {
    hide Held, HeldRun;
    NothingHeld(m.threads);
    assert multiset(m.queue) == multiset{};
    if !m.fAllOk {
      var c :| c in m.ran && !c.ok;
    }
  }

  /**
   No lost wakeup: while the master is blocked without a pending wakeup, the
   queue is empty and some worker holds a batch it has yet to report.
   */
  lemma MasterAwaited(batchSize: nat, steps: seq<Step>)
    requires Inv(Init(batchSize)) && Interleaving(Init(batchSize), steps)
    ensures var s := Run(Init(batchSize), steps);
            && s.nTodo == |s.queue| + |Held(s.threads)|
            && MASTER in s.threads
            && (s.threads[MASTER] == Blocked(false) ==>
                  s.queue == [] && exists t :: t != MASTER && t in s.threads && (s.threads[t].Executing? || s.threads[t].Executed?))
  {
    hide Interleaving, Run, Held;
    InitInv(batchSize);
    RunKeeps(Init(batchSize), steps);
    var s := Run(Init(batchSize), steps);
    if s.threads[MASTER] == Blocked(false) {
      SomeoneHolds(s.threads);
      var t :| t in s.threads && Batch(s.threads[t]) != [];
      assert t != MASTER;
    }
  }

  lemma SomeoneHolds(threads: map<Tid, Thread>)
    requires |Held(threads)| > 0
    ensures exists t :: t in threads && Batch(threads[t]) != []
  {
    GatherEmpty(Batches(threads));
    var t :| t in Batches(threads) && Batches(threads)[t] != [];
    assert Batch(threads[t]) != [];
  }

  // ----- Workers do not oversleep

  predicate Awake(threads: map<Tid, Thread>, t: Tid)
  {
    t in threads && t != MASTER && threads[t] != Blocked(false)
  }

  /** While there is something in the queue, not all workers are asleep. */
  ghost predicate Roused(s: State)
  {
    s.queue != [] && (exists t :: t in s.threads && t != MASTER) ==> exists t :: Awake(s.threads, t)
  }

  lemma AddRouses(s: State, checks: seq<Check>, woken: Tid)
    requires Enabled(s, Add(checks, woken)) && Roused(s)
    ensures Roused(Next(s, Add(checks, woken)))
    ensures |checks| > 1 ==> forall t :: !Asleep(Next(s, Add(checks, woken)).threads, t)
    ensures |checks| <= 1 ==> forall t :: t in s.threads && (t != woken || checks == []) ==>
              Next(s, Add(checks, woken)).threads[t] == s.threads[t]
    ensures checks != [] && (exists t :: t in s.threads && t != MASTER) ==>
              exists t :: Awake(Next(s, Add(checks, woken)).threads, t)
  {
    var n := Next(s, Add(checks, woken));
    if t :| t in s.threads && t != MASTER {
      if |checks| > 1 {
        assert Awake(n.threads, t);
      } else if u :| Awake(s.threads, u) {
        assert Awake(n.threads, u);
      } else if |checks| == 1 {
        assert Asleep(s.threads, t) || Awake(s.threads, t);
        assert Awake(n.threads, woken);
      }
    }
  }

  /** A thread that moves on its own either finds the queue empty or is awake afterwards. */
  lemma ProceedRouses(s: State, t: Tid)
    requires t in s.threads && (s.queue != [] ==> s.nTotal + s.nIdle + 1 > 0)
    requires t == MASTER ==> Roused(s)
    ensures Roused(Proceed(s, t))
  {
    hide Reverse, Share;
    if s.queue != [] {
      var n := Proceed(s, t);
      if t != MASTER {
        assert Awake(n.threads, t);
      } else if u :| u in n.threads && u != MASTER {
        assert u in s.threads;
        var v :| Awake(s.threads, v);
        assert Awake(n.threads, v);
      }
    }
  }

  lemma ReportRouses(s: State, t: Tid)
    requires t in s.threads && (s.threads[t].Entering? || s.threads[t].Executed?) && Roused(s)
    ensures t == MASTER ==> Roused(Report(s, t))
  {
    if t == MASTER {
      var n := Report(s, t);
      assert n.queue == s.queue;
      if v :| Awake(s.threads, v) {
        assert Awake(n.threads, v);
      }
      forall u | u in n.threads && u != MASTER ensures u in s.threads {
      }
    }
  }

  lemma LockedRouses(s: State, step: Step)
    requires Enabled(s, step) && (step.Lock? || step.Wake?) && Roused(s)
    ensures step.t == MASTER ==> Roused(Locked(s, step))
  {
    hide Report;
    if step.Lock? {
      ReportRouses(s, step.t);
    }
  }

  lemma MoveRouses(s: State, t: Tid, x: Thread)
    requires Roused(s) && x != Blocked(false)
    ensures Roused(s.(threads := s.threads[t := x]))
  {
    var n := s.(threads := s.threads[t := x]);
    if t != MASTER {
      assert Awake(n.threads, t);
    } else if v :| Awake(s.threads, v) {
      assert Awake(n.threads, v);
    }
  }

  lemma NextRouses(s: State, step: Step)
    requires Inv(s) && Enabled(s, step) && Roused(s)
    ensures step.Lock? || step.Wake? ==> Locked(s, step).nTotal + Locked(s, step).nIdle + 1 > 0
    ensures Roused(Next(s, step))
  {
    hide Inv, Proceed, Report, RunBatch, Executes, Roused;
    NextKeeps(s, step);
    match step
    case Join(t) => MoveRouses(s, t, Entering);
    case Execute(t) =>
      var b := s.threads[t];
      MoveRouses(s, t, Executed(b.batch, RunBatch(b.batch, b.fOk)));
      RousedFrame(s.(threads := s.threads[t := Executed(b.batch, RunBatch(b.batch, b.fOk))]), Next(s, step));
    case Add(checks, woken) => AddRouses(s, checks, woken);
    case Lock(t) =>
      LockedThere(s, step);
      LockedRouses(s, step);
      ProceedRouses(Locked(s, step), t);
    case Wake(t) =>
      LockedRouses(s, step);
      ProceedRouses(Locked(s, step), t);
  }

  lemma LockedThere(s: State, step: Step)
    requires Enabled(s, step) && step.Lock?
    ensures step.t in Locked(s, step).threads
  {
  }

  lemma RousedFrame(s: State, n: State)
    requires Roused(s) && n.queue == s.queue && n.threads == s.threads
    ensures Roused(n)
  {
  }

  lemma {:induction false} RunRouses(s: State, steps: seq<Step>)
    requires Inv(s) && Interleaving(s, steps) && Roused(s)
    ensures Roused(Run(s, steps))
    decreases |steps|
  {
    hide Inv, Next, Enabled, Locked, Roused;
    if steps != [] {
      NextKeeps(s, steps[0]);
      NextRouses(s, steps[0]);
      RunRouses(Next(s, steps[0]), steps[1..]);
    }
  }

  /**
   No worker's wakeup is lost either: after every interleaving, if there are checks
   in the queue and there are workers, one of them is not asleep.
   */
  lemma WorkersRoused(batchSize: nat, steps: seq<Step>)
    requires Inv(Init(batchSize)) && Interleaving(Init(batchSize), steps)
    ensures var s := Run(Init(batchSize), steps);
            s.queue != [] && (exists t :: t in s.threads && t != MASTER) ==> exists t :: Awake(s.threads, t)
  {
    hide Interleaving, Run, Inv;
    RunRouses(Init(batchSize), steps);
  }
}
