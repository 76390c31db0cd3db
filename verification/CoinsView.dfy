/**
 A stack of coin caches over a backing store, as a value, and the single flat
 map from outpoints to unspent coins that the stack stands for.
 */
module CoinsView {

  const MAX_SCRIPT_SIZE := 10000
  const OP_RETURN := 0x6a

  datatype OutPoint = OutPoint(hash: nat, n: nat)

  /** A coin; the value -1 marks a spent one. */
  datatype Coin = Coin(value: int, script: seq<nat>, isCoinBase: bool, height: nat) {
    predicate IsSpent() { value == -1 }
    predicate IsUnspendable() { (|script| > 0 && script[0] == OP_RETURN) || |script| > MAX_SCRIPT_SIZE }
  }

  const NoCoin := Coin(-1, [], false, 0)

  datatype Entry = Entry(coin: Coin, dirty: bool, isFresh: bool)

  type Entries = map<OutPoint, Entry>

  /** The null block hash is 0. */
  type BlockHash = nat

  datatype View =
    | Store(coins: map<OutPoint, Coin>, best: BlockHash)
    | Cache(entries: Entries, hash: BlockHash, base: View)

  datatype Option<T> = None | Some(value: T)

  function Unspent(c: Coin): Option<Coin> { if c.IsSpent() then None else Some(c) }

  // ----- Meaning

  /** The unspent coin a view has for an outpoint. */
  function Visible(v: View, o: OutPoint): Option<Coin>
  {
    match v
    case Store(coins, _) => if o in coins then Unspent(coins[o]) else None
    case Cache(entries, _, base) => if o in entries then Unspent(entries[o].coin) else Visible(base, o)
  }

  /** Two views stand for the same flat map. */
  ghost predicate SameCoins(v: View, w: View)
  {
    forall o :: Visible(v, o) == Visible(w, o)
  }

  /** The second view differs from the first in one outpoint. */
  ghost predicate Updates(v: View, w: View, o: OutPoint, c: Option<Coin>)
  {
    forall p :: Visible(w, p) == if p == o then c else Visible(v, p)
  }

  /** What the flags of an entry promise about the view below. */
  predicate EntryOk(e: Entry, below: Option<Coin>)
  {
    && (e.isFresh ==> below == None)
    && (!e.dirty ==> Unspent(e.coin) == below)
  }

  ghost predicate LayerOk(entries: Entries, base: View)
  {
    forall o :: o in entries ==> EntryOk(entries[o], Visible(base, o))
  }

  ghost predicate Ok(v: View)
  {
    v.Cache? ==> LayerOk(v.entries, v.base) && Ok(v.base)
  }

  function Best(v: View): BlockHash
  {
    match v
    case Store(_, best) => best
    case Cache(_, hash, base) => if hash == 0 then Best(base) else hash
  }

  /** The best block a view itself remembers. */
  function Own(v: View): BlockHash { if v.Cache? then v.hash else v.best }

  lemma LayerFrame(entries: Entries, a: View, b: View)
    requires LayerOk(entries, a) && SameCoins(a, b)
    ensures LayerOk(entries, b)
  {
  }

  // ----- Reads

  datatype Read = Read(view: View, coin: Coin, found: bool)

  /** Look an outpoint up, filling the caches on the way. */
  function GetCoin(v: View, o: OutPoint): Read
    decreases v, 1
  {
    match v
    case Store(coins, _) => if o in coins then Read(v, coins[o], true) else Read(v, NoCoin, false)
    case Cache(_, _, _) =>
      var f := FetchCoin(v, o);
      if o in f.entries then Read(f, f.entries[o].coin, !f.entries[o].coin.IsSpent()) else Read(f, NoCoin, false)
  }

  function FetchCoin(v: View, o: OutPoint): (r: View)
    requires v.Cache?
    ensures r.Cache?
    decreases v, 0
  {
    if o in v.entries then v
    else
      var r := GetCoin(v.base, o);
      if !r.found then v.(base := r.view)
      else v.(base := r.view, entries := v.entries[o := Entry(r.coin, false, r.coin.IsSpent())])
  }

  /** A store answers for every coin it holds, a cache only for unspent ones. */
  predicate Answers(v: View, o: OutPoint)
  {
    if v.Store? then o in v.coins else Visible(v, o).Some?
  }

  /** Reading leaves the flat map as it is, and answers from it. */
  lemma {:induction false} GetCoinSound(v: View, o: OutPoint)
    requires Ok(v)
    ensures var r := GetCoin(v, o);
            && Ok(r.view) && SameCoins(v, r.view) && Best(r.view) == Best(v)
            && (Visible(v, o).Some? ==> r.found && r.coin == Visible(v, o).value)
            && (Visible(v, o).None? ==> !r.found || r.coin.IsSpent())
            && (r.found <==> Answers(v, o))
    decreases v, 1
  {
    if v.Cache? {
      FetchCoinSound(v, o);
    }
  }

  lemma {:induction false} FetchCoinSound(v: View, o: OutPoint)
    requires v.Cache? && Ok(v)
    ensures var f := FetchCoin(v, o);
            && Ok(f) && SameCoins(v, f) && Best(f) == Best(v) && f.hash == v.hash
            && (o in f.entries ==> Unspent(f.entries[o].coin) == Visible(v, o))
            && (o !in f.entries ==> Visible(v, o) == None)
            && SameCoins(v.base, f.base)
            && v.entries.Keys <= f.entries.Keys
    decreases v, 0
  {
    if o !in v.entries {
      GetCoinSound(v.base, o);
      var r := GetCoin(v.base, o);
      var f := FetchCoin(v, o);
      LayerFrame(v.entries, v.base, r.view);
      assert Visible(r.view, o) == Visible(v.base, o);
      forall p ensures Visible(f, p) == Visible(v, p) {
        assert Visible(r.view, p) == Visible(v.base, p);
      }
    }
  }

  /**
   What a read leaves in a cache: an outpoint it had not, and for which the view
   below answers, is remembered as it is there, unmodified, and as new exactly
   when it is not an unspent coin there. The cache below, if that is one,
   remembers it too. No other entry changes.
   */
  lemma FetchCoinEffect(v: View, o: OutPoint)
    requires v.Cache? && Ok(v)
    ensures var f := FetchCoin(v, o);
            && (o in v.entries ==> f == v)
            && (o !in v.entries ==> (o in f.entries <==> Answers(v.base, o)) && f.entries - {o} == v.entries)
            && (o !in v.entries && o in f.entries ==>
                  && Unspent(f.entries[o].coin) == Visible(v.base, o)
                  && !f.entries[o].dirty && (f.entries[o].isFresh <==> Visible(v.base, o).None?)
                  && (v.base.Cache? ==> f.base.Cache? && o in f.base.entries))
  {
    GetCoinSound(v.base, o);
    assert o !in v.entries ==> v.entries - {o} == v.entries;
  }

  // ----- Changes

  /** A call returns, throws, or runs into an assertion. */
  datatype Outcome = Done(view: View) | Thrown | Aborted

  function AddCoin(v: View, o: OutPoint, c: Coin, possibleOverwrite: bool): Outcome
    requires v.Cache? && !c.IsSpent()
  {
    if c.IsUnspendable() then Done(v)
    else
      var e := if o in v.entries then v.entries[o] else Entry(NoCoin, false, false);
      if !possibleOverwrite && !e.coin.IsSpent() then Thrown
      else
        var fresh' := !possibleOverwrite && !e.dirty;
        Done(v.(entries := v.entries[o := Entry(c, true, e.isFresh || fresh')]))
  }

  /** Adding a spendable coin changes that outpoint alone. */
  lemma AddCoinUpdates(v: View, o: OutPoint, c: Coin, possibleOverwrite: bool)
    requires v.Cache? && !c.IsSpent() && AddCoin(v, o, c, possibleOverwrite).Done?
    ensures var w := AddCoin(v, o, c, possibleOverwrite).view;
            && w.Cache? && w.base == v.base
            && (if c.IsUnspendable() then w == v else Updates(v, w, o, Some(c)))
  {
  }

  /**
   Adding without the overwrite flag is rejected when the cache itself holds an
   unspent coin.  Otherwise the flags stay truthful exactly when the caller's
   promise holds: overwriting was announced, or there is no unspent coin.
   */
  lemma AddCoinHonest(v: View, o: OutPoint, c: Coin, possibleOverwrite: bool)
    requires v.Cache? && Ok(v) && !c.IsSpent() && !c.IsUnspendable()
    ensures AddCoin(v, o, c, possibleOverwrite).Thrown? <==>
            !possibleOverwrite && o in v.entries && Visible(v, o) != None
    ensures AddCoin(v, o, c, possibleOverwrite).Done? ==>
            (Ok(AddCoin(v, o, c, possibleOverwrite).view) <==> possibleOverwrite || Visible(v, o) == None)
  {
    if AddCoin(v, o, c, possibleOverwrite).Done? {
      var w := AddCoin(v, o, c, possibleOverwrite).view;
      assert w.entries[o].dirty;
      if possibleOverwrite || Visible(v, o) == None {
        assert EntryOk(w.entries[o], Visible(w.base, o));
      } else {
        assert o !in v.entries && !EntryOk(w.entries[o], Visible(w.base, o));
      }
    }
  }

  datatype Spend = Spend(view: View, moved: Coin, found: bool)

  function SpendCoin(v: View, o: OutPoint): Spend
    requires v.Cache?
  {
    var f := FetchCoin(v, o);
    if o !in f.entries then Spend(f, NoCoin, false)
    else
      var e := f.entries[o];
      Spend(if e.isFresh then f.(entries := f.entries - {o})
            else f.(entries := f.entries[o := Entry(NoCoin, true, false)]), e.coin, true)
  }

  /** Spending removes that outpoint alone and moves out the coin that was there. */
  lemma SpendCoinSound(v: View, o: OutPoint)
    requires v.Cache? && Ok(v)
    ensures var r := SpendCoin(v, o);
            && r.view.Cache? && Ok(r.view) && Updates(v, r.view, o, None)
            && Unspent(r.moved) == Visible(v, o)
            && (Visible(v, o).Some? ==> r.found)
  {
    FetchCoinSound(v, o);
    var f, r := FetchCoin(v, o), SpendCoin(v, o);
    if o in f.entries {
      assert EntryOk(f.entries[o], Visible(f.base, o));
      forall p ensures Visible(r.view, p) == if p == o then None else Visible(v, p) {
        assert Visible(f, p) == Visible(v, p);
      }
    } else {
      assert Visible(f, o) == Visible(v, o);
    }
  }

  /**
   What spending leaves in the cache: an outpoint that is new there is forgotten,
   any other is kept as spent and to be written down. No other entry changes.
   */
  lemma SpendCoinEffect(v: View, o: OutPoint)
    requires v.Cache? && Ok(v)
    ensures var r := SpendCoin(v, o);
            && r.view.Cache?
            && (r.found <==> o in v.entries || Answers(v.base, o))
            && r.view.entries - {o} == v.entries - {o}
            && (r.found ==>
                  var new_ := if o in v.entries then v.entries[o].isFresh else Visible(v.base, o).None?;
                  if new_ then o !in r.view.entries
                  else o in r.view.entries && r.view.entries[o] == Entry(NoCoin, true, false))
  {
    FetchCoinEffect(v, o);
    hide FetchCoin;
    var f := FetchCoin(v, o);
    assert (f.entries - {o}) - {o} == f.entries - {o};
  }

  function Uncache(v: View, o: OutPoint): View
    requires v.Cache?
  {
    if o in v.entries && !v.entries[o].dirty && !v.entries[o].isFresh then v.(entries := v.entries - {o}) else v
  }

  lemma UncacheSound(v: View, o: OutPoint)
    requires v.Cache? && Ok(v)
    ensures Ok(Uncache(v, o)) && SameCoins(v, Uncache(v, o))
    ensures Uncache(v, o).Cache? && Uncache(v, o).base == v.base && Uncache(v, o).entries - {o} == v.entries - {o}
    ensures o in Uncache(v, o).entries <==> o in v.entries && (v.entries[o].dirty || v.entries[o].isFresh)
    ensures o in Uncache(v, o).entries ==> Uncache(v, o) == v
    ensures Best(Uncache(v, o)) == Best(v)
  {
    if o in v.entries {
      assert EntryOk(v.entries[o], Visible(v.base, o));
    }
  }

  // ----- Writing a cache into the view below

  /** A fresh entry over an unspent one: the error the source throws on. */
  predicate Misapplied(entries: Entries, child: Entries, o: OutPoint)
  {
    o in child && child[o].dirty && o in entries && child[o].isFresh && !entries[o].coin.IsSpent()
  }

  /** The entry the parent has for an outpoint after the child's entry is merged in. */
  function Merged(entries: Entries, child: Entries, o: OutPoint): Option<Entry>
  {
    if o !in child || !child[o].dirty then (if o in entries then Some(entries[o]) else None)
    else if o !in entries then
      if child[o].isFresh && child[o].coin.IsSpent() then None else Some(Entry(child[o].coin, true, child[o].isFresh))
    else if entries[o].isFresh && child[o].coin.IsSpent() then None
    else Some(Entry(child[o].coin, true, entries[o].isFresh))
  }

  function MergedEntries(entries: Entries, child: Entries): Entries
  {
    map o | o in entries.Keys + child.Keys && Merged(entries, child, o).Some? :: Merged(entries, child, o).value
  }

  /** The coin the store has for an outpoint after a write; dirty spent entries erase. */
  function StoredCoin(coins: map<OutPoint, Coin>, child: Entries, o: OutPoint): Option<Coin>
  {
    if o in child && child[o].dirty then Unspent(child[o].coin)
    else if o in coins then Some(coins[o]) else None
  }

  function BatchWrite(v: View, child: Entries, hash: BlockHash): Outcome
  {
    match v
    case Store(coins, _) =>
      if hash == 0 then Aborted
      else Done(Store(map o | o in coins.Keys + child.Keys && StoredCoin(coins, child, o).Some? :: StoredCoin(coins, child, o).value,
                 hash))
    case Cache(entries, _, base) =>
      if exists o :: o in child && Misapplied(entries, child, o) then Thrown
      else Done(Cache(MergedEntries(entries, child), hash, base))
  }

  /**
   Writing a truthful child never throws, and succeeds unless a null hash reaches the
   store; then the parent means what the child meant.
   */
  lemma BatchWriteSound(v: View, child: Entries, hash: BlockHash)
    requires Ok(v) && LayerOk(child, v)
    ensures BatchWrite(v, child, hash) == Aborted <==> v.Store? && hash == 0
    ensures BatchWrite(v, child, hash) != Aborted ==>
            && BatchWrite(v, child, hash).Done?
            && var w := BatchWrite(v, child, hash).view;
               Ok(w) && Own(w) == hash && forall o :: Visible(w, o) == Visible(Cache(child, hash, v), o)
  {
    if v.Cache? {
      forall o | o in child ensures !Misapplied(v.entries, child, o) {
        assert EntryOk(child[o], Visible(v, o));
      }
      var w := BatchWrite(v, child, hash).view;
      forall o
        ensures Visible(w, o) == Visible(Cache(child, hash, v), o)
        ensures o in w.entries ==> EntryOk(w.entries[o], Visible(w.base, o))
      {
        MergedSound(v, child, o);
      }
    } else if hash != 0 {
      var w := BatchWrite(v, child, hash).view;
      forall o ensures Visible(w, o) == Visible(Cache(child, hash, v), o) {
        if o in child {
          assert EntryOk(child[o], Visible(v, o));
        }
      }
    }
  }

  lemma MergedSound(v: View, child: Entries, o: OutPoint)
    requires v.Cache? && LayerOk(v.entries, v.base) && LayerOk(child, v)
    ensures var m := Merged(v.entries, child, o);
            && (m.Some? ==> EntryOk(m.value, Visible(v.base, o)))
            && (if m.Some? then Unspent(m.value.coin) else Visible(v.base, o))
               == (if o in child then Unspent(child[o].coin) else Visible(v, o))
  {
    if o in child {
      assert EntryOk(child[o], Visible(v, o));
    }
    if o in v.entries {
      assert EntryOk(v.entries[o], Visible(v.base, o));
    }
  }

  /**
   What writing a child into a cache leaves for an outpoint: an unmodified child
   entry changes nothing; a modified one replaces the coin, stays to be written
   further down, and is new where it was new. An outpoint that is spent before the
   view below the parent ever saw it is forgotten, and no other is.
   */
  lemma BatchWriteEffect(v: View, child: Entries, hash: BlockHash, o: OutPoint)
    requires v.Cache? && BatchWrite(v, child, hash).Done?
    ensures var w := BatchWrite(v, child, hash).view;
            && w.Cache? && w.base == v.base && w.hash == hash
            && (o in child && child[o].dirty ==>
                  var new_ := if o in v.entries then v.entries[o].isFresh else child[o].isFresh;
                  && (o in w.entries <==> !(new_ && child[o].coin.IsSpent()))
                  && (o in w.entries ==> w.entries[o] == Entry(child[o].coin, true, new_)))
            && (o !in child || !child[o].dirty ==>
                  && (o in w.entries <==> o in v.entries)
                  && (o in w.entries ==> w.entries[o] == v.entries[o]))
  {
  }

  function Flush(v: View): Outcome
    requires v.Cache?
  {
    match BatchWrite(v.base, v.entries, v.hash)
    case Thrown => Thrown
    case Aborted => Aborted
    case Done(base) => Done(Cache(map[], v.hash, base))
  }

  /**
   Flushing succeeds unless the cache has no best block of its own to hand to the
   store.  It keeps the view, and hands it down: the parent now stands for the same
   flat map, with the best block the cache had of its own.
   */
  lemma FlushSound(v: View)
    requires v.Cache? && Ok(v)
    ensures Flush(v).Done? <==> v.base.Cache? || v.hash != 0
    ensures !Flush(v).Done? ==> Flush(v) == Aborted
    ensures Flush(v).Done? ==>
            var w := Flush(v).view;
            && w.Cache? && w.entries == map[] && w.hash == v.hash && Ok(w)
            && SameCoins(v, w) && SameCoins(v, w.base) && Own(w.base) == v.hash
  {
    BatchWriteSound(v.base, v.entries, v.hash);
    if Flush(v).Done? {
      var w := Flush(v).view;
      forall o ensures Visible(w, o) == Visible(v, o) && Visible(w.base, o) == Visible(v, o) {
        assert Visible(w.base, o) == Visible(Cache(v.entries, v.hash, v.base), o);
      }
    }
  }

  /** The best block, remembered in each cache that asks the view below. */
  function GetBestBlock(v: View): (View, BlockHash)
  {
    match v
    case Store(_, best) => (v, best)
    case Cache(entries, hash, base) =>
      if hash != 0 then (v, hash)
      else
        var (b, h) := GetBestBlock(base);
        (Cache(entries, h, b), h)
  }

  lemma {:induction false} GetBestBlockSound(v: View)
    ensures var (w, h) := GetBestBlock(v);
            h == Best(v) && Best(w) == Best(v) && SameCoins(v, w) && (Ok(v) ==> Ok(w))
            && (v.Cache? ==> w.Cache? && w.entries == v.entries)
  {
    if v.Cache? && v.hash == 0 {
      GetBestBlockSound(v.base);
      var (w, h) := GetBestBlock(v);
      forall o ensures Visible(w, o) == Visible(v, o) {
        assert Visible(w.base, o) == Visible(v.base, o);
      }
      if Ok(v) {
        LayerFrame(v.entries, v.base, w.base);
      }
    }
  }

  // ----- Runs: the stack refines a stack of flat maps

  datatype Op =
    | OpRead(o: OutPoint)
    | OpUncache(o: OutPoint)
    | OpAdd(o: OutPoint, c: Coin, possibleOverwrite: bool)
    | OpSpend(o: OutPoint)
    | OpGetBest
    | OpSetBest(h: BlockHash)
    | OpFlush
    | OpPush
    | OpPop

  /** What each operation needs of the stack and demands of its caller. */
  predicate Allowed(v: View, op: Op)
  {
    match op
    case OpPush => true
    case OpAdd(o, c, possibleOverwrite) =>
      v.Cache? && !c.IsSpent() && (possibleOverwrite || Visible(v, o) == None)
    case _ => v.Cache?
  }

  function Step(v: View, op: Op): Outcome
    requires Allowed(v, op)
  {
    match op
    case OpRead(o) => Done(GetCoin(v, o).view)
    case OpUncache(o) => Done(Uncache(v, o))
    case OpAdd(o, c, possibleOverwrite) => AddCoin(v, o, c, possibleOverwrite)
    case OpSpend(o) => Done(SpendCoin(v, o).view)
    case OpGetBest => Done(GetBestBlock(v).0)
    case OpSetBest(h) => Done(Cache(v.entries, h, v.base))
    case OpFlush => Flush(v)
    case OpPush => Done(Cache(map[], 0, v))
    case OpPop => Done(v.base)
  }

  /** A level of the stack as a caller knows it: its unspent coins and the best block it was told, if any. */
  datatype Level = Level(coins: imap<OutPoint, Coin>, best: BlockHash)

  ghost function FlatMap(v: View): imap<OutPoint, Coin>
  {
    imap o | Visible(v, o).Some? :: Visible(v, o).value
  }

  /** The levels of the stack, from the top down to the store. */
  ghost function Levels(v: View): seq<Level>
  {
    [Level(FlatMap(v), Own(v))] + (if v.Cache? then Levels(v.base) else [])
  }

  /** The first best block from the top; the store has the last word. */
  ghost function FlatBest(s: seq<Level>): BlockHash
    requires |s| > 0
  {
    if |s| == 1 || s[0].best != 0 then s[0].best else FlatBest(s[1..])
  }

  /** Every level above the one that answers remembers the answer. */
  ghost function FlatAsk(s: seq<Level>): seq<Level>
    requires |s| > 0
  {
    if |s| == 1 || s[0].best != 0 then s else [s[0].(best := FlatBest(s))] + FlatAsk(s[1..])
  }

  /** The same operations on a stack of flat levels; only a flush into the store without a best block fails. */
  ghost function FlatStep(s: seq<Level>, op: Op): Option<seq<Level>>
    requires |s| > 1 || (|s| == 1 && op.OpPush?)
  {
    match op
    case OpRead(_) => Some(s)
    case OpUncache(_) => Some(s)
    case OpAdd(o, c, _) => Some(if c.IsUnspendable() then s else [s[0].(coins := s[0].coins[o := c])] + s[1..])
    case OpSpend(o) => Some([s[0].(coins := s[0].coins - {o})] + s[1..])
    case OpGetBest => Some(FlatAsk(s))
    case OpSetBest(h) => Some([s[0].(best := h)] + s[1..])
    case OpFlush => if |s| == 2 && s[0].best == 0 then None else Some([s[0], s[0]] + s[2..])
    case OpPush => Some([s[0].(best := 0)] + s)
    case OpPop => Some(s[1..])
  }

  lemma SameFlat(v: View, w: View)
    requires SameCoins(v, w)
    ensures FlatMap(v) == FlatMap(w)
  {
  }

  lemma {:induction false} SameLevelsRead(v: View, o: OutPoint)
    requires Ok(v)
    ensures Levels(GetCoin(v, o).view) == Levels(v)
    decreases v
  {
    GetCoinSound(v, o);
    SameFlat(v, GetCoin(v, o).view);
    if v.Cache? {
      FetchLevels(v, o);
    }
  }

  lemma {:induction false} FetchLevels(v: View, o: OutPoint)
    requires v.Cache? && Ok(v)
    ensures FetchCoin(v, o).hash == v.hash
    ensures FetchCoin(v, o).base == v.base || Levels(FetchCoin(v, o).base) == Levels(v.base)
    decreases v, 0
  {
    if o !in v.entries {
      SameLevelsRead(v.base, o);
    }
  }

  lemma AddedFlat(v: View, w: View, o: OutPoint, c: Option<Coin>)
    requires Updates(v, w, o, c)
    ensures FlatMap(w) == match c case Some(x) => FlatMap(v)[o := x] case None => FlatMap(v) - {o}
  {
  }

  /** The best block a view reports is the first one from the top of its levels, and asking fills the levels above. */
  lemma {:induction false} BestLevels(v: View)
    ensures |Levels(v)| > 0 && (v.Cache? <==> |Levels(v)| > 1) && Levels(v)[0].best == Own(v)
    ensures FlatBest(Levels(v)) == Best(v)
    ensures Levels(GetBestBlock(v).0) == FlatAsk(Levels(v))
  {
    hide FlatMap, SameCoins;
    if v.Cache? {
      BestLevels(v.base);
      assert Levels(v)[1..] == Levels(v.base);
      if v.hash == 0 {
        GetBestBlockSound(v);
        SameFlat(v, GetBestBlock(v).0);
        GetBestBlockSound(v.base);
      }
    }
  }

  /**
   One allowed operation on a truthful stack succeeds exactly when it does on the flat
   levels; it then keeps the stack truthful and acts as on the levels.
   */
  lemma StepRefines(v: View, op: Op)
    requires Ok(v) && Allowed(v, op)
    ensures |Levels(v)| > 1 || (|Levels(v)| == 1 && op.OpPush?)
    ensures Step(v, op).Done? <==> FlatStep(Levels(v), op).Some?
    ensures Step(v, op).Done? ==> Ok(Step(v, op).view) && Levels(Step(v, op).view) == FlatStep(Levels(v), op).value
  {
    hide Ok, Levels, FlatMap, FlatAsk, GetCoin, FetchCoin, SameCoins, Updates, LayerOk, Flush, AddCoin, SpendCoin, Uncache, GetBestBlock, Visible;
    BestLevels(v);
    LevelsUnfold(v);
    match op
    case OpRead(o) =>
      GetCoinSound(v, o);
      SameLevelsRead(v, o);
    case OpUncache(o) =>
      UncacheStep(v, o);
    case OpAdd(o, c, possibleOverwrite) =>
      AddStep(v, o, c, possibleOverwrite);
    case OpSpend(o) =>
      SpendStep(v, o);
    case OpGetBest =>
      GetBestBlockSound(v);
    case OpSetBest(h) =>
      SetBestStep(v, h);
    case OpFlush =>
      FlushStep(v);
    case OpPush =>
      PushStep(v);
    case OpPop =>
      OkBelow(v);
  }

  lemma LevelsUnfold(v: View)
    ensures Levels(v) == [Level(FlatMap(v), Own(v))] + (if v.Cache? then Levels(v.base) else [])
    ensures v.Cache? ==> Levels(v)[1..] == Levels(v.base)
  {
    hide FlatMap;
  }

  lemma OkBelow(v: View)
    requires v.Cache? && Ok(v)
    ensures Ok(v.base)
  {
  }

  lemma UncacheStep(v: View, o: OutPoint)
    requires v.Cache? && Ok(v)
    ensures Ok(Uncache(v, o)) && Levels(Uncache(v, o)) == Levels(v)
  {
    hide Ok, SameCoins, FlatMap;
    UncacheSound(v, o);
    SameFlat(v, Uncache(v, o));
  }

  lemma AddStep(v: View, o: OutPoint, c: Coin, possibleOverwrite: bool)
    requires v.Cache? && Ok(v) && !c.IsSpent() && (possibleOverwrite || Visible(v, o) == None)
    ensures var r, s := AddCoin(v, o, c, possibleOverwrite), Levels(v);
            && r.Done? && Ok(r.view)
            && Levels(r.view) == if c.IsUnspendable() then s else [s[0].(coins := s[0].coins[o := c])] + s[1..]
  {
    hide Ok, FlatMap, Updates, LayerOk;
    if !c.IsUnspendable() {
      AddCoinHonest(v, o, c, possibleOverwrite);
      AddCoinUpdates(v, o, c, possibleOverwrite);
      AddedFlat(v, AddCoin(v, o, c, possibleOverwrite).view, o, Some(c));
    }
  }

  lemma SpendStep(v: View, o: OutPoint)
    requires v.Cache? && Ok(v)
    ensures var w, s := SpendCoin(v, o).view, Levels(v);
            Ok(w) && Levels(w) == [s[0].(coins := s[0].coins - {o})] + s[1..]
  {
    hide Ok, FlatMap, Updates, LayerOk, FetchCoin;
    SpendCoinSound(v, o);
    AddedFlat(v, SpendCoin(v, o).view, o, None);
    FetchLevels(v, o);
  }

  lemma SetBestStep(v: View, h: BlockHash)
    requires v.Cache? && Ok(v)
    ensures var w, s := Cache(v.entries, h, v.base), Levels(v);
            Ok(w) && Levels(w) == [s[0].(best := h)] + s[1..]
  {
    var w := Cache(v.entries, h, v.base);
    assert SameCoins(v, w) by {
      forall o ensures Visible(v, o) == Visible(w, o) {
      }
    }
    SameFlat(v, w);
  }

  lemma FlushStep(v: View)
    requires v.Cache? && Ok(v)
    ensures |Levels(v)| >= 2
    ensures Flush(v).Done? <==> !(|Levels(v)| == 2 && Levels(v)[0].best == 0)
    ensures Flush(v).Done? ==> Ok(Flush(v).view) && Levels(Flush(v).view) == [Levels(v)[0], Levels(v)[0]] + Levels(v)[2..]
  {
    hide Ok, SameCoins, FlatMap, Flush, Levels, FlatBest, FlatAsk;
    FlushSound(v);
    BestLevels(v.base);
    LevelsUnfold(v);
    LevelsUnfold(v.base);
    assert Levels(v)[2..] == Levels(v.base)[1..];
    if Flush(v).Done? {
      var w := Flush(v).view;
      SameFlat(v, w);
      SameFlat(v, w.base);
      LevelsUnfold(w);
      LevelsUnfold(w.base);
      FlushBelow(v);
    }
  }

  /** Flushing writes only into the view directly below. */
  lemma FlushBelow(v: View)
    requires v.Cache? && Flush(v).Done? && Flush(v).view.Cache?
    ensures var b, w := v.base, Flush(v).view.base; (b.Cache? <==> w.Cache?) && (b.Cache? ==> w.base == b.base)
  {
    hide MergedEntries;
  }

  lemma PushStep(v: View)
    requires Ok(v)
    ensures var w := Cache(map[], 0, v); Ok(w) && Levels(w) == [Levels(v)[0].(best := 0)] + Levels(v)
  {
    var w := Cache(map[], 0, v);
    assert SameCoins(v, w);
    SameFlat(v, w);
  }

  /** Each operation is allowed when it is reached; a run ends at the first that fails. */
  ghost predicate AllAllowed(v: View, ops: seq<Op>)
    requires Ok(v)
    decreases |ops|
  {
    ops == [] ||
    (Allowed(v, ops[0]) &&
     (StepRefines(v, ops[0]); Step(v, ops[0]).Done? ==> AllAllowed(Step(v, ops[0]).view, ops[1..])))
  }

  ghost function Run(v: View, ops: seq<Op>): Option<View>
    requires Ok(v) && AllAllowed(v, ops)
    decreases |ops|
  {
    if ops == [] then Some(v)
    else
      StepRefines(v, ops[0]);
      if Step(v, ops[0]).Done? then Run(Step(v, ops[0]).view, ops[1..]) else None
  }

  ghost function FlatRun(s: seq<Level>, ops: seq<Op>): Option<seq<Level>>
    decreases |ops|
  {
    if ops == [] then Some(s)
    else if !(|s| > 1 || (|s| == 1 && ops[0].OpPush?)) then None
    else
      match FlatStep(s, ops[0])
      case None => None
      case Some(t) => FlatRun(t, ops[1..])
  }

  /** Every run of a truthful stack of any depth is a run of a stack of flat levels, and fails where that fails. */
  lemma {:induction false} RunRefines(v: View, ops: seq<Op>)
    requires Ok(v) && AllAllowed(v, ops)
    ensures Run(v, ops).Some? <==> FlatRun(Levels(v), ops).Some?
    ensures Run(v, ops).Some? ==> Ok(Run(v, ops).value) && Levels(Run(v, ops).value) == FlatRun(Levels(v), ops).value
    decreases |ops|
  {
    hide Ok, Levels, Step, FlatStep, Allowed;
    if ops != [] {
      StepRefines(v, ops[0]);
      if Step(v, ops[0]).Done? {
        RunRefines(Step(v, ops[0]).view, ops[1..]);
      }
    }
  }
}
