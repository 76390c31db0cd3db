/**
 The coin cache objects: each holds its entries and a pointer to the view below,
 and every method moves the whole stack exactly as the functions of CoinsView do.
 */
module CoinsCache {
  import opened CoinsView
  import V = CoinsView

  /** A view: a cache over `base`, or the backing store when there is no base. */
  class Coins {
    const base: Coins?
    var store: map<OutPoint, Coin>
    var entries: Entries
    var hashBlock: BlockHash
    var usage: int
    ghost const Repr: set<Coins>

    ghost predicate Valid()
      reads this, Repr
      decreases Repr
    {
      && this in Repr
      && (if base == null then Repr == {this}
          else base in Repr && base.Repr < Repr && this !in base.Repr && Repr == {this} + base.Repr && base.Valid())
    }

    ghost function View(): V.View
      requires Valid()
      reads this, Repr
      decreases Repr
    {
      if base == null then Store(store, hashBlock) else Cache(entries, hashBlock, base.View())
    }

    constructor OverStore(coins: map<OutPoint, Coin>, best: BlockHash)
      ensures Valid() && fresh(Repr) && View() == Store(coins, best)
    {
      base, store, entries, hashBlock, usage := null, coins, map[], best, 0;
      Repr := {this};
    }

    constructor (below: Coins)
      requires below.Valid()
      ensures Valid() && base == below && Repr == {this} + below.Repr && fresh(this)
      ensures View() == Cache(map[], 0, below.View()) && UsageExact()
    {
      base, store, entries, hashBlock, usage := below, map[], map[], 0, 0;
      Repr := {this} + below.Repr;
    }

    /** The memory counter is the sum over the cached coins. */
    ghost predicate UsageExact()
      reads this
    {
      usage == Usage(entries)
    }

    method GetCoin(o: OutPoint) returns (coin: Coin, found: bool)
      requires Valid()
      modifies Repr
      ensures Valid() && Read(View(), coin, found) == V.GetCoin(old(View()), o)
      ensures old(UsageExact()) ==> UsageExact()
      decreases Repr, 1
    {
      if base == null {
        if o in store {
          return store[o], true;
        }
        return NoCoin, false;
      }
      FetchCoin(o);
      if o in entries {
        coin := entries[o].coin;
        found := !coin.IsSpent();
      } else {
        coin, found := NoCoin, false;
      }
    }

    method FetchCoin(o: OutPoint)
      requires Valid() && base != null
      modifies Repr
      ensures Valid() && View() == V.FetchCoin(old(View()), o)
      ensures old(UsageExact()) ==> UsageExact()
      decreases Repr, 0
    {
      if o in entries {
        return;
      }
      var coin, found := base.GetCoin(o);
      if !found {
        return;
      }
      UsageSplit(entries[o := Entry(coin, false, coin.IsSpent())], o);
      assert entries[o := Entry(coin, false, coin.IsSpent())] - {o} == entries;
      entries := entries[o := Entry(coin, false, coin.IsSpent())];
      usage := usage + MemoryUsage(coin);
    }

    method AddCoin(o: OutPoint, c: Coin, possibleOverwrite: bool) returns (ok: bool)
      requires Valid() && base != null && !c.IsSpent()
      modifies this
      ensures Valid()
      ensures if ok then Done(View()) == V.AddCoin(old(View()), o, c, possibleOverwrite)
              else V.AddCoin(old(View()), o, c, possibleOverwrite).Thrown? && View() == old(View())
      ensures ok && old(UsageExact()) ==> UsageExact()
      ensures !ok && old(UsageExact()) ==> o in entries && usage == Usage(entries) - MemoryUsage(entries[o].coin)
    {
      if c.IsUnspendable() {
        return true;
      }
      var inserted := o !in entries;
      var e := if inserted then Entry(NoCoin, false, false) else entries[o];
      var isFresh := false;
      if !inserted {
        UsageSplit(entries, o);
        usage := usage - MemoryUsage(e.coin);
      }
      if !possibleOverwrite {
        if !e.coin.IsSpent() {
          return false;
        }
        isFresh := !e.dirty;
      }
      UsageSplit(entries[o := Entry(c, true, e.isFresh || isFresh)], o);
      assert entries[o := Entry(c, true, e.isFresh || isFresh)] - {o} == entries - {o};
      assert inserted ==> entries - {o} == entries;
      entries := entries[o := Entry(c, true, e.isFresh || isFresh)];
      usage := usage + MemoryUsage(c);
      return true;
    }

    method SpendCoin(o: OutPoint) returns (moved: Coin, found: bool)
      requires Valid() && base != null
      modifies Repr
      ensures Valid() && Spend(View(), moved, found) == V.SpendCoin(old(View()), o)
      ensures old(UsageExact()) ==> UsageExact()
    {
      FetchCoin(o);
      if o !in entries {
        return NoCoin, false;
      }
      UsageSplit(entries, o);
      usage := usage - MemoryUsage(entries[o].coin);
      moved, found := entries[o].coin, true;
      if entries[o].isFresh {
        entries := entries - {o};
      } else {
        UsageSplit(entries[o := Entry(NoCoin, true, false)], o);
        assert entries[o := Entry(NoCoin, true, false)] - {o} == entries - {o};
        entries := entries[o := Entry(NoCoin, true, false)];
      }
    }

    method Uncache(o: OutPoint)
      requires Valid() && base != null
      modifies this
      ensures Valid() && View() == V.Uncache(old(View()), o)
      ensures old(UsageExact()) ==> UsageExact()
    {
      if o in entries && !entries[o].dirty && !entries[o].isFresh {
        UsageSplit(entries, o);
        usage := usage - MemoryUsage(entries[o].coin);
        entries := entries - {o};
      }
    }

    method GetBestBlock() returns (h: BlockHash)
      requires Valid()
      modifies Repr
      ensures Valid() && (View(), h) == V.GetBestBlock(old(View()))
      decreases Repr
    {
      if base != null && hashBlock == 0 {
        hashBlock := base.GetBestBlock();
      }
      h := hashBlock;
    }

    method SetBestBlock(h: BlockHash)
      requires Valid() && base != null
      modifies this
      ensures Valid() && View() == Cache(old(View()).entries, h, old(View()).base)
    {
      hashBlock := h;
    }

    method BatchWrite(child: Entries, h: BlockHash) returns (ok: bool)
      requires Valid()
      modifies this
      ensures Valid()
      ensures if ok then Done(View()) == V.BatchWrite(old(View()), child, h) else !V.BatchWrite(old(View()), child, h).Done?
      ensures ok && old(UsageExact()) ==> UsageExact()
    {
      if base == null {
        if h == 0 {
          return false;
        }
        WriteStore(child);
        ok := true;
      } else {
        ok := WriteCache(child);
      }
      if ok {
        hashBlock := h;
      }
    }

    method WriteStore(child: Entries)
      modifies this`store
      ensures store == map o | o in old(store).Keys + child.Keys && StoredCoin(old(store), child, o).Some? ::
                         StoredCoin(old(store), child, o).value
    {
      var todo := child.Keys;
      while todo != {}
        invariant todo <= child.Keys
        invariant forall o ::
          (if o in store then Some(store[o]) else None) ==
          (if o in todo then (if o in old(store) then Some(old(store)[o]) else None) else StoredCoin(old(store), child, o))
        decreases todo
      {
        Inhabited(todo);
        var o :| o in todo;
        if child[o].dirty {
          if child[o].coin.IsSpent() {
            store := store - {o};
          } else {
            store := store[o := child[o].coin];
          }
        }
        todo := todo - {o};
      }
    }

    method WriteCache(child: Entries) returns (ok: bool)
      modifies this`entries, this`usage
      ensures ok ==> entries == MergedEntries(old(entries), child)
      ensures ok <==> forall o :: o in child ==> !Misapplied(old(entries), child, o)
      ensures ok && old(UsageExact()) ==> UsageExact()
    {
      var todo := child.Keys;
      while todo != {}
        invariant todo <= child.Keys
        invariant forall o :: Found(entries, o) == if o in todo then Found(old(entries), o) else Merged(old(entries), child, o)
        invariant forall o :: o in child && o !in todo ==> !Misapplied(old(entries), child, o)
        invariant old(UsageExact()) ==> UsageExact()
        decreases todo
      {
        Inhabited(todo);
        var o :| o in todo;
        assert Found(entries, o) == Found(old(entries), o);
        if Misapplied(entries, child, o) {
          return false;
        }
        MergeOne(child, o);
        todo := todo - {o};
      }
      forall o | true ensures Found(entries, o) == Found(MergedEntries(old(entries), child), o) {
      }
      SameFound(entries, MergedEntries(old(entries), child));
      return true;
    }

    /** Merge one entry of the child. */
    method MergeOne(child: Entries, o: OutPoint)
      requires o in child && !Misapplied(entries, child, o)
      modifies this`entries, this`usage
      ensures forall p :: Found(entries, p) == if p == o then Merged(old(entries), child, o) else Found(old(entries), p)
      ensures old(UsageExact()) ==> UsageExact()
    {
      if !child[o].dirty {
        return;
      }
      var coin := child[o].coin;
      if o !in entries {
        if !(child[o].isFresh && coin.IsSpent()) {
          Replace(o, Entry(coin, true, child[o].isFresh));
        }
      } else if entries[o].isFresh && coin.IsSpent() {
        UsageSplit(entries, o);
        usage := usage - MemoryUsage(entries[o].coin);
        entries := entries - {o};
      } else {
        Replace(o, Entry(coin, true, entries[o].isFresh));
      }
    }

    /** Put an entry in the cache, keeping the memory counter exact. */
    method Replace(o: OutPoint, e: Entry)
      modifies this`entries, this`usage
      ensures entries == old(entries)[o := e]
      ensures old(UsageExact()) ==> UsageExact()
    {
      if o in entries {
        UsageSplit(entries, o);
        usage := usage - MemoryUsage(entries[o].coin);
      }
      UsageSplit(entries[o := e], o);
      assert entries[o := e] - {o} == entries - {o};
      assert o !in entries ==> entries - {o} == entries;
      entries := entries[o := e];
      usage := usage + MemoryUsage(e.coin);
    }

    method Flush() returns (ok: bool)
      requires Valid() && base != null
      modifies Repr
      ensures Valid()
      ensures if ok then Done(View()) == V.Flush(old(View())) else !V.Flush(old(View())).Done?
      ensures ok ==> UsageExact()
    {
      ok := base.BatchWrite(entries, hashBlock);
      if ok {
        entries := map[];
        usage := 0;
      }
    }
  }

  function Found(entries: Entries, o: OutPoint): Option<Entry>
  {
    if o in entries then Some(entries[o]) else None
  }

  lemma SameFound(a: Entries, b: Entries)
    requires forall o :: Found(a, o) == Found(b, o)
    ensures a == b
  {
    forall o ensures o in a <==> o in b {
      assert Found(a, o) == Found(b, o);
    }
    forall o | o in a ensures a[o] == b[o] {
      assert Found(a, o) == Found(b, o);
    }
  }

  /** The dynamic memory of a coin: that of its script. */
  function MemoryUsage(c: Coin): nat { |c.script| }

  ghost function Usage(entries: Entries): nat
    decreases entries.Keys
  {
    if entries.Keys == {} then 0
    else
      Inhabited(entries.Keys);
      var o :| o in entries.Keys;
      MemoryUsage(entries[o].coin) + Usage(entries - {o})
  }

  lemma Inhabited(s: set<OutPoint>)
    requires s != {}
    ensures exists o :: o in s
  {
    if !(exists o :: o in s) {
      assert false;
    }
  }

  lemma {:induction false} UsageSplit(entries: Entries, o: OutPoint)
    requires o in entries
    ensures Usage(entries) == MemoryUsage(entries[o].coin) + Usage(entries - {o})
    decreases entries.Keys
  {
    Inhabited(entries.Keys);
    var p :| p in entries.Keys && Usage(entries) == MemoryUsage(entries[p].coin) + Usage(entries - {p});
    if p != o {
      UsageSplit(entries - {p}, o);
      UsageSplit(entries - {o}, p);
      assert entries - {p} - {o} == entries - {o} - {p};
    }
  }
}
