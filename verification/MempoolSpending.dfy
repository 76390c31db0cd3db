/**
 The memory pool as its operations change it: the entries with their cached totals,
 their inputs, and the index from spent outputs to the transactions that spend them.
 */
module MempoolSpending {
  import opened Mempool
  import opened MempoolUpdates

  datatype OutPoint = OutPoint(hash: TxId, n: nat)

  const NULL := OutPoint(0, 0xffff_ffff)

  datatype Input = Input(prevout: OutPoint, isNickname: bool)

  type Inputs = map<TxId, seq<Input>>

  type Spenders = map<OutPoint, TxId>

  // ----- The index of spent outputs

  predicate IsNick(ins: seq<Input>)
  {
    forall i :: 0 <= i < |ins| ==> ins[i].isNickname
  }

  /** A nickname registration spends nothing; every other transaction spends an output with each input. */
  predicate Proper(ins: seq<Input>)
  {
    if IsNick(ins) then forall i :: 0 <= i < |ins| ==> ins[i].prevout == NULL
    else forall i :: 0 <= i < |ins| ==> !ins[i].isNickname && ins[i].prevout != NULL
  }

  function Prevouts(ins: seq<Input>): set<OutPoint>
  {
    set i | 0 <= i < |ins| :: ins[i].prevout
  }

  function Spends(ins: seq<Input>): set<OutPoint>
  {
    if IsNick(ins) then {} else Prevouts(ins)
  }

  /** Every output spent in the pool leads to its spender, and the index knows no other transactions. */
  ghost predicate IndexOk(ins: Inputs, next: Spenders)
  {
    && (forall t :: t in ins ==> Proper(ins[t]))
    && (forall o :: o in next ==> next[o] in ins && o in Prevouts(ins[next[o]]))
    && (forall t, o :: t in ins && o in Spends(ins[t]) ==> o in next && next[o] == t)
  }

  /** The first transaction with an output keeps it. */
  function Inserted(next: Spenders, ins: seq<Input>, t: TxId): Spenders
  {
    map o | o in next.Keys + Prevouts(ins) :: if o in next then next[o] else t
  }

  lemma InsertedOk(ins: Inputs, next: Spenders, t: TxId, added: seq<Input>)
    requires IndexOk(ins, next) && t !in ins && Proper(added) && Spends(added) !! next.Keys
    ensures IndexOk(ins[t := added], Inserted(next, added, t))
  {
    hide Proper, Prevouts;
    var after, index := ins[t := added], Inserted(next, added, t);
    forall o | o in index ensures index[o] in after && o in Prevouts(after[index[o]]) {
    }
    forall u, o | u in after && o in Spends(after[u]) ensures o in index && index[o] == u {
      if u != t {
        assert o in next && next[o] == u;
      }
    }
  }

  function AllPrevouts(ins: Inputs, gone: set<TxId>): set<OutPoint>
  {
    set t, o | t in gone && t in ins && o in Prevouts(ins[t]) :: o
  }

  lemma ErasedOk(ins: Inputs, next: Spenders, gone: set<TxId>)
    requires IndexOk(ins, next)
    ensures IndexOk(ins - gone, next - AllPrevouts(ins, gone))
  {
    hide Proper, Prevouts;
    var after, index := ins - gone, next - AllPrevouts(ins, gone);
    forall t, o | t in after && o in Spends(after[t]) ensures o in index && index[o] == t {
      assert o in next && next[o] == t;
      if o in AllPrevouts(ins, gone) {
        var g :| g in gone && g in ins && o in Prevouts(ins[g]);
        SpentOnce(ins, t, g, o);
        assert false;
      }
    }
  }

  /** What an ordinary transaction spends only another ordinary one can spend. */
  lemma SpentOnce(ins: Inputs, t: TxId, u: TxId, o: OutPoint)
    requires t in ins && u in ins && Proper(ins[t]) && Proper(ins[u]) && o in Spends(ins[t]) && o in Prevouts(ins[u])
    ensures o in Spends(ins[u])
  {
  }

  // ----- Ancestors come through parents

  function Parents(keys: set<TxId>, ins: seq<Input>): set<TxId>
  {
    set i | 0 <= i < |ins| && ins[i].prevout.hash in keys :: ins[i].prevout.hash
  }

  ghost predicate FromParents(p: Pool, parents: set<TxId>, ancestors: set<TxId>)
  {
    && parents <= p.Keys
    && (forall q :: q in parents ==> Package(p, q) <= ancestors)
    && (forall a :: a in ancestors ==> Reached(p, parents, a))
  }

  /** One of the parents, or an ancestor of one. */
  ghost predicate Reached(p: Pool, parents: set<TxId>, a: TxId)
  {
    exists q :: q in parents && q in p && a in Package(p, q)
  }

  lemma ReachedBy(p: Pool, parents: set<TxId>, a: TxId, q: TxId)
    requires q in parents && q in p && a in Package(p, q)
    ensures Reached(p, parents, a)
  {
  }

  ghost predicate Linked(p: Pool, ins: Inputs)
  {
    ins.Keys == p.Keys && forall t :: t in p ==> FromParents(p, Parents(p.Keys, ins[t]), p[t].ancestors)
  }

  /** A transaction of the pool and its ancestors. */
  predicate Brings(p: Pool, q: TxId, a: TxId)
  {
    q in p && (a == q || a in p[q].ancestors)
  }

  /** The ancestors of a transaction are the transactions of the pool whose outputs it spends, and the ancestors of these. */
  lemma AncestorsByInputs(p: Pool, ins: Inputs, t: TxId, a: TxId)
    requires Linked(p, ins) && t in p
    ensures a in p[t].ancestors <==> exists i :: 0 <= i < |ins[t]| && Brings(p, ins[t][i].prevout.hash, a)
  {
    hide FromParents, Parents, Brings;
    assert FromParents(p, Parents(p.Keys, ins[t]), p[t].ancestors);
    if a in p[t].ancestors {
      var i := BroughtBy(p, ins[t], p[t].ancestors, a);
    }
    forall i | 0 <= i < |ins[t]| && Brings(p, ins[t][i].prevout.hash, a) ensures a in p[t].ancestors {
      BringsIn(p, ins[t], p[t].ancestors, a, i);
    }
  }

  lemma BroughtBy(p: Pool, spent: seq<Input>, ancestors: set<TxId>, a: TxId) returns (i: nat)
    requires FromParents(p, Parents(p.Keys, spent), ancestors) && a in ancestors
    ensures i < |spent| && Brings(p, spent[i].prevout.hash, a)
  {
    assert Reached(p, Parents(p.Keys, spent), a);
    var q :| q in Parents(p.Keys, spent) && q in p && a in Package(p, q);
    i :| 0 <= i < |spent| && spent[i].prevout.hash in p.Keys && spent[i].prevout.hash == q;
  }

  lemma BringsIn(p: Pool, spent: seq<Input>, ancestors: set<TxId>, a: TxId, i: nat)
    requires FromParents(p, Parents(p.Keys, spent), ancestors) && i < |spent| && Brings(p, spent[i].prevout.hash, a)
    ensures a in ancestors
  {
    var q := spent[i].prevout.hash;
    assert q in Parents(p.Keys, spent);
    assert Package(p, q) <= ancestors;
  }

  lemma LinkedAdded(p: Pool, q: Pool, ins: Inputs, t: TxId, e: Entry, added: seq<Input>, ancestors: set<TxId>)
    requires Linked(p, ins) && t !in p && Added(p, q, t, e, ancestors)
    requires FromParents(p, Parents(p.Keys, added), ancestors) && NoChildren(ins, t) && !Consumes(added, t)
    ensures Linked(q, ins[t := added])
  {
    var after := ins[t := added];
    forall d | d in q ensures FromParents(q, Parents(q.Keys, after[d]), q[d].ancestors) {
      var kept := if d == t then added else ins[d];
      assert Parents(q.Keys, kept) == Parents(p.Keys, kept) by {
        NoNewParent(p.Keys, t, kept);
      }
      MoreEntries(p, q, Parents(p.Keys, kept), q[d].ancestors);
    }
  }

  /** One of the inputs is for an output of t. */
  predicate Consumes(ins: seq<Input>, t: TxId)
  {
    exists i :: 0 <= i < |ins| && ins[i].prevout.hash == t
  }

  predicate NoChildren(ins: Inputs, t: TxId)
  {
    forall d :: d in ins ==> !Consumes(ins[d], t)
  }

  lemma NoNewParent(keys: set<TxId>, t: TxId, ins: seq<Input>)
    requires !Consumes(ins, t)
    ensures Parents(keys + {t}, ins) == Parents(keys, ins)
  {
  }

  lemma MoreEntries(p: Pool, q: Pool, parents: set<TxId>, ancestors: set<TxId>)
    requires FromParents(p, parents, ancestors) && p.Keys <= q.Keys && forall d :: d in p ==> q[d].ancestors == p[d].ancestors
    ensures FromParents(q, parents, ancestors)
  {
    hide Reached;
    forall a | a in ancestors ensures Reached(q, parents, a) {
      ReachedStill(p, q, parents, a);
    }
  }

  lemma ReachedStill(p: Pool, q: Pool, parents: set<TxId>, a: TxId)
    requires Reached(p, parents, a) && p.Keys <= q.Keys && forall d :: d in p ==> q[d].ancestors == p[d].ancestors
    ensures Reached(q, parents, a)
  {
    var r :| r in parents && r in p && a in Package(p, r);
    ReachedBy(q, parents, a, r);
  }

  /** Nothing that goes is an ancestor of what stays, but for what goes with all its ancestors. */
  predicate Cut(p: Pool, gone: set<TxId>)
  {
    forall g :: g in p && g in gone ==> p[g].ancestors <= gone || forall d :: d in p && d !in gone ==> g !in p[d].ancestors
  }

  lemma LinkedRemoved(p: Pool, q: Pool, ins: Inputs, gone: set<TxId>)
    requires Linked(p, ins) && Removed(p, q, gone) && Cut(p, gone)
    ensures Linked(q, ins - gone)
  {
    hide Parents;
    forall d | d in q ensures FromParents(q, Parents(q.Keys, ins[d]), q[d].ancestors) {
      FewerParents(p.Keys, gone, ins[d]);
      FewerEntries(p, q, gone, d, Parents(p.Keys, ins[d]));
    }
  }

  lemma FewerParents(keys: set<TxId>, gone: set<TxId>, ins: seq<Input>)
    ensures Parents(keys - gone, ins) == Parents(keys, ins) - gone
  {
  }

  lemma FewerEntries(p: Pool, q: Pool, gone: set<TxId>, d: TxId, parents: set<TxId>)
    requires Removed(p, q, gone) && Cut(p, gone) && d in q && FromParents(p, parents, p[d].ancestors)
    ensures FromParents(q, parents - gone, q[d].ancestors)
  {
    forall r | r in parents - gone ensures Package(q, r) <= q[d].ancestors {
      assert Package(p, r) <= p[d].ancestors;
    }
    hide Reached;
    forall a | a in q[d].ancestors ensures Reached(q, parents - gone, a) {
      ReachedAfter(p, q, gone, d, parents, a);
    }
  }

  lemma ReachedAfter(p: Pool, q: Pool, gone: set<TxId>, d: TxId, parents: set<TxId>, a: TxId)
    requires Removed(p, q, gone) && Cut(p, gone) && d in q && FromParents(p, parents, p[d].ancestors) && a in q[d].ancestors
    ensures Reached(q, parents - gone, a)
  {
    assert a in p[d].ancestors && a !in gone;
    var r :| r in parents && r in p && a in Package(p, r);
    assert r in Package(p, r);
    assert Package(p, r) <= p[d].ancestors;
    if r in gone {
      assert false;
    }
    ReachedBy(q, parents - gone, a, r);
  }

  lemma MinedCut(p: Pool, t: TxId)
    requires t in p && p[t].ancestors == {}
    ensures Cut(p, {t})
  {
  }

  lemma IndependentCut(p: Pool, gone: set<TxId>)
    requires Independent(p, gone)
    ensures Cut(p, gone)
  {
  }

  /** An entry none of whose parents is left has no ancestors. */
  lemma NoParents(p: Pool, ins: Inputs, t: TxId)
    requires Linked(p, ins) && t in p && Parents(p.Keys, ins[t]) == {}
    ensures p[t].ancestors == {}
  {
    hide Parents;
    forall a ensures a !in p[t].ancestors {
      assert !Reached(p, {}, a);
    }
  }

  // ----- Removing in several steps

  /** After some transactions went, those that depend on others are found just as before. */
  lemma Onward(p: Pool, q: Pool, gone: set<TxId>, roots: set<TxId>)
    requires Removed(p, q, gone) && (forall c :: c in roots && c in gone && c in p ==> Descendants(p, c) <= gone)
    requires forall d :: d in p ==> p[d].ancestors <= p.Keys
    ensures gone + WithDescendants(q, roots - gone) == gone + WithDescendants(p, roots)
  {
    forall d | d !in gone ensures d in WithDescendants(q, roots - gone) <==> d in WithDescendants(p, roots) {
      if d in p {
        OnwardAt(p, q, gone, roots, d);
      }
    }
  }

  lemma OnwardAt(p: Pool, q: Pool, gone: set<TxId>, roots: set<TxId>, d: TxId)
    requires Removed(p, q, gone) && (forall c :: c in roots && c in gone && c in p ==> Descendants(p, c) <= gone)
    requires d in p && d !in gone && p[d].ancestors <= p.Keys
    ensures d in WithDescendants(q, roots - gone) <==> d in WithDescendants(p, roots)
  {
    assert q[d].ancestors == p[d].ancestors - gone;
    if p[d].ancestors * roots != {} {
      var c :| c in p[d].ancestors * roots;
      assert d in Descendants(p, c);
      assert c in q[d].ancestors * (roots - gone);
    } else {
      assert q[d].ancestors * (roots - gone) <= p[d].ancestors * roots;
    }
  }

  lemma AncestorsClosedUnder(p: Pool, bytesPerSigop: nat, parents: set<TxId>, ancestors: set<TxId>)
    requires ValidPool(p, bytesPerSigop) && FromParents(p, parents, ancestors)
    ensures Closed(p, ancestors)
  {
    hide ValidPool, Reached;
    forall a | a in ancestors ensures a in p && p[a].ancestors <= ancestors {
      ReachedClosed(p, bytesPerSigop, parents, a, ancestors);
    }
  }

  lemma ReachedClosed(p: Pool, bytesPerSigop: nat, parents: set<TxId>, a: TxId, ancestors: set<TxId>)
    requires ValidPool(p, bytesPerSigop) && Reached(p, parents, a) && forall q :: q in parents && q in p ==> Package(p, q) <= ancestors
    ensures a in p && p[a].ancestors <= ancestors
  {
    hide ValidPool, Total, Sum;
    var q :| q in parents && q in p && a in Package(p, q);
    CachedAt(p, bytesPerSigop, q);
    assert Package(p, q) <= ancestors;
  }

  lemma LinkedSame(p: Pool, q: Pool, ins: Inputs)
    requires Linked(p, ins) && q.Keys == p.Keys && forall d :: d in p ==> q[d].ancestors == p[d].ancestors
    ensures Linked(q, ins)
  {
    hide FromParents, Parents;
    forall d | d in q ensures FromParents(q, Parents(q.Keys, ins[d]), q[d].ancestors) {
      MoreEntries(p, q, Parents(p.Keys, ins[d]), p[d].ancestors);
    }
  }

  lemma PrioritisedLinked(p: Pool, q: Pool, ins: Inputs, t: TxId, delta: int)
    requires Linked(p, ins) && t in p && Prioritised(p, q, t, delta)
    ensures Linked(q, ins)
  {
    hide Linked, Descendants;
    LinkedSame(p, q, ins);
  }

  lemma {:induction false} PrevoutsNext(ins: seq<Input>, i: nat)
    requires i < |ins|
    ensures Prevouts(ins[..i + 1]) == Prevouts(ins[..i]) + {ins[i].prevout}
  {
    assert forall k :: 0 <= k < i ==> ins[..i + 1][k] == ins[k] && ins[..i][k] == ins[k];
    assert ins[..i + 1][i] == ins[i];
    forall o ensures o in Prevouts(ins[..i + 1]) <==> o in Prevouts(ins[..i]) || o == ins[i].prevout {
      if o in Prevouts(ins[..i]) {
        var k :| 0 <= k < i && ins[..i][k].prevout == o;
        assert ins[..i + 1][k].prevout == o;
      }
      if o in Prevouts(ins[..i + 1]) && o != ins[i].prevout {
        var k :| 0 <= k < i + 1 && ins[..i + 1][k].prevout == o;
        assert ins[..i][k].prevout == o;
      }
    }
  }

  // ----- Conflicts with a block

  datatype BlockTx = BlockTx(id: TxId, inputs: seq<Input>)

  predicate IsCoinbase(ins: seq<Input>)
  {
    ins == [Input(NULL, false)]
  }

  function Ids(block: seq<BlockTx>): set<TxId>
  {
    set i | 0 <= i < |block| :: block[i].id
  }

  /** Entries other than tx that spend one of these outputs. */
  function Rivals(ins: Inputs, id: TxId, outs: set<OutPoint>): set<TxId>
  {
    set c | c in ins && c != id && Spends(ins[c]) * outs != {}
  }

  /** Entries that spend an output some other transaction of the block spends. */
  function Conflicting(ins: Inputs, block: seq<BlockTx>): set<TxId>
  {
    set c | c in ins && ConflictsWith(ins, block, c)
  }

  predicate ConflictsWith(ins: Inputs, block: seq<BlockTx>, c: TxId)
    requires c in ins
  {
    exists j :: 0 <= j < |block| && c != block[j].id && Spends(ins[c]) * Spends(block[j].inputs) != {}
  }

  /**
   What a block that connects to the chain guarantees: its transactions are proper or the coinbase,
   those also in the pool are the same, parents from the pool come first, and no output is spent twice.
   */
  predicate Connects(keys: set<TxId>, ins: Inputs, block: seq<BlockTx>)
  {
    && (forall i :: 0 <= i < |block| ==> Fits(keys, ins, block, i))
    && (forall i, j :: 0 <= i < j < |block| ==> Spends(block[i].inputs) !! Spends(block[j].inputs))
  }

  predicate Fits(keys: set<TxId>, ins: Inputs, block: seq<BlockTx>, i: nat)
    requires i < |block|
  {
    && (Proper(block[i].inputs) || IsCoinbase(block[i].inputs))
    && (block[i].id in ins ==> ins[block[i].id] == block[i].inputs)
    && Parents(keys, block[i].inputs) <= Ids(block[..i])
  }

  /** What goes when a block is connected: its transactions, and everything that conflicts with it or depends on what does. */
  function GoneWith(p: Pool, ins: Inputs, block: seq<BlockTx>): set<TxId>
  {
    Ids(block) + WithDescendants(p, Conflicting(ins, block))
  }

  /** Afterwards nothing in the pool spends what the block spends. */
  lemma NothingConflicts(p: Pool, ins: Inputs, block: seq<BlockTx>, t: TxId, i: nat)
    requires t in p && t in ins && t !in GoneWith(p, ins, block) && i < |block|
    ensures Spends(ins[t]) !! Spends(block[i].inputs)
  {
    hide Spends, WithDescendants;
    var both := Spends(ins[t]) * Spends(block[i].inputs);
    if both != {} {
      NamedBy(block, i);
      InDescendants(p, Conflicting(ins, block), t);
      assert false;
    }
    assert forall o :: o in Spends(ins[t]) && o in Spends(block[i].inputs) ==> o in both;
  }

  lemma NamedBy(block: seq<BlockTx>, i: nat)
    requires i < |block|
    ensures block[i].id in Ids(block)
  {
  }

  lemma InDescendants(p: Pool, roots: set<TxId>, t: TxId)
    requires t in p
    ensures t in roots ==> t in WithDescendants(p, roots)
  {
  }

  lemma LinkedKeys(p: Pool, ins: Inputs)
    requires Linked(p, ins)
    ensures ins.Keys == p.Keys
  {
  }

  lemma NothingErased(ins: Inputs, gone: set<TxId>)
    ensures gone - gone == {} && AllPrevouts(ins, {}) == {}
  {
  }

  lemma ErasedNext(ins: Inputs, gone: set<TxId>, todo: set<TxId>, t: TxId)
    requires todo <= gone <= ins.Keys && t in todo
    ensures AllPrevouts(ins, gone - (todo - {t})) == AllPrevouts(ins, gone - todo) + Prevouts(ins[t])
  {
    hide Prevouts;
    assert gone - (todo - {t}) == gone - todo + {t};
  }

  /** Entries that spend one of the first outputs of t. */
  function Children(ins: Inputs, t: TxId, outputs: nat): set<TxId>
  {
    set c | c in ins && SpendsFrom(ins[c], t, outputs)
  }

  predicate SpendsFrom(ins: seq<Input>, t: TxId, outputs: nat)
  {
    exists n: nat :: n < outputs && OutPoint(t, n) in Spends(ins)
  }

  lemma ChildAt(next: Spenders, ins: Inputs, t: TxId, i: nat)
    requires IndexOk(ins, next) && i < 0xffff_ffff
    ensures OutPoint(t, i) in next ==> next[OutPoint(t, i)] in ins
    ensures Children(ins, t, i + 1) == Children(ins, t, i) + (if OutPoint(t, i) in next then {next[OutPoint(t, i)]} else {})
  {
    var o := OutPoint(t, i);
    forall c | c in ins ensures SpendsFrom(ins[c], t, i + 1) <==> SpendsFrom(ins[c], t, i) || (o in next && next[o] == c) {
      SpenderIs(ins, next, o, c);
      OneMore(ins[c], t, i);
    }
  }

  lemma OneMore(ins: seq<Input>, t: TxId, i: nat)
    ensures SpendsFrom(ins, t, i + 1) <==> SpendsFrom(ins, t, i) || OutPoint(t, i) in Spends(ins)
  {
    hide Spends;
    if OutPoint(t, i) in Spends(ins) {
      assert SpendsFrom(ins, t, i + 1);
    }
    if SpendsFrom(ins, t, i) {
      var n: nat :| n < i && OutPoint(t, n) in Spends(ins);
      assert SpendsFrom(ins, t, i + 1);
    }
  }

  /** For an output that is not null the index gives exactly the entry that spends it. */
  lemma SpenderIs(ins: Inputs, next: Spenders, o: OutPoint, c: TxId)
    requires IndexOk(ins, next) && o != NULL && c in ins
    ensures o in Spends(ins[c]) <==> o in next && next[o] == c
  {
    if o in next && next[o] == c {
      assert Proper(ins[c]) && o in Prevouts(ins[c]);
    }
  }

  lemma DescendantsInside(p: Pool, roots: set<TxId>)
    ensures WithDescendants(p, roots) <= p.Keys
  {
  }

  lemma DescendantsUnion(p: Pool, a: set<TxId>, b: set<TxId>)
    ensures WithDescendants(p, a + b) == WithDescendants(p, a) + WithDescendants(p, b)
  {
    forall d | d in p ensures p[d].ancestors * (a + b) != {} <==> p[d].ancestors * a != {} || p[d].ancestors * b != {} {
      assert p[d].ancestors * (a + b) == p[d].ancestors * a + p[d].ancestors * b;
    }
  }

  /** What depends on something that goes goes too. */
  lemma DescendantsClosed(p: Pool, bytesPerSigop: nat, roots: set<TxId>, c: TxId)
    requires ValidPool(p, bytesPerSigop) && c in WithDescendants(p, roots)
    ensures Descendants(p, c) <= WithDescendants(p, roots)
  {
    hide ValidPool, Total, Sum;
    DescendantsIndependent(p, bytesPerSigop, roots);
    var gone := WithDescendants(p, roots);
    forall d | d in Descendants(p, c) ensures d in gone {
      if d !in gone {
        assert false;
      }
    }
  }

  // ----- The loop over the inputs of a transaction of the block

  /** The outputs of the first k inputs, nicknames aside. */
  function Tried(ins: seq<Input>, k: nat): set<OutPoint>
    requires k <= |ins|
  {
    set i | 0 <= i < k && !ins[i].isNickname :: ins[i].prevout
  }

  lemma TriedAll(ins: seq<Input>)
    requires Proper(ins) || IsCoinbase(ins)
    ensures Tried(ins, |ins|) == Spends(ins)
  {
    if IsNick(ins) {
      assert Tried(ins, |ins|) == {};
    } else {
      assert forall i :: 0 <= i < |ins| ==> !ins[i].isNickname;
      assert Tried(ins, |ins|) == Prevouts(ins);
    }
  }

  lemma TriedNext(ins: seq<Input>, k: nat)
    requires k < |ins|
    ensures Tried(ins, k + 1) == Tried(ins, k) + (if ins[k].isNickname then {} else {ins[k].prevout})
  {
  }

  lemma RivalsUnion(ins: Inputs, id: TxId, a: set<OutPoint>, b: set<OutPoint>)
    ensures Rivals(ins, id, a + b) == Rivals(ins, id, a) + Rivals(ins, id, b)
  {
    hide Spends;
    forall c | c in ins ensures Spends(ins[c]) * (a + b) != {} <==> Spends(ins[c]) * a != {} || Spends(ins[c]) * b != {} {
      assert Spends(ins[c]) * (a + b) == Spends(ins[c]) * a + Spends(ins[c]) * b;
    }
  }

  /** The entry the index gives for one output, if it has to go. */
  function Found(ins: Inputs, next: Spenders, id: TxId, o: OutPoint): set<TxId>
  {
    if o in next && next[o] in ins && next[o] != id && !IsNick(ins[next[o]]) then {next[o]} else {}
  }

  lemma FoundRivals(ins: Inputs, gone: set<TxId>, next: Spenders, id: TxId, o: OutPoint)
    requires IndexOk(ins - gone, next)
    ensures Rivals(ins, id, {o}) - gone == Found(ins - gone, next, id, o)
  {
    hide Prevouts;
    var cur := ins - gone;
    forall c ensures c in Rivals(ins, id, {o}) - gone <==> c in Found(cur, next, id, o) {
      if c in cur {
        RivalFound(cur, next, id, o, c);
      }
    }
  }

  lemma RivalFound(cur: Inputs, next: Spenders, id: TxId, o: OutPoint, c: TxId)
    requires IndexOk(cur, next) && c in cur
    ensures c != id && Spends(cur[c]) * {o} != {} <==> c in Found(cur, next, id, o)
  {
    if o in Spends(cur[c]) {
      assert o in Spends(cur[c]) * {o};
      assert !IsNick(cur[c]);
    } else {
      assert Spends(cur[c]) * {o} == {};
    }
  }

  /** One more input: what goes now, and what went before, is what goes for all of them. */
  lemma RivalsNext(p: Pool, q: Pool, bytesPerSigop: nat, ins: Inputs, next: Spenders, id: TxId, outs: set<OutPoint>, o: OutPoint)
    requires ValidPool(p, bytesPerSigop)
    requires var gone := WithDescendants(p, Rivals(ins, id, outs)); Removed(p, q, gone) && IndexOk(ins - gone, next)
    ensures var gone := WithDescendants(p, Rivals(ins, id, outs));
            WithDescendants(p, Rivals(ins, id, outs + {o})) == gone + WithDescendants(q, Found(ins - gone, next, id, o))
  {
    hide ValidPool, WithDescendants, Removed, IndexOk, Rivals, Found, Descendants;
    var before, more := Rivals(ins, id, outs), Rivals(ins, id, {o});
    var gone := WithDescendants(p, before);
    RivalsUnion(ins, id, outs, {o});
    DescendantsUnion(p, before, more);
    FoundRivals(ins, gone, next, id, o);
    forall c | c in more && c in gone && c in p ensures Descendants(p, c) <= gone {
      DescendantsClosed(p, bytesPerSigop, before, c);
    }
    AllAncestorsInside(p, bytesPerSigop);
    Onward(p, q, gone, more);
  }

  lemma AllAncestorsInside(p: Pool, bytesPerSigop: nat)
    requires ValidPool(p, bytesPerSigop)
    ensures forall d :: d in p ==> p[d].ancestors <= p.Keys
  {
    hide Total, Sum;
  }

  lemma NoRivals(p: Pool, ins: Inputs, id: TxId)
    ensures Rivals(ins, id, {}) == {} && WithDescendants(p, {}) == {} && Removed(p, p, {}) && ins - {} == ins
  {
    assert forall c :: c in ins ==> Spends(ins[c]) * {} == {};
    forall d | d in p ensures p[d].ancestors - {} == p[d].ancestors {
    }
  }

  // ----- The loop over the transactions of the block

  lemma IdsNext(block: seq<BlockTx>, i: nat)
    requires i < |block|
    ensures Ids(block[..i + 1]) == Ids(block[..i]) + {block[i].id}
  {
    var a, b := block[..i + 1], block[..i];
    assert forall k :: 0 <= k < i ==> a[k] == b[k] == block[k];
    assert a[i] == block[i];
    forall t ensures t in Ids(a) <==> t in Ids(b) || t == block[i].id {
      if t in Ids(b) {
        var k :| 0 <= k < i && b[k].id == t;
        assert a[k].id == t;
      }
      if t in Ids(a) && t != block[i].id {
        var k :| 0 <= k < i + 1 && a[k].id == t;
        assert b[k].id == t;
      }
    }
  }

  lemma ConflictingNext(ins: Inputs, block: seq<BlockTx>, i: nat)
    requires i < |block|
    ensures Conflicting(ins, block[..i + 1]) == Conflicting(ins, block[..i]) + Rivals(ins, block[i].id, Spends(block[i].inputs))
  {
    hide Spends;
    forall c | c in ins
      ensures ConflictsWith(ins, block[..i + 1], c) <==>
              ConflictsWith(ins, block[..i], c) || (c != block[i].id && Spends(ins[c]) * Spends(block[i].inputs) != {})
    {
      ConflictsNext(ins, block, i, c);
    }
  }

  lemma ConflictsNext(ins: Inputs, block: seq<BlockTx>, i: nat, c: TxId)
    requires i < |block| && c in ins
    ensures ConflictsWith(ins, block[..i + 1], c) <==>
            ConflictsWith(ins, block[..i], c) || (c != block[i].id && Spends(ins[c]) * Spends(block[i].inputs) != {})
  {
    hide Spends;
    var a, b := block[..i + 1], block[..i];
    assert a[i] == block[i];
    if ConflictsWith(ins, b, c) {
      var j :| 0 <= j < i && c != b[j].id && Spends(ins[c]) * Spends(b[j].inputs) != {};
      assert a[j] == b[j];
    }
    if ConflictsWith(ins, a, c) {
      var j :| 0 <= j < i + 1 && c != a[j].id && Spends(ins[c]) * Spends(a[j].inputs) != {};
      assert j < i ==> b[j] == a[j];
    }
  }

  /** A rival of a transaction of the block is not itself earlier in the block. */
  lemma RivalNotInBlock(keys: set<TxId>, ins: Inputs, block: seq<BlockTx>, i: nat, c: TxId)
    requires Connects(keys, ins, block) && i < |block| && c in Rivals(ins, block[i].id, Spends(block[i].inputs))
    ensures c !in Ids(block[..i])
  {
    hide Spends, Proper, Parents, Connects, Rivals;
    forall j | 0 <= j < i ensures block[j].id != c {
      RivalApart(keys, ins, block, i, j, c);
    }
  }

  lemma RivalApart(keys: set<TxId>, ins: Inputs, block: seq<BlockTx>, i: nat, j: nat, c: TxId)
    requires Connects(keys, ins, block) && j < i < |block| && c in Rivals(ins, block[i].id, Spends(block[i].inputs))
    ensures block[j].id != c
  {
    hide Spends, Proper, Parents;
    assert Fits(keys, ins, block, j);
    DisjointMeets(Spends(block[j].inputs), Spends(block[i].inputs));
  }

  lemma DisjointMeets(a: set<OutPoint>, b: set<OutPoint>)
    requires a !! b
    ensures a * b == {}
  {
  }

  /** Removing one more transaction of the block, and then its rivals. */
  lemma GoneNext(p: Pool, q: Pool, bytesPerSigop: nat, ins: Inputs, block: seq<BlockTx>, i: nat)
    requires ValidPool(p, bytesPerSigop) && Connects(p.Keys, ins, block) && i < |block|
    requires Removed(p, q, GoneWith(p, ins, block[..i]) + {block[i].id})
    ensures var gone := GoneWith(p, ins, block[..i]) + {block[i].id};
            GoneWith(p, ins, block[..i + 1]) ==
            gone + WithDescendants(q, Rivals(ins - gone, block[i].id, Spends(block[i].inputs)))
  {
    hide ValidPool, WithDescendants, Removed, Rivals, Descendants, Spends, Connects, Ids, Conflicting;
    var gone := GoneWith(p, ins, block[..i]) + {block[i].id};
    var roots := Rivals(ins, block[i].id, Spends(block[i].inputs));
    IdsNext(block, i);
    ConflictingNext(ins, block, i);
    DescendantsUnion(p, Conflicting(ins, block[..i]), roots);
    forall c | c in roots && c in gone && c in p ensures Descendants(p, c) <= gone {
      RivalNotInBlock(p.Keys, ins, block, i, c);
      NotOwnRival(ins, block[i].id, Spends(block[i].inputs));
      DescendantsClosed(p, bytesPerSigop, Conflicting(ins, block[..i]), c);
    }
    AllAncestorsInside(p, bytesPerSigop);
    Onward(p, q, gone, roots);
    RivalsLeft(ins, gone, block[i].id, Spends(block[i].inputs));
  }

  lemma NotOwnRival(ins: Inputs, id: TxId, outs: set<OutPoint>)
    ensures id !in Rivals(ins, id, outs)
  {
  }

  lemma RivalsLeft(ins: Inputs, gone: set<TxId>, id: TxId, outs: set<OutPoint>)
    ensures Rivals(ins - gone, id, outs) == Rivals(ins, id, outs) - gone
  {
    hide Spends;
  }

  /** When its turn comes a transaction of the block has no ancestor left in the pool. */
  lemma NoAncestorsLeft(p: Pool, q: Pool, ins: Inputs, block: seq<BlockTx>, i: nat)
    requires Connects(p.Keys, ins, block) && i < |block| && block[i].id in q
    requires var gone := GoneWith(p, ins, block[..i]); q.Keys == p.Keys - gone && Linked(q, ins - gone)
    ensures q[block[i].id].ancestors == {}
  {
    hide FromParents, Parents, Proper, Spends, WithDescendants, Conflicting;
    var gone := GoneWith(p, ins, block[..i]);
    assert Fits(p.Keys, ins, block, i);
    FewerParents(p.Keys, gone, block[i].inputs);
    NoParents(q, ins - gone, block[i].id);
  }

  lemma NothingGone(p: Pool, ins: Inputs, block: seq<BlockTx>)
    ensures GoneWith(p, ins, block[..0]) == {} && Removed(p, p, {}) && ins - {} == ins
  {
    assert Ids(block[..0]) == {} && Conflicting(ins, block[..0]) == {};
    NoRivals(p, ins, 0);
  }

  lemma TriedNone(ins: seq<Input>)
    ensures Tried(ins, 0) == {}
  {
  }

  lemma RemovedKeys(p: Pool, q: Pool, gone: set<TxId>)
    requires Removed(p, q, gone)
    ensures q.Keys == p.Keys - gone
  {
  }

  lemma FitsAt(keys: set<TxId>, ins: Inputs, block: seq<BlockTx>, i: nat)
    requires Connects(keys, ins, block) && i < |block|
    ensures Proper(block[i].inputs) || IsCoinbase(block[i].inputs)
  {
    hide Proper, Spends, Parents;
    assert Fits(keys, ins, block, i);
  }

  /** All three parts agree. */
  ghost predicate PoolOk(p: Pool, bytesPerSigop: nat, ins: Inputs, next: Spenders)
  {
    ValidPool(p, bytesPerSigop) && IndexOk(ins, next) && Linked(p, ins)
  }

  lemma AddedOk(p: Pool, bytesPerSigop: nat, ins: Inputs, next: Spenders, q: Pool, t: TxId, e: Entry, added: seq<Input>, ancestors: set<TxId>)
    requires PoolOk(p, bytesPerSigop, ins, next) && ValidPool(q, bytesPerSigop) && t !in p && Added(p, q, t, e, ancestors)
    requires Proper(added) && Spends(added) !! next.Keys
    requires FromParents(p, Parents(p.Keys, added), ancestors) && NoChildren(ins, t) && !Consumes(added, t)
    ensures PoolOk(q, bytesPerSigop, ins[t := added], Inserted(next, added, t))
  {
    hide ValidPool, IndexOk, Added, FromParents;
    assert ins.Keys == p.Keys;
    InsertedOk(ins, next, t, added);
    LinkedAdded(p, q, ins, t, e, added, ancestors);
  }

  lemma RemovedOk(p: Pool, bytesPerSigop: nat, ins: Inputs, next: Spenders, q: Pool, gone: set<TxId>)
    requires PoolOk(p, bytesPerSigop, ins, next) && ValidPool(q, bytesPerSigop) && Removed(p, q, gone) && Cut(p, gone)
    ensures PoolOk(q, bytesPerSigop, ins - gone, next - AllPrevouts(ins, gone))
  {
    hide ValidPool, IndexOk, Removed, Linked, Cut;
    ErasedOk(ins, next, gone);
    LinkedRemoved(p, q, ins, gone);
  }

  class TxPool {
    var mapTx: Pool
    var inputs: Inputs
    var mapNextTx: Spenders
    const bytesPerSigop: nat

    constructor (bytesPerSigop: nat)
      ensures Valid() && mapTx == map[]
    {
      mapTx, inputs, mapNextTx := map[], map[], map[];
      this.bytesPerSigop := bytesPerSigop;
    }

    ghost predicate Valid()
      reads this
    {
      PoolOk(mapTx, bytesPerSigop, inputs, mapNextTx)
    }

    /**
     Adds a transaction that spends nothing spent in the pool and whose outputs nothing
     in the pool spends; `ancestors` are those it has in the pool.
     */
    method AddUnchecked(t: TxId, e: Entry, added: seq<Input>, ancestors: set<TxId>)
      requires Valid() && t !in mapTx && Proper(added) && Spends(added) !! mapNextTx.Keys
      requires FromParents(mapTx, Parents(mapTx.Keys, added), ancestors) && NoChildren(inputs, t) && !Consumes(added, t)
      requires e.weight > 0 && e.size == VirtualSize(e.weight, e.sigops, bytesPerSigop)
      modifies this
      ensures Valid() && Added(old(mapTx), mapTx, t, e, ancestors)
      ensures inputs == old(inputs)[t := added] && mapNextTx == Inserted(old(mapNextTx), added, t)
    {
      hide Total, Sum, ValidPool, IndexOk, Linked, FromParents, Proper, Spends, Parents, Inserted, Consumes;
      AncestorsClosedUnder(mapTx, bytesPerSigop, Parents(mapTx.Keys, added), ancestors);
      var size, sigops, fee := AncestorTotals(mapTx, ancestors);
      var entry := e.(ancestors := ancestors, sizeWithAncestors := e.size + size,
                      sigopsWithAncestors := e.sigops + sigops, modFeesWithAncestors := e.modFee + fee);
      ghost var p := mapTx;
      mapTx := mapTx[t := entry];
      AddedValid(p, bytesPerSigop, mapTx, t, e, ancestors);
      AddedOk(p, bytesPerSigop, inputs, mapNextTx, mapTx, t, e, added, ancestors);
      inputs := inputs[t := added];
      mapNextTx := InsertInputs(mapNextTx, added, t);
    }

    static method InsertInputs(before: Spenders, ins: seq<Input>, t: TxId) returns (next: Spenders)
      ensures next == Inserted(before, ins, t)
    {
      next := before;
      for i := 0 to |ins|
        invariant next == Inserted(before, ins[..i], t)
      {
        PrevoutsNext(ins, i);
        if ins[i].prevout !in next {
          next := next[ins[i].prevout := t];
        }
      }
      assert ins[..|ins|] == ins;
    }

    /** The loop over the ancestors of a new entry. */
    static method AncestorTotals(p: Pool, ancestors: set<TxId>) returns (size: int, sigops: int, fee: int)
      requires ancestors <= p.Keys
      ensures size == Total(Sizes(p), ancestors) && sigops == Total(Sigops(p), ancestors) && fee == Sum(ModFees(p), ancestors)
    {
      hide Total, Sum;
      size, sigops, fee := 0, 0, 0;
      var todo := ancestors;
      NoTotals(p, ancestors);
      while todo != {}
        invariant todo <= ancestors
        invariant size == Total(Sizes(p), ancestors - todo) && sigops == Total(Sigops(p), ancestors - todo)
        invariant fee == Sum(ModFees(p), ancestors - todo)
        decreases todo
      {
        Inhabited(todo);
        var a :| a in todo;
        ghost var done := ancestors - (todo - {a});
        TotalsWithout(p, done, a);
        assert done - {a} == ancestors - todo;
        size := size + p[a].size;
        fee := fee + p[a].modFee;
        sigops := sigops + p[a].sigops;
        todo := todo - {a};
      }
      assert ancestors - {} == ancestors;
    }

    static method EraseInputs(before: Spenders, ins: seq<Input>) returns (next: Spenders)
      ensures next == before - Prevouts(ins)
    {
      next := before;
      for i := 0 to |ins|
        invariant next == before - Prevouts(ins[..i])
      {
        PrevoutsNext(ins, i);
        next := next - {ins[i].prevout};
      }
      assert ins[..|ins|] == ins;
    }

    /** The loop over transactions that are removed. */
    static method EraseAll(before: Spenders, ins: Inputs, gone: set<TxId>) returns (next: Spenders)
      requires gone <= ins.Keys
      ensures next == before - AllPrevouts(ins, gone)
    {
      hide Prevouts;
      next := before;
      var todo := gone;
      NothingErased(ins, gone);
      while todo != {}
        invariant todo <= gone && next == before - AllPrevouts(ins, gone - todo)
        decreases todo
      {
        Inhabited(todo);
        var t :| t in todo;
        ErasedNext(ins, gone, todo, t);
        next := EraseInputs(next, ins[t]);
        todo := todo - {t};
      }
      assert gone - {} == gone;
    }

    /** Takes a mined transaction out; no ancestor of it is left in the pool. */
    method RemoveMined(t: TxId)
      requires Valid() && t in mapTx && mapTx[t].ancestors == {}
      modifies this
      ensures Valid() && Removed(old(mapTx), mapTx, {t}) && inputs == old(inputs) - {t}
    {
      hide ValidPool, IndexOk, Linked, Removed;
      ghost var p := mapTx;
      mapTx := WithoutMined(mapTx, bytesPerSigop, t);
      MinedCut(p, t);
      LinkedKeys(p, inputs);
      RemovedOk(p, bytesPerSigop, inputs, mapNextTx, mapTx, {t});
      mapNextTx := EraseAll(mapNextTx, inputs, {t});
      inputs := inputs - {t};
    }

    /** The loop that lowers what depends on it, and the links cut afterwards. */
    static method WithoutMined(p: Pool, ghost bytesPerSigop: nat, t: TxId) returns (q: Pool)
      requires ValidPool(p, bytesPerSigop) && t in p && p[t].ancestors == {}
      ensures ValidPool(q, bytesPerSigop) && Removed(p, q, {t})
    {
      hide Total, Sum, ValidPool, Lowered;
      var m := p;
      var todo := Descendants(p, t) - {t};
      while todo != {}
        invariant todo <= Descendants(p, t) - {t} && m.Keys == p.Keys && m[t] == p[t]
        invariant forall d :: d in p && (d in todo || t !in p[d].ancestors) ==> m[d] == p[d]
        invariant forall d :: d in p && t in p[d].ancestors && d !in todo ==> Lowered(p, p[d], m[d], t)
        decreases todo
      {
        Inhabited(todo);
        var d :| d in todo;
        var e := m[d];
        var lowered := e.(sizeWithAncestors := e.sizeWithAncestors - m[t].size,
                          sigopsWithAncestors := e.sigopsWithAncestors - m[t].sigops,
                          modFeesWithAncestors := e.modFeesWithAncestors - m[t].modFee);
        DescendantCounts(p, bytesPerSigop, t, d);
        assert lowered.sizeWithAncestors > 0 && lowered.sigopsWithAncestors >= 0;
        IsLowered(p, e, lowered, t);
        m := m[d := lowered];
        todo := todo - {d};
      }
      NotOwnAncestor(p, bytesPerSigop, t);
      q := map d | d in m && d != t :: m[d].(ancestors := m[d].ancestors - {t});
      CutLinks(p, m, q, t);
      ErasedValid(p, bytesPerSigop, q, t);
    }

    /** Takes out a transaction, or else those that spend its outputs, with everything that depends on them. */
    method RemoveRecursive(t: TxId, outputs: nat)
      requires Valid() && outputs <= 0xffff_ffff
      modifies this
      ensures Valid()
      ensures var roots := if t in old(mapTx) then {t} else Children(old(inputs), t, outputs);
              && Removed(old(mapTx), mapTx, WithDescendants(old(mapTx), roots))
              && inputs == old(inputs) - WithDescendants(old(mapTx), roots)
    {
      hide ValidPool, WithDescendants, Descendants, IndexOk, Linked, Removed, Children;
      LinkedKeys(mapTx, inputs);
      var roots: set<TxId> := {t};
      if t !in mapTx {
        roots := FindChildren(mapNextTx, inputs, t, outputs);
      }
      var removes := AllDescendants(mapTx, roots);
      DescendantsIndependent(mapTx, bytesPerSigop, roots);
      KeptValid(mapTx, bytesPerSigop, removes);
      IndependentCut(mapTx, removes);
      RemovedOk(mapTx, bytesPerSigop, inputs, mapNextTx, mapTx - removes, removes);
      DescendantsInside(mapTx, roots);
      mapNextTx := EraseAll(mapNextTx, inputs, removes);
      mapTx := mapTx - removes;
      inputs := inputs - removes;
    }

    /** The loop over the outputs of a transaction that is not in the pool. */
    static method FindChildren(next: Spenders, ghost ins: Inputs, t: TxId, outputs: nat) returns (roots: set<TxId>)
      requires IndexOk(ins, next) && outputs <= 0xffff_ffff
      ensures roots == Children(ins, t, outputs) && roots <= ins.Keys
    {
      hide IndexOk;
      roots := {};
      for i := 0 to outputs
        invariant roots == Children(ins, t, i)
      {
        ChildAt(next, ins, t, i);
        if OutPoint(t, i) in next {
          roots := roots + {next[OutPoint(t, i)]};
        }
      }
    }

    /** The loop that gathers them. */
    static method AllDescendants(p: Pool, roots: set<TxId>) returns (removes: set<TxId>)
      requires roots <= p.Keys
      ensures removes == WithDescendants(p, roots)
    {
      removes := {};
      var todo := roots;
      assert roots - todo == {};
      assert WithDescendants(p, {}) == {};
      hide WithDescendants, Descendants;
      while todo != {}
        invariant todo <= roots && removes == WithDescendants(p, roots - todo)
        decreases todo
      {
        Inhabited(todo);
        var r :| r in todo;
        DescendantsNext(p, roots - todo, r);
        assert roots - todo + {r} == roots - (todo - {r});
        removes := removes + Descendants(p, r);
        todo := todo - {r};
      }
      assert roots - {} == roots;
    }

    /** Removes what spends an output that tx spends, with everything that depends on it. */
    method RemoveConflicts(tx: BlockTx)
      requires Valid() && (Proper(tx.inputs) || IsCoinbase(tx.inputs))
      modifies this
      ensures Valid()
      ensures var gone := WithDescendants(old(mapTx), Rivals(old(inputs), tx.id, Spends(tx.inputs)));
              Removed(old(mapTx), mapTx, gone) && inputs == old(inputs) - gone
    {
      hide ValidPool, IndexOk, Linked, Removed, WithDescendants, Rivals, Spends, Proper, Found, Tried;
      ghost var p, ins := mapTx, inputs;
      NoRivals(p, ins, tx.id);
      TriedNone(tx.inputs);
      for k := 0 to |tx.inputs|
        invariant Valid()
        invariant Removed(p, mapTx, WithDescendants(p, Rivals(ins, tx.id, Tried(tx.inputs, k))))
        invariant inputs == ins - WithDescendants(p, Rivals(ins, tx.id, Tried(tx.inputs, k)))
      {
        TriedNext(tx.inputs, k);
        if !tx.inputs[k].isNickname {
          ghost var outs, o := Tried(tx.inputs, k), tx.inputs[k].prevout;
          ghost var gone, q := WithDescendants(p, Rivals(ins, tx.id, outs)), mapTx;
          RivalsNext(p, q, bytesPerSigop, ins, mapNextTx, tx.id, outs, o);
          ghost var more := WithDescendants(q, Found(inputs, mapNextTx, tx.id, o));
          RemoveSpender(tx.id, tx.inputs[k].prevout);
          RemovedTwice(p, q, mapTx, gone, more);
          assert ins - gone - more == ins - (gone + more);
        } else {
          assert Tried(tx.inputs, k) + {} == Tried(tx.inputs, k);
        }
      }
      TriedAll(tx.inputs);
    }

    /** One input: the entry that spends the same output goes, unless it is tx itself or a nickname registration. */
    method RemoveSpender(id: TxId, o: OutPoint)
      requires Valid()
      modifies this
      ensures Valid()
      ensures var gone := WithDescendants(old(mapTx), Found(old(inputs), old(mapNextTx), id, o));
              Removed(old(mapTx), mapTx, gone) && inputs == old(inputs) - gone
    {
      hide ValidPool, Linked, Removed, WithDescendants;
      LinkedKeys(mapTx, inputs);
      NoRivals(mapTx, inputs, id);
      if o in mapNextTx {
        var c := mapNextTx[o];
        if c != id {
          var isNick := true;
          for i := 0 to |inputs[c]|
            invariant isNick <==> forall k :: 0 <= k < i ==> inputs[c][k].isNickname
          {
            if !inputs[c][i].isNickname {
              isNick := false;
            }
          }
          if !isNick {
            RemoveRecursive(c, 0);
          }
        }
      }
    }

    /** Takes the transactions of a block out, in its order, each with what conflicts with it. */
    method RemoveForBlock(block: seq<BlockTx>)
      requires Valid() && Connects(mapTx.Keys, inputs, block)
      modifies this
      ensures Valid()
      ensures Removed(old(mapTx), mapTx, GoneWith(old(mapTx), old(inputs), block))
      ensures inputs == old(inputs) - GoneWith(old(mapTx), old(inputs), block)
    {
      hide ValidPool, IndexOk, Linked, Removed, WithDescendants, Rivals, Spends, Proper, Connects, GoneWith;
      ghost var p, ins := mapTx, inputs;
      NothingGone(p, ins, block);
      for i := 0 to |block|
        invariant Valid()
        invariant Removed(p, mapTx, GoneWith(p, ins, block[..i])) && inputs == ins - GoneWith(p, ins, block[..i])
      {
        RemoveBlockTx(p, ins, block, i);
      }
      assert block[..|block|] == block;
    }

    method RemoveBlockTx(ghost p: Pool, ghost ins: Inputs, block: seq<BlockTx>, i: nat)
      requires Valid() && ValidPool(p, bytesPerSigop) && Connects(p.Keys, ins, block) && i < |block|
      requires Removed(p, mapTx, GoneWith(p, ins, block[..i])) && inputs == ins - GoneWith(p, ins, block[..i])
      modifies this
      ensures Valid()
      ensures Removed(p, mapTx, GoneWith(p, ins, block[..i + 1])) && inputs == ins - GoneWith(p, ins, block[..i + 1])
    {
      hide ValidPool, IndexOk, Linked, Removed, WithDescendants, Rivals, Spends, Proper, Connects, GoneWith;
      ghost var gone, q := GoneWith(p, ins, block[..i]), mapTx;
      var t := block[i].id;
      LinkedKeys(mapTx, inputs);
      if t in mapTx {
        RemovedKeys(p, q, gone);
        NoAncestorsLeft(p, q, ins, block, i);
        RemoveMined(t);
        RemovedTwice(p, q, mapTx, gone, {t});
      } else {
        AbsentRemoved(p, q, gone, bytesPerSigop, t);
      }
      assert inputs == ins - (gone + {t});
      GoneNext(p, mapTx, bytesPerSigop, ins, block, i);
      ghost var r := mapTx;
      ghost var more := WithDescendants(r, Rivals(inputs, t, Spends(block[i].inputs)));
      FitsAt(p.Keys, ins, block, i);
      RemoveConflicts(block[i]);
      RemovedTwice(p, r, mapTx, gone + {t}, more);
      assert ins - (gone + {t}) - more == ins - (gone + {t} + more);
    }

    /** Changes the fee by which a transaction is judged. */
    method Prioritise(t: TxId, delta: int)
      requires Valid()
      modifies this
      ensures Valid()
      ensures if t in old(mapTx) then Prioritised(old(mapTx), mapTx, t, delta) else mapTx == old(mapTx)
      ensures inputs == old(inputs) && mapNextTx == old(mapNextTx)
    {
      hide ValidPool, Prioritised, Raised, Descendants, Total, Sum, Linked, IndexOk;
      if t in mapTx {
        ghost var p := mapTx;
        NotOwnAncestor(p, bytesPerSigop, t);
        var e := mapTx[t];
        mapTx := mapTx[t := e.(modFee := e.modFee + delta, modFeesWithAncestors := e.modFeesWithAncestors + delta)];
        RaisedStart(p, mapTx, t, delta);
        mapTx := RaiseDescendants(p, mapTx, t, delta);
        PrioritisedValid(p, bytesPerSigop, mapTx, t, delta);
        PrioritisedLinked(p, mapTx, inputs, t, delta);
      }
    }

    /** The loop over the descendants of a prioritised transaction. */
    static method RaiseDescendants(ghost p: Pool, before: Pool, t: TxId, delta: int) returns (m: Pool)
      requires t in p && t in before && Raised(p, before, t, delta, Descendants(before, t) - {t})
      ensures Prioritised(p, m, t, delta)
    {
      hide Raised, Prioritised, Descendants;
      m := before;
      var todo := Descendants(m, t) - {t};
      while todo != {}
        invariant Raised(p, m, t, delta, todo)
        decreases todo
      {
        Inhabited(todo);
        var d :| d in todo;
        RaisedNext(p, m, t, delta, todo, d);
        m := m[d := m[d].(modFeesWithAncestors := m[d].modFeesWithAncestors + delta)];
        todo := todo - {d};
      }
      RaisedEnd(p, m, t, delta);
    }
  }
}
