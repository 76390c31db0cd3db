/**
 What keeps the totals the memory pool caches exact: adding a transaction, removing a
 mined one or one with its descendants, and changing a priority.
 */
module MempoolUpdates {
  import opened Mempool

  /** One entry with the totals of its package under these quantities. */
  ghost predicate Cached(p: Pool, bytesPerSigop: nat, t: TxId)
    requires t in p
  {
    && t !in p[t].ancestors && p[t].ancestors <= p.Keys
    && (forall a :: a in p[t].ancestors ==> a in p && p[a].ancestors <= p[t].ancestors)
    && p[t].weight > 0 && p[t].size == VirtualSize(p[t].weight, p[t].sigops, bytesPerSigop)
    && p[t].sizeWithAncestors == Total(Sizes(p), Package(p, t))
    && p[t].sigopsWithAncestors == Total(Sigops(p), Package(p, t))
    && p[t].modFeesWithAncestors == Sum(ModFees(p), Package(p, t))
  }

  lemma CachedAt(p: Pool, bytesPerSigop: nat, t: TxId)
    requires ValidPool(p, bytesPerSigop) && t in p
    ensures Cached(p, bytesPerSigop, t)
  {
    hide Total, Sum;
  }

  lemma AllCached(p: Pool, bytesPerSigop: nat)
    requires forall t :: t in p ==> Cached(p, bytesPerSigop, t)
    ensures ValidPool(p, bytesPerSigop)
  {
    hide Total, Sum;
    forall t | t in p ensures Cached(p, bytesPerSigop, t) {
    }
  }

  /** Size, sigops and modified fee of the members are the same in both pools. */
  predicate Agree(p: Pool, q: Pool, s: set<TxId>)
  {
    s <= p.Keys && s <= q.Keys &&
    forall t :: t in s ==> q[t].size == p[t].size && q[t].sigops == p[t].sigops && q[t].modFee == p[t].modFee
  }

  lemma AgreeTotals(p: Pool, q: Pool, s: set<TxId>)
    requires Agree(p, q, s)
    ensures Total(Sizes(q), s) == Total(Sizes(p), s) && Total(Sigops(q), s) == Total(Sigops(p), s)
    ensures Sum(ModFees(q), s) == Sum(ModFees(p), s)
  {
    TotalFrame(Sizes(q), Sizes(p), s);
    TotalFrame(Sigops(q), Sigops(p), s);
    SumFrame(ModFees(q), ModFees(p), s);
  }

  lemma TotalsWithout(p: Pool, s: set<TxId>, x: TxId)
    requires s <= p.Keys && x in s
    ensures Total(Sizes(p), s) == p[x].size + Total(Sizes(p), s - {x})
    ensures Total(Sigops(p), s) == p[x].sigops + Total(Sigops(p), s - {x})
    ensures Sum(ModFees(p), s) == p[x].modFee + Sum(ModFees(p), s - {x})
  {
    TotalRemove(Sizes(p), s, x);
    TotalRemove(Sigops(p), s, x);
    SumRemove(ModFees(p), s, x);
  }

  // ----- Adding

  /** The other entries are untouched, and the new one depends on `ancestors`. */
  ghost predicate Added(p: Pool, q: Pool, t: TxId, e: Entry, ancestors: set<TxId>)
  {
    && q.Keys == p.Keys + {t} && (forall d :: d in p && d != t ==> q[d] == p[d])
    && t in q && q[t] == e.(ancestors := ancestors, sizeWithAncestors := q[t].sizeWithAncestors,
                            sigopsWithAncestors := q[t].sigopsWithAncestors, modFeesWithAncestors := q[t].modFeesWithAncestors)
  }

  lemma AddedValid(p: Pool, bytesPerSigop: nat, q: Pool, t: TxId, e: Entry, ancestors: set<TxId>)
    requires ValidPool(p, bytesPerSigop) && t !in p && Closed(p, ancestors) && Added(p, q, t, e, ancestors)
    requires e.weight > 0 && e.size == VirtualSize(e.weight, e.sigops, bytesPerSigop)
    requires q[t].sizeWithAncestors == e.size + Total(Sizes(p), ancestors)
    requires q[t].sigopsWithAncestors == e.sigops + Total(Sigops(p), ancestors)
    requires q[t].modFeesWithAncestors == e.modFee + Sum(ModFees(p), ancestors)
    ensures ValidPool(q, bytesPerSigop)
  {
    hide Total, Sum, ValidPool;
    forall d | d in q ensures Cached(q, bytesPerSigop, d) {
      if d == t {
        NewCached(p, bytesPerSigop, q, t, ancestors);
      } else {
        CachedAt(p, bytesPerSigop, d);
        OldCached(p, bytesPerSigop, q, t, e, ancestors, d);
      }
    }
    AllCached(q, bytesPerSigop);
  }

  lemma OldCached(p: Pool, bytesPerSigop: nat, q: Pool, t: TxId, e: Entry, ancestors: set<TxId>, d: TxId)
    requires t !in p && Added(p, q, t, e, ancestors) && d in p && Cached(p, bytesPerSigop, d)
    ensures Cached(q, bytesPerSigop, d)
  {
    hide Total, Sum;
    AgreeTotals(p, q, Package(p, d));
  }

  lemma NewCached(p: Pool, bytesPerSigop: nat, q: Pool, t: TxId, ancestors: set<TxId>)
    requires t !in p && Closed(p, ancestors) && t in q && q[t].ancestors == ancestors && q.Keys == p.Keys + {t}
    requires forall d :: d in p ==> q[d] == p[d]
    requires q[t].weight > 0 && q[t].size == VirtualSize(q[t].weight, q[t].sigops, bytesPerSigop)
    requires q[t].sizeWithAncestors == q[t].size + Total(Sizes(p), ancestors)
    requires q[t].sigopsWithAncestors == q[t].sigops + Total(Sigops(p), ancestors)
    requires q[t].modFeesWithAncestors == q[t].modFee + Sum(ModFees(p), ancestors)
    ensures Cached(q, bytesPerSigop, t)
  {
    hide Total, Sum;
    assert Package(q, t) - {t} == ancestors;
    TotalsWithout(q, Package(q, t), t);
    AgreeTotals(p, q, ancestors);
  }

  // ----- Removing one transaction without ancestors

  /** The pool without t, which is taken off the ancestors of what depends on it. */
  ghost predicate Removed(p: Pool, q: Pool, gone: set<TxId>)
  {
    && q.Keys == p.Keys - gone
    && forall d :: d in q ==>
         q[d] == p[d].(ancestors := p[d].ancestors - gone, sizeWithAncestors := q[d].sizeWithAncestors,
                       sigopsWithAncestors := q[d].sigopsWithAncestors, modFeesWithAncestors := q[d].modFeesWithAncestors)
  }

  /** The totals of d are lower by those of t. */
  predicate Lowered(p: Pool, d: Entry, e: Entry, t: TxId)
    requires t in p
  {
    e == d.(sizeWithAncestors := d.sizeWithAncestors - p[t].size, sigopsWithAncestors := d.sigopsWithAncestors - p[t].sigops,
            modFeesWithAncestors := d.modFeesWithAncestors - p[t].modFee)
  }

  /** The totals of the descendants are lowered, and then t is erased and its links are cut. */
  ghost predicate Erased(p: Pool, q: Pool, t: TxId)
    requires t in p
  {
    && q.Keys == p.Keys - {t}
    && forall d :: d in q ==>
         if t in p[d].ancestors then Lowered(p, p[d].(ancestors := p[d].ancestors - {t}), q[d], t) else q[d] == p[d]
  }

  lemma ErasedValid(p: Pool, bytesPerSigop: nat, q: Pool, t: TxId)
    requires ValidPool(p, bytesPerSigop) && t in p && p[t].ancestors == {} && Erased(p, q, t)
    ensures ValidPool(q, bytesPerSigop) && Removed(p, q, {t})
  {
    hide Total, Sum, ValidPool;
    forall d | d in q ensures Cached(q, bytesPerSigop, d) {
      CachedAt(p, bytesPerSigop, d);
      ErasedCached(p, bytesPerSigop, q, t, d);
    }
    AllCached(q, bytesPerSigop);
    forall d | d in q && t !in p[d].ancestors ensures p[d].ancestors - {t} == p[d].ancestors {
    }
  }

  lemma ErasedCached(p: Pool, bytesPerSigop: nat, q: Pool, t: TxId, d: TxId)
    requires t in p && p[t].ancestors == {} && Erased(p, q, t) && d in q && Cached(p, bytesPerSigop, d)
    ensures Cached(q, bytesPerSigop, d)
  {
    hide Total, Sum;
    var rest := Package(p, d) - {t};
    assert Package(q, d) == rest;
    AgreeTotals(p, q, rest);
    if t in p[d].ancestors {
      TotalsWithout(p, Package(p, d), t);
    } else {
      assert rest == Package(p, d);
    }
    forall a | a in q[d].ancestors ensures q[a].ancestors <= q[d].ancestors {
      assert a in p[d].ancestors;
    }
  }

  lemma RemovedTwice(p: Pool, q: Pool, r: Pool, a: set<TxId>, b: set<TxId>)
    requires Removed(p, q, a) && Removed(q, r, b)
    ensures Removed(p, r, a + b)
  {
    forall d | d in r ensures r[d].ancestors == p[d].ancestors - (a + b) {
      assert d in q;
      assert p[d].ancestors - a - b == p[d].ancestors - (a + b);
    }
  }

  // ----- Removing with all descendants, and priorities

  /** Nothing that stays depends on what goes. */
  predicate Independent(p: Pool, gone: set<TxId>)
  {
    forall d :: d in p && d !in gone ==> p[d].ancestors !! gone
  }

  /** These transactions and everything that depends on them. */
  function WithDescendants(p: Pool, roots: set<TxId>): set<TxId>
  {
    set d | d in p && (d in roots || p[d].ancestors * roots != {})
  }

  lemma DescendantsIndependent(p: Pool, bytesPerSigop: nat, roots: set<TxId>)
    requires ValidPool(p, bytesPerSigop)
    ensures Independent(p, WithDescendants(p, roots))
  {
    hide Total, Sum;
    forall d | d in p && d !in WithDescendants(p, roots) ensures p[d].ancestors !! WithDescendants(p, roots) {
      forall a | a in p[d].ancestors ensures a !in WithDescendants(p, roots) {
        AncestorsClosed(p, bytesPerSigop, d);
        assert p[a].ancestors * roots <= p[d].ancestors * roots;
        assert a !in p[d].ancestors * roots;
      }
    }
  }

  lemma DescendantsNext(p: Pool, roots: set<TxId>, r: TxId)
    requires r in p
    ensures WithDescendants(p, roots + {r}) == WithDescendants(p, roots) + Descendants(p, r)
  {
    forall d | d in p ensures p[d].ancestors * (roots + {r}) != {} <==> p[d].ancestors * roots != {} || r in p[d].ancestors {
      assert p[d].ancestors * (roots + {r}) == p[d].ancestors * roots + p[d].ancestors * {r};
      assert r in p[d].ancestors ==> r in p[d].ancestors * {r};
      assert r !in p[d].ancestors ==> p[d].ancestors * {r} == {};
    }
  }

  lemma KeptValid(p: Pool, bytesPerSigop: nat, gone: set<TxId>)
    requires ValidPool(p, bytesPerSigop) && Independent(p, gone)
    ensures ValidPool(p - gone, bytesPerSigop) && Removed(p, p - gone, gone)
  {
    hide Total, Sum, ValidPool;
    var q := p - gone;
    forall d | d in q ensures Cached(q, bytesPerSigop, d) && p[d].ancestors - gone == p[d].ancestors {
      CachedAt(p, bytesPerSigop, d);
      AgreeTotals(p, q, Package(p, d));
    }
    AllCached(q, bytesPerSigop);
  }

  /** The modified fee of t and the totals of everything that depends on it go up by delta. */
  ghost predicate Prioritised(p: Pool, q: Pool, t: TxId, delta: int)
    requires t in p
  {
    && q.Keys == p.Keys
    && forall d :: d in p ==>
         q[d] == p[d].(modFee := p[d].modFee + (if d == t then delta else 0),
                       modFeesWithAncestors := p[d].modFeesWithAncestors + (if d in Descendants(p, t) then delta else 0))
  }

  lemma PrioritisedValid(p: Pool, bytesPerSigop: nat, q: Pool, t: TxId, delta: int)
    requires ValidPool(p, bytesPerSigop) && t in p && Prioritised(p, q, t, delta)
    ensures ValidPool(q, bytesPerSigop)
  {
    hide Total, Sum, ValidPool;
    forall d | d in q ensures Cached(q, bytesPerSigop, d) {
      CachedAt(p, bytesPerSigop, d);
      PrioritisedCached(p, bytesPerSigop, q, t, delta, d);
    }
    AllCached(q, bytesPerSigop);
  }

  lemma PrioritisedCached(p: Pool, bytesPerSigop: nat, q: Pool, t: TxId, delta: int, d: TxId)
    requires t in p && Prioritised(p, q, t, delta) && d in p && Cached(p, bytesPerSigop, d)
    ensures Cached(q, bytesPerSigop, d)
  {
    hide Total, Sum;
    var package := Package(p, d);
    assert Package(q, d) == package;
    TotalFrame(Sizes(q), Sizes(p), package);
    TotalFrame(Sigops(q), Sigops(p), package);
    if t in package {
      SumRemove(ModFees(p), package, t);
      SumRemove(ModFees(q), package, t);
      SumFrame(ModFees(q), ModFees(p), package - {t});
    } else {
      SumFrame(ModFees(q), ModFees(p), package);
    }
  }

  /** Everything that depends on t, but for `todo`, is prioritised. */
  ghost predicate Raised(p: Pool, q: Pool, t: TxId, delta: int, todo: set<TxId>)
    requires t in p
  {
    && todo <= Descendants(p, t) - {t} && q.Keys == p.Keys
    && forall d :: d in p ==> RaisedAt(p[d], q[d], if d == t then delta else 0, if d in Descendants(p, t) && d !in todo then delta else 0)
  }

  predicate RaisedAt(e: Entry, f: Entry, own: int, all: int)
  {
    f == e.(modFee := e.modFee + own, modFeesWithAncestors := e.modFeesWithAncestors + all)
  }

  lemma RaisedStart(p: Pool, q: Pool, t: TxId, delta: int)
    requires t in p && t !in p[t].ancestors
    requires q == p[t := p[t].(modFee := p[t].modFee + delta, modFeesWithAncestors := p[t].modFeesWithAncestors + delta)]
    ensures Descendants(q, t) == Descendants(p, t) && Raised(p, q, t, delta, Descendants(q, t) - {t})
  {
  }

  lemma RaisedNext(p: Pool, q: Pool, t: TxId, delta: int, todo: set<TxId>, d: TxId)
    requires t in p && Raised(p, q, t, delta, todo) && d in todo
    ensures d in q && Raised(p, q[d := q[d].(modFeesWithAncestors := q[d].modFeesWithAncestors + delta)], t, delta, todo - {d})
  {
    assert RaisedAt(p[d], q[d], 0, 0);
  }

  lemma RaisedEnd(p: Pool, q: Pool, t: TxId, delta: int)
    requires t in p && Raised(p, q, t, delta, {})
    ensures Prioritised(p, q, t, delta)
  {
  }

  lemma NoTotals(p: Pool, s: set<TxId>)
    requires s <= p.Keys
    ensures s - s == {} && Total(Sizes(p), {}) == 0 && Total(Sigops(p), {}) == 0 && Sum(ModFees(p), {}) == 0
  {
  }

  /** A transaction that is not in the pool is nobody's ancestor there. */
  lemma AbsentRemoved(p: Pool, q: Pool, gone: set<TxId>, bytesPerSigop: nat, t: TxId)
    requires Removed(p, q, gone) && ValidPool(q, bytesPerSigop) && t !in q
    ensures Removed(p, q, gone + {t})
  {
    hide Total, Sum;
    forall d | d in q ensures q[d].ancestors == p[d].ancestors - (gone + {t}) {
      AncestorsClosed(q, bytesPerSigop, d);
      assert p[d].ancestors - (gone + {t}) == (p[d].ancestors - gone) - {t};
    }
  }

  lemma NotOwnAncestor(p: Pool, bytesPerSigop: nat, t: TxId)
    requires ValidPool(p, bytesPerSigop) && t in p
    ensures t !in p[t].ancestors
  {
    hide Total, Sum;
  }

  lemma IsLowered(p: Pool, d: Entry, e: Entry, t: TxId)
    requires t in p && e.(sizeWithAncestors := 0, sigopsWithAncestors := 0, modFeesWithAncestors := 0)
                       == d.(sizeWithAncestors := 0, sigopsWithAncestors := 0, modFeesWithAncestors := 0)
    requires e.sizeWithAncestors == d.sizeWithAncestors - p[t].size && e.sigopsWithAncestors == d.sigopsWithAncestors - p[t].sigops
    requires e.modFeesWithAncestors == d.modFeesWithAncestors - p[t].modFee
    ensures Lowered(p, d, e, t)
  {
  }

  /** The assertions on totals that are lowered: what depends on t has more than t. */
  lemma DescendantCounts(p: Pool, bytesPerSigop: nat, t: TxId, d: TxId)
    requires ValidPool(p, bytesPerSigop) && t in p && d in p && t in p[d].ancestors
    ensures p[d].sizeWithAncestors > p[t].size && p[d].sigopsWithAncestors >= p[t].sigops
  {
    hide Total, Sum;
    CachedAt(p, bytesPerSigop, d);
    hide ValidPool;
    var package := Package(p, d);
    TotalsWithout(p, package, t);
    TotalsWithout(p, package - {t}, d);
  }

  lemma CutLinks(p: Pool, m: Pool, q: Pool, t: TxId)
    requires t in p && m.Keys == p.Keys
    requires forall d :: d in p ==> if t in p[d].ancestors then Lowered(p, p[d], m[d], t) else m[d] == p[d]
    requires q == map d | d in m && d != t :: m[d].(ancestors := m[d].ancestors - {t})
    ensures Erased(p, q, t)
  {
    hide Lowered;
    forall d | d in q ensures if t in p[d].ancestors then Lowered(p, p[d].(ancestors := p[d].ancestors - {t}), q[d], t) else q[d] == p[d] {
      if t in p[d].ancestors {
        CutLink(p, p[d], m[d], t);
      } else {
        assert p[d].ancestors - {t} == p[d].ancestors;
      }
    }
  }

  lemma CutLink(p: Pool, d: Entry, e: Entry, t: TxId)
    requires t in p && Lowered(p, d, e, t)
    ensures e.ancestors == d.ancestors && Lowered(p, d.(ancestors := d.ancestors - {t}), e.(ancestors := d.ancestors - {t}), t)
  {
  }
}
