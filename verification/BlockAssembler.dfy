/**
 Selection of packages of transactions for a block: the greedy loop that keeps a
 side table of totals for transactions some of whose ancestors are selected.
 */
module BlockAssembler {
  import opened Mempool

  const MAX_BLOCK_SIGOPS_COST := 2880000
  const MAX_CONSECUTIVE_FAILURES := 1000
  const COINBASE_WEIGHT := 4000
  const COINBASE_SIGOPS := 400

  /** Totals of a transaction with its ancestors that are not yet selected. */
  datatype Totals = Totals(size: int, modFees: int, sigops: int)

  type Modified = map<TxId, Totals>

  function PoolTotals(e: Entry): Totals
  {
    Totals(e.sizeWithAncestors, e.modFeesWithAncestors, e.sigopsWithAncestors)
  }

  // ----- The side table

  /** The totals an update starts from: the recorded ones, or those of the pool. */
  function Base(p: Pool, m: Modified, d: TxId): Totals
    requires d in p
  {
    if d in m then m[d] else PoolTotals(p[d])
  }

  /**
   The fees of the package of d after its ancestors in `gone` were taken off one by
   one: the first by its modified fee, the others by their plain fees.
   */
  ghost predicate Paid(p: Pool, fees: int, d: TxId, gone: set<TxId>)
    requires d in p && gone <= p.Keys
  {
    if gone == {} then fees == p[d].modFeesWithAncestors else exists f :: f in gone && PaidFirst(p, fees, d, gone, f)
  }

  ghost predicate PaidFirst(p: Pool, fees: int, d: TxId, gone: set<TxId>, f: TxId)
    requires d in p && gone <= p.Keys && f in p
  {
    fees == p[d].modFeesWithAncestors - Total(Fees(p), gone) - (p[f].modFee - p[f].fee)
  }

  /** Without prioritised transactions these are the fees of what remains. */
  lemma PaidPlain(p: Pool, bytesPerSigop: nat, fees: int, d: TxId, gone: set<TxId>)
    requires ValidPool(p, bytesPerSigop) && Plain(p) && d in p && gone <= p[d].ancestors && gone <= p.Keys && Paid(p, fees, d, gone)
    ensures Package(p, d) <= p.Keys && fees == Total(Fees(p), Package(p, d) - gone)
  {
    CachedTotals(p, bytesPerSigop, d);
    hide ValidPool, Total, Fees;
    var package := Package(p, d);
    assert gone <= package;
    hide Package;
    TotalUnion(Fees(p), package - gone, gone);
    assert package - gone + gone == package;
    if gone == {} {
      assert package - gone == package;
    }
  }

  /** The totals of d after the ancestors in `done` were taken off its base totals. */
  ghost predicate Adjusted(p: Pool, before: Modified, after: Modified, d: TxId, done: set<TxId>)
    requires d in p && d in after && p[d].ancestors <= p.Keys
  {
    && after[d].size == Base(p, before, d).size - Total(Sizes(p), p[d].ancestors * done)
    && after[d].sigops == Base(p, before, d).sigops - Total(Sigops(p), p[d].ancestors * done)
    && (if d in before then after[d].modFees == before[d].modFees - Total(Fees(p), p[d].ancestors * done)
        else Paid(p, after[d].modFees, d, p[d].ancestors * done))
  }

  /** Transactions outside `added` with an ancestor in `done`. */
  function Affected(p: Pool, added: set<TxId>, done: set<TxId>): set<TxId>
  {
    set d | d in p && d !in added && p[d].ancestors * done != {}
  }

  /** The totals are those of the package of d without the transactions of `since`. */
  ghost predicate Recorded(p: Pool, totals: Totals, d: TxId, since: seq<TxId>)
  {
    && d in p && Package(p, d) <= p.Keys
    && var rest := Package(p, d) - Elements(since);
       && totals.size == Total(Sizes(p), rest)
       && totals.sigops == Total(Sigops(p), rest)
       && Paid(p, totals.modFees, d, p[d].ancestors * Elements(since))
  }

  lemma AdjustedStep(p: Pool, before: Modified, m: Modified, d: TxId, done: set<TxId>, it: TxId, t: Totals)
    requires d in p && p[d].ancestors <= p.Keys && it in p[d].ancestors && it !in done
    requires d in m ==> Adjusted(p, before, m, d, done)
    requires d in m <==> d in before || p[d].ancestors * done != {}
    requires t.size == Base(p, m, d).size - p[it].size && t.sigops == Base(p, m, d).sigops - p[it].sigops
    requires t.modFees == if d in m then m[d].modFees - p[it].fee else p[d].modFeesWithAncestors - p[it].modFee
    ensures Adjusted(p, before, m[d := t], d, done + {it})
  {
    var inter := p[d].ancestors * (done + {it});
    assert inter - {it} == p[d].ancestors * done;
    TotalRemove(Sizes(p), inter, it);
    TotalRemove(Sigops(p), inter, it);
    TotalRemove(Fees(p), inter, it);
    if d !in before {
      PaidNext(p, if d in m then m[d].modFees else p[d].modFeesWithAncestors, t.modFees, d, p[d].ancestors * done, it);
      assert inter == p[d].ancestors * done + {it};
    }
  }

  lemma PaidNext(p: Pool, before: int, after: int, d: TxId, gone: set<TxId>, it: TxId)
    requires d in p && gone <= p.Keys && it in p && it !in gone && Paid(p, before, d, gone)
    requires after == before - if gone == {} then p[it].modFee else p[it].fee
    ensures Paid(p, after, d, gone + {it})
  {
    var inter := gone + {it};
    TotalRemove(Fees(p), inter, it);
    assert inter - {it} == gone;
    if gone == {} {
      assert Total(Fees(p), gone) == 0;
      assert PaidFirst(p, after, d, inter, it);
    } else {
      var f :| f in gone && PaidFirst(p, before, d, gone, f);
      assert PaidFirst(p, after, d, inter, f);
    }
  }

  lemma AdjustedSame(p: Pool, before: Modified, m: Modified, d: TxId, done: set<TxId>, it: TxId)
    requires d in p && p[d].ancestors <= p.Keys && it !in p[d].ancestors && d in m
    ensures Adjusted(p, before, m, d, done + {it}) == Adjusted(p, before, m, d, done)
  {
    assert p[d].ancestors * (done + {it}) == p[d].ancestors * done;
  }

  /** Exact adjustment by the newly selected transactions keeps recorded totals exact. */
  lemma AdjustedRecorded(p: Pool, before: Modified, after: Modified, d: TxId, since: seq<TxId>, added: seq<TxId>)
    requires d in p && d in after && d !in Elements(added) && Package(p, d) <= p.Keys && Elements(since) !! Elements(added)
    requires Adjusted(p, before, after, d, Elements(added))
    requires Recorded(p, Base(p, before, d), d, since) && (d in before <==> Meets(p, d, since))
    ensures Recorded(p, after[d], d, since + added)
  {
    hide Total, Elements, Paid;
    ElementsAppend(since, added);
    var hit := p[d].ancestors * Elements(added);
    assert hit == Package(p, d) * Elements(added);
    hide Package;
    Remaining(Sizes(p), Package(p, d), Elements(since), Elements(added), hit);
    Remaining(Sigops(p), Package(p, d), Elements(since), Elements(added), hit);
    PaidMore(p, Base(p, before, d).modFees, after[d].modFees, d, p[d].ancestors * Elements(since), hit);
    assert p[d].ancestors * (Elements(since) + Elements(added)) == p[d].ancestors * Elements(since) + hit;
  }

  lemma PaidMore(p: Pool, before: int, after: int, d: TxId, gone: set<TxId>, more: set<TxId>)
    requires d in p && gone <= p.Keys && more <= p.Keys && gone !! more && Paid(p, before, d, gone)
    requires if gone == {} then Paid(p, after, d, more) else after == before - Total(Fees(p), more)
    ensures Paid(p, after, d, gone + more)
  {
    hide Total;
    if gone == {} {
      assert gone + more == more;
    } else {
      TotalUnion(Fees(p), gone, more);
      var f :| f in gone && PaidFirst(p, before, d, gone, f);
      assert PaidFirst(p, after, d, gone + more, f);
    }
  }

  /** The totals of the pool are those of the whole package. */
  lemma PoolRecorded(p: Pool, bytesPerSigop: nat, d: TxId, since: seq<TxId>)
    requires ValidPool(p, bytesPerSigop) && d in p && d !in Elements(since) && !Meets(p, d, since)
    ensures Recorded(p, PoolTotals(p[d]), d, since)
  {
    CachedTotals(p, bytesPerSigop, d);
    hide ValidPool, Total;
    assert Package(p, d) * Elements(since) == p[d].ancestors * Elements(since);
    Untouched(Package(p, d), Elements(since));
  }

  lemma ElementsAppend(a: seq<TxId>, b: seq<TxId>)
    ensures Elements(a + b) == Elements(a) + Elements(b)
  {
  }

  lemma Untouched(a: set<TxId>, b: set<TxId>)
    requires a * b == {}
    ensures a - b == a
  {
    assert a - b == a - a * b;
  }

  lemma Remaining(w: map<TxId, nat>, package: set<TxId>, selected: set<TxId>, added: set<TxId>, hit: set<TxId>)
    requires package <= w.Keys && selected !! added && hit == package * added
    ensures Total(w, package - (selected + added)) + Total(w, hit) == Total(w, package - selected)
  {
    TotalUnion(w, package - (selected + added), hit);
    assert package - (selected + added) + hit == package - selected;
  }

  // ----- Ordering a package

  /** The order by number of ancestors, then by id. */
  predicate Before(p: Pool, a: TxId, b: TxId)
    requires a in p && b in p
  {
    if |p[a].ancestors| != |p[b].ancestors| then |p[a].ancestors| < |p[b].ancestors| else a < b
  }

  predicate Sorted(p: Pool, s: seq<TxId>)
  {
    && (forall t :: t in s ==> t in p)
    && (forall i, j :: 0 <= i < j < |s| ==> Before(p, s[i], s[j]))
  }

  function Elements(s: seq<TxId>): set<TxId> { set t | t in s }

  function Insert(p: Pool, s: seq<TxId>, t: TxId): (r: seq<TxId>)
    requires t in p && Sorted(p, s) && t !in s
    ensures Elements(r) == Elements(s) + {t}
    ensures Sorted(p, r)
  {
    if s == [] then [t]
    else if Before(p, t, s[0]) then [t] + s
    else
      var rest := Insert(p, s[1..], t);
      InsertRest(p, s, t, rest);
      [s[0]] + rest
  }

  lemma InsertRest(p: Pool, s: seq<TxId>, t: TxId, rest: seq<TxId>)
    requires t in p && Sorted(p, s) && s != [] && t !in s && !Before(p, t, s[0])
    requires Sorted(p, rest) && Elements(rest) == Elements(s[1..]) + {t}
    ensures Sorted(p, [s[0]] + rest) && Elements([s[0]] + rest) == Elements(s) + {t}
  {
    assert Elements(s) == {s[0]} + Elements(s[1..]);
    assert Elements([s[0]] + rest) == {s[0]} + Elements(rest);
    forall x | x in rest ensures Before(p, s[0], x) {
      assert x in Elements(rest);
      if x != t {
        assert x in s[1..];
      }
    }
  }

  method SortForBlock(p: Pool, package: set<TxId>) returns (sorted: seq<TxId>)
    requires package <= p.Keys
    ensures Sorted(p, sorted) && Elements(sorted) == package
  {
    sorted := [];
    var todo := package;
    while todo != {}
      invariant todo <= package && Sorted(p, sorted) && Elements(sorted) == package - todo
      decreases todo
    {
      Inhabited(todo);
      var t :| t in todo;
      assert t !in Elements(sorted);
      sorted := Insert(p, sorted, t);
      todo := todo - {t};
    }
  }

  /** The list has no repetitions and each transaction follows its ancestors, those in `earlier` aside. */
  predicate Topological(p: Pool, earlier: set<TxId>, s: seq<TxId>)
  {
    && (forall i :: 0 <= i < |s| ==> s[i] in p && p[s[i]].ancestors <= earlier + Elements(s[..i]))
    && (forall i, j :: 0 <= i < j < |s| ==> s[i] != s[j])
  }

  /** Sorting by ancestor count is a valid order for a package whose other ancestors are selected. */
  lemma SortedTopological(p: Pool, bytesPerSigop: nat, selected: set<TxId>, s: seq<TxId>)
    requires ValidPool(p, bytesPerSigop) && Sorted(p, s)
    requires forall t :: t in s ==> p[t].ancestors <= selected + Elements(s)
    ensures Topological(p, selected, s)
  {
    forall i | 0 <= i < |s| ensures p[s[i]].ancestors <= selected + Elements(s[..i]) {
      forall a | a in p[s[i]].ancestors && a !in selected ensures a in Elements(s[..i]) {
        assert a in Elements(s);
        var j :| 0 <= j < |s| && s[j] == a;
        FewerAncestors(p, bytesPerSigop, s[i], a);
        assert j != i && !(i < j);
        assert s[..i][j] == a;
      }
    }
  }

  lemma TopologicalAppend(p: Pool, a: seq<TxId>, b: seq<TxId>)
    requires Topological(p, {}, a) && Topological(p, Elements(a), b) && Elements(a) !! Elements(b)
    ensures Topological(p, {}, a + b)
    ensures Elements(a + b) == Elements(a) + Elements(b)
  {
    var s := a + b;
    forall i | 0 <= i < |s| ensures s[i] in p && p[s[i]].ancestors <= {} + Elements(s[..i]) {
      if i < |a| {
        assert s[..i] == a[..i];
      } else {
        assert s[..i] == a + b[..i - |a|];
        assert Elements(s[..i]) == Elements(a) + Elements(b[..i - |a|]);
      }
    }
    forall i, j | 0 <= i < j < |s| ensures s[i] != s[j] {
      if i < |a| <= j {
        assert s[i] in Elements(a) && s[j] in Elements(b);
      }
    }
  }

  // ----- The state of a selection

  /** The block so far: a closed set of transactions in a valid order, with exact weight and sigop counts. */
  ghost predicate BlockOk(p: Pool, inBlock: set<TxId>, vtx: seq<TxId>, weight: int, sigops: int)
  {
    && Closed(p, inBlock)
    && Elements(vtx) == inBlock
    && Topological(p, {}, vtx)
    && weight == COINBASE_WEIGHT + Total(Weights(p), inBlock)
    && sigops == COINBASE_SIGOPS + Total(Sigops(p), inBlock)
  }

  /** An ancestor of t is among these transactions. */
  predicate Meets(p: Pool, t: TxId, s: seq<TxId>)
    requires t in p
  {
    p[t].ancestors * Elements(s) != {}
  }

  /** The length of the block when t last failed. */
  function Last(since: map<TxId, nat>, t: TxId): nat
  {
    if t in since then since[t] else 0
  }

  /** What was selected after t last failed. */
  function After(since: map<TxId, nat>, vtx: seq<TxId>, t: TxId): seq<TxId>
  {
    if Last(since, t) <= |vtx| then vtx[Last(since, t)..] else []
  }

  /**
   The side table lists exactly the transactions with an ancestor selected since they
   last failed, each with the totals of its package without what was selected since then.
   */
  ghost predicate TableOk(p: Pool, m: Modified, since: map<TxId, nat>, vtx: seq<TxId>)
  {
    && m.Keys <= p.Keys - Elements(vtx)
    && (forall t :: t in p ==> p[t].ancestors <= p.Keys)
    && (forall t :: t in since ==> since[t] <= |vtx|)
    && (forall t :: t in p && t !in Elements(vtx) ==> Tracked(p, m, t, After(since, vtx, t)))
  }

  ghost predicate Tracked(p: Pool, m: Modified, t: TxId, since: seq<TxId>)
    requires t in p
  {
    (t in m <==> Meets(p, t, since)) && (t in m ==> Recorded(p, m[t], t, since))
  }

  /** An entry that is not skipped and not in the side table is judged by the totals of the pool. */
  lemma FreshRecorded(p: Pool, bytesPerSigop: nat, m: Modified, since: map<TxId, nat>, vtx: seq<TxId>, t: TxId)
    requires ValidPool(p, bytesPerSigop) && TableOk(p, m, since, vtx)
    requires t in p && t !in m && t !in Elements(vtx) && t !in since
    ensures Recorded(p, PoolTotals(p[t]), t, After(since, vtx, t))
  {
    assert After(since, vtx, t) == vtx;
    hide ValidPool, Recorded;
    PoolRecorded(p, bytesPerSigop, t, vtx);
  }

  lemma PackageClosed(p: Pool, bytesPerSigop: nat, inBlock: set<TxId>, t: TxId, package: set<TxId>)
    requires ValidPool(p, bytesPerSigop) && Closed(p, inBlock) && t in p && t !in inBlock
    requires package == Package(p, t) - inBlock
    ensures Closed(p, inBlock + package)
    ensures forall x :: x in package ==> x in p && p[x].ancestors <= inBlock + package
  {
    AncestorsClosed(p, bytesPerSigop, t);
    hide ValidPool;
    forall x | x in package ensures x in p && p[x].ancestors <= inBlock + package {
      assert x in Package(p, t);
    }
  }

  lemma PackageFits(p: Pool, bytesPerSigop: nat, inBlock: set<TxId>, package: set<TxId>, totals: Totals)
    requires ValidPool(p, bytesPerSigop) && inBlock <= p.Keys && package <= p.Keys && inBlock !! package
    requires Total(Sizes(p), package) <= totals.size && Total(Sigops(p), package) <= totals.sigops
    ensures Total(Weights(p), inBlock + package) <= Total(Weights(p), inBlock) + WITNESS_SCALE_FACTOR * totals.size
    ensures Total(Sigops(p), inBlock + package) <= Total(Sigops(p), inBlock) + totals.sigops
  {
    TotalUnion(Weights(p), inBlock, package);
    TotalUnion(Sigops(p), inBlock, package);
    WeightBySize(p, bytesPerSigop, package);
  }

  /** The side table stays right after a package is selected and the table updated. */
  lemma UpdatedTable(p: Pool, bytesPerSigop: nat, m: Modified, u: Modified, since: map<TxId, nat>,
                     vtx: seq<TxId>, sorted: seq<TxId>)
    requires ValidPool(p, bytesPerSigop) && TableOk(p, m, since, vtx)
    requires Elements(sorted) <= p.Keys && Elements(sorted) !! Elements(vtx) && Closed(p, Elements(vtx))
    requires UpdateSpec(p, m - Elements(sorted), u, Elements(sorted))
    ensures TableOk(p, u, since, vtx + sorted)
  {
    hide ValidPool, Tracked, Elements, Adjusted, Affected;
    ElementsAppend(vtx, sorted);
    forall t | t in p && t !in Elements(vtx + sorted) ensures Tracked(p, u, t, After(since, vtx + sorted, t)) {
      UpdatedEntry(p, bytesPerSigop, m, u, since, vtx, sorted, t);
    }
    UpdatedOutside(p, m, u, since, vtx, sorted);
  }

  lemma UpdatedEntry(p: Pool, bytesPerSigop: nat, m: Modified, u: Modified, since: map<TxId, nat>,
                     vtx: seq<TxId>, sorted: seq<TxId>, t: TxId)
    requires ValidPool(p, bytesPerSigop) && TableOk(p, m, since, vtx) && Elements(sorted) !! Elements(vtx)
    requires UpdateSpec(p, m - Elements(sorted), u, Elements(sorted))
    requires t in p && t !in Elements(vtx) && t !in Elements(sorted)
    ensures Tracked(p, u, t, After(since, vtx + sorted, t))
  {
    hide ValidPool, Recorded, Elements, Adjusted, Meets;
    var s, added := After(since, vtx, t), Elements(sorted);
    assert After(since, vtx + sorted, t) == s + sorted;
    MeetsAppend(p, t, s, sorted);
    AfterSelected(since, vtx, t);
    assert t in Affected(p, added, added) <==> Meets(p, t, sorted) by { MeetsAffected(p, t, sorted); }
    if t in u {
      if t !in m {
        PoolRecorded(p, bytesPerSigop, t, s);
      }
      PackageKnown(p, t);
      AdjustedRecorded(p, m - added, u, t, s, sorted);
    }
  }

  lemma PackageKnown(p: Pool, t: TxId)
    requires t in p && p[t].ancestors <= p.Keys
    ensures Package(p, t) <= p.Keys
  {
  }

  lemma AfterSelected(since: map<TxId, nat>, vtx: seq<TxId>, t: TxId)
    ensures Elements(After(since, vtx, t)) <= Elements(vtx)
  {
  }

  lemma MeetsAffected(p: Pool, t: TxId, sorted: seq<TxId>)
    requires t in p && t !in Elements(sorted)
    ensures t in Affected(p, Elements(sorted), Elements(sorted)) <==> Meets(p, t, sorted)
  {
  }

  lemma MeetsAppend(p: Pool, t: TxId, a: seq<TxId>, b: seq<TxId>)
    requires t in p
    ensures Meets(p, t, a + b) <==> Meets(p, t, a) || Meets(p, t, b)
  {
    ElementsAppend(a, b);
    hide Elements;
    assert p[t].ancestors * (Elements(a) + Elements(b)) == p[t].ancestors * Elements(a) + p[t].ancestors * Elements(b);
  }

  lemma UpdatedOutside(p: Pool, m: Modified, u: Modified, since: map<TxId, nat>, vtx: seq<TxId>, sorted: seq<TxId>)
    requires TableOk(p, m, since, vtx)
    requires Elements(sorted) <= p.Keys && Elements(sorted) !! Elements(vtx) && Closed(p, Elements(vtx))
    requires UpdateSpec(p, m - Elements(sorted), u, Elements(sorted))
    ensures u.Keys <= p.Keys - Elements(vtx + sorted)
  {
    hide Recorded, Meets, Adjusted, Elements;
    ElementsAppend(vtx, sorted);
    forall t | t in u ensures t in p && t !in Elements(vtx) && t !in Elements(sorted) {
      if t !in m {
        Inhabited(p[t].ancestors * Elements(sorted));
        var a :| a in p[t].ancestors * Elements(sorted);
        assert a !in Elements(vtx);
      }
    }
  }

  /** An update of the side table: who gets an entry, and by how much each entry went down. */
  ghost predicate UpdateSpec(p: Pool, before: Modified, after: Modified, added: set<TxId>)
  {
    && before.Keys !! added
    && after.Keys == before.Keys + Affected(p, added, added)
    && (forall d :: d in after ==> d in p && p[d].ancestors <= p.Keys && Adjusted(p, before, after, d, added))
  }

  /** What selection is bound by. */
  datatype Rules = Rules(maxWeight: int, includeWitness: bool, minFee: int -> int)

  /** The fate of one candidate. */
  datatype Outcome = BelowMinimum(t: TxId) | DoesNotFit(t: TxId) | NotFinal | Added

  /** Why the selection loop stopped, and how much of the order it had gone through. */
  datatype Stop = Exhausted | LowFee(t: TxId, considered: nat) | NearFull(considered: nat)

  // ----- Why a transaction is refused

  /** Some of these transactions may not be mined yet. */
  predicate Premature(p: Pool, includeWitness: bool, rest: set<TxId>)
  {
    exists x :: x in rest && x in p && (!p[x].isFinal || (!includeWitness && p[x].hasWitness))
  }

  /** These transactions do not fit into block b, by their sizes or their sigops. */
  ghost predicate Oversize(p: Pool, rules: Rules, b: seq<TxId>, rest: set<TxId>)
  {
    && Elements(b) <= p.Keys && rest <= p.Keys
    && (|| COINBASE_WEIGHT + Total(Weights(p), Elements(b)) + WITNESS_SCALE_FACTOR * Total(Sizes(p), rest) >= rules.maxWeight
        || COINBASE_SIGOPS + Total(Sigops(p), Elements(b)) + Total(Sigops(p), rest) >= MAX_BLOCK_SIGOPS_COST)
  }

  /** What block b leaves of the package of t does not fit into it, or may not be mined yet. */
  ghost predicate Rejected(p: Pool, rules: Rules, b: seq<TxId>, t: TxId)
    requires t in p
  {
    var rest := Package(p, t) - Elements(b);
    Oversize(p, rules, b, rest) || Premature(p, rules.includeWitness, rest)
  }

  /**
   At block b the totals of t are those without what was selected after the first k
   transactions: after none of them, or after t was last refused, with ancestors of t
   selected both before and since.
   */
  ghost predicate Decided(p: Pool, rules: Rules, b: seq<TxId>, k: nat, t: TxId)
    requires t in p
    decreases |b|, 0
  {
    k == 0 || (k < |b| && Meets(p, t, b[..k]) && Meets(p, t, b[k..]) && Refused(p, rules, b[..k], t))
  }

  /** At block b the totals of t did not fit, or part of its package was premature. */
  ghost predicate Refused(p: Pool, rules: Rules, b: seq<TxId>, t: TxId)
    requires t in p
    decreases |b|, 1
  {
    exists k: nat :: k <= |b| && Decided(p, rules, b, k, t) && RefusedSince(p, rules, b, k, t)
  }

  ghost predicate RefusedSince(p: Pool, rules: Rules, b: seq<TxId>, k: nat, t: TxId)
    requires t in p && k <= |b|
  {
    Oversize(p, rules, b, Package(p, t) - Elements(b[k..])) || Premature(p, rules.includeWitness, Package(p, t) - Elements(b))
  }

  /** t was refused at some point and no ancestor of it was selected afterwards. */
  ghost predicate LeftOut(p: Pool, rules: Rules, vtx: seq<TxId>, t: TxId)
    requires t in p
  {
    exists n: nat :: n <= |vtx| && Refused(p, rules, vtx[..n], t) && !Meets(p, t, vtx[n..])
  }

  /** A refusal goes back to a true rejection, then or before ancestors on both sides of it were selected. */
  lemma {:induction false} FirstRefusal(p: Pool, rules: Rules, b: seq<TxId>, t: TxId) returns (j: nat)
    requires t in p && Refused(p, rules, b, t)
    ensures j <= |b| && Rejected(p, rules, b[..j], t)
    ensures j == |b| || (Meets(p, t, b[..j]) && Meets(p, t, b[j..]))
    decreases |b|
  {
    hide Meets, Oversize, Premature, Rejected;
    var k: nat :| k <= |b| && Decided(p, rules, b, k, t) && RefusedSince(p, rules, b, k, t);
    assert b[..|b|] == b;
    if k == 0 || Premature(p, rules.includeWitness, Package(p, t) - Elements(b)) {
      j := |b|;
      RejectedNow(p, rules, b, k, t);
    } else {
      j := FirstRefusal(p, rules, b[..k], t);
      assert b[..k][..j] == b[..j];
      assert b[j..] == b[..k][j..] + b[k..];
      MeetsAppend(p, t, b[..k][j..], b[k..]);
      if j == k {
        assert b[..j] == b[..k];
      }
    }
  }

  lemma RejectedNow(p: Pool, rules: Rules, b: seq<TxId>, k: nat, t: TxId)
    requires t in p && k <= |b| && RefusedSince(p, rules, b, k, t)
    requires k == 0 || Premature(p, rules.includeWitness, Package(p, t) - Elements(b))
    ensures Rejected(p, rules, b, t)
  {
    if k == 0 {
      assert b[0..] == b;
    }
  }

  /** Refused with ancestors selected both before and after, so that its totals no longer follow the block. */
  ghost predicate Stale(p: Pool, rules: Rules, vtx: seq<TxId>, t: TxId)
    requires t in p
  {
    exists j: nat :: j <= |vtx| && Rejected(p, rules, vtx[..j], t) && Meets(p, t, vtx[..j]) && Meets(p, t, vtx[j..])
  }

  /** Whatever is left out is rejected by the final block too, unless it is stale. */
  lemma LeftOutReason(p: Pool, rules: Rules, vtx: seq<TxId>, t: TxId)
    requires t in p && t !in Elements(vtx) && Elements(vtx) <= p.Keys && LeftOut(p, rules, vtx, t)
    ensures Rejected(p, rules, vtx, t) || Stale(p, rules, vtx, t)
  {
    hide Meets, Rejected, Elements, Refused;
    var n: nat :| n <= |vtx| && Refused(p, rules, vtx[..n], t) && !Meets(p, t, vtx[n..]);
    var b := vtx[..n];
    assert vtx == b + vtx[n..];
    var j := FirstRefusal(p, rules, b, t);
    assert b[..j] == vtx[..j];
    if j == n {
      assert b[..j] == b;
      RejectionStands(p, rules, b, vtx[n..], t);
    } else {
      assert vtx[j..] == b[j..] + vtx[n..];
      MeetsAppend(p, t, b[j..], vtx[n..]);
    }
  }

  /** Rejections stand while no ancestor is selected, since the block only grows. */
  lemma RejectionStands(p: Pool, rules: Rules, b: seq<TxId>, more: seq<TxId>, t: TxId)
    requires t in p && Rejected(p, rules, b, t) && Elements(b + more) <= p.Keys
    requires t !in Elements(b + more) && !Meets(p, t, more)
    ensures Rejected(p, rules, b + more, t)
  {
    hide Total, Elements, Premature;
    ElementsAppend(b, more);
    RestUnchanged(p, t, Elements(b), Elements(more));
    var rest := Package(p, t) - Elements(b);
    if Oversize(p, rules, b, rest) {
      OversizeGrows(p, rules, b, more, rest, rest);
    }
  }

  lemma OversizeGrows(p: Pool, rules: Rules, b: seq<TxId>, more: seq<TxId>, rest: set<TxId>, wide: set<TxId>)
    requires Elements(b + more) <= p.Keys && rest <= wide <= p.Keys
    ensures Oversize(p, rules, b, rest) ==> Oversize(p, rules, b + more, wide)
  {
    hide Total, Elements;
    if Oversize(p, rules, b, rest) {
      ElementsAppend(b, more);
      TotalMonotone(Weights(p), Elements(b), Elements(b + more));
      TotalMonotone(Sigops(p), Elements(b), Elements(b + more));
      TotalMonotone(Sizes(p), rest, wide);
      TotalMonotone(Sigops(p), rest, wide);
    }
  }

  /** Stale or not, the whole package of what is left out is too much for the final block, or part of it is premature. */
  lemma LeftOutBound(p: Pool, bytesPerSigop: nat, rules: Rules, vtx: seq<TxId>, t: TxId)
    requires ValidPool(p, bytesPerSigop) && t in p && t !in Elements(vtx) && Elements(vtx) <= p.Keys && LeftOut(p, rules, vtx, t)
    ensures || COINBASE_WEIGHT + Total(Weights(p), Elements(vtx)) + WITNESS_SCALE_FACTOR * p[t].sizeWithAncestors >= rules.maxWeight
            || COINBASE_SIGOPS + Total(Sigops(p), Elements(vtx)) + p[t].sigopsWithAncestors >= MAX_BLOCK_SIGOPS_COST
            || Premature(p, rules.includeWitness, Package(p, t) - Elements(vtx))
  {
    hide ValidPool, Total, Elements, Premature, Decided, Refused, Oversize, Meets, RefusedSince, Package;
    var n: nat :| n <= |vtx| && Refused(p, rules, vtx[..n], t) && !Meets(p, t, vtx[n..]);
    var b := vtx[..n];
    assert vtx == b + vtx[n..];
    var k := RefusedUnfold(p, rules, b, t);
    CachedTotals(p, bytesPerSigop, t);
    RefusedBound(p, rules, b, vtx[n..], k, t);
    OversizeUnfold(p, rules, vtx, Package(p, t));
  }

  lemma RefusedBound(p: Pool, rules: Rules, b: seq<TxId>, more: seq<TxId>, k: nat, t: TxId)
    requires t in p && k <= |b| && RefusedSince(p, rules, b, k, t) && !Meets(p, t, more)
    requires Elements(b + more) <= p.Keys && t !in Elements(b + more) && Package(p, t) <= p.Keys
    ensures Oversize(p, rules, b + more, Package(p, t)) || Premature(p, rules.includeWitness, Package(p, t) - Elements(b + more))
  {
    hide Total, Elements, Premature, Oversize;
    ElementsAppend(b, more);
    RestUnchanged(p, t, Elements(b), Elements(more));
    OversizeGrows(p, rules, b, more, Package(p, t) - Elements(b[k..]), Package(p, t));
  }

  lemma OversizeUnfold(p: Pool, rules: Rules, b: seq<TxId>, rest: set<TxId>)
    ensures Oversize(p, rules, b, rest) ==>
      && Elements(b) <= p.Keys && rest <= p.Keys
      && (|| COINBASE_WEIGHT + Total(Weights(p), Elements(b)) + WITNESS_SCALE_FACTOR * Total(Sizes(p), rest) >= rules.maxWeight
          || COINBASE_SIGOPS + Total(Sigops(p), Elements(b)) + Total(Sigops(p), rest) >= MAX_BLOCK_SIGOPS_COST)
  {
  }

  lemma RefusedUnfold(p: Pool, rules: Rules, b: seq<TxId>, t: TxId) returns (k: nat)
    requires t in p && Refused(p, rules, b, t)
    ensures k <= |b| && RefusedSince(p, rules, b, k, t)
  {
    hide RefusedSince;
    k :| k <= |b| && Decided(p, rules, b, k, t) && RefusedSince(p, rules, b, k, t);
  }

  lemma RestUnchanged(p: Pool, t: TxId, inBlock: set<TxId>, package: set<TxId>)
    requires t in p && t !in package && p[t].ancestors * package == {}
    ensures Package(p, t) - (inBlock + package) == Package(p, t) - inBlock
  {
    assert Package(p, t) * package == p[t].ancestors * package;
    Untouched(Package(p, t), package);
    assert Package(p, t) - (inBlock + package) == (Package(p, t) - package) - inBlock;
  }

  // ----- What was considered so far

  /** Each failed transaction was refused when it last failed, with an ancestor in the block. */
  ghost predicate SinceOk(p: Pool, rules: Rules, since: map<TxId, nat>, vtx: seq<TxId>)
  {
    forall t :: t in since ==>
      t in p && since[t] <= |vtx| && Meets(p, t, vtx[..since[t]]) && Refused(p, rules, vtx[..since[t]], t)
  }

  /** Everything considered so far, not selected and not in the side table, is left out. */
  ghost predicate Considered(p: Pool, rules: Rules, seen: set<TxId>, m: Modified, vtx: seq<TxId>)
  {
    forall t :: t in seen && t !in Elements(vtx) && t !in m ==> t in p && LeftOut(p, rules, vtx, t)
  }

  lemma RefusedNow(p: Pool, rules: Rules, vtx: seq<TxId>, t: TxId)
    requires t in p && Refused(p, rules, vtx, t)
    ensures LeftOut(p, rules, vtx, t)
  {
    hide Refused;
    assert vtx[..|vtx|] == vtx && vtx[|vtx|..] == [];
    assert p[t].ancestors * Elements([]) == {};
    assert !Meets(p, t, vtx[|vtx|..]);
  }

  /** What is left out stays so while no ancestor of it is selected. */
  lemma LeftOutGrows(p: Pool, rules: Rules, vtx: seq<TxId>, sorted: seq<TxId>, t: TxId)
    requires t in p && LeftOut(p, rules, vtx, t) && !Meets(p, t, sorted)
    ensures LeftOut(p, rules, vtx + sorted, t)
  {
    hide Refused, Meets;
    var n: nat :| n <= |vtx| && Refused(p, rules, vtx[..n], t) && !Meets(p, t, vtx[n..]);
    assert (vtx + sorted)[..n] == vtx[..n];
    assert (vtx + sorted)[n..] == vtx[n..] + sorted;
    MeetsAppend(p, t, vtx[n..], sorted);
  }

  lemma SinceGrows(p: Pool, rules: Rules, since: map<TxId, nat>, vtx: seq<TxId>, sorted: seq<TxId>)
    requires SinceOk(p, rules, since, vtx)
    ensures SinceOk(p, rules, since, vtx + sorted)
  {
    hide Refused, Meets;
    forall t | t in since ensures (vtx + sorted)[..since[t]] == vtx[..since[t]] {
    }
  }

  lemma ConsideredAfter(p: Pool, rules: Rules, seen: set<TxId>, m: Modified, u: Modified, vtx: seq<TxId>, sorted: seq<TxId>)
    requires Considered(p, rules, seen - Elements(sorted), m, vtx)
    requires UpdateSpec(p, m - Elements(sorted), u, Elements(sorted))
    ensures Considered(p, rules, seen, u, vtx + sorted)
  {
    hide Adjusted, LeftOut, Elements, Affected, Meets;
    ElementsAppend(vtx, sorted);
    forall t | t in seen && t !in Elements(vtx + sorted) && t !in u
      ensures t in p && LeftOut(p, rules, vtx + sorted, t)
    {
      assert t !in m;
      MeetsAffected(p, t, sorted);
      LeftOutGrows(p, rules, vtx, sorted, t);
    }
  }

  /** A failed transaction that is not in the side table is left out. */
  lemma FailedLeftOut(p: Pool, rules: Rules, m: Modified, since: map<TxId, nat>, vtx: seq<TxId>, t: TxId)
    requires TableOk(p, m, since, vtx) && SinceOk(p, rules, since, vtx)
    requires t in since && t !in m && t !in Elements(vtx)
    ensures t in p && LeftOut(p, rules, vtx, t)
  {
    hide Refused, Recorded, Meets;
    assert After(since, vtx, t) == vtx[since[t]..];
  }

  lemma PrefixStep(order: seq<TxId>, mi: nat)
    requires mi < |order|
    ensures Elements(order[..mi + 1]) == Elements(order[..mi]) + {order[mi]}
  {
    assert order[..mi + 1] == order[..mi] + [order[mi]];
  }

  function Seen(order: seq<TxId>, mi: nat, failed: set<TxId>): set<TxId>
    requires mi <= |order|
  {
    Elements(order[..mi]) + failed
  }

  lemma SeenSkip(p: Pool, rules: Rules, order: seq<TxId>, mi: nat, m: Modified, since: map<TxId, nat>, vtx: seq<TxId>)
    requires TableOk(p, m, since, vtx) && SinceOk(p, rules, since, vtx)
    requires mi < |order| && (order[mi] in m || order[mi] in Elements(vtx) || order[mi] in since)
    requires Considered(p, rules, Seen(order, mi, since.Keys), m, vtx)
    ensures Considered(p, rules, Seen(order, mi + 1, since.Keys), m, vtx)
  {
    hide LeftOut, TableOk, SinceOk, Elements;
    PrefixStep(order, mi);
    if order[mi] !in m && order[mi] !in Elements(vtx) {
      FailedLeftOut(p, rules, m, since, vtx, order[mi]);
    }
  }

  /** The candidate is the next pool entry, just passed, or an entry of the side table. */
  predicate Candidate(order: seq<TxId>, seen: nat, mi: nat, usingModified: bool, iter: TxId, m: Modified, failed: set<TxId>)
  {
    if usingModified then mi == seen <= |order| && iter in m
    else seen < |order| && mi == seen + 1 && iter == order[seen] && iter !in failed && iter !in m
  }

  /** A refused candidate: an entry of the side table is erased and remembered. */
  lemma SeenFailed(p: Pool, rules: Rules, order: seq<TxId>, seen: nat, mi: nat, usingModified: bool, iter: TxId,
                   m: Modified, since: map<TxId, nat>, vtx: seq<TxId>)
    requires Candidate(order, seen, mi, usingModified, iter, m, since.Keys)
    requires Considered(p, rules, Seen(order, seen, since.Keys), m, vtx)
    requires iter in p && Refused(p, rules, vtx, iter)
    ensures mi <= |order|
    ensures Considered(p, rules, Seen(order, mi, if usingModified then since.Keys + {iter} else since.Keys),
                       if usingModified then m - {iter} else m, vtx)
  {
    hide LeftOut, Refused, Elements;
    RefusedNow(p, rules, vtx, iter);
    if !usingModified {
      PrefixStep(order, seen);
    }
  }

  lemma SeenSelected(p: Pool, rules: Rules, order: seq<TxId>, seen: nat, mi: nat, usingModified: bool, iter: TxId,
                     package: set<TxId>, m: Modified, failed: set<TxId>, vtx: seq<TxId>)
    requires Candidate(order, seen, mi, usingModified, iter, m, failed) && iter in package
    requires Considered(p, rules, Seen(order, seen, failed), m, vtx)
    ensures mi <= |order| && Considered(p, rules, Seen(order, mi, failed) - package, m, vtx)
  {
    hide LeftOut, Elements;
    if !usingModified {
      PrefixStep(order, seen);
    }
  }

  lemma InElements(order: seq<TxId>, i: nat)
    requires i < |order|
    ensures order[i] in Elements(order)
  {
  }

  /** A candidate is decided by what was selected since it last failed. */
  lemma DecidedNow(p: Pool, rules: Rules, m: Modified, since: map<TxId, nat>, vtx: seq<TxId>, t: TxId)
    requires TableOk(p, m, since, vtx) && SinceOk(p, rules, since, vtx)
    requires t in m || (t in p && t !in Elements(vtx) && t !in since)
    ensures t in p && Last(since, t) <= |vtx| && After(since, vtx, t) == vtx[Last(since, t)..]
    ensures Decided(p, rules, vtx, Last(since, t), t)
    ensures t in m ==> Meets(p, t, vtx)
  {
    hide Refused, Recorded, Elements;
    var k := Last(since, t);
    if t in m {
      assert Meets(p, t, vtx[k..]);
      assert vtx == vtx[..k] + vtx[k..];
      MeetsAppend(p, t, vtx[..k], vtx[k..]);
      MeetsSome(p, t, vtx[k..]);
    }
  }

  lemma MeetsSome(p: Pool, t: TxId, s: seq<TxId>)
    requires t in p && Meets(p, t, s)
    ensures |s| > 0
  {
    assert |s| == 0 ==> Elements(s) == {};
  }

  lemma RefusedAt(p: Pool, rules: Rules, b: seq<TxId>, k: nat, t: TxId)
    requires t in p && k <= |b| && Decided(p, rules, b, k, t) && RefusedSince(p, rules, b, k, t)
    ensures Refused(p, rules, b, t)
  {
    hide RefusedSince;
  }

  lemma TooBig(p: Pool, rules: Rules, vtx: seq<TxId>, k: nat, t: TxId, totals: Totals, weight: int, sigops: int)
    requires t in p && k <= |vtx| && Recorded(p, totals, t, vtx[k..]) && Elements(vtx) <= p.Keys
    requires weight == COINBASE_WEIGHT + Total(Weights(p), Elements(vtx)) && sigops == COINBASE_SIGOPS + Total(Sigops(p), Elements(vtx))
    requires weight + WITNESS_SCALE_FACTOR * totals.size >= rules.maxWeight || sigops + totals.sigops >= MAX_BLOCK_SIGOPS_COST
    ensures RefusedSince(p, rules, vtx, k, t)
  {
  }

  lemma PrematureRefused(p: Pool, rules: Rules, vtx: seq<TxId>, k: nat, t: TxId, package: set<TxId>)
    requires t in p && k <= |vtx| && package == Package(p, t) - Elements(vtx) && package <= p.Keys
    requires exists x :: x in package && !(p[x].isFinal && (rules.includeWitness || !p[x].hasWitness))
    ensures RefusedSince(p, rules, vtx, k, t)
  {
    var x :| x in package && !(p[x].isFinal && (rules.includeWitness || !p[x].hasWitness));
    assert x in p;
  }

  // ----- What was selected

  /** With a block a, the package of t, judged by its totals since k, was sorted into s: it paid enough, fitted and was final. */
  ghost predicate Chosen(p: Pool, rules: Rules, a: seq<TxId>, k: nat, t: TxId, s: seq<TxId>)
  {
    && t in p && k <= |a| && Decided(p, rules, a, k, t) && Package(p, t) <= p.Keys
    && Sorted(p, s) && Elements(s) == Package(p, t) - Elements(a) && t in s
    && Elements(a) <= p.Keys
    && var rest := Package(p, t) - Elements(a[k..]);
       && !Oversize(p, rules, a, rest)
       && !Premature(p, rules.includeWitness, Elements(s))
       && (p[t].isNick || exists fees ::
             Paid(p, fees, t, p[t].ancestors * Elements(a[k..])) && fees >= rules.minFee(Total(Sizes(p), rest)))
  }

  /** The block grew from its first transactions by that many chosen packages. */
  ghost predicate Assembled(p: Pool, rules: Rules, start: nat, vtx: seq<TxId>, packages: nat)
    decreases packages
  {
    if packages == 0 then |vtx| == start
    else exists n: nat :: n <= |vtx| && Assembled(p, rules, start, vtx[..n], packages - 1) && LastChosen(p, rules, vtx, n)
  }

  ghost predicate LastChosen(p: Pool, rules: Rules, vtx: seq<TxId>, n: nat)
    requires n <= |vtx|
  {
    exists k: nat, t :: Chosen(p, rules, vtx[..n], k, t, vtx[n..])
  }

  lemma AssembledNext(p: Pool, rules: Rules, start: nat, vtx: seq<TxId>, packages: nat, k: nat, t: TxId, s: seq<TxId>)
    requires Assembled(p, rules, start, vtx, packages) && Chosen(p, rules, vtx, k, t, s)
    ensures Assembled(p, rules, start, vtx + s, packages + 1)
  {
    hide Chosen;
    var n, all := |vtx|, vtx + s;
    assert all[..n] == vtx && all[n..] == s;
    assert LastChosen(p, rules, all, n);
  }

  lemma ChosenNow(p: Pool, rules: Rules, vtx: seq<TxId>, k: nat, t: TxId, s: seq<TxId>, totals: Totals, weight: int, sigops: int)
    requires t in p && k <= |vtx| && Decided(p, rules, vtx, k, t) && Recorded(p, totals, t, vtx[k..])
    requires Sorted(p, s) && Elements(s) == Package(p, t) - Elements(vtx) && t !in Elements(vtx) && Elements(vtx) <= p.Keys
    requires weight == COINBASE_WEIGHT + Total(Weights(p), Elements(vtx)) && sigops == COINBASE_SIGOPS + Total(Sigops(p), Elements(vtx))
    requires weight + WITNESS_SCALE_FACTOR * totals.size < rules.maxWeight && sigops + totals.sigops < MAX_BLOCK_SIGOPS_COST
    requires p[t].isNick || totals.modFees >= rules.minFee(totals.size)
    requires forall x :: x in Elements(s) ==> x in p && p[x].isFinal && (rules.includeWitness || !p[x].hasWitness)
    ensures Chosen(p, rules, vtx, k, t, s)
  {
    hide Decided, Sorted;
    assert t in Elements(s);
  }

  // ----- What the reason for stopping says about the transactions left out

  /** The totals of t since k pay less than the minimum. */
  ghost predicate Underpaid(p: Pool, rules: Rules, vtx: seq<TxId>, k: nat, t: TxId)
    requires t in p
  {
    && k <= |vtx| && Decided(p, rules, vtx, k, t) && Package(p, t) <= p.Keys
    && var rest := Package(p, t) - Elements(vtx[k..]);
       exists fees :: Paid(p, fees, t, p[t].ancestors * Elements(vtx[k..])) && fees < rules.minFee(Total(Sizes(p), rest))
  }

  /** More than a thousand different transactions were left out. */
  ghost predicate ManyLeftOut(p: Pool, rules: Rules, vtx: seq<TxId>, out: set<TxId>)
  {
    && |out| > MAX_CONSECUTIVE_FAILURES
    && forall t :: t in out ==> t in p && t !in Elements(vtx) && LeftOut(p, rules, vtx, t)
  }

  /** An ancestor of t was selected since its totals were last found wanting, so it is still to be judged again. */
  ghost predicate Pending(p: Pool, rules: Rules, vtx: seq<TxId>, t: TxId)
    requires t in p
  {
    exists k: nat :: k <= |vtx| && Decided(p, rules, vtx, k, t) && Meets(p, t, vtx[k..])
  }

  /** The first n of the order are in the block, left out or pending. */
  ghost predicate Surveyed(p: Pool, rules: Rules, order: seq<TxId>, n: nat, vtx: seq<TxId>)
  {
    && n <= |order|
    && forall t :: t in Elements(order[..n]) && t !in Elements(vtx) ==>
         t in p && (LeftOut(p, rules, vtx, t) || Pending(p, rules, vtx, t))
  }

  lemma SurveyedNow(p: Pool, rules: Rules, order: seq<TxId>, mi: nat, m: Modified, since: map<TxId, nat>, vtx: seq<TxId>)
    requires TableOk(p, m, since, vtx) && SinceOk(p, rules, since, vtx)
    requires mi <= |order| && Considered(p, rules, Seen(order, mi, since.Keys), m, vtx)
    ensures Surveyed(p, rules, order, mi, vtx)
  {
    hide LeftOut, TableOk, SinceOk, Elements, Pending;
    forall t | t in Elements(order[..mi]) && t !in Elements(vtx)
      ensures t in p && (LeftOut(p, rules, vtx, t) || Pending(p, rules, vtx, t))
    {
      if t in m {
        PendingNow(p, rules, m, since, vtx, t);
      }
    }
  }

  /** What is in the side table is pending. */
  lemma PendingNow(p: Pool, rules: Rules, m: Modified, since: map<TxId, nat>, vtx: seq<TxId>, t: TxId)
    requires TableOk(p, m, since, vtx) && SinceOk(p, rules, since, vtx) && t in m && t !in Elements(vtx)
    ensures t in p && Pending(p, rules, vtx, t)
  {
    hide Decided, Recorded, Elements, Meets;
    DecidedNow(p, rules, m, since, vtx, t);
    var k := Last(since, t);
    assert After(since, vtx, t) == vtx[k..];
    assert Tracked(p, m, t, After(since, vtx, t));
  }

  ghost predicate StopOk(p: Pool, rules: Rules, stop: Stop, order: seq<TxId>, vtx: seq<TxId>)
  {
    match stop
    case Exhausted =>
      forall t :: t in Elements(order) && t !in Elements(vtx) ==> t in p && LeftOut(p, rules, vtx, t)
    case LowFee(t, n) =>
      && t in p && t !in Elements(vtx) && !p[t].isNick && (exists k: nat :: Underpaid(p, rules, vtx, k, t))
      && Surveyed(p, rules, order, n, vtx) && (Pending(p, rules, vtx, t) || (n < |order| && t == order[n]))
    case NearFull(n) =>
      && Elements(vtx) <= p.Keys && COINBASE_WEIGHT + Total(Weights(p), Elements(vtx)) > rules.maxWeight - 4000
      && (exists out :: ManyLeftOut(p, rules, vtx, out))
      && Surveyed(p, rules, order, n, vtx)
  }

  lemma LowFeeOk(p: Pool, rules: Rules, order: seq<TxId>, n: nat, vtx: seq<TxId>, k: nat, t: TxId, totals: Totals)
    requires t in p && t !in Elements(vtx) && !p[t].isNick && k <= |vtx| && Decided(p, rules, vtx, k, t)
    requires Recorded(p, totals, t, vtx[k..]) && totals.modFees < rules.minFee(totals.size)
    requires Surveyed(p, rules, order, n, vtx) && (Pending(p, rules, vtx, t) || (n < |order| && t == order[n]))
    ensures StopOk(p, rules, LowFee(t, n), order, vtx)
  {
    hide Decided, Surveyed, Pending;
    assert Underpaid(p, rules, vtx, k, t);
  }

  lemma ExhaustedOk(p: Pool, rules: Rules, order: seq<TxId>, failed: set<TxId>, vtx: seq<TxId>)
    requires Considered(p, rules, Seen(order, |order|, failed), map[], vtx)
    ensures StopOk(p, rules, Exhausted, order, vtx)
  {
    hide LeftOut;
    assert order[..|order|] == order;
  }

  /** The transactions that failed to fit since the last selection. */
  predicate FailedRun(out: set<TxId>, count: nat, order: seq<TxId>, mi: nat, m: Modified, failed: set<TxId>, vtx: seq<TxId>)
  {
    && mi <= |order| && |out| == count
    && forall t :: t in out ==> t in Seen(order, mi, failed) && t !in m && t !in Elements(vtx)
  }

  lemma NearFullOk(p: Pool, rules: Rules, order: seq<TxId>, mi: nat, m: Modified, failed: set<TxId>, vtx: seq<TxId>,
                   out: set<TxId>, failures: nat)
    requires Elements(vtx) <= p.Keys && COINBASE_WEIGHT + Total(Weights(p), Elements(vtx)) > rules.maxWeight - 4000
    requires FailedRun(out, failures, order, mi, m, failed, vtx) && failures > MAX_CONSECUTIVE_FAILURES
    requires Considered(p, rules, Seen(order, mi, failed), m, vtx) && Surveyed(p, rules, order, mi, vtx)
    ensures StopOk(p, rules, NearFull(mi), order, vtx)
  {
    hide LeftOut, Elements, Total, Surveyed;
    assert ManyLeftOut(p, rules, vtx, out);
  }

  predicate NoRepeats(order: seq<TxId>)
  {
    forall i, j :: 0 <= i < j < |order| ==> order[i] != order[j]
  }

  lemma RunNext(out: set<TxId>, count: nat, order: seq<TxId>, seen: nat, mi: nat, usingModified: bool, iter: TxId,
                m: Modified, failed: set<TxId>, vtx: seq<TxId>)
    requires NoRepeats(order) && FailedRun(out, count, order, seen, m, failed, vtx) && iter !in Elements(vtx)
    requires Candidate(order, seen, mi, usingModified, iter, m, failed)
    ensures mi <= |order|
    ensures var failed', m' := if usingModified then failed + {iter} else failed, if usingModified then m - {iter} else m;
            FailedRun(out + {iter}, count + 1, order, mi, m', failed', vtx) && FailedRun(out, count, order, mi, m', failed', vtx)
  {
    if !usingModified {
      PrefixStep(order, seen);
      assert iter !in Elements(order[..seen]);
    }
    assert iter !in out;
  }

  lemma RunSkip(out: set<TxId>, count: nat, order: seq<TxId>, mi: nat, m: Modified, failed: set<TxId>, vtx: seq<TxId>)
    requires FailedRun(out, count, order, mi, m, failed, vtx) && mi < |order|
    ensures FailedRun(out, count, order, mi + 1, m, failed, vtx)
  {
    PrefixStep(order, mi);
  }

  class Assembler {
    const maxWeight: nat
    var includeWitness: bool
    var inBlock: set<TxId>
    var vtx: seq<TxId>
    var txFees: seq<int>
    var txSigops: seq<int>
    var blockWeight: int
    var blockTx: int
    var blockSigops: int
    var fees: int

    constructor (optionMaxWeight: nat)
      ensures COINBASE_WEIGHT <= maxWeight <= 144000000 - 4000
      ensures COINBASE_WEIGHT <= optionMaxWeight <= 144000000 - 4000 ==> maxWeight == optionMaxWeight
    {
      var capped := if optionMaxWeight < 144000000 - 4000 then optionMaxWeight else 144000000 - 4000;
      maxWeight := if capped < 4000 then 4000 else capped;
      vtx, txFees, txSigops := [], [], [];
      inBlock, blockWeight, blockSigops, includeWitness, blockTx, fees := {}, 4000, 400, false, 0, 0;
    }

    /** The lists and counters agree with the pool data of the selected transactions. */
    ghost predicate Valid(p: Pool)
      reads this
    {
      BlockOk(p, inBlock, vtx, blockWeight, blockSigops) && Tallied(p)
    }

    ghost predicate Tallied(p: Pool)
      reads this
    {
      && inBlock <= p.Keys && (forall t :: t in vtx ==> t in p) && |txFees| == |vtx| == |txSigops| == blockTx
      && (forall i :: 0 <= i < |vtx| ==> txFees[i] == p[vtx[i]].fee && txSigops[i] == p[vtx[i]].sigops)
      && fees == Total(Fees(p), inBlock)
    }

    function TheRules(minFee: int -> int): Rules
      reads this
    {
      Rules(maxWeight, includeWitness, minFee)
    }

    method ResetBlock()
      modifies this
      ensures forall p :: Valid(p)
      ensures inBlock == {} && vtx == []
    {
      vtx, txFees, txSigops := [], [], [];
      inBlock := {};
      blockWeight := 4000;
      blockSigops := 400;
      includeWitness := false;
      blockTx := 0;
      fees := 0;
    }

    predicate TestPackage(size: int, sigops: int)
      reads this
    {
      && !(blockWeight + WITNESS_SCALE_FACTOR * size >= maxWeight)
      && !(blockSigops + sigops >= MAX_BLOCK_SIGOPS_COST)
    }

    predicate TestPackageTransactions(p: Pool, package: set<TxId>)
      requires package <= p.Keys
      reads this
    {
      forall t :: t in package ==> p[t].isFinal && (includeWitness || !p[t].hasWitness)
    }

    method AddToBlock(p: Pool, t: TxId)
      requires t in p
      modifies this
      ensures vtx == old(vtx) + [t] && inBlock == old(inBlock) + {t}
      ensures txFees == old(txFees) + [p[t].fee] && txSigops == old(txSigops) + [p[t].sigops]
      ensures blockWeight == old(blockWeight) + p[t].weight
      ensures blockSigops == old(blockSigops) + p[t].sigops
      ensures blockTx == old(blockTx) + 1 && fees == old(fees) + p[t].fee
      ensures includeWitness == old(includeWitness)
    {
      vtx := vtx + [t];
      txFees := txFees + [p[t].fee];
      txSigops := txSigops + [p[t].sigops];
      blockWeight := blockWeight + p[t].weight;
      blockTx := blockTx + 1;
      blockSigops := blockSigops + p[t].sigops;
      fees := fees + p[t].fee;
      inBlock := inBlock + {t};
    }

    method AddEntries(p: Pool, sorted: seq<TxId>)
      requires Elements(sorted) <= p.Keys && NoRepeats(sorted) && Tallied(p) && Elements(sorted) !! inBlock
      modifies this
      ensures vtx == old(vtx) + sorted && inBlock == old(inBlock) + Elements(sorted)
      ensures blockWeight == old(blockWeight) + Total(Weights(p), Elements(sorted))
      ensures blockSigops == old(blockSigops) + Total(Sigops(p), Elements(sorted))
      ensures Tallied(p)
      ensures includeWitness == old(includeWitness)
    {
      hide Total, Tallied;
      var i := 0;
      assert sorted[..0] == [];
      NothingTotals(p);
      while i < |sorted|
        invariant 0 <= i <= |sorted| && Elements(sorted[..i]) <= p.Keys
        invariant vtx == old(vtx) + sorted[..i] && inBlock == old(inBlock) + Elements(sorted[..i])
        invariant blockWeight == old(blockWeight) + Total(Weights(p), Elements(sorted[..i]))
        invariant blockSigops == old(blockSigops) + Total(Sigops(p), Elements(sorted[..i]))
        invariant includeWitness == old(includeWitness) && Tallied(p)
      {
        assert sorted[i] in Elements(sorted);
        assert sorted[..i + 1] == sorted[..i] + [sorted[i]];
        ElementsStep(p, sorted, i);
        AddTallied(p, sorted[i]);
        i := i + 1;
      }
      assert sorted[..i] == sorted;
    }

    /** Adding an entry that is not in the block yet keeps the lists and the fee total exact. */
    method AddTallied(p: Pool, t: TxId)
      requires t in p && Tallied(p) && t !in inBlock
      modifies this
      ensures vtx == old(vtx) + [t] && inBlock == old(inBlock) + {t}
      ensures blockWeight == old(blockWeight) + p[t].weight
      ensures blockSigops == old(blockSigops) + p[t].sigops
      ensures Tallied(p)
      ensures includeWitness == old(includeWitness)
    {
      hide Total;
      TotalRemove(Fees(p), inBlock + {t}, t);
      assert inBlock + {t} - {t} == inBlock;
      AddToBlock(p, t);
    }

    /** What holds of the block, the side table and the failures between iterations. */
    ghost predicate LoopOk(p: Pool, rules: Rules, order: seq<TxId>, mi: nat, m: Modified, since: map<TxId, nat>,
                           start: nat, packages: nat)
      reads this
    {
      && Valid(p) && TableOk(p, m, since, vtx) && SinceOk(p, rules, since, vtx)
      && mi <= |order| && Considered(p, rules, Seen(order, mi, since.Keys), m, vtx)
      && Assembled(p, rules, start, vtx, packages)
    }

    method AddPackageTxs(p: Pool, ghost bytesPerSigop: nat, order: seq<TxId>, minFee: int -> int)
        returns (packages: nat, ghost stop: Stop)
      requires ValidPool(p, bytesPerSigop) && Valid(p) && Elements(order) <= p.Keys && NoRepeats(order)
      modifies this
      ensures Valid(p) && includeWitness == old(includeWitness)
      ensures old(vtx) <= vtx && Assembled(p, TheRules(minFee), |old(vtx)|, vtx, packages)
      ensures vtx == old(vtx) || (blockWeight < maxWeight && blockSigops < MAX_BLOCK_SIGOPS_COST)
      ensures StopOk(p, TheRules(minFee), stop, order, vtx)
    {
      hide ValidPool, BlockOk, TableOk, Considered, Elements, LoopOk, SinceOk, Tallied, StopOk, FailedRun, Assembled, Oversize, Total;
      packages := 0;
      stop := Exhausted;
      ghost var rules := TheRules(minFee);
      ghost var since: map<TxId, nat> := map[];
      ghost var run: set<TxId> := {};
      var failedTx: set<TxId>, mi: nat, consecutiveFailed: nat := {}, 0, 0;
      var m := Start(p, bytesPerSigop);
      StartLoop(p, rules, order, m);
      NoRun(order, m, vtx);
      while mi < |order| || m != map[]
        invariant LoopOk(p, rules, order, mi, m, since, |old(vtx)|, packages) && failedTx == since.Keys && mi <= |order|
        invariant old(vtx) <= vtx && includeWitness == old(includeWitness)
        invariant vtx == old(vtx) || (blockWeight < maxWeight && blockSigops < MAX_BLOCK_SIGOPS_COST)
        invariant FailedRun(run, consecutiveFailed, order, mi, m, failedTx, vtx)
        decreases p.Keys - inBlock, |order| - mi + |m|
      {
        if mi < |order| && (order[mi] in m || order[mi] in inBlock || order[mi] in failedTx) {
          SkipLoop(p, rules, order, mi, m, since, |old(vtx)|, packages);
          RunSkip(run, consecutiveFailed, order, mi, m, failedTx, vtx);
          mi := mi + 1;
          continue;
        }
        var outcome;
        ghost var considered := mi;
        outcome, mi, m, failedTx, since, run :=
          Consider(p, bytesPerSigop, order, mi, m, failedTx, since, minFee, |old(vtx)|, packages, run, consecutiveFailed);
        match outcome
        case BelowMinimum(t) =>
          stop := LowFee(t, considered);
          return;
        case DoesNotFit(t) =>
          consecutiveFailed := consecutiveFailed + 1;
          if consecutiveFailed > MAX_CONSECUTIVE_FAILURES && blockWeight > maxWeight - 4000 {
            stop := NearFull(mi);
            EndLoop(p, rules, order, mi, m, since, |old(vtx)|, packages, run, consecutiveFailed);
            return;
          }
        case NotFinal =>
        case Added =>
          consecutiveFailed := 0;
          packages := packages + 1;
      }
      EndLoop(p, rules, order, mi, m, since, |old(vtx)|, packages, run, consecutiveFailed);
    }

    /** Evaluate one candidate: stop, drop it, or select its package. */
    method Consider(p: Pool, ghost bytesPerSigop: nat, order: seq<TxId>, next: nat, table: Modified, failedBefore: set<TxId>,
                    ghost sinceBefore: map<TxId, nat>, minFee: int -> int, ghost start: nat, ghost packages: nat,
                    ghost runBefore: set<TxId>, ghost failures: nat)
        returns (outcome: Outcome, mi: nat, m: Modified, failed: set<TxId>, ghost since: map<TxId, nat>, ghost run: set<TxId>)
      requires ValidPool(p, bytesPerSigop) && Elements(order) <= p.Keys && NoRepeats(order)
      requires LoopOk(p, TheRules(minFee), order, next, table, sinceBefore, start, packages) && failedBefore == sinceBefore.Keys
      requires next <= |order| && (next < |order| || table != map[])
      requires next < |order| ==> order[next] !in table && order[next] !in inBlock && order[next] !in failedBefore
      requires FailedRun(runBefore, failures, order, next, table, failedBefore, vtx)
      modifies this
      ensures mi <= |order| && failed == since.Keys && includeWitness == old(includeWitness)
      ensures outcome.BelowMinimum? ==>
        && StopOk(p, TheRules(minFee), LowFee(outcome.t, next), order, vtx)
        && Valid(p) && Assembled(p, TheRules(minFee), start, vtx, packages)
      ensures !outcome.BelowMinimum? ==>
        && LoopOk(p, TheRules(minFee), order, mi, m, since, start, if outcome.Added? then packages + 1 else packages)
        && FailedRun(run, if outcome.Added? then 0 else if outcome.DoesNotFit? then failures + 1 else failures,
                     order, mi, m, failed, vtx)
      ensures !outcome.Added? ==> unchanged(this)
      ensures outcome.DoesNotFit? || outcome.NotFinal? ==> |order| - mi + |m| < |order| - next + |table|
      ensures outcome.Added? ==>
        && inBlock > old(inBlock) && inBlock <= p.Keys && old(vtx) <= vtx
        && blockWeight < maxWeight && blockSigops < MAX_BLOCK_SIGOPS_COST
    {
      hide ValidPool, BlockOk, Tallied, TableOk, SinceOk, Considered, Elements, Recorded, Paid, Refused, RefusedSince, Decided, Premature,
           Sizes, Sigops, Fees, Total, StopOk, Assembled, FailedRun, Surveyed, Pending;
      m, failed, since, run := table, failedBefore, sinceBefore, runBefore;
      ghost var rules := TheRules(minFee);
      BlockFacts(p);
      var iter, usingModified, totals;
      iter, usingModified, mi, totals := Pick(p, bytesPerSigop, order, next, m, failed, since, rules);
      ghost var k := Last(since, iter);
      assert iter !in inBlock;

      if !p[iter].isNick && totals.modFees < minFee(totals.size) {
        SurveyedNow(p, rules, order, next, m, since, vtx);
        if usingModified {
          PendingNow(p, rules, m, since, vtx, iter);
        }
        LowFeeOk(p, rules, order, next, vtx, k, iter, totals);
        outcome := BelowMinimum(iter);
        return;
      }
      if !TestPackage(totals.size, totals.sigops) {
        TooBig(p, rules, vtx, k, iter, totals, blockWeight, blockSigops);
        RefusedAt(p, rules, vtx, k, iter);
        RunNext(run, failures, order, next, mi, usingModified, iter, m, failed, vtx);
        m, failed, since := DropFailed(p, minFee, order, next, mi, usingModified, iter, m, failed, since);
        run := run + {iter};
        outcome := DoesNotFit(iter);
        return;
      }
      var package := (p[iter].ancestors - inBlock) + {iter};
      PackageSet(p, bytesPerSigop, inBlock, iter, package);
      if !TestPackageTransactions(p, package) {
        PrematureRefused(p, rules, vtx, k, iter, package);
        RefusedAt(p, rules, vtx, k, iter);
        RunNext(run, failures, order, next, mi, usingModified, iter, m, failed, vtx);
        m, failed, since := DropFailed(p, minFee, order, next, mi, usingModified, iter, m, failed, since);
        outcome := NotFinal;
        return;
      }
      SeenSelected(p, rules, order, next, mi, usingModified, iter, package, m, failed, vtx);
      m := SelectPackage(p, bytesPerSigop, iter, package, totals, m, since, minFee, k, Seen(order, mi, failed), start, packages);
      BlockFacts(p);
      run := {};
      NoRunAt(order, mi, m, failed, vtx);
      outcome := Added;
    }

    /** The next candidate and the totals it is judged by. */
    method Pick(p: Pool, ghost bytesPerSigop: nat, order: seq<TxId>, next: nat, m: Modified, ghost failed: set<TxId>,
                ghost since: map<TxId, nat>, ghost rules: Rules)
        returns (iter: TxId, usingModified: bool, mi: nat, totals: Totals)
      requires ValidPool(p, bytesPerSigop) && Elements(order) <= p.Keys && failed == since.Keys
      requires TableOk(p, m, since, vtx) && SinceOk(p, rules, since, vtx)
      requires next <= |order| && (next < |order| || m != map[])
      requires next < |order| ==> order[next] !in m && order[next] !in Elements(vtx) && order[next] !in failed
      ensures Candidate(order, next, mi, usingModified, iter, m, failed)
      ensures iter in p && iter !in Elements(vtx)
      ensures var k := Last(since, iter);
              k <= |vtx| && Decided(p, rules, vtx, k, iter) && Recorded(p, totals, iter, vtx[k..])
    {
      hide ValidPool, TableOk, SinceOk, Elements, Recorded, Decided, Refused, Meets;
      iter, usingModified, mi := Choose(order, next, m, failed);
      TableOutside(p, m, since, vtx);
      if next < |order| {
        InElements(order, next);
      }
      totals := Totaled(p, bytesPerSigop, iter, usingModified, m, since);
      DecidedNow(p, rules, m, since, vtx, iter);
    }

    lemma BlockFacts(p: Pool)
      requires Valid(p)
      ensures inBlock == Elements(vtx) && inBlock <= p.Keys && Closed(p, inBlock)
      ensures blockWeight == COINBASE_WEIGHT + Total(Weights(p), inBlock)
      ensures blockSigops == COINBASE_SIGOPS + Total(Sigops(p), inBlock)
    {
    }

    /** The totals a candidate is judged by. */
    method Totaled(p: Pool, ghost bytesPerSigop: nat, iter: TxId, usingModified: bool, m: Modified, ghost since: map<TxId, nat>)
        returns (totals: Totals)
      requires ValidPool(p, bytesPerSigop) && TableOk(p, m, since, vtx)
      requires if usingModified then iter in m else iter in p && iter !in m && iter !in Elements(vtx) && iter !in since
      ensures Recorded(p, totals, iter, After(since, vtx, iter))
    {
      hide ValidPool, Recorded, Elements, After;
      if usingModified {
        totals := m[iter];
      } else {
        FreshRecorded(p, bytesPerSigop, m, since, vtx, iter);
        totals := PoolTotals(p[iter]);
      }
    }

    lemma StartLoop(p: Pool, rules: Rules, order: seq<TxId>, m: Modified)
      requires Valid(p) && TableOk(p, m, map[], vtx)
      ensures LoopOk(p, rules, order, 0, m, map[], |vtx|, 0)
    {
      hide BlockOk, Tallied, TableOk;
      assert order[..0] == [];
    }

    lemma SkipLoop(p: Pool, rules: Rules, order: seq<TxId>, mi: nat, m: Modified, since: map<TxId, nat>, start: nat, packages: nat)
      requires LoopOk(p, rules, order, mi, m, since, start, packages)
      requires mi < |order| && (order[mi] in m || order[mi] in inBlock || order[mi] in since)
      ensures LoopOk(p, rules, order, mi + 1, m, since, start, packages)
    {
      hide BlockOk, Tallied, TableOk, SinceOk, Considered, Assembled, Elements;
      BlockFacts(p);
      SeenSkip(p, rules, order, mi, m, since, vtx);
    }

    lemma EndLoop(p: Pool, rules: Rules, order: seq<TxId>, mi: nat, m: Modified, since: map<TxId, nat>, start: nat, packages: nat,
                  run: set<TxId>, failures: nat)
      requires LoopOk(p, rules, order, mi, m, since, start, packages)
      requires FailedRun(run, failures, order, mi, m, since.Keys, vtx)
      ensures Valid(p) && Assembled(p, rules, start, vtx, packages)
      ensures mi == |order| && m == map[] ==> StopOk(p, rules, Exhausted, order, vtx)
      ensures failures > MAX_CONSECUTIVE_FAILURES && blockWeight > rules.maxWeight - 4000 ==> StopOk(p, rules, NearFull(mi), order, vtx)
    {
      hide BlockOk, Tallied, TableOk, SinceOk, Considered, Assembled, Elements, StopOk, FailedRun, Total, Surveyed;
      BlockFacts(p);
      if mi == |order| && m == map[] {
        ExhaustedOk(p, rules, order, since.Keys, vtx);
      }
      if failures > MAX_CONSECUTIVE_FAILURES && blockWeight > rules.maxWeight - 4000 {
        SurveyedNow(p, rules, order, mi, m, since, vtx);
        NearFullOk(p, rules, order, mi, m, since.Keys, vtx, run, failures);
      }
    }

    /** Drop a candidate that failed: an entry of the side table is erased and remembered. */
    method DropFailed(p: Pool, ghost minFee: int -> int, order: seq<TxId>, ghost seen: nat, ghost mi: nat, usingModified: bool, iter: TxId,
                      table: Modified, failedBefore: set<TxId>, ghost sinceBefore: map<TxId, nat>)
        returns (m: Modified, failed: set<TxId>, ghost since: map<TxId, nat>)
      requires TableOk(p, table, sinceBefore, vtx) && SinceOk(p, TheRules(minFee), sinceBefore, vtx) && failedBefore == sinceBefore.Keys
      requires Candidate(order, seen, mi, usingModified, iter, table, failedBefore)
      requires Considered(p, TheRules(minFee), Seen(order, seen, failedBefore), table, vtx)
      requires iter in p && Refused(p, TheRules(minFee), vtx, iter)
      ensures m == (if usingModified then table - {iter} else table)
      ensures failed == since.Keys == (if usingModified then failedBefore + {iter} else failedBefore)
      ensures TableOk(p, m, since, vtx) && SinceOk(p, TheRules(minFee), since, vtx)
      ensures mi <= |order| && Considered(p, TheRules(minFee), Seen(order, mi, failed), m, vtx)
    {
      hide TableOk, SinceOk, Considered, Refused, Elements;
      m, failed, since := table, failedBefore, sinceBefore;
      SeenFailed(p, TheRules(minFee), order, seen, mi, usingModified, iter, m, since, vtx);
      if usingModified {
        FailedTable(p, TheRules(minFee), m, since, vtx, iter);
        m := m - {iter};
        failed := failed + {iter};
        since := since[iter := |vtx|];
      }
    }

    /** The side table at the start: the descendants of what is already selected. */
    method Start(p: Pool, ghost bytesPerSigop: nat) returns (m: Modified)
      requires ValidPool(p, bytesPerSigop) && Valid(p)
      ensures TableOk(p, m, map[], vtx)
    {
      hide Total, BlockOk, Tallied, ValidPool;
      AllAncestorsInPool(p, bytesPerSigop);
      BlockFacts(p);
      m := UpdatePackagesForAdded(p, inBlock, map[]);
      StartTable(p, bytesPerSigop, m, vtx);
    }

    /** Append a package that fits, in a valid order, and update the side table. */
    method SelectPackage(p: Pool, ghost bytesPerSigop: nat, iter: TxId, package: set<TxId>, ghost totals: Totals, table: Modified,
                         ghost since: map<TxId, nat>, ghost minFee: int -> int, ghost k: nat, ghost seen: set<TxId>,
                         ghost start: nat, ghost packages: nat)
        returns (m: Modified)
      requires ValidPool(p, bytesPerSigop) && Valid(p) && TableOk(p, table, since, vtx) && SinceOk(p, TheRules(minFee), since, vtx)
      requires Considered(p, TheRules(minFee), seen - package, table, vtx) && Assembled(p, TheRules(minFee), start, vtx, packages)
      requires iter in p && iter !in inBlock && k <= |vtx| && Decided(p, TheRules(minFee), vtx, k, iter)
      requires Recorded(p, totals, iter, vtx[k..]) && TestPackage(totals.size, totals.sigops)
      requires p[iter].isNick || totals.modFees >= minFee(totals.size)
      requires package == Package(p, iter) - inBlock && package <= p.Keys && TestPackageTransactions(p, package)
      modifies this
      ensures Valid(p) && TableOk(p, m, since, vtx) && SinceOk(p, TheRules(minFee), since, vtx)
      ensures Considered(p, TheRules(minFee), seen, m, vtx) && Assembled(p, TheRules(minFee), start, vtx, packages + 1)
      ensures old(vtx) <= vtx && inBlock == old(inBlock) + package
      ensures blockWeight < maxWeight && blockSigops < MAX_BLOCK_SIGOPS_COST
      ensures includeWitness == old(includeWitness)
    {
      hide Total, ValidPool, Topological, Sorted, Considered, Paid, TableOk, SinceOk, Assembled, Decided, Recorded, Elements, Tallied, Chosen,
           NoRepeats, UpdateSpec;
      ghost var rules := TheRules(minFee);
      BlockFacts(p);
      var sorted := SortForBlock(p, package);
      ChosenNow(p, rules, vtx, k, iter, sorted, totals, blockWeight, blockSigops);
      AssembledNext(p, rules, start, vtx, packages, k, iter, sorted);
      SinceGrows(p, rules, since, vtx, sorted);
      SuffixSelected(vtx, k);
      GrownBlock(p, bytesPerSigop, inBlock, vtx, blockWeight, blockSigops, iter, sorted, vtx[k..], totals);
      AllAncestorsInPool(p, bytesPerSigop);
      AddEntries(p, sorted);
      TableOutside(p, table, since, old(vtx));
      m := UpdatePackagesForAdded(p, package, table - package);
      UpdatedTable(p, bytesPerSigop, table, m, since, old(vtx), sorted);
      ConsideredAfter(p, rules, seen, table, m, old(vtx), sorted);
    }
  }

  /** A sorted package that fits extends the block in a valid order, within both limits. */
  lemma GrownBlock(p: Pool, bytesPerSigop: nat, inBlock: set<TxId>, vtx: seq<TxId>, weight: int, sigops: int,
                   t: TxId, sorted: seq<TxId>, since: seq<TxId>, totals: Totals)
    requires ValidPool(p, bytesPerSigop) && BlockOk(p, inBlock, vtx, weight, sigops) && t in p && t !in inBlock
    requires Sorted(p, sorted) && Elements(sorted) == Package(p, t) - inBlock && Elements(sorted) <= p.Keys
    requires Recorded(p, totals, t, since) && Elements(since) <= inBlock
    ensures NoRepeats(sorted)
    ensures var w, g := weight + Total(Weights(p), Elements(sorted)), sigops + Total(Sigops(p), Elements(sorted));
            && BlockOk(p, inBlock + Elements(sorted), vtx + sorted, w, g)
            && w <= weight + WITNESS_SCALE_FACTOR * totals.size && g <= sigops + totals.sigops
  {
    hide ValidPool, Total, Sorted, Topological, Elements;
    var package := Elements(sorted);
    PackageClosed(p, bytesPerSigop, inBlock, t, package);
    RecordedBounds(p, totals, t, since, package, inBlock);
    PackageFits(p, bytesPerSigop, inBlock, package, totals);
    SortedDistinct(p, sorted);
    SortedAll(sorted, package);
    SortedTopological(p, bytesPerSigop, inBlock, sorted);
    TopologicalAppend(p, vtx, sorted);
    TotalUnion(Weights(p), inBlock, package);
    TotalUnion(Sigops(p), inBlock, package);
  }

  lemma SuffixSelected(vtx: seq<TxId>, k: nat)
    requires k <= |vtx|
    ensures Elements(vtx[k..]) <= Elements(vtx)
  {
  }

  lemma SortedAll(sorted: seq<TxId>, package: set<TxId>)
    requires Elements(sorted) == package
    ensures forall t :: t in sorted <==> t in package
  {
  }

  lemma RecordedBounds(p: Pool, totals: Totals, t: TxId, since: seq<TxId>, package: set<TxId>, inBlock: set<TxId>)
    requires Recorded(p, totals, t, since) && Elements(since) <= inBlock && package == Package(p, t) - inBlock && package <= p.Keys
    ensures Total(Sizes(p), package) <= totals.size && Total(Sigops(p), package) <= totals.sigops
  {
    hide Total, Elements;
    TotalMonotone(Sizes(p), package, Package(p, t) - Elements(since));
    TotalMonotone(Sigops(p), package, Package(p, t) - Elements(since));
  }

  lemma NoRun(order: seq<TxId>, m: Modified, vtx: seq<TxId>)
    ensures FailedRun({}, 0, order, 0, m, {}, vtx)
  {
  }

  lemma NoRunAt(order: seq<TxId>, mi: nat, m: Modified, failed: set<TxId>, vtx: seq<TxId>)
    requires mi <= |order|
    ensures FailedRun({}, 0, order, mi, m, failed, vtx)
  {
  }

  lemma TableOutside(p: Pool, m: Modified, since: map<TxId, nat>, vtx: seq<TxId>)
    requires TableOk(p, m, since, vtx)
    ensures m.Keys <= p.Keys - Elements(vtx)
  {
  }

  lemma NothingTotals(p: Pool)
    ensures Elements([]) == {} && Total(Weights(p), {}) == 0 && Total(Sigops(p), {}) == 0
  {
  }

  lemma ElementsStep(p: Pool, s: seq<TxId>, i: nat)
    requires i < |s| && Elements(s) <= p.Keys && forall i, j :: 0 <= i < j < |s| ==> s[i] != s[j]
    ensures s[i] in p && Elements(s[..i + 1]) == Elements(s[..i]) + {s[i]} && Elements(s[..i + 1]) <= p.Keys
    ensures Total(Weights(p), Elements(s[..i + 1])) == Total(Weights(p), Elements(s[..i])) + p[s[i]].weight
    ensures Total(Sigops(p), Elements(s[..i + 1])) == Total(Sigops(p), Elements(s[..i])) + p[s[i]].sigops
  {
    var e := Elements(s[..i + 1]);
    assert s[i] in Elements(s);
    assert e - {s[i]} == Elements(s[..i]);
    forall x | x in e ensures x in p {
      assert x in Elements(s);
    }
    TotalRemove(Weights(p), e, s[i]);
    TotalRemove(Sigops(p), e, s[i]);
  }

  lemma SortedDistinct(p: Pool, s: seq<TxId>)
    requires Sorted(p, s)
    ensures forall i, j :: 0 <= i < j < |s| ==> s[i] != s[j]
  {
  }

  lemma AllAncestorsInPool(p: Pool, bytesPerSigop: nat)
    requires ValidPool(p, bytesPerSigop)
    ensures forall t :: t in p ==> p[t].ancestors <= p.Keys
  {
  }

  lemma StartTable(p: Pool, bytesPerSigop: nat, m: Modified, vtx: seq<TxId>)
    requires ValidPool(p, bytesPerSigop) && Closed(p, Elements(vtx)) && UpdateSpec(p, map[], m, Elements(vtx))
    ensures TableOk(p, m, map[], vtx)
  {
    hide ValidPool, Recorded, Total;
    AllAncestorsInPool(p, bytesPerSigop);
    NothingSelected(p);
    assert [] + vtx == vtx;
    var none: Modified := map[];
    assert none - Elements(vtx) == none;
    UpdatedTable(p, bytesPerSigop, map[], m, map[], [], vtx);
  }

  lemma NothingSelected(p: Pool)
    requires forall t :: t in p ==> p[t].ancestors <= p.Keys
    ensures TableOk(p, map[], map[], []) && Closed(p, Elements([]))
  {
    assert Elements([]) == {};
  }

  /** A refused entry leaves the table and is remembered. */
  lemma FailedTable(p: Pool, rules: Rules, m: Modified, since: map<TxId, nat>, vtx: seq<TxId>, t: TxId)
    requires TableOk(p, m, since, vtx) && SinceOk(p, rules, since, vtx) && t in m && t in p && Refused(p, rules, vtx, t)
    ensures TableOk(p, m - {t}, since[t := |vtx|], vtx) && SinceOk(p, rules, since[t := |vtx|], vtx)
  {
    hide TableOk, SinceOk, Refused, Elements, Meets, Decided;
    DecidedNow(p, rules, m, since, vtx, t);
    ErasedTable(p, m, since, vtx, t);
    RememberedSince(p, rules, since, vtx, t);
  }

  lemma ErasedTable(p: Pool, m: Modified, since: map<TxId, nat>, vtx: seq<TxId>, t: TxId)
    requires TableOk(p, m, since, vtx) && t in m
    ensures TableOk(p, m - {t}, since[t := |vtx|], vtx)
  {
    hide Recorded, Elements, Meets, Tracked;
    var erased := since[t := |vtx|];
    forall d | d in p && d !in Elements(vtx) ensures Tracked(p, m - {t}, d, After(erased, vtx, d)) {
      assert Tracked(p, m, d, After(since, vtx, d));
      ErasedEntry(p, m, since, vtx, t, d);
    }
  }

  lemma ErasedEntry(p: Pool, m: Modified, since: map<TxId, nat>, vtx: seq<TxId>, t: TxId, d: TxId)
    requires d in p && Tracked(p, m, d, After(since, vtx, d))
    ensures Tracked(p, m - {t}, d, After(since[t := |vtx|], vtx, d))
  {
    hide Recorded, Elements, Meets;
    if d == t {
      assert After(since[t := |vtx|], vtx, d) == [];
      NothingMet(p, t);
    }
  }

  lemma RememberedSince(p: Pool, rules: Rules, since: map<TxId, nat>, vtx: seq<TxId>, t: TxId)
    requires SinceOk(p, rules, since, vtx) && t in p && Meets(p, t, vtx) && Refused(p, rules, vtx, t)
    ensures SinceOk(p, rules, since[t := |vtx|], vtx)
  {
    hide Refused, Meets;
    assert vtx[..|vtx|] == vtx;
  }

  lemma NothingMet(p: Pool, t: TxId)
    requires t in p
    ensures !Meets(p, t, [])
  {
    assert p[t].ancestors * Elements([]) == {};
  }

  lemma PackageSet(p: Pool, bytesPerSigop: nat, inBlock: set<TxId>, t: TxId, package: set<TxId>)
    requires ValidPool(p, bytesPerSigop) && t in p && t !in inBlock && package == (p[t].ancestors - inBlock) + {t}
    ensures package == Package(p, t) - inBlock && package <= p.Keys
  {
    hide ValidPool;
    AncestorsClosed(p, bytesPerSigop, t);
  }

  /**
   The next candidate: the next pool entry or any entry of the side table.  The
   comparison of fee rates that decides between them may go either way.
   */
  method Choose(order: seq<TxId>, next: nat, m: Modified, ghost failed: set<TxId>)
      returns (iter: TxId, usingModified: bool, mi: nat)
    requires next <= |order| && (next < |order| || m != map[])
    requires next < |order| ==> order[next] !in failed && order[next] !in m
    ensures Candidate(order, next, mi, usingModified, iter, m, failed)
    ensures usingModified ==> iter in m
    ensures !usingModified ==> iter !in m
  {
    var best: TxId := 0;
    usingModified, mi := false, next;
    if m != map[] {
      Inhabited(m.Keys);
      best :| best in m.Keys;
    }
    if next == |order| {
      iter, usingModified := best, true;
    } else {
      iter := order[next];
      var preferModified: bool := *;
      if m != map[] && preferModified {
        iter, usingModified := best, true;
      } else {
        mi := next + 1;
      }
    }
  }

  /** Take the selected transactions off the totals of everything that depends on them. */
  method UpdatePackagesForAdded(p: Pool, added: set<TxId>, before: Modified) returns (m: Modified)
    requires added <= p.Keys && before.Keys <= p.Keys && before.Keys !! added
    requires forall t :: t in p ==> p[t].ancestors <= p.Keys
    ensures UpdateSpec(p, before, m, added)
  {
    m := before;
    var todo := added;
    assert Affected(p, added, {}) == {};
    UntouchedAdjusted(p, before);
    while todo != {}
      invariant todo <= added
      invariant m.Keys == before.Keys + Affected(p, added, added - todo)
      invariant forall d :: d in m ==> Adjusted(p, before, m, d, added - todo)
      decreases todo
    {
      Inhabited(todo);
      var it :| it in todo;
      m := UpdateDescendants(p, added, before, m, added - todo, it);
      assert added - (todo - {it}) == (added - todo) + {it};
      todo := todo - {it};
    }
    assert added - todo == added;
  }

  lemma UntouchedAdjusted(p: Pool, m: Modified)
    requires m.Keys <= p.Keys && forall t :: t in p ==> p[t].ancestors <= p.Keys
    ensures forall d :: d in m ==> Adjusted(p, m, m, d, {})
  {
    forall d | d in m ensures Adjusted(p, m, m, d, {}) {
      assert p[d].ancestors * {} == {};
    }
  }

  lemma AffectedStep(p: Pool, added: set<TxId>, done: set<TxId>, it: TxId)
    requires it in added && it in p
    ensures Affected(p, added, done + {it}) == Affected(p, added, done) + (Descendants(p, it) - added)
  {
    forall d | d in p ensures p[d].ancestors * (done + {it}) != {} <==> p[d].ancestors * done != {} || it in p[d].ancestors {
      assert p[d].ancestors * (done + {it}) == p[d].ancestors * done + p[d].ancestors * {it};
      assert it in p[d].ancestors ==> it in p[d].ancestors * {it};
      assert it !in p[d].ancestors ==> p[d].ancestors * {it} == {};
    }
  }

  /** The inner loop: take one selected transaction off the totals of its descendants. */
  method UpdateDescendants(p: Pool, added: set<TxId>, ghost before: Modified, table: Modified,
                           ghost done: set<TxId>, it: TxId) returns (m: Modified)
    requires it in added && added <= p.Keys && it !in done && done <= added
    requires before.Keys <= p.Keys && before.Keys !! added
    requires forall t :: t in p ==> p[t].ancestors <= p.Keys
    requires table.Keys == before.Keys + Affected(p, added, done)
    requires forall d :: d in table ==> Adjusted(p, before, table, d, done)
    ensures m.Keys == before.Keys + Affected(p, added, done + {it})
    ensures forall d :: d in m ==> Adjusted(p, before, m, d, done + {it})
  {
    hide Partway, Adjusted, Descendants, Affected;
    m := table;
    var todo := Descendants(p, it);
    PartwayStart(p, added, before, table, done, it);
    while todo != {}
      invariant Partway(p, added, before, table, m, done, it, todo)
      decreases todo
    {
      Inhabited(todo);
      var desc :| desc in todo;
      if desc !in added {
        DescendantInPool(p, added, before, table, m, done, it, todo);
        var t;
        if desc !in m {
          var e := PoolTotals(p[desc]);
          t := Totals(e.size - p[it].size, e.modFees - p[it].modFee, e.sigops - p[it].sigops);
        } else {
          var e := m[desc];
          t := Totals(e.size - p[it].size, e.modFees - p[it].fee, e.sigops - p[it].sigops);
        }
        PartwayStep(p, added, before, table, m, done, it, todo, desc, t);
        m := m[desc := t];
      } else {
        PartwaySkip(p, added, before, table, m, done, it, todo, desc);
      }
      todo := todo - {desc};
    }
    PartwayEnd(p, added, before, table, m, done, it);
  }

  /** The state of the inner loop: descendants outside `todo` are adjusted for `it`, the rest are not yet. */
  ghost predicate Partway(p: Pool, added: set<TxId>, before: Modified, table: Modified, m: Modified,
                          done: set<TxId>, it: TxId, todo: set<TxId>)
    requires it in p && (forall t :: t in p ==> p[t].ancestors <= p.Keys)
  {
    && todo <= Descendants(p, it)
    && before.Keys <= table.Keys && table.Keys <= p.Keys && table.Keys !! added
    && m.Keys == table.Keys + (Descendants(p, it) - todo - added)
    && (forall d :: d in table && (d in todo || d !in Descendants(p, it)) ==> d in m && m[d] == table[d])
    && (forall d :: d in m && d in Descendants(p, it) && d !in todo ==> Adjusted(p, before, m, d, done + {it}))
  }

  lemma PartwayStart(p: Pool, added: set<TxId>, before: Modified, table: Modified, done: set<TxId>, it: TxId)
    requires it in p && (forall t :: t in p ==> p[t].ancestors <= p.Keys)
    requires before.Keys <= p.Keys && before.Keys !! added
    requires table.Keys == before.Keys + Affected(p, added, done)
    ensures Partway(p, added, before, table, table, done, it, Descendants(p, it))
  {
  }

  lemma PartwayEnd(p: Pool, added: set<TxId>, before: Modified, table: Modified, m: Modified,
                   done: set<TxId>, it: TxId)
    requires it in p && it in added && (forall t :: t in p ==> p[t].ancestors <= p.Keys)
    requires Partway(p, added, before, table, m, done, it, {})
    requires table.Keys == before.Keys + Affected(p, added, done)
    requires forall d :: d in table ==> Adjusted(p, before, table, d, done)
    ensures m.Keys == before.Keys + Affected(p, added, done + {it})
    ensures forall d :: d in m ==> Adjusted(p, before, m, d, done + {it})
  {
    hide Adjusted;
    AffectedStep(p, added, done, it);
    forall d | d in m && d !in Descendants(p, it) ensures Adjusted(p, before, m, d, done + {it}) {
      AdjustedSame(p, before, table, d, done, it);
      AdjustedFrame(p, before, table, m, d, done + {it});
    }
  }

  lemma DescendantInPool(p: Pool, added: set<TxId>, before: Modified, table: Modified, m: Modified,
                         done: set<TxId>, it: TxId, todo: set<TxId>)
    requires it in p && (forall t :: t in p ==> p[t].ancestors <= p.Keys)
    requires Partway(p, added, before, table, m, done, it, todo)
    ensures todo <= p.Keys
  {
  }

  lemma PartwayStep(p: Pool, added: set<TxId>, before: Modified, table: Modified, m: Modified,
                    done: set<TxId>, it: TxId, todo: set<TxId>, desc: TxId, t: Totals)
    requires it in p && it in added && it !in done && (forall x :: x in p ==> p[x].ancestors <= p.Keys)
    requires Partway(p, added, before, table, m, done, it, todo) && desc in todo && desc !in added && desc in p
    requires table.Keys == before.Keys + Affected(p, added, done)
    requires forall d :: d in table ==> Adjusted(p, before, table, d, done)
    requires t.size == Base(p, m, desc).size - p[it].size && t.sigops == Base(p, m, desc).sigops - p[it].sigops
    requires t.modFees == if desc in m then m[desc].modFees - p[it].fee else p[desc].modFeesWithAncestors - p[it].modFee
    ensures Partway(p, added, before, table, m[desc := t], done, it, todo - {desc})
  {
    hide Adjusted, Total;
    if desc in m {
      assert desc in table && m[desc] == table[desc];
      AdjustedFrame(p, before, table, m, desc, done);
    }
    AdjustedStep(p, before, m, desc, done, it, t);
    forall d | d in m && d in Descendants(p, it) && d !in todo
      ensures Adjusted(p, before, m[desc := t], d, done + {it})
    {
      AdjustedFrame(p, before, m, m[desc := t], d, done + {it});
    }
  }

  lemma AdjustedFrame(p: Pool, before: Modified, a: Modified, b: Modified, d: TxId, done: set<TxId>)
    requires d in p && d in a && d in b && a[d] == b[d] && p[d].ancestors <= p.Keys
    ensures Adjusted(p, before, a, d, done) == Adjusted(p, before, b, d, done)
  {
  }

  lemma PartwaySkip(p: Pool, added: set<TxId>, before: Modified, table: Modified, m: Modified,
                    done: set<TxId>, it: TxId, todo: set<TxId>, desc: TxId)
    requires it in p && (forall x :: x in p ==> p[x].ancestors <= p.Keys)
    requires Partway(p, added, before, table, m, done, it, todo) && desc in todo && desc in added
    ensures Partway(p, added, before, table, m, done, it, todo - {desc})
  {
    hide Adjusted;
  }
}
