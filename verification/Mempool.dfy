/**
 The mempool as block assembly sees it: a finite set of transactions with exact
 ancestor sets and exact cached totals over a transaction and its ancestors.
 */
module Mempool {

  const WITNESS_SCALE_FACTOR := 4

  type TxId = nat

  datatype Entry = Entry(weight: nat, sigops: nat, fee: nat, modFee: int,
                         isFinal: bool, hasWitness: bool, isNick: bool,
                         ancestors: set<TxId>,
                         size: nat, sizeWithAncestors: int, sigopsWithAncestors: int, modFeesWithAncestors: int)

  type Pool = map<TxId, Entry>

  /** Virtual size: weight, or sigop cost if that is larger, in units of four, rounded up. */
  function VirtualSize(weight: nat, sigops: nat, bytesPerSigop: nat): (size: nat)
    ensures weight <= WITNESS_SCALE_FACTOR * size
  {
    var w := if weight < sigops * bytesPerSigop then sigops * bytesPerSigop else weight;
    (w + WITNESS_SCALE_FACTOR - 1) / WITNESS_SCALE_FACTOR
  }

  /** It is the least number that covers both the weight and the sigop cost, four units each. */
  lemma VirtualSizeLeast(weight: nat, sigops: nat, bytesPerSigop: nat, size: nat)
    ensures VirtualSize(weight, sigops, bytesPerSigop) <= size <==> weight <= 4 * size && sigops * bytesPerSigop <= 4 * size
  {
    var cost := sigops * bytesPerSigop;
    assert VirtualSize(weight, sigops, bytesPerSigop) == (if weight < cost then cost + 3 else weight + 3) / 4;
  }

  function Sizes(p: Pool): map<TxId, nat> { map t | t in p :: p[t].size }

  function Sigops(p: Pool): map<TxId, nat> { map t | t in p :: p[t].sigops }

  function Fees(p: Pool): map<TxId, nat> { map t | t in p :: p[t].fee }

  function ModFees(p: Pool): map<TxId, int> { map t | t in p :: p[t].modFee }

  /** No transaction was prioritised: modified fees are the fees. */
  predicate Plain(p: Pool)
  {
    forall t :: t in p ==> p[t].modFee == p[t].fee
  }

  function Weights(p: Pool): map<TxId, nat> { map t | t in p :: p[t].weight }

  /** The sum of a quantity over a set of transactions. */
  ghost function Total(w: map<TxId, nat>, s: set<TxId>): nat
    requires s <= w.Keys
  {
    if s == {} then 0
    else
      Inhabited(s);
      var x :| x in s;
      w[x] + Total(w, s - {x})
  }

  /** The same for a quantity that may be negative. */
  ghost function Sum(w: map<TxId, int>, s: set<TxId>): int
    requires s <= w.Keys
  {
    if s == {} then 0
    else
      Inhabited(s);
      var x :| x in s;
      w[x] + Sum(w, s - {x})
  }

  lemma Inhabited(s: set<TxId>)
    requires s != {}
    ensures exists x :: x in s
  {
    if !(exists x :: x in s) {
      assert false;
    }
  }

  /** A transaction with its ancestors. */
  function Package(p: Pool, t: TxId): set<TxId>
    requires t in p
  {
    p[t].ancestors + {t}
  }

  /** Ancestor sets are those of an acyclic graph, and the cached totals are exact. */
  ghost predicate ValidPool(p: Pool, bytesPerSigop: nat)
  {
    forall t :: t in p ==>
      && t !in p[t].ancestors
      && p[t].ancestors <= p.Keys
      && (forall a :: a in p[t].ancestors ==> a in p && p[a].ancestors <= p[t].ancestors)
      && p[t].weight > 0 && p[t].size == VirtualSize(p[t].weight, p[t].sigops, bytesPerSigop)
      && p[t].sizeWithAncestors == Total(Sizes(p), Package(p, t))
      && p[t].sigopsWithAncestors == Total(Sigops(p), Package(p, t))
      && p[t].modFeesWithAncestors == Sum(ModFees(p), Package(p, t))
  }

  /** The transaction and everything that depends on it. */
  function Descendants(p: Pool, t: TxId): set<TxId>
    requires t in p
  {
    set d | d in p && (d == t || t in p[d].ancestors)
  }

  /** A set that contains the ancestors of all its members. */
  predicate Closed(p: Pool, s: set<TxId>)
  {
    s <= p.Keys && forall t :: t in s ==> p[t].ancestors <= s
  }

  lemma {:induction false} TotalRemove(w: map<TxId, nat>, s: set<TxId>, x: TxId)
    requires s <= w.Keys && x in s
    ensures Total(w, s) == w[x] + Total(w, s - {x})
    decreases s
  {
    Inhabited(s);
    var y :| y in s && Total(w, s) == w[y] + Total(w, s - {y});
    if y != x {
      TotalRemove(w, s - {y}, x);
      TotalRemove(w, s - {x}, y);
      assert s - {y} - {x} == s - {x} - {y};
    }
  }

  lemma {:induction false} SumRemove(w: map<TxId, int>, s: set<TxId>, x: TxId)
    requires s <= w.Keys && x in s
    ensures Sum(w, s) == w[x] + Sum(w, s - {x})
    decreases s
  {
    Inhabited(s);
    var y :| y in s && Sum(w, s) == w[y] + Sum(w, s - {y});
    if y != x {
      SumRemove(w, s - {y}, x);
      SumRemove(w, s - {x}, y);
      assert s - {y} - {x} == s - {x} - {y};
    }
  }

  /** A total depends only on the quantities of the members. */
  lemma {:induction false} TotalFrame(v: map<TxId, nat>, w: map<TxId, nat>, s: set<TxId>)
    requires s <= v.Keys && s <= w.Keys && forall t :: t in s ==> v[t] == w[t]
    ensures Total(v, s) == Total(w, s)
    decreases s
  {
    if s != {} {
      Inhabited(s);
      var x :| x in s;
      TotalRemove(v, s, x);
      TotalRemove(w, s, x);
      TotalFrame(v, w, s - {x});
    }
  }

  lemma {:induction false} SumFrame(v: map<TxId, int>, w: map<TxId, int>, s: set<TxId>)
    requires s <= v.Keys && s <= w.Keys && forall t :: t in s ==> v[t] == w[t]
    ensures Sum(v, s) == Sum(w, s)
    decreases s
  {
    if s != {} {
      Inhabited(s);
      var x :| x in s;
      SumRemove(v, s, x);
      SumRemove(w, s, x);
      SumFrame(v, w, s - {x});
    }
  }

  lemma {:induction false} SumPlain(p: Pool, s: set<TxId>)
    requires Plain(p) && s <= p.Keys
    ensures Sum(ModFees(p), s) == Total(Fees(p), s)
    decreases s
  {
    if s != {} {
      Inhabited(s);
      var x :| x in s;
      SumRemove(ModFees(p), s, x);
      TotalRemove(Fees(p), s, x);
      SumPlain(p, s - {x});
    }
  }

  lemma {:induction false} TotalUnion(w: map<TxId, nat>, a: set<TxId>, b: set<TxId>)
    requires a <= w.Keys && b <= w.Keys && a !! b
    ensures Total(w, a + b) == Total(w, a) + Total(w, b)
    decreases b
  {
    if b == {} {
      assert a + b == a;
    } else {
      Inhabited(b);
      var x :| x in b;
      TotalRemove(w, b, x);
      TotalRemove(w, a + b, x);
      TotalUnion(w, a, b - {x});
      assert a + b - {x} == a + (b - {x});
    }
  }

  lemma TotalMonotone(w: map<TxId, nat>, a: set<TxId>, b: set<TxId>)
    requires a <= b <= w.Keys
    ensures Total(w, a) <= Total(w, b)
  {
    TotalUnion(w, a, b - a);
    assert a + (b - a) == b;
  }

  /** Weight is bounded by four times the virtual size, over any set. */
  lemma {:induction false} WeightBySize(p: Pool, bytesPerSigop: nat, s: set<TxId>)
    requires ValidPool(p, bytesPerSigop) && s <= p.Keys
    ensures Total(Weights(p), s) <= WITNESS_SCALE_FACTOR * Total(Sizes(p), s)
    decreases s
  {
    if s != {} {
      Inhabited(s);
      var x :| x in s;
      TotalRemove(Weights(p), s, x);
      TotalRemove(Sizes(p), s, x);
      WeightBySize(p, bytesPerSigop, s - {x});
    }
  }

  lemma AncestorsClosed(p: Pool, bytesPerSigop: nat, t: TxId)
    requires ValidPool(p, bytesPerSigop) && t in p
    ensures p[t].ancestors <= p.Keys && t !in p[t].ancestors
    ensures forall a :: a in p[t].ancestors ==> p[a].ancestors <= p[t].ancestors
  {
  }

  lemma CachedTotals(p: Pool, bytesPerSigop: nat, t: TxId)
    requires ValidPool(p, bytesPerSigop) && t in p
    ensures Package(p, t) <= p.Keys
    ensures p[t].sizeWithAncestors == Total(Sizes(p), Package(p, t))
    ensures p[t].sigopsWithAncestors == Total(Sigops(p), Package(p, t))
    ensures Plain(p) ==> p[t].modFeesWithAncestors == Total(Fees(p), Package(p, t))
  {
    if Plain(p) {
      hide Total, Sum;
      SumPlain(p, Package(p, t));
    }
  }

  /** An ancestor has strictly fewer ancestors. */
  lemma FewerAncestors(p: Pool, bytesPerSigop: nat, t: TxId, a: TxId)
    requires ValidPool(p, bytesPerSigop) && t in p && a in p[t].ancestors
    ensures a in p && |p[a].ancestors| < |p[t].ancestors|
  {
    assert p[a].ancestors < p[t].ancestors;
    var rest := p[t].ancestors - p[a].ancestors;
    assert p[t].ancestors == p[a].ancestors + rest;
    assert a in rest;
  }
}
