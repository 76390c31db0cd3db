/**
 The rolling bloom filter: every cell holds two bits, spread over two 64-bit
 words, that name the generation it was last set in, or zero.
 */
module RollingBloom {

  /** A 64-bit word, bit by bit. */
  type Word = w: seq<bool> | |w| == 64 witness seq(64, _ => false)

  function Fill(b: bool): Word
  {
    seq(64, _ => b)
  }

  function Not(x: Word): Word
  {
    seq(64, i requires 0 <= i < 64 => !x[i])
  }

  function And(x: Word, y: Word): Word
  {
    seq(64, i requires 0 <= i < 64 => x[i] && y[i])
  }

  function Or(x: Word, y: Word): Word
  {
    seq(64, i requires 0 <= i < 64 => x[i] || y[i])
  }

  function Xor(x: Word, y: Word): Word
  {
    seq(64, i requires 0 <= i < 64 => x[i] != y[i])
  }

  /** b shifted left to position k. */
  function At(b: bool, k: nat): Word
  {
    seq(64, i => i == k && b)
  }

  /** The generation in a cell: bit k of words 2 * w and 2 * w + 1. */
  function Gen(data: seq<Word>, w: nat, k: nat): (g: nat)
    requires 2 * w + 1 < |data| && k < 64
    ensures g <= 3
  {
    (if data[2 * w][k] then 1 else 0) + (if data[2 * w + 1][k] then 2 else 0)
  }

  function Prev(g: nat): nat
  {
    if g == 1 then 3 else if g == 2 then 1 else 2
  }

  // ----- Cells of a key

  type Hash<!Key> = (nat, nat, Key) -> nat

  /** The pair of words a hash value selects. */
  function Pair(h: nat, size: nat): (w: nat)
    requires size > 0 && size % 2 == 0
    ensures 2 * w + 1 < size
  {
    h / 64 % size / 2
  }

  /** A cell is set in generation g, or in one not older than the age allows. */
  predicate Fits(v: nat, g: nat, age: nat)
  {
    v == g || (age >= 1 && v == Prev(g)) || (age >= 2 && v == Prev(Prev(g)))
  }

  predicate Shape(data: seq<Word>, g: nat)
  {
    |data| > 0 && |data| % 2 == 0 && 1 <= g <= 3
  }

  /** Every cell of a key fits its age. */
  ghost predicate KeyHeld<Key>(hash: Hash<Key>, funcs: nat, tweak: nat, data: seq<Word>, g: nat, key: Key, age: nat)
    requires Shape(data, g)
  {
    forall n: nat :: n < funcs ==>
      var h := hash(n, tweak, key);
      Fits(Gen(data, Pair(h, |data|), h % 64), g, age)
  }

  /** How many generation changes ago the key at index i went in, if at most two. */
  function Age(i: nat, count: nat, entries: nat, per: nat): nat
  {
    if i + entries >= count then 0 else if i + entries + per >= count then 1 else 2
  }

  /** All keys of the current and the last two generations are held. */
  ghost predicate Held<Key>(hash: Hash<Key>, funcs: nat, tweak: nat, data: seq<Word>, g: nat, log: seq<Key>, entries: nat, per: nat)
    requires Shape(data, g)
  {
    forall i: nat :: i < |log| && i + entries + 2 * per >= |log| ==>
      KeyHeld(hash, funcs, tweak, data, g, log[i], Age(i, |log|, entries, per))
  }

  // ----- Wiping a generation

  /** Cells of generation g are cleared, others are as before. */
  ghost predicate Wiped(before: seq<Word>, after: seq<Word>, g: nat)
  {
    && |before| == |after|
    && (forall w: nat, k: nat :: 2 * w + 1 < |before| && k < 64 ==>
          Gen(after, w, k) == if Gen(before, w, k) == g then 0 else Gen(before, w, k))
  }

  /** The masked pair of words: a bit survives unless both its bits are those of g. */
  lemma MaskClears(p1: Word, p2: Word, g: nat, k: nat)
    requires 1 <= g <= 3 && k < 64
    ensures var mask := Or(Xor(p1, Fill(g % 2 == 1)), Xor(p2, Fill(g / 2 == 1)));
            var was := [p1, p2];
            var now := [And(p1, mask), And(p2, mask)];
            Gen(now, 0, k) == if Gen(was, 0, k) == g then 0 else Gen(was, 0, k)
  {
  }

  /** A key that was within two generations is within reach of the next one after its wipe. */
  lemma WipeKeeps<Key>(hash: Hash<Key>, funcs: nat, tweak: nat, before: seq<Word>, after: seq<Word>, g: nat, key: Key, age: nat)
    requires Shape(before, g) && age <= 1 && KeyHeld(hash, funcs, tweak, before, g, key, age)
    requires Wiped(before, after, g % 3 + 1)
    ensures Shape(after, g % 3 + 1) && KeyHeld(hash, funcs, tweak, after, g % 3 + 1, key, age + 1)
  {
    forall n: nat | n < funcs
      ensures var h := hash(n, tweak, key);
              Fits(Gen(after, Pair(h, |after|), h % 64), g % 3 + 1, age + 1)
    {
      var h := hash(n, tweak, key);
      assert Fits(Gen(before, Pair(h, |before|), h % 64), g, age);
    }
  }

  lemma RollKeeps<Key>(hash: Hash<Key>, funcs: nat, tweak: nat, before: seq<Word>, after: seq<Word>, g: nat, log: seq<Key>, per: nat)
    requires Shape(before, g) && Held(hash, funcs, tweak, before, g, log, per, per)
    requires Wiped(before, after, g % 3 + 1)
    ensures Shape(after, g % 3 + 1) && Held(hash, funcs, tweak, after, g % 3 + 1, log, 0, per)
  {
    hide KeyHeld;
    forall i: nat | i < |log| && i + 2 * per >= |log|
      ensures KeyHeld(hash, funcs, tweak, after, g % 3 + 1, log[i], Age(i, |log|, 0, per))
    {
      assert KeyHeld(hash, funcs, tweak, before, g, log[i], Age(i, |log|, per, per));
      WipeKeeps(hash, funcs, tweak, before, after, g, log[i], Age(i, |log|, per, per));
    }
  }

  // ----- Setting a cell

  /** One cell is set to g, others are as before. */
  ghost predicate Put(before: seq<Word>, after: seq<Word>, w: nat, k: nat, g: nat)
  {
    && |before| == |after|
    && (forall v: nat, j: nat :: 2 * v + 1 < |before| && j < 64 ==>
          Gen(after, v, j) == if v == w && j == k then g else Gen(before, v, j))
  }

  /** Setting cells to the current generation keeps every key. */
  lemma PutKeepsKey<Key>(hash: Hash<Key>, funcs: nat, tweak: nat, before: seq<Word>, after: seq<Word>, g: nat, key: Key, age: nat, w: nat, k: nat)
    requires Shape(before, g) && KeyHeld(hash, funcs, tweak, before, g, key, age) && Put(before, after, w, k, g)
    ensures Shape(after, g) && KeyHeld(hash, funcs, tweak, after, g, key, age)
  {
    forall n: nat | n < funcs
      ensures var h := hash(n, tweak, key);
              Fits(Gen(after, Pair(h, |after|), h % 64), g, age)
    {
      var h := hash(n, tweak, key);
      assert Fits(Gen(before, Pair(h, |before|), h % 64), g, age);
    }
  }

  lemma PutKeeps<Key>(hash: Hash<Key>, funcs: nat, tweak: nat, before: seq<Word>, after: seq<Word>, g: nat,
                      log: seq<Key>, entries: nat, per: nat, w: nat, k: nat)
    requires Shape(before, g) && Held(hash, funcs, tweak, before, g, log, entries, per) && Put(before, after, w, k, g)
    ensures Shape(after, g) && Held(hash, funcs, tweak, after, g, log, entries, per)
  {
    hide KeyHeld, Put;
    PutShape(before, after, g, w, k);
    forall i: nat | i < |log| && i + entries + 2 * per >= |log|
      ensures KeyHeld(hash, funcs, tweak, after, g, log[i], Age(i, |log|, entries, per))
    {
      PutKeepsKey(hash, funcs, tweak, before, after, g, log[i], Age(i, |log|, entries, per), w, k);
    }
  }

  lemma PutShape(before: seq<Word>, after: seq<Word>, g: nat, w: nat, k: nat)
    requires Shape(before, g) && Put(before, after, w, k, g)
    ensures Shape(after, g)
  {
  }

  /** One of the first n hashes of a key selects this cell. */
  ghost predicate Selects<Key>(hash: Hash<Key>, n: nat, tweak: nat, size: nat, key: Key, w: nat, k: nat)
    requires size > 0 && size % 2 == 0
  {
    exists m: nat :: m < n && Pair(hash(m, tweak, key), size) == w && hash(m, tweak, key) % 64 == k
  }

  /** Exactly the cells the first n hashes select are set to g. */
  ghost predicate Marking<Key>(hash: Hash<Key>, n: nat, tweak: nat, key: Key, before: seq<Word>, after: seq<Word>, g: nat)
    requires Shape(before, g)
  {
    && |after| == |before|
    && (forall w: nat, k: nat :: 2 * w + 1 < |before| && k < 64 ==>
          Gen(after, w, k) == if Selects(hash, n, tweak, |before|, key, w, k) then g else Gen(before, w, k))
  }

  lemma MarkingNext<Key>(hash: Hash<Key>, n: nat, tweak: nat, key: Key, start: seq<Word>, before: seq<Word>, after: seq<Word>, g: nat)
    requires Shape(start, g) && Marking(hash, n, tweak, key, start, before, g)
    requires var h := hash(n, tweak, key); Put(before, after, Pair(h, |start|), h % 64, g)
    ensures Marking(hash, n + 1, tweak, key, start, after, g)
  {
    hide Gen;
    var h := hash(n, tweak, key);
    forall w: nat, k: nat | 2 * w + 1 < |start| && k < 64
      ensures Gen(after, w, k) == if Selects(hash, n + 1, tweak, |start|, key, w, k) then g else Gen(start, w, k)
    {
      SelectsNext(hash, n, tweak, |start|, key, w, k);
    }
  }

  lemma SelectsNext<Key>(hash: Hash<Key>, n: nat, tweak: nat, size: nat, key: Key, w: nat, k: nat)
    requires size > 0 && size % 2 == 0
    ensures Selects(hash, n + 1, tweak, size, key, w, k) <==>
            Selects(hash, n, tweak, size, key, w, k) || (Pair(hash(n, tweak, key), size) == w && hash(n, tweak, key) % 64 == k)
  {
    hide Pair;
  }

  lemma MarkingNone<Key>(hash: Hash<Key>, tweak: nat, key: Key, data: seq<Word>, g: nat)
    requires Shape(data, g)
    ensures Marking(hash, 0, tweak, key, data, data, g)
  {
  }

  /** The cells of the first n hashes of a key are set in generation g. */
  ghost predicate SetUpTo<Key>(hash: Hash<Key>, n: nat, tweak: nat, data: seq<Word>, g: nat, key: Key)
    requires Shape(data, g)
  {
    KeyHeld(hash, n, tweak, data, g, key, 0)
  }

  lemma PutLength(before: seq<Word>, after: seq<Word>, w: nat, k: nat, g: nat)
    requires Put(before, after, w, k, g)
    ensures |after| == |before|
  {
  }

  lemma NothingSet<Key>(hash: Hash<Key>, tweak: nat, data: seq<Word>, g: nat, key: Key)
    requires Shape(data, g)
    ensures SetUpTo(hash, 0, tweak, data, g, key)
  {
  }

  lemma PutNext<Key>(hash: Hash<Key>, n: nat, tweak: nat, before: seq<Word>, after: seq<Word>, g: nat, key: Key)
    requires Shape(before, g) && SetUpTo(hash, n, tweak, before, g, key)
    requires var h := hash(n, tweak, key); Put(before, after, Pair(h, |before|), h % 64, g)
    ensures Shape(after, g) && SetUpTo(hash, n + 1, tweak, after, g, key)
  {
    var h := hash(n, tweak, key);
    PutKeepsKey(hash, n, tweak, before, after, g, key, 0, Pair(h, |before|), h % 64);
  }

  /** The new key joins the current generation. */
  lemma Logged<Key>(hash: Hash<Key>, funcs: nat, tweak: nat, data: seq<Word>, g: nat, log: seq<Key>, key: Key, entries: nat, per: nat)
    requires Shape(data, g) && Held(hash, funcs, tweak, data, g, log, entries, per)
    requires KeyHeld(hash, funcs, tweak, data, g, key, 0)
    ensures Held(hash, funcs, tweak, data, g, log + [key], entries + 1, per)
  {
    hide KeyHeld;
    var longer := log + [key];
    forall i: nat | i < |longer| && i + (entries + 1) + 2 * per >= |longer|
      ensures KeyHeld(hash, funcs, tweak, data, g, longer[i], Age(i, |longer|, entries + 1, per))
    {
      if i < |log| {
        assert longer[i] == log[i];
        assert Age(i, |longer|, entries + 1, per) == Age(i, |log|, entries, per);
      }
    }
  }

  // ----- The filter

  class Filter<Key> {
    const hash: Hash<Key>
    const nEntriesPerGeneration: nat
    const nHashFuncs: nat
    var nEntriesThisGeneration: nat
    var nGeneration: nat
    var data: seq<Word>
    var nTweak: nat
    ghost var log: seq<Key>  // the keys inserted since the last reset

    ghost predicate Valid()
      reads this
    {
      && Shape(data, nGeneration)
      && Held(hash, nHashFuncs, nTweak, data, nGeneration, log, nEntriesThisGeneration, nEntriesPerGeneration)
    }

    /** A filter for the last nElements keys; words and functions come from the false positive rate. */
    constructor (hash: Hash<Key>, nElements: nat, pairs: nat, nHashFuncs: nat, tweak: nat)
      requires pairs > 0
      ensures Valid() && log == [] && this.hash == hash && this.nHashFuncs == nHashFuncs
      ensures 2 * nEntriesPerGeneration >= nElements
    {
      this.hash := hash;
      this.nHashFuncs := nHashFuncs;
      nEntriesPerGeneration := (nElements + 1) / 2;
      data := seq(2 * pairs, _ => Fill(false));
      new;
      Reset(tweak);
    }

    method Reset(tweak: nat)
      requires |data| > 0 && |data| % 2 == 0
      modifies this
      ensures Valid() && log == [] && |data| == old(|data|)
      ensures nTweak == tweak && nEntriesThisGeneration == 0
      ensures forall w: nat, k: nat :: 2 * w + 1 < |data| && k < 64 ==> Gen(data, w, k) == 0
    {
      nTweak := tweak;
      nEntriesThisGeneration := 0;
      nGeneration := 1;
      for i := 0 to |data|
        invariant |data| == old(|data|) && nTweak == tweak && nEntriesThisGeneration == 0 && nGeneration == 1
        invariant forall j :: 0 <= j < i ==> data[j] == Fill(false)
      {
        data := data[i := Fill(false)];
      }
      log := [];
    }

    method Insert(key: Key)
      requires Valid()
      modifies this
      ensures Valid() && log == old(log) + [key]
      ensures nTweak == old(nTweak)
      ensures var rolled := old(nEntriesThisGeneration) == nEntriesPerGeneration;
              && nEntriesThisGeneration == (if rolled then 1 else old(nEntriesThisGeneration) + 1)
              && nGeneration == (if rolled then old(nGeneration) % 3 + 1 else old(nGeneration))
              && exists base: seq<Word> ::
                   && |base| == old(|data|) && (if rolled then Wiped(old(data), base, nGeneration) else base == old(data))
                   && Shape(base, nGeneration) && Marking(hash, nHashFuncs, nTweak, key, base, data, nGeneration)
    {
      hide Held, KeyHeld, Gen, Marking, Wiped;
      if nEntriesThisGeneration == nEntriesPerGeneration {
        Roll();
        WipedLength(old(data), data, nGeneration);
      }
      ghost var base := data;
      nEntriesThisGeneration := nEntriesThisGeneration + 1;
      SetCells(key);
      Logged(hash, nHashFuncs, nTweak, data, nGeneration, log, key, nEntriesThisGeneration - 1, nEntriesPerGeneration);
      log := log + [key];
    }

    /** Starts the next generation and forgets the oldest one. */
    method Roll()
      requires Valid() && nEntriesThisGeneration == nEntriesPerGeneration
      modifies this`nEntriesThisGeneration, this`nGeneration, this`data
      ensures Valid() && nEntriesThisGeneration == 0 && nGeneration == old(nGeneration) % 3 + 1
      ensures Wiped(old(data), data, nGeneration)
    {
      hide Held, Gen;
      ghost var before, g := data, nGeneration;
      nEntriesThisGeneration := 0;
      nGeneration := nGeneration + 1;
      if nGeneration == 4 {
        nGeneration := 1;
      }
      data := Wipe(data, nGeneration);
      RollKeeps(hash, nHashFuncs, nTweak, before, data, g, log, nEntriesPerGeneration);
    }

    static method Wipe(before: seq<Word>, g: nat) returns (after: seq<Word>)
      requires Shape(before, g)
      ensures Wiped(before, after, g)
    {
      hide Or, Xor, And, Gen;
      var mask1, mask2 := Fill(g % 2 == 1), Fill(g / 2 == 1);
      after := before;
      var p := 0;
      while p < |after|
        invariant |after| == |before| && p % 2 == 0 && 0 <= p <= |after|
        invariant forall j :: p <= j < |after| ==> after[j] == before[j]
        invariant forall w: nat, k: nat :: 2 * w + 1 < p && k < 64 ==>
                    Gen(after, w, k) == if Gen(before, w, k) == g then 0 else Gen(before, w, k)
      {
        ghost var was := after;
        var p1, p2 := after[p], after[p + 1];
        var mask := Or(Xor(p1, mask1), Xor(p2, mask2));
        after := after[p := And(p1, mask)][p + 1 := And(p2, mask)];
        WipeStep(before, was, after, p / 2, g);
        p := p + 2;
      }
    }

    /** Sets the cells of a key to the current generation. */
    method SetCells(key: Key)
      requires Shape(data, nGeneration) && nEntriesThisGeneration > 0
      requires Held(hash, nHashFuncs, nTweak, data, nGeneration, log, nEntriesThisGeneration - 1, nEntriesPerGeneration)
      modifies this`data
      ensures Shape(data, nGeneration) && KeyHeld(hash, nHashFuncs, nTweak, data, nGeneration, key, 0)
      ensures Held(hash, nHashFuncs, nTweak, data, nGeneration, log, nEntriesThisGeneration - 1, nEntriesPerGeneration)
      ensures Marking(hash, nHashFuncs, nTweak, key, old(data), data, nGeneration)
    {
      hide Held, Gen, Put, Marking, KeyHeld;
      ghost var start := data;
      MarkingNone(hash, nTweak, key, data, nGeneration);
      NothingSet(hash, nTweak, data, nGeneration, key);
      for n := 0 to nHashFuncs
        invariant Shape(data, nGeneration) && SetUpTo(hash, n, nTweak, data, nGeneration, key)
        invariant Held(hash, nHashFuncs, nTweak, data, nGeneration, log, nEntriesThisGeneration - 1, nEntriesPerGeneration)
        invariant |data| == |start| && Marking(hash, n, nTweak, key, start, data, nGeneration)
      {
        ghost var before := data;
        var h := hash(n, nTweak, key);
        var bit := h % 64;
        var pos := h / 64 % |data|;
        data := PutCell(data, pos, bit, nGeneration);
        PutKeeps(hash, nHashFuncs, nTweak, before, data, nGeneration, log, nEntriesThisGeneration - 1, nEntriesPerGeneration, pos / 2, bit);
        PutNext(hash, n, nTweak, before, data, nGeneration, key);
        MarkingNext(hash, n, nTweak, key, start, before, data, nGeneration);
        PutLength(before, data, pos / 2, bit, nGeneration);
      }
    }

    static method PutCell(before: seq<Word>, pos: nat, bit: nat, g: nat) returns (after: seq<Word>)
      requires Shape(before, g) && pos < |before| && bit < 64
      ensures Put(before, after, pos / 2, bit, g)
    {
      var even, odd := pos - pos % 2, pos - pos % 2 + 1;
      after := before[even := Or(And(before[even], Not(At(true, bit))), At(g % 2 == 1, bit))];
      after := after[odd := Or(And(after[odd], Not(At(true, bit))), At(g / 2 == 1, bit))];
      assert even == 2 * (pos / 2);
    }

    method Contains(key: Key) returns (r: bool)
      requires Valid()
      ensures r <==> Reported(key)
      ensures forall i: nat :: i < |log| && i + nEntriesThisGeneration + 2 * nEntriesPerGeneration >= |log| && log[i] == key ==> r
    {
      hide Held;
      r := true;
      for n := 0 to nHashFuncs
        invariant forall m: nat :: m < n ==> Marked(hash(m, nTweak, key))
      {
        var h := hash(n, nTweak, key);
        var bit := h % 64;
        var pos := h / 64 % |data|;
        if !Or(data[pos - pos % 2], data[pos - pos % 2 + 1])[bit] {
          r := false;
          break;
        }
      }
      RecentReported(key);
    }

    predicate Marked(h: nat)
      requires Shape(data, nGeneration)
      reads this
    {
      Gen(data, Pair(h, |data|), h % 64) != 0
    }

    /** All cells of the key are set, in whatever generation. */
    ghost predicate Reported(key: Key)
      requires Shape(data, nGeneration)
      reads this
    {
      forall n: nat :: n < nHashFuncs ==> Marked(hash(n, nTweak, key))
    }

    lemma RecentReported(key: Key)
      requires Valid()
      ensures forall i: nat :: i < |log| && i + nEntriesThisGeneration + 2 * nEntriesPerGeneration >= |log| && log[i] == key ==> Reported(key)
    {
    }
  }

  lemma WipedLength(before: seq<Word>, after: seq<Word>, g: nat)
    requires Wiped(before, after, g)
    ensures |after| == |before|
  {
  }

  lemma WipeStep(before: seq<Word>, was: seq<Word>, after: seq<Word>, w: nat, g: nat)
    requires |before| == |was| == |after| && 2 * w + 1 < |after| && 1 <= g <= 3
    requires was[2 * w] == before[2 * w] && was[2 * w + 1] == before[2 * w + 1]
    requires var mask := Or(Xor(before[2 * w], Fill(g % 2 == 1)), Xor(before[2 * w + 1], Fill(g / 2 == 1)));
             after == was[2 * w := And(before[2 * w], mask)][2 * w + 1 := And(before[2 * w + 1], mask)]
    ensures forall k: nat :: k < 64 ==> Gen(after, w, k) == if Gen(before, w, k) == g then 0 else Gen(before, w, k)
    ensures forall v: nat, k: nat :: v != w && 2 * v + 1 < |after| && k < 64 ==> Gen(after, v, k) == Gen(was, v, k)
  {
    forall k: nat | k < 64 ensures Gen(after, w, k) == if Gen(before, w, k) == g then 0 else Gen(before, w, k) {
      MaskClears(before[2 * w], before[2 * w + 1], g, k);
    }
  }
}
