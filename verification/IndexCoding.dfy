/** The differential coding of the transaction indexes a peer asks for. */
module IndexCoding {

  const MAX_INDEX := 0xffff
  const WORD := 0x1_0000_0000_0000_0000

  datatype Option<T> = None | Some(value: T)

  predicate SixteenBit(xs: seq<nat>)
  {
    forall i :: 0 <= i < |xs| ==> xs[i] <= MAX_INDEX
  }

  predicate Increasing(xs: seq<nat>)
  {
    forall i, j :: 0 <= i < j < |xs| ==> xs[i] < xs[j]
  }

  /** What is written for index i; a negative difference wraps to a 64-bit number. */
  function Written(xs: seq<nat>, i: nat): nat
    requires i < |xs|
  {
    (xs[i] - (if i == 0 then 0 else xs[i - 1] + 1)) % WORD
  }

  function Encoded(xs: seq<nat>): seq<nat>
  {
    seq(|xs|, i requires 0 <= i < |xs| => Written(xs, i))
  }

  /** The offset after the decoded indexes, a 16-bit number. */
  function Offset(xs: seq<nat>): nat
  {
    if xs == [] then 0 else (xs[|xs| - 1] + 1) % 0x1_0000
  }

  /** The first n indexes of a message; none if one of them overflows 16 bits. */
  function DecodedTo(ws: seq<nat>, n: nat): Option<seq<nat>>
    requires n <= |ws|
  {
    if n == 0 then Some([])
    else match DecodedTo(ws, n - 1)
      case None => None
      case Some(xs) => if ws[n - 1] + Offset(xs) > MAX_INDEX then None else Some(xs + [ws[n - 1] + Offset(xs)])
  }

  function Decoded(ws: seq<nat>): Option<seq<nat>>
  {
    if SixteenBit(ws) then DecodedTo(ws, |ws|) else None
  }

  lemma {:induction false} DecodedPrefix(ws: seq<nat>, n: nat)
    requires n <= |ws|
    ensures DecodedTo(ws, n).None? ==> DecodedTo(ws, |ws|).None?
    decreases |ws| - n
  {
    if n < |ws| {
      DecodedPrefix(ws, n + 1);
    }
  }

  lemma WrittenFits(xs: seq<nat>, i: nat)
    requires SixteenBit(xs) && Increasing(xs) && i < |xs|
    ensures Written(xs, i) <= MAX_INDEX && Written(xs, i) + Offset(xs[..i]) == xs[i]
  {
    if i > 0 {
      assert xs[i - 1] < xs[i];
    }
  }

  /** Increasing indexes come back. */
  lemma {:induction false} DecodesTo(xs: seq<nat>, n: nat)
    requires SixteenBit(xs) && Increasing(xs) && n <= |xs|
    ensures forall i :: 0 <= i < n ==> Encoded(xs)[i] <= MAX_INDEX
    ensures DecodedTo(Encoded(xs), n) == Some(xs[..n])
  {
    if n > 0 {
      hide Written, Increasing, SixteenBit, Offset;
      DecodesTo(xs, n - 1);
      WrittenFits(xs, n - 1);
      assert xs[..n] == xs[..n - 1] + [xs[n - 1]];
    }
  }

  /** A difference below zero is written as a number no index can be. */
  lemma Wraps(xs: seq<nat>, i: nat)
    requires SixteenBit(xs) && 0 < i < |xs| && xs[i] <= xs[i - 1]
    ensures Written(xs, i) == 0xffff_ffff_ffff_ffff - (xs[i - 1] - xs[i]) > MAX_INDEX
  {
    var a: int, b: int := xs[i], xs[i - 1];
    var d := a - (b + 1);
    assert d % WORD == d + WORD;
  }

  lemma {:induction false} Drop(xs: seq<nat>, i: nat, j: nat) returns (k: nat)
    requires i < j < |xs| && xs[i] >= xs[j]
    ensures 0 < k < |xs| && xs[k] <= xs[k - 1]
    decreases j - i
  {
    if xs[j - 1] >= xs[j] {
      k := j;
    } else {
      k := Drop(xs, i, j - 1);
    }
  }

  /** A request round-trips exactly when its indexes increase strictly. */
  lemma RoundTrip(xs: seq<nat>)
    requires SixteenBit(xs)
    ensures Decoded(Encoded(xs)) == Some(xs) <==> Increasing(xs)
    ensures !Increasing(xs) ==> Decoded(Encoded(xs)) == None
  {
    if Increasing(xs) {
      DecodesTo(xs, |xs|);
      assert xs[..|xs|] == xs;
    } else {
      var i, j :| 0 <= i < j < |xs| && xs[i] >= xs[j];
      var k := Drop(xs, i, j);
      Wraps(xs, k);
      assert Encoded(xs)[k] > MAX_INDEX;
    }
  }

  // ----- Messages of any origin

  function Total(ws: seq<nat>): nat
  {
    if ws == [] then 0 else Total(ws[..|ws| - 1]) + ws[|ws| - 1]
  }

  lemma TotalNext(ws: seq<nat>, n: nat)
    requires n < |ws|
    ensures Total(ws[..n + 1]) == Total(ws[..n]) + ws[n]
  {
    assert ws[..n + 1][..n] == ws[..n];
  }

  /** The index at position i is the sum of the numbers up to there, and one for each before. */
  predicate SumsUp(ws: seq<nat>, xs: seq<nat>)
  {
    |xs| <= |ws| && forall i :: 0 <= i < |xs| ==> xs[i] == Total(ws[..i + 1]) + i
  }

  lemma SumsUpNext(ws: seq<nat>, xs: seq<nat>)
    requires SumsUp(ws, xs) && |xs| < |ws|
    requires xs == [] || xs[|xs| - 1] < MAX_INDEX
    ensures SumsUp(ws, xs + [ws[|xs|] + Offset(xs)])
  {
    var n := |xs|;
    TotalNext(ws, n);
    if n == 0 {
      assert ws[..0] == [];
    }
  }

  /** Numbers whose sum, with one for each but the first, is a 16-bit number are read as their sums. */
  lemma {:induction false} ReadsSums(ws: seq<nat>, n: nat)
    requires n <= |ws| && (n == 0 || Total(ws[..n]) + n <= 0x1_0000)
    ensures DecodedTo(ws, n).Some? && |DecodedTo(ws, n).value| == n && SumsUp(ws, DecodedTo(ws, n).value)
  {
    if n > 0 {
      hide SumsUp, Total;
      TotalNext(ws, n - 1);
      ReadsSums(ws, n - 1);
      var xs := DecodedTo(ws, n - 1).value;
      LastSum(ws, xs);
      SumsUpNext(ws, xs);
    }
  }

  lemma LastSum(ws: seq<nat>, xs: seq<nat>)
    requires SumsUp(ws, xs)
    ensures xs != [] ==> xs[|xs| - 1] == Total(ws[..|xs|]) + |xs| - 1
    ensures xs == [] ==> Total(ws[..|xs|]) == 0
  {
  }

  /** Increasing indexes were read as sums: the 16-bit offset did not wrap on the way. */
  lemma {:induction false} IncreasingSums(ws: seq<nat>, n: nat)
    requires n <= |ws| && DecodedTo(ws, n).Some?
    ensures var xs := DecodedTo(ws, n).value;
            |xs| == n && SixteenBit(xs) && (Increasing(xs) ==> SumsUp(ws, xs))
  {
    if n > 0 {
      hide SumsUp, Total;
      IncreasingSums(ws, n - 1);
      var front, xs := DecodedTo(ws, n - 1).value, DecodedTo(ws, n).value;
      if Increasing(xs) {
        assert front == xs[..n - 1];
        assert n > 1 ==> xs[n - 2] < xs[n - 1];
        SumsUpNext(ws, front);
      }
    } else {
      assert DecodedTo(ws, n).value == [];
    }
  }

  lemma SumsIncrease(ws: seq<nat>, xs: seq<nat>)
    requires SumsUp(ws, xs)
    ensures Increasing(xs)
  {
    forall i, j | 0 <= i < j < |xs| ensures xs[i] < xs[j] {
      SumsOrdered(ws, i, j);
    }
  }

  lemma {:induction false} SumsOrdered(ws: seq<nat>, i: nat, j: nat)
    requires i <= j < |ws|
    ensures Total(ws[..i + 1]) <= Total(ws[..j + 1])
    decreases j - i
  {
    if i < j {
      SumsOrdered(ws, i, j - 1);
      TotalNext(ws, j);
    }
  }

  /**
   Of the messages of any origin, exactly those are read as increasing indexes
   whose numbers, with one for each, add up to at most 2^16. They are read as the
   sums, and they are what would be written for these. A message that goes on after
   the last 16-bit index is not refused: the offset starts again at zero.
   */
  lemma ReadExact(ws: seq<nat>)
    ensures Decoded(ws).Some? && Increasing(Decoded(ws).value) <==> ws == [] || Total(ws) + |ws| <= 0x1_0000
    ensures Decoded(ws).Some? && Increasing(Decoded(ws).value) ==>
              && (forall i :: 0 <= i < |ws| ==> |Decoded(ws).value| == |ws| && Decoded(ws).value[i] == Total(ws[..i + 1]) + i)
              && Encoded(Decoded(ws).value) == ws
  {
    hide DecodedTo, Total, Encoded, Increasing;
    var n := |ws|;
    assert ws[..n] == ws;
    if ws == [] || Total(ws) + n <= 0x1_0000 {
      ReadsSums(ws, n);
      SmallNumbers(ws);
      SumsIncrease(ws, DecodedTo(ws, n).value);
    }
    if Decoded(ws).Some? && Increasing(Decoded(ws).value) {
      IncreasingSums(ws, n);
      LastSum(ws, Decoded(ws).value);
      WrittenBack(ws, Decoded(ws).value);
    }
  }

  lemma SmallNumbers(ws: seq<nat>)
    requires ws == [] || Total(ws) + |ws| <= 0x1_0000
    ensures SixteenBit(ws)
  {
    forall i | 0 <= i < |ws| ensures ws[i] <= MAX_INDEX {
      TotalNext(ws, i);
      SumsOrdered(ws, i, |ws| - 1);
      assert ws[..|ws|] == ws;
    }
  }

  lemma WrittenBack(ws: seq<nat>, xs: seq<nat>)
    requires |xs| == |ws| && SumsUp(ws, xs) && SixteenBit(ws)
    ensures Encoded(xs) == ws
  {
    forall i | 0 <= i < |ws| ensures Written(xs, i) == ws[i] {
      TotalNext(ws, i);
      if i == 0 {
        assert ws[..0] == [];
      }
    }
  }

  /** What happens after the last 16-bit index: the next number stands for itself. */
  lemma StartsAgain(w: nat)
    requires w <= 0xffff
    ensures Decoded([0xffff, w]) == Some([0xffff, w]) && !Increasing([0xffff, w])
  {
    var ws := [0xffff, w];
    assert DecodedTo(ws, 0) == Some([]);
    assert [] + [0xffff] == [0xffff] && [0xffff] + [w] == ws;
    assert DecodedTo(ws, 1) == Some([0xffff]);
    assert ws[0] >= ws[1];
  }

  method Write(indexes: seq<nat>) returns (ws: seq<nat>)
    requires SixteenBit(indexes)
    ensures ws == Encoded(indexes)
  {
    ws := [];
    for i := 0 to |indexes|
      invariant ws == Encoded(indexes)[..i]
    {
      var index := (indexes[i] - (if i == 0 then 0 else indexes[i - 1] + 1)) % WORD;
      ws := ws + [index];
    }
  }

  /** Reads the numbers, then adds up the offsets in place; none stands for the exception. */
  method Read(ws: seq<nat>) returns (r: Option<seq<nat>>)
    ensures r == Decoded(ws)
  {
    var indexes := [];
    for i := 0 to |ws|
      invariant indexes == ws[..i] && SixteenBit(ws[..i])
    {
      if ws[i] > MAX_INDEX {
        return None;
      }
      assert ws[..i + 1] == ws[..i] + [ws[i]];
      indexes := indexes + [ws[i]];
    }
    assert indexes == ws;
    var offset := 0;
    for j := 0 to |indexes|
      invariant |indexes| == |ws| && indexes[j..] == ws[j..]
      invariant DecodedTo(ws, j) == Some(indexes[..j]) && offset == Offset(indexes[..j])
    {
      assert indexes[j] == indexes[j..][0] == ws[j];
      if indexes[j] + offset > MAX_INDEX {
        assert DecodedTo(ws, j + 1) == None;
        DecodedPrefix(ws, j + 1);
        return None;
      }
      ghost var before := indexes;
      indexes := indexes[j := indexes[j] + offset];
      offset := (indexes[j] + 1) % 0x1_0000;
      assert indexes[..j + 1] == before[..j] + [indexes[j]];
      assert indexes[j + 1..] == before[j..][1..] && ws[j + 1..] == ws[j..][1..];
    }
    assert indexes[..|indexes|] == indexes;
    r := Some(indexes);
  }
}
