/** Bech32 strings: a human-readable part, a separator, data symbols and six checksum symbols. */
module Bech32 {

  import opened Bech32Checksum
  import opened Bech32Errors

  datatype Option<T> = None | Some(value: T)

  /** The 32 data characters, in rows of eight. */
  function CharsetRow(row: nat): (r: string)
    ensures |r| == 8
  {
    if row == 0 then "qpzry9x8" else if row == 1 then "gf2tvdw0" else if row == 2 then "s3jn54kh" else "ce6mua7l"
  }

  function Charset(v: Symbol): char
  {
    CharsetRow(v / 8)[v % 8]
  }

  /** The decoding table, in rows of sixteen characters. */
  function RevRow(row: nat): (r: seq<int>)
    ensures |r| == 16
  {
    if row == 3 then [15, -1, 10, 17, 21, 20, 26, 30, 7, 5, -1, -1, -1, -1, -1, -1]
    else if row == 4 || row == 6 then [-1, 29, -1, 24, 13, 25, 9, 8, 23, -1, 18, 22, 31, 27, 19, -1]
    else if row == 5 || row == 7 then [1, 0, 3, 16, 11, 28, 12, 14, 6, 4, 2, -1, -1, -1, -1, -1]
    else seq(16, _ => -1)
  }

  function Rev(c: char): int
  {
    RevRow(c as int / 16)[c as int % 16]
  }

  predicate Printable(c: char)
  {
    33 <= c as int <= 126
  }

  predicate IsLower(c: char)
  {
    'a' <= c <= 'z'
  }

  predicate IsUpper(c: char)
  {
    'A' <= c <= 'Z'
  }

  function LowerCase(c: char): char
  {
    if IsUpper(c) then (c as int - 'A' as int + 'a' as int) as char else c
  }

  function Lower(s: string): (r: string)
    ensures |r| == |s|
  {
    seq(|s|, i requires 0 <= i < |s| => LowerCase(s[i]))
  }

  /** What a data character has to be. */
  predicate DataChar(c: char, v: Symbol)
  {
    Printable(c) && !IsUpper(c) && c != '1' && Rev(c) == v
  }

  lemma RowChars(row: nat, k: nat)
    requires row < 4 && k < 8
    ensures DataChar(CharsetRow(row)[k], 8 * row + k)
  {
    if row == 0 {
      Row0(k);
    } else if row == 1 {
      Row1(k);
    } else if row == 2 {
      Row2(k);
    } else {
      Row3(k);
    }
  }

  lemma Row0(k: nat)
    requires k < 8
    ensures DataChar(CharsetRow(0)[k], k)
  {
  }

  lemma Row1(k: nat)
    requires k < 8
    ensures DataChar(CharsetRow(1)[k], 8 + k)
  {
  }

  lemma Row2(k: nat)
    requires k < 8
    ensures DataChar(CharsetRow(2)[k], 16 + k)
  {
  }

  lemma Row3(k: nat)
    requires k < 8
    ensures DataChar(CharsetRow(3)[k], 24 + k)
  {
  }

  /** The decoding table undoes the character set. */
  lemma CharsetDecodes(v: Symbol)
    ensures DataChar(Charset(v), v)
  {
    RowChars(v / 8, v % 8);
  }

  // ----- Encoding

  /** The high bits of all characters, a zero, and the low bits of all characters. */
  function Expand(hrp: string): (r: seq<Symbol>)
    ensures |r| == 2 * |hrp| + 1
  {
    seq(|hrp|, i requires 0 <= i < |hrp| => hrp[i] as int / 32 % 8) + [0] + seq(|hrp|, i requires 0 <= i < |hrp| => hrp[i] as int % 32)
  }

  predicate Verifies(hrp: string, values: seq<Symbol>)
  {
    PolyModOf(Expand(hrp) + values) == PolyOf(1)
  }

  function Chars(values: seq<Symbol>): (r: string)
    ensures |r| == |values|
  {
    seq(|values|, i requires 0 <= i < |values| => Charset(values[i]))
  }

  function Encoded(hrp: string, values: seq<Symbol>): string
  {
    hrp + "1" + Chars(values + ChecksumOf(Expand(hrp) + values))
  }

  // ----- Decoding

  predicate AllPrintable(s: string)
  {
    forall i :: 0 <= i < |s| ==> Printable(s[i])
  }

  predicate AnyLower(s: string)
  {
    exists i :: 0 <= i < |s| && IsLower(s[i])
  }

  predicate AnyUpper(s: string)
  {
    exists i :: 0 <= i < |s| && IsUpper(s[i])
  }

  /** The position of the last '1', or the length if there is none. */
  function LastOne(s: string): (p: nat)
    ensures p <= |s| && (p < |s| ==> s[p] == '1')
    ensures forall i :: (if p < |s| then p + 1 else 0) <= i < |s| ==> s[i] != '1'
  {
    LastOneBelow(s, |s|)
  }

  function LastOneBelow(s: string, n: nat): (p: nat)
    requires n <= |s|
    ensures p == |s| || (p < n && s[p] == '1')
    ensures forall i :: (if p < |s| then p + 1 else 0) <= i < n ==> s[i] != '1'
  {
    if n == 0 then |s| else if s[n - 1] == '1' then n - 1 else LastOneBelow(s, n - 1)
  }

  predicate AllData(s: string)
  {
    forall i :: 0 <= i < |s| ==> 0 <= Rev(s[i]) < 32
  }

  function Values(s: string): (r: seq<Symbol>)
    requires AllData(s)
    ensures |r| == |s|
  {
    seq(|s|, i requires 0 <= i < |s| => Rev(s[i]) as Symbol)
  }

  function Decoded(s: string): Option<(string, seq<Symbol>)>
  {
    var pos := LastOne(s);
    if !AllPrintable(s) || (AnyLower(s) && AnyUpper(s)) then None
    else if |s| > 90 || pos == |s| || pos == 0 || pos + 7 > |s| then None
    else if !AllData(s[pos + 1..]) then None
    else
      var values := Values(s[pos + 1..]);
      var hrp := Lower(s[..pos]);
      if Verifies(hrp, values) then Some((hrp, values[..|values| - 6])) else None
  }

  predicate HrpOk(hrp: string)
  {
    |hrp| > 0 && AllPrintable(hrp) && !AnyUpper(hrp)
  }

  lemma ValuesOfChars(values: seq<Symbol>)
    ensures AllData(Chars(values)) && Values(Chars(values)) == values
    ensures AllPrintable(Chars(values)) && !AnyUpper(Chars(values)) && '1' !in Chars(values)
  {
    hide Rev, Charset, Printable;
    forall i | 0 <= i < |values| ensures DataChar(Chars(values)[i], values[i]) {
      CharsetDecodes(values[i]);
    }
  }

  lemma LowerKeeps(s: string)
    requires !AnyUpper(s)
    ensures Lower(s) == s
  {
    assert forall i :: 0 <= i < |s| ==> !IsUpper(s[i]);
  }

  lemma LowerHasNoUpper(s: string)
    ensures !AnyUpper(Lower(s))
  {
  }

  /** The parts of an encoded string. */
  lemma EncodedParts(hrp: string, values: seq<Symbol>)
    ensures var s := Encoded(hrp, values);
            var data := values + ChecksumOf(Expand(hrp) + values);
            && |s| == |hrp| + |values| + 7 && s[..|hrp|] == hrp && s[|hrp| + 1..] == Chars(data)
            && LastOne(s) == |hrp|
  {
    hide Chars, ChecksumOf, Expand, LastOne;
    ChecksumVerifies(Expand(hrp) + values);
    var data := values + ChecksumOf(Expand(hrp) + values);
    var s := Encoded(hrp, values);
    ValuesOfChars(data);
    assert s[|hrp|] == '1';
    assert s[|hrp| + 1..] == Chars(data);
    forall i | |hrp| < i < |s| ensures s[i] != '1' {
      assert s[i] == Chars(data)[i - |hrp| - 1];
    }
    var p := LastOne(s);
    assert p < |s| ==> s[p] == '1';
  }

  /** Decoding undoes encoding exactly for a human-readable part in range and lower case, and a length of at most 90. */
  lemma RoundTrip(hrp: string, values: seq<Symbol>)
    ensures Decoded(Encoded(hrp, values)) == Some((hrp, values)) <==> HrpOk(hrp) && |hrp| + |values| + 7 <= 90
  {
    EncodedParts(hrp, values);
    var s := Encoded(hrp, values);
    var data := values + ChecksumOf(Expand(hrp) + values);
    ChecksumVerifies(Expand(hrp) + values);
    ValuesOfChars(data);
    hide Encoded, Chars, ChecksumOf, Expand, LastOne, Charset, PolyModOf, Lower, Printable, IsUpper, IsLower, AllData, Values;
    Cases(s, |hrp|, hrp, Chars(data));
    LowerHasNoUpper(hrp);
    if HrpOk(hrp) && |s| <= 90 {
      LowerKeeps(hrp);
      assert Expand(hrp) + values + ChecksumOf(Expand(hrp) + values) == Expand(hrp) + data;
      assert data[..|data| - 6] == values;
    }
  }

  /** Which characters occur in a string in two parts. */
  lemma Cases(s: string, n: nat, a: string, b: string)
    requires n < |s| && s[n] == '1' && s[..n] == a && s[n + 1..] == b
    ensures AllPrintable(s) <==> AllPrintable(a) && AllPrintable(b)
    ensures AnyUpper(s) <==> AnyUpper(a) || AnyUpper(b)
  {
    assert s == a + "1" + b;
    assert forall i :: 0 <= i < n ==> s[i] == a[i];
    assert forall i :: 0 <= i < |b| ==> s[n + 1 + i] == b[i];
    if AnyUpper(s) {
      var i :| 0 <= i < |s| && IsUpper(s[i]);
      assert if i < n then IsUpper(a[i]) else IsUpper(b[i - n - 1]);
    }
    if AllPrintable(a) && AllPrintable(b) {
      forall i | 0 <= i < |s| ensures Printable(s[i]) {
        assert i < n ==> Printable(a[i]);
        assert i > n ==> Printable(b[i - n - 1]);
      }
    }
  }

  // ----- Wrong characters

  /** The word a string stands for: its human-readable part expanded, and its data. */
  function Symbols(s: string): seq<Symbol>
    requires LastOne(s) < |s| && AllData(s[LastOne(s) + 1..])
  {
    Expand(Lower(s[..LastOne(s)])) + Values(s[LastOne(s) + 1..])
  }

  /** Only strings of printable characters that verify are decoded. */
  lemma DecodedParts(s: string)
    requires Decoded(s).Some?
    ensures 0 < LastOne(s) < |s| <= 90 && AllPrintable(s) && AllData(s[LastOne(s) + 1..]) && PolyModOf(Symbols(s)) == PolyOf(1)
  {
    hide LastOne, AllData, Lower, AllPrintable, AnyLower, AnyUpper, PolyModOf, PolyOf, Expand;
  }

  /** Where human-readable parts differ, upper and lower case aside. */
  function WrongHrp(x: string, y: string): set<nat>
    requires |x| == |y|
  {
    set k: nat | k < |x| && LowerCase(x[k]) != LowerCase(y[k])
  }

  /** Where data characters stand for different symbols. */
  function WrongData(x: string, y: string): set<nat>
    requires |x| == |y|
  {
    set k: nat | k < |x| && Rev(x[k]) != Rev(y[k])
  }

  function Moved(s: set<nat>, n: nat): set<nat>
  {
    set k | k in s :: k + n
  }

  /** The symbols that wrong characters can change: two for each in the human-readable part, one for each in the data. */
  function Touched(pos: nat, hrp: set<nat>, data: set<nat>): set<nat>
  {
    hrp + Moved(hrp, pos + 1) + Moved(data, 2 * pos + 1)
  }

  lemma FewSubset(s: set<nat>, t: set<nat>)
    requires s <= t && Few(t)
    ensures Few(s)
  {
    assert |t - s| == |t| - |s|;
  }

  lemma ExpandAt(hrp: string, i: nat)
    requires i < |hrp|
    ensures Expand(hrp)[i] == hrp[i] as int / 32 % 8 && Expand(hrp)[|hrp| + 1 + i] == hrp[i] as int % 32
  {
  }

  /** What can differ between the words of two strings. */
  lemma ChangedTouched(s: string, t: string)
    requires LastOne(s) == LastOne(t) < |s| == |t| && AllData(s[LastOne(s) + 1..]) && AllData(t[LastOne(t) + 1..])
    ensures var pos := LastOne(s);
            |Symbols(s)| == |Symbols(t)| &&
            Changed(Symbols(s), Symbols(t)) <= Touched(pos, WrongHrp(s[..pos], t[..pos]), WrongData(s[pos + 1..], t[pos + 1..]))
  {
    hide LastOne, AllData, Expand, Rev, LowerCase;
    var pos := LastOne(s);
    forall n | n in Changed(Symbols(s), Symbols(t))
      ensures n in Touched(pos, WrongHrp(s[..pos], t[..pos]), WrongData(s[pos + 1..], t[pos + 1..]))
    {
      TouchedAt(s, t, n);
    }
  }

  lemma TouchedAt(s: string, t: string, n: nat)
    requires LastOne(s) == LastOne(t) < |s| == |t| && AllData(s[LastOne(s) + 1..]) && AllData(t[LastOne(t) + 1..])
    requires n < |Symbols(s)| == |Symbols(t)| && Symbols(s)[n] != Symbols(t)[n]
    ensures n in Touched(LastOne(s), WrongHrp(s[..LastOne(s)], t[..LastOne(s)]), WrongData(s[LastOne(s) + 1..], t[LastOne(s) + 1..]))
  {
    hide LastOne, AllData, Expand, Rev, LowerCase;
    var pos := LastOne(s);
    var x, y := Lower(s[..pos]), Lower(t[..pos]);
    if n < pos {
      ExpandAt(x, n);
      ExpandAt(y, n);
    } else if n == pos {
      ExpandMiddle(x);
      ExpandMiddle(y);
    } else if n < 2 * pos + 1 {
      var k := n - pos - 1;
      ExpandAt(x, k);
      ExpandAt(y, k);
      assert k in WrongHrp(s[..pos], t[..pos]);
    } else {
      var k := n - (2 * pos + 1);
      assert k in WrongData(s[pos + 1..], t[pos + 1..]);
    }
  }

  lemma ExpandMiddle(hrp: string)
    ensures Expand(hrp)[|hrp|] == 0
  {
  }

  /** Printable characters that differ have different symbols. */
  lemma CharSymbols(c: char, d: char)
    requires Printable(c) && Printable(d) && LowerCase(c) != LowerCase(d)
    ensures LowerCase(c) as int / 32 % 8 != LowerCase(d) as int / 32 % 8 || LowerCase(c) as int % 32 != LowerCase(d) as int % 32
  {
  }

  lemma WordsDiffer(s: string, t: string)
    requires LastOne(s) == LastOne(t) < |s| == |t| && AllData(s[LastOne(s) + 1..]) && AllData(t[LastOne(t) + 1..])
    requires AllPrintable(s) && AllPrintable(t)
    requires var pos := LastOne(s); WrongHrp(s[..pos], t[..pos]) != {} || WrongData(s[pos + 1..], t[pos + 1..]) != {}
    ensures Symbols(s) != Symbols(t)
  {
    hide LastOne, AllData, Expand, Rev, LowerCase, Printable;
    var pos := LastOne(s);
    if WrongHrp(s[..pos], t[..pos]) != {} {
      var k :| k in WrongHrp(s[..pos], t[..pos]);
      CharSymbols(s[k], t[k]);
      ExpandAt(Lower(s[..pos]), k);
      ExpandAt(Lower(t[..pos]), k);
      assert Symbols(s)[k] != Symbols(t)[k] || Symbols(s)[pos + 1 + k] != Symbols(t)[pos + 1 + k];
    } else {
      var k :| k in WrongData(s[pos + 1..], t[pos + 1..]);
      assert Symbols(s)[2 * pos + 1 + k] != Symbols(t)[2 * pos + 1 + k];
    }
  }

  /**
   A string that decodes stops decoding when its separator stays in place and wrong
   characters touch at most four symbols within 89, or three within 1023.
   */
  lemma WrongString(s: string, t: string)
    requires Decoded(s).Some? && |t| == |s| && LastOne(t) == LastOne(s) < |s|
    requires var pos := LastOne(s);
             var hrp, data := WrongHrp(s[..pos], t[..pos]), WrongData(s[pos + 1..], t[pos + 1..]);
             hrp + data != {} && Few(Touched(pos, hrp, data))
    ensures Decoded(t) == None
  {
    hide LastOne, AllData, PolyModOf, PolyOf, Few, Changed, Decoded, Symbols, WrongHrp, WrongData, Touched;
    if Decoded(t).Some? {
      DecodedParts(s);
      DecodedParts(t);
      ChangedTouched(s, t);
      WordsDiffer(s, t);
      var pos := LastOne(s);
      FewSubset(Changed(Symbols(s), Symbols(t)), Touched(pos, WrongHrp(s[..pos], t[..pos]), WrongData(s[pos + 1..], t[pos + 1..])));
      FewChanges(Symbols(s), Symbols(t));
      assert false;
    }
  }

  lemma InMoved(s: set<nat>, n: nat, x: nat)
    ensures x in Moved(s, n) <==> x >= n && x - n in s
  {
    if x >= n && x - n in s {
      assert (x - n) + n in Moved(s, n);
    }
  }

  lemma {:induction false} MovedSize(s: set<nat>, n: nat)
    ensures |Moved(s, n)| == |s|
    decreases |s|
  {
    if s != {} {
      var k :| k in s;
      MovedSize(s - {k}, n);
      forall x: nat ensures x in Moved(s, n) <==> x in Moved(s - {k}, n) + {k + n} {
        InMoved(s, n, x);
        InMoved(s - {k}, n, x);
      }
      InMoved(s - {k}, n, k + n);
      assert Moved(s, n) == Moved(s - {k}, n) + {k + n};
    }
  }

  lemma FewData(pos: nat, data: set<nat>)
    requires |data| <= 4 && forall k :: k in data ==> k < 89
    ensures Few(Touched(pos, {}, data))
  {
    MovedSize(data, 2 * pos + 1);
    assert Touched(pos, {}, data) == Moved(data, 2 * pos + 1);
    assert Within(Moved(data, 2 * pos + 1), 89);
  }

  lemma SeparatorKept(s: string, t: string)
    requires LastOne(s) < |s| == |t| && t[LastOne(s)] == '1' && forall i :: LastOne(s) < i < |t| ==> t[i] != '1'
    ensures LastOne(t) == LastOne(s)
  {
    hide LastOne;
    var p, q := LastOne(s), LastOne(t);
    assert q < |t| ==> t[q] == '1';
  }

  /** Up to four data characters replaced by others, none of them a separator, are noticed. */
  lemma WrongCharacters(s: string, t: string)
    requires Decoded(s).Some? && LastOne(s) < |s| == |t| && t[..LastOne(s) + 1] == s[..LastOne(s) + 1]
    requires forall i :: LastOne(s) < i < |t| ==> t[i] != '1'
    requires 1 <= |WrongData(s[LastOne(s) + 1..], t[LastOne(s) + 1..])| <= 4
    ensures Decoded(t) == None
  {
    hide LastOne, Decoded, Few, WrongData, Touched, Symbols;
    var pos := LastOne(s);
    assert t[pos] == t[..pos + 1][pos] == s[pos];
    SeparatorKept(s, t);
    DecodedParts(s);
    var data := WrongData(s[pos + 1..], t[pos + 1..]);
    DataInside(s[pos + 1..], t[pos + 1..]);
    FewData(pos, data);
    assert s[..pos] == s[..pos + 1][..pos] == t[..pos];
    assert WrongHrp(s[..pos], t[..pos]) == {};
    WrongString(s, t);
  }

  lemma DataInside(x: string, y: string)
    requires |x| == |y| <= 89
    ensures forall k :: k in WrongData(x, y) ==> k < 89
  {
  }

  /** A string that decodes stops decoding when one data character is replaced by another. */
  lemma WrongCharacter(s: string, j: nat, c: char)
    requires Decoded(s).Some? && LastOne(s) < j < |s|
    requires c != '1' && Rev(c) != Rev(s[j])
    ensures Decoded(s[j := c]) == None
  {
    hide LastOne, Decoded, Rev;
    var t, pos := s[j := c], LastOne(s);
    var x, y := s[pos + 1..], t[pos + 1..];
    assert t[..pos + 1] == s[..pos + 1];
    assert WrongData(x, y) == {j - pos - 1} by {
      assert y == x[j - pos - 1 := c];
    }
    WrongCharacters(s, t);
  }

  /** The same for any two data characters. */
  lemma TwoWrongCharacters(s: string, i: nat, j: nat, c: char, d: char)
    requires Decoded(s).Some? && LastOne(s) < i < j < |s|
    requires c != '1' && Rev(c) != Rev(s[i]) && d != '1' && Rev(d) != Rev(s[j])
    ensures Decoded(s[i := c][j := d]) == None
  {
    hide LastOne, Decoded, Rev;
    var t, pos := s[i := c][j := d], LastOne(s);
    var x, y := s[pos + 1..], t[pos + 1..];
    assert t[..pos + 1] == s[..pos + 1];
    assert WrongData(x, y) == {i - pos - 1, j - pos - 1} by {
      assert y == x[i - pos - 1 := c][j - pos - 1 := d];
    }
    WrongCharacters(s, t);
  }

  /** A character of the human-readable part replaced by another letter, and perhaps a data character as well. */
  lemma WrongHrpCharacter(s: string, i: nat, c: char, j: nat, d: char)
    requires Decoded(s).Some? && i < LastOne(s) < j < |s| && LowerCase(c) != LowerCase(s[i]) && d != '1'
    ensures Decoded(s[i := c][j := d]) == None
  {
    hide LastOne, Decoded, Rev, LowerCase, Few, Touched;
    var t, pos := s[i := c][j := d], LastOne(s);
    var x, y := s[pos + 1..], t[pos + 1..];
    SeparatorKept(s, t);
    DecodedParts(s);
    assert WrongHrp(s[..pos], t[..pos]) == {i} by {
      assert t[..pos] == s[..pos][i := c];
    }
    assert WrongData(x, y) <= {j - pos - 1} by {
      assert y == x[j - pos - 1 := d];
    }
    FewMixed(pos, i, j - pos - 1, WrongData(x, y));
    WrongString(s, t);
  }

  lemma FewMixed(pos: nat, i: nat, k: nat, data: set<nat>)
    requires i < pos <= 90 && k <= 90 && data <= {k}
    ensures Few(Touched(pos, {i}, data))
  {
    var all := {i, i + pos + 1, k + 2 * pos + 1};
    assert Touched(pos, {i}, data) <= all;
    assert |all| <= 3 && Within(all, 1023);
    FewSubset(Touched(pos, {i}, data), all);
  }

  /** Two wrong characters in a human-readable part of up to 44. */
  lemma TwoWrongHrpCharacters(s: string, i: nat, j: nat, c: char, d: char)
    requires Decoded(s).Some? && i < j < LastOne(s) <= 44 && LowerCase(c) != LowerCase(s[i]) && LowerCase(d) != LowerCase(s[j])
    ensures Decoded(s[i := c][j := d]) == None
  {
    hide LastOne, Decoded, Rev, LowerCase, Few, Touched;
    var t, pos := s[i := c][j := d], LastOne(s);
    DecodedParts(s);
    SeparatorKept(s, t);
    assert WrongHrp(s[..pos], t[..pos]) == {i, j} by {
      assert t[..pos] == s[..pos][i := c][j := d];
    }
    assert t[pos + 1..] == s[pos + 1..];
    assert WrongData(s[pos + 1..], t[pos + 1..]) == {};
    FewHrp(pos, i, j);
    WrongString(s, t);
  }

  lemma FewHrp(pos: nat, i: nat, j: nat)
    requires i < j < pos <= 44
    ensures Few(Touched(pos, {i, j}, {}))
  {
    hide Few, Moved;
    var all := {i, j, i + pos + 1, j + pos + 1};
    forall x | x in Touched(pos, {i, j}, {}) ensures x in all {
      InMoved({i, j}, pos + 1, x);
      InMoved({}, 2 * pos + 1, x);
    }
    FourWithin(i, j, i + pos + 1, j + pos + 1);
    FewSubset(Touched(pos, {i, j}, {}), all);
  }

  lemma FourWithin(i: nat, j: nat, k: nat, l: nat)
    requires i < j < k < l <= i + 88
    ensures Few({i, j, k, l})
  {
    var s := {i, j, k, l};
    assert |s| == 4 && Within(s, 89);
  }

  // ----- The loops

  method PolyMod(v: seq<Symbol>) returns (c: Poly)
    ensures c == PolyModOf(v)
  {
    hide Step, PolyOf;
    c := PolyOf(1);
    for i := 0 to |v|
      invariant c == From(PolyOf(1), v[..i])
    {
      FromLast(PolyOf(1), v, i);
      c := Step(c, v[i]);
    }
    assert v[..|v|] == v;
  }

  method ExpandHRP(hrp: string) returns (r: seq<Symbol>)
    ensures r == Expand(hrp)
  {
    var n := |hrp|;
    ghost var e := Expand(hrp);
    r := seq(n * 2 + 1, _ => 0);
    for i := 0 to n
      invariant |r| == n * 2 + 1
      invariant forall k :: 0 <= k < i ==> r[k] == e[k]
      invariant forall k :: n < k <= n + i ==> r[k] == e[k]
    {
      var c := hrp[i] as int;
      assert e[i] == c / 32 % 8 && e[i + n + 1] == c % 32;
      r := r[i := c / 32 % 8];
      r := r[i + n + 1 := c % 32];
    }
    r := r[n := 0];
  }

  method VerifyChecksum(hrp: string, values: seq<Symbol>) returns (r: bool)
    ensures r == Verifies(hrp, values)
  {
    var e := ExpandHRP(hrp);
    var c := PolyMod(e + values);
    r := c == PolyOf(1);
  }

  method CreateChecksum(hrp: string, values: seq<Symbol>) returns (r: seq<Symbol>)
    ensures r == ChecksumOf(Expand(hrp) + values)
  {
    hide Group, Expand, PolyModOf;
    var e := ExpandHRP(hrp);
    var c := PolyMod(e + values + Zeros(6));
    var m := Add(c, PolyOf(1));
    r := [];
    for i := 0 to 6
      invariant r == Groups(m)[..i]
    {
      r := r + [Group(m, i)];
    }
  }

  method Encode(hrp: string, values: seq<Symbol>) returns (s: string)
    ensures s == Encoded(hrp, values)
  {
    hide ChecksumOf, Expand, Charset;
    var checksum := CreateChecksum(hrp, values);
    var combined := values + checksum;
    s := hrp + "1";
    for i := 0 to |combined|
      invariant s == hrp + "1" + Chars(combined)[..i]
    {
      s := s + [Charset(combined[i])];
    }
    assert Chars(combined)[..|combined|] == Chars(combined);
  }

  /** The checks of the first loop; none of the cases seen if a character is out of range. */
  method ScanCase(s: string) returns (printable: bool, lower: bool, upper: bool)
    ensures printable <==> AllPrintable(s)
    ensures printable ==> lower == AnyLower(s) && upper == AnyUpper(s)
  {
    printable, lower, upper := true, false, false;
    for i := 0 to |s|
      invariant forall k :: 0 <= k < i ==> Printable(s[k])
      invariant lower <==> exists k :: 0 <= k < i && IsLower(s[k])
      invariant upper <==> exists k :: 0 <= k < i && IsUpper(s[k])
    {
      var c := s[i];
      if c as int < 33 || c as int > 126 {
        return false, lower, upper;
      }
      if 'a' <= c <= 'z' {
        lower := true;
      }
      if 'A' <= c <= 'Z' {
        upper := true;
      }
    }
  }

  method FindLastOne(s: string) returns (pos: nat)
    ensures pos == LastOne(s)
  {
    pos := |s|;
    while pos > 0
      invariant pos <= |s| && LastOneBelow(s, pos) == LastOne(s)
    {
      pos := pos - 1;
      if s[pos] == '1' {
        return;
      }
    }
    pos := |s|;
  }

  method ReadData(s: string) returns (r: Option<seq<Symbol>>)
    requires AllPrintable(s)
    ensures r == if AllData(s) then Some(Values(s)) else None
  {
    hide Rev;
    var values: seq<Symbol> := [];
    for i := 0 to |s|
      invariant |values| == i && forall k :: 0 <= k < i ==> 0 <= Rev(s[k]) < 32 && values[k] == Rev(s[k])
    {
      RevRange(s[i]);
      var rev := Rev(s[i]);
      if rev == -1 {
        return None;
      }
      values := values + [rev];
    }
    assert values == Values(s);
    r := Some(values);
  }

  lemma RevRange(c: char)
    ensures Rev(c) == -1 || 0 <= Rev(c) < 32
  {
  }

  method Decode(s: string) returns (r: Option<(string, seq<Symbol>)>)
    ensures r == Decoded(s)
  {
    hide AllPrintable, AnyLower, AnyUpper, AllData, LastOne, Verifies;
    var printable, lower, upper := ScanCase(s);
    if !printable || (lower && upper) {
      return None;
    }
    var pos := FindLastOne(s);
    if |s| > 90 || pos == |s| || pos == 0 || pos + 7 > |s| {
      return None;
    }
    PrintableTail(s, pos + 1);
    var read := ReadData(s[pos + 1..]);
    if read.None? {
      return None;
    }
    var values := read.value;
    var hrp := "";
    for i := 0 to pos
      invariant hrp == Lower(s[..pos])[..i]
    {
      hrp := hrp + [LowerCase(s[i])];
    }
    assert hrp == Lower(s[..pos]);
    var ok := VerifyChecksum(hrp, values);
    if !ok {
      return None;
    }
    r := Some((hrp, values[..|values| - 6]));
  }

  lemma PrintableTail(s: string, from: nat)
    requires AllPrintable(s) && from <= |s|
    ensures AllPrintable(s[from..])
  {
  }
}
