/** Base58 text for byte strings; leading zero bytes are written as leading ones. */
module Base58 {

  import opened Powers
  import opened Digits

  datatype Option<T> = None | Some(value: T)

  type Digit = x: nat | x < 58

  // ----- The alphabet

  /** The 58 characters, in rows of eight. */
  function AlphabetRow(row: nat): (r: string)
    ensures |r| == 8
  {
    if row == 0 then "12345678" else if row == 1 then "9ABCDEFG" else if row == 2 then "HJKLMNPQ"
    else if row == 3 then "RSTUVWXY" else if row == 4 then "Zabcdefg" else if row == 5 then "hijkmnop"
    else if row == 6 then "qrstuvwx" else "yz      "
  }

  function CharOf(d: Digit): char
  {
    AlphabetRow(d / 8)[d % 8]
  }

  /** The decoding table, in rows of sixteen characters. */
  function MapRow(row: nat): (r: seq<int>)
    ensures |r| == 16
  {
    if row == 3 then [-1, 0, 1, 2, 3, 4, 5, 6, 7, 8, -1, -1, -1, -1, -1, -1]
    else if row == 4 then [-1, 9, 10, 11, 12, 13, 14, 15, 16, -1, 17, 18, 19, 20, 21, -1]
    else if row == 5 then [22, 23, 24, 25, 26, 27, 28, 29, 30, 31, 32, -1, -1, -1, -1, -1]
    else if row == 6 then [-1, 33, 34, 35, 36, 37, 38, 39, 40, 41, 42, 43, -1, 44, 45, 46]
    else if row == 7 then [47, 48, 49, 50, 51, 52, 53, 54, 55, 56, 57, -1, -1, -1, -1, -1]
    else seq(16, _ => -1)
  }

  function DigitOf(c: char): int
  {
    MapRow(c as int / 16)[c as int % 16]
  }

  predicate IsSpace(c: char)
  {
    c == ' ' || 9 <= c as int <= 13
  }

  predicate Matches(c: char, d: Digit)
  {
    DigitOf(c) == d && !IsSpace(c) && (c == '1' <==> d == 0)
  }

  lemma Row0(k: nat)
    requires k < 8
    ensures Matches(AlphabetRow(0)[k], k)
  {
  }

  lemma Row1(k: nat)
    requires k < 8
    ensures Matches(AlphabetRow(1)[k], 8 + k)
  {
  }

  lemma Row2(k: nat)
    requires k < 8
    ensures Matches(AlphabetRow(2)[k], 16 + k)
  {
  }

  lemma Row3(k: nat)
    requires k < 8
    ensures Matches(AlphabetRow(3)[k], 24 + k)
  {
  }

  lemma Row4(k: nat)
    requires k < 8
    ensures Matches(AlphabetRow(4)[k], 32 + k)
  {
  }

  lemma Row5(k: nat)
    requires k < 8
    ensures Matches(AlphabetRow(5)[k], 40 + k)
  {
  }

  lemma Row6(k: nat)
    requires k < 8
    ensures Matches(AlphabetRow(6)[k], 48 + k)
  {
  }

  lemma Row7(k: nat)
    requires k < 2
    ensures Matches(AlphabetRow(7)[k], 56 + k)
  {
  }

  /** The decoding table undoes the alphabet, and only zero is written as '1'. */
  lemma CharMatches(d: Digit)
    ensures Matches(CharOf(d), d)
  {
    var r, k := d / 8, d % 8;
    hide Matches, AlphabetRow;
    if r == 0 { Row0(k); } else if r == 1 { Row1(k); } else if r == 2 { Row2(k); } else if r == 3 { Row3(k); }
    else if r == 4 { Row4(k); } else if r == 5 { Row5(k); } else if r == 6 { Row6(k); } else { Row7(k); }
  }

  /** A character in the table is the one the alphabet has for its digit. */
  predicate Back(row: nat, k: nat)
    requires k < 16
  {
    var d := MapRow(row)[k];
    d == -1 || (0 <= d < 58 && CharOf(d) as int == 16 * row + k && !IsSpace(CharOf(d)))
  }

  lemma Back3(k: nat)
    requires k < 16
    ensures Back(3, k)
  {
  }

  lemma Back4(k: nat)
    requires k < 16
    ensures Back(4, k)
  {
  }

  lemma Back5(k: nat)
    requires k < 16
    ensures Back(5, k)
  {
  }

  lemma Back6(k: nat)
    requires k < 16
    ensures Back(6, k)
  {
  }

  lemma Back7(k: nat)
    requires k < 16
    ensures Back(7, k)
  {
  }

  lemma DigitMatches(c: char)
    ensures DigitOf(c) == -1 || (0 <= DigitOf(c) < 58 && CharOf(DigitOf(c)) == c && !IsSpace(c))
  {
    var row, k := c as int / 16, c as int % 16;
    if row == 3 { Back3(k); } else if row == 4 { Back4(k); } else if row == 5 { Back5(k); } else if row == 6 { Back6(k); }
    else if row == 7 { Back7(k); }
    hide CharOf, AlphabetRow;
  }

  // ----- Buffers are long enough

  /** 256^8 <= 58^11, and 11/8 <= 138/100. */
  lemma EncodeRoom(n: nat)
    ensures Pow(256, n) <= Pow(58, n * 138 / 100 + 1)
  {
    PowValues();
    DigitsSuffice(256, 58, 11, 8, n, n * 138 / 100 + 1);
  }

  lemma PowValues()
    ensures Pow(256, 8) <= Pow(58, 11)
  {
    PowAdd(256, 4, 4);
    assert Pow(256, 4) == 4294967296;
    PowAdd(58, 4, 4);
    PowAdd(58, 8, 3);
    assert Pow(58, 3) == 195112;
    assert Pow(58, 4) == 11316496;
  }

  /** 58^71 <= 256^52, and 52/71 <= 733/1000. */
  lemma DecodeRoom(n: nat)
    ensures Pow(58, n) <= Pow(256, n * 733 / 1000 + 1)
  {
    PowValues71();
    DigitsSuffice(58, 256, 52, 71, n, n * 733 / 1000 + 1);
  }

  /** 58^8 is less than 0.455 * 256^6. */
  lemma PowValues8()
    ensures 1000 * Pow(58, 8) <= 455 * Pow(256, 6)
  {
    assert Pow(58, 4) == 11316496;
    PowAdd(58, 4, 4);
    assert Pow(256, 3) == 16777216;
    PowAdd(256, 3, 3);
  }

  /** The eighth power of that, and 0.455^8 * 58^7 is less than 256^4. */
  lemma PowValues71()
    ensures Pow(58, 71) <= Pow(256, 52)
  {
    hide Pow, Square;
    PowValues8();
    EighthPower(1000, Pow(58, 8), 455, Pow(256, 6));
    PowPowerIs(58, 8, 8, 64);
    PowPowerIs(256, 6, 8, 48);
    PowAdd(58, 64, 7);
    PowAdd(256, 48, 4);
    LastFactor(Pow(58, 64), Pow(256, 48));
  }

  function Square(x: nat): nat
  {
    x * x
  }

  lemma SquareOrdered(a: nat, x: nat, b: nat, y: nat)
    requires a * x <= b * y
    ensures Square(a) * Square(x) <= Square(b) * Square(y)
  {
    var p, q := a * x, b * y;
    MulMonotone(p, q, p);
    MulMonotone(p, q, q);
    assert p * p == a * a * (x * x) by { Rearrange(a, x); }
    assert q * q == b * b * (y * y) by { Rearrange(b, y); }
  }

  lemma Rearrange(a: nat, x: nat)
    ensures a * x * (a * x) == a * a * (x * x)
  {
    assert a * x * (a * x) == a * (x * (a * x));
    assert x * (a * x) == a * (x * x);
    assert a * (a * (x * x)) == a * a * (x * x);
  }

  lemma EighthPower(a: nat, x: nat, b: nat, y: nat)
    requires a * x <= b * y
    ensures Square(Square(Square(a))) * Pow(x, 8) <= Square(Square(Square(b))) * Pow(y, 8)
  {
    SquareOrdered(a, x, b, y);
    SquareOrdered(Square(a), Square(x), Square(b), Square(y));
    SquareOrdered(Square(Square(a)), Square(Square(x)), Square(Square(b)), Square(Square(y)));
    PowEight(x);
    PowEight(y);
  }

  lemma PowEight(x: nat)
    ensures Pow(x, 8) == Square(Square(Square(x)))
  {
    PowAdd(x, 1, 1);
    PowAdd(x, 2, 2);
    PowAdd(x, 4, 4);
    hide Pow;
    assert Pow(x, 1) == x by { PowNext(x, 0); PowZero(x); }
  }

  lemma PowZero(x: nat)
    ensures Pow(x, 0) == 1
  {
  }

  lemma LastFactor(u: nat, v: nat)
    requires Square(Square(Square(1000))) * u <= Square(Square(Square(455))) * v
    ensures u * Pow(58, 7) <= v * Pow(256, 4)
  {
    assert Pow(58, 7) == 2207984167552;
    assert Pow(256, 4) == 4294967296;
  }

  // ----- Text and bytes

  function Lead<T>(s: seq<T>, p: T -> bool): (n: nat)
    ensures n <= |s| && (forall i :: 0 <= i < n ==> p(s[i])) && (n < |s| ==> !p(s[n]))
  {
    if s == [] || !p(s[0]) then 0 else 1 + Lead(s[1..], p)
  }

  lemma {:induction false} LeadUnique<T>(s: seq<T>, p: T -> bool, n: nat)
    requires n <= |s| && (forall i :: 0 <= i < n ==> p(s[i])) && (n < |s| ==> !p(s[n]))
    ensures Lead(s, p) == n
  {
    if n > 0 {
      LeadUnique(s[1..], p, n - 1);
    }
  }

  function Reverse<T>(s: seq<T>): (r: seq<T>)
    ensures |r| == |s|
  {
    seq(|s|, i requires 0 <= i < |s| => s[|s| - 1 - i])
  }

  lemma ReverseTwice<T>(s: seq<T>)
    ensures Reverse(Reverse(s)) == s
  {
  }

  /** The number a big-endian sequence stands for. */
  function Number(s: seq<nat>, base: nat): nat
  {
    Val(Reverse(s), base)
  }

  /** One more digit: times the base, plus the digit. */
  lemma NumberNext(s: seq<nat>, base: nat, i: nat)
    requires i < |s|
    ensures Number(s[..i + 1], base) == base * Number(s[..i], base) + s[i]
  {
    var r := Reverse(s[..i + 1]);
    assert r[0] == s[i];
    assert r[1..] == Reverse(s[..i]);
  }

  lemma NumberBound(s: seq<nat>, base: nat)
    requires InBase(s, base)
    ensures Number(s, base) < Pow(base, |s|)
  {
    ValBound(Reverse(s), base);
  }

  predicate IsZero(b: nat)
  {
    b == 0
  }

  predicate IsOne(c: char)
  {
    c == '1'
  }

  predicate NotSpace(c: char)
  {
    !IsSpace(c)
  }

  /** Big-endian digits without leading zeros. */
  function Written(v: nat, base: nat): (r: seq<nat>)
    requires base > 1
  {
    Reverse(ToDigits(v, base))
  }

  lemma WrittenInBase(v: nat, base: nat)
    requires base > 1
    ensures InBase(Written(v, base), base) && (Written(v, base) != [] ==> Written(v, base)[0] != 0)
    ensures Number(Written(v, base), base) == v
  {
    ToDigitsValue(v, base);
    ReverseTwice(ToDigits(v, base));
  }

  /** Digits without a leading zero are what is written for their number. */
  lemma WrittenUnique(s: seq<nat>, base: nat)
    requires base > 1 && InBase(s, base) && (s != [] ==> s[0] != 0)
    ensures Written(Number(s, base), base) == s
  {
    ToDigitsUnique(Reverse(s), base);
    ReverseTwice(s);
  }

  function Text(digits: seq<nat>): (s: string)
    requires InBase(digits, 58)
    ensures |s| == |digits|
  {
    seq(|digits|, i requires 0 <= i < |digits| => CharOf(digits[i]))
  }

  function Encoded(b: seq<nat>): string
  {
    var z := Lead(b, IsZero);
    var v := Number(b[z..], 256);
    WrittenInBase(v, 58);
    seq(z, _ => '1') + Text(Written(v, 58))
  }

  predicate AllDigits(s: string)
  {
    forall i :: 0 <= i < |s| ==> DigitOf(s[i]) != -1
  }

  function DigitAt(c: char): (d: nat)
    requires DigitOf(c) != -1
    ensures d == DigitOf(c) < 58
  {
    DigitMatches(c);
    DigitOf(c)
  }

  function DigitsOf(s: string): (r: seq<nat>)
    requires AllDigits(s)
    ensures |r| == |s| && InBase(r, 58)
  {
    seq(|s|, i requires 0 <= i < |s| => DigitAt(s[i]))
  }

  /** The text between leading and trailing spaces; none if there are spaces inside. */
  function Word(s: string): Option<string>
  {
    var t := s[Lead(s, IsSpace)..];
    var n := Lead(t, NotSpace);
    if Lead(t[n..], IsSpace) == |t[n..]| then Some(t[..n]) else None
  }

  function Decoded(s: string): Option<seq<nat>>
  {
    match Word(s)
    case None => None
    case Some(w) =>
      if !AllDigits(w) then None
      else
        var z := Lead(w, IsOne);
        Some(seq(z, _ => 0) + Written(Number(DigitsOf(w[z..]), 58), 256))
  }

  /** Text of digits has no spaces, and reads as the digits. */
  lemma TextReads(digits: seq<nat>)
    requires InBase(digits, 58)
    ensures AllDigits(Text(digits)) && DigitsOf(Text(digits)) == digits
    ensures forall i :: 0 <= i < |digits| ==> NotSpace(Text(digits)[i]) && (IsOne(Text(digits)[i]) <==> digits[i] == 0)
  {
    hide DigitOf, CharOf, IsSpace;
    forall i | 0 <= i < |digits| ensures Matches(Text(digits)[i], digits[i]) {
      CharMatches(digits[i]);
    }
  }

  lemma OneIsDigit()
    ensures DigitOf('1') == 0 && NotSpace('1')
  {
  }

  /** A string without spaces is its own word. */
  lemma WordOf(s: string)
    requires forall i :: 0 <= i < |s| ==> NotSpace(s[i])
    ensures Word(s) == Some(s)
  {
    hide IsSpace;
    LeadUnique(s, IsSpace, 0);
    assert s[0..] == s;
    LeadUnique(s, NotSpace, |s|);
    assert s[..|s|] == s && s[|s|..] == [];
  }

  /** Every byte string comes back. */
  lemma DecodeEncoded(b: seq<nat>)
    requires InBase(b, 256)
    ensures Decoded(Encoded(b)) == Some(b)
  {
    hide DigitOf, CharOf, IsSpace, Number, Written, Text, AllDigits, DigitsOf, Word;
    var z := Lead(b, IsZero);
    var v := Number(b[z..], 256);
    var digits := Written(v, 58);
    WrittenInBase(v, 58);
    TextReads(digits);
    OneIsDigit();
    Spelled(Encoded(b), z, digits);
    assert Encoded(b)[z..] == Text(digits);
    AfterZeros(b, z);
    WrittenUnique(b[z..], 256);
  }

  lemma AfterZeros(b: seq<nat>, z: nat)
    requires InBase(b, 256) && z == Lead(b, IsZero)
    ensures InBase(b[z..], 256) && (b[z..] != [] ==> b[z..][0] != 0) && seq(z, _ => 0) + b[z..] == b
  {
    if z < |b| {
      assert !IsZero(b[z]);
    }
    assert forall i :: 0 <= i < z ==> IsZero(b[i]);
  }

  /** z ones and then digits that do not start with zero. */
  lemma Spelled(s: string, z: nat, digits: seq<nat>)
    requires InBase(digits, 58) && s == seq(z, _ => '1') + Text(digits) && (digits != [] ==> digits[0] != 0)
    requires AllDigits(Text(digits)) && DigitOf('1') == 0 && NotSpace('1')
    requires forall i :: 0 <= i < |digits| ==> NotSpace(Text(digits)[i]) && (IsOne(Text(digits)[i]) <==> digits[i] == 0)
    ensures Word(s) == Some(s) && AllDigits(s) && Lead(s, IsOne) == z
  {
    hide DigitOf, CharOf, IsSpace, NotSpace, Word;
    forall i | 0 <= i < |s| ensures NotSpace(s[i]) && DigitOf(s[i]) != -1 {
      if i >= z {
        assert s[i] == Text(digits)[i - z];
      }
    }
    WordOf(s);
    if digits != [] {
      assert s[z] == Text(digits)[0];
    }
    LeadUnique(s, IsOne, z);
  }

  /** And text that decodes is what its bytes are encoded as, apart from the spaces around it. */
  lemma EncodeDecoded(s: string)
    requires Decoded(s).Some?
    ensures InBase(Decoded(s).value, 256) && Some(Encoded(Decoded(s).value)) == Word(s)
  {
    hide DigitOf, CharOf, IsSpace, Number, Written, Text, AllDigits, DigitsOf, Word, Encoded;
    var w := Word(s).value;
    var z := Lead(w, IsOne);
    FirstNotZero(w, z);
    var digits := DigitsOf(w[z..]);
    var v := Number(digits, 58);
    WrittenInBase(v, 256);
    Zeroed(Decoded(s).value, z, Written(v, 256));
    EncodedIs(Decoded(s).value, z, Written(v, 256), v);
    WrittenUnique(digits, 58);
    TextBack(w[z..]);
    AfterOnes(w, z);
  }

  /** Space, tab, line feed, vertical tab, form feed and carriage return. */
  predicate White(c: char)
  {
    c == ' ' || c == '\t' || c == '\n' || c == 11 as char || c == 12 as char || c == '\r'
  }

  lemma SpaceIsWhite(c: char)
    ensures IsSpace(c) <==> White(c)
  {
  }

  /** A word with nothing but white space before and after it. */
  ghost predicate Around(s: string, w: string)
  {
    exists i, j :: 0 <= i <= j <= |s| && s[i..j] == w && Blank(s[..i]) && Blank(s[j..])
  }

  predicate Blank(s: string)
  {
    forall k :: 0 <= k < |s| ==> White(s[k])
  }

  lemma BlankSpaces(s: string)
    ensures Blank(s) <==> forall k :: 0 <= k < |s| ==> IsSpace(s[k])
  {
    hide IsSpace, White;
    forall k | 0 <= k < |s| ensures IsSpace(s[k]) <==> White(s[k]) {
      SpaceIsWhite(s[k]);
    }
  }

  lemma WordAround(s: string, w: string)
    requires forall k :: 0 <= k < |w| ==> NotSpace(w[k])
    ensures Word(s) == Some(w) <==> Around(s, w)
  {
    hide IsSpace, NotSpace, Blank, Word;
    if Word(s) == Some(w) {
      AroundFound(s);
    }
    if Around(s, w) {
      var i, j :| 0 <= i <= j <= |s| && s[i..j] == w && Blank(s[..i]) && Blank(s[j..]);
      BlankSpaces(s[..i]);
      BlankSpaces(s[j..]);
      assert forall k :: 0 <= k < i ==> s[k] == s[..i][k];
      assert forall k :: j <= k < |s| ==> s[k] == s[j..][k - j];
      assert forall k :: i <= k < j ==> s[k] == s[i..j][k - i];
      WordBetween(s, i, j);
    }
  }

  lemma AroundFound(s: string)
    requires Word(s).Some?
    ensures Around(s, Word(s).value)
  {
    hide IsSpace, Blank, NotSpace;
    var i := Lead(s, IsSpace);
    var t := s[i..];
    var n := Lead(t, NotSpace);
    BlankSpaces(s[..i]);
    BlankSpaces(t[n..]);
    assert t[..n] == s[i..i + n] && t[n..] == s[i + n..];
  }

  lemma WordBetween(s: string, i: nat, j: nat)
    requires i <= j <= |s| && (forall k :: i <= k < j ==> NotSpace(s[k]))
    requires (forall k :: 0 <= k < i ==> IsSpace(s[k])) && (forall k :: j <= k < |s| ==> IsSpace(s[k]))
    ensures Word(s) == Some(s[i..j])
  {
    hide IsSpace;
    if i == j {
      LeadUnique(s, IsSpace, |s|);
      assert s[|s|..] == [] && s[i..j] == [];
    } else {
      assert NotSpace(s[i]);
      LeadUnique(s, IsSpace, i);
      var t := s[i..];
      LeadUnique(t, NotSpace, j - i);
      LeadUnique(t[j - i..], IsSpace, |s| - j);
      assert t[..j - i] == s[i..j];
    }
  }

  lemma EncodedNoSpaces(b: seq<nat>)
    requires InBase(b, 256)
    ensures forall k :: 0 <= k < |Encoded(b)| ==> NotSpace(Encoded(b)[k])
  {
    hide DigitOf, CharOf, IsSpace, Number, Written, Text, NotSpace;
    var z := Lead(b, IsZero);
    var digits := Written(Number(b[z..], 256), 58);
    WrittenInBase(Number(b[z..], 256), 58);
    TextReads(digits);
    OneIsDigit();
    TextLength(digits);
  }

  lemma TextLength(digits: seq<nat>)
    requires InBase(digits, 58)
    ensures |Text(digits)| == |digits|
  {
  }

  /** Exactly the encoding of some bytes, with white space around it, decodes to them. */
  lemma DecodeExact(s: string, b: seq<nat>)
    requires InBase(b, 256)
    ensures Decoded(s) == Some(b) <==> Around(s, Encoded(b))
  {
    hide Encoded, Word, Around, NotSpace, AllDigits, DigitsOf, Number, Written;
    EncodedNoSpaces(b);
    WordAround(s, Encoded(b));
    WordOf(Encoded(b));
    DecodeEncoded(b);
    if Decoded(s) == Some(b) {
      EncodeDecoded(s);
    }
  }

  lemma EncodedIs(b: seq<nat>, z: nat, rest: seq<nat>, v: nat)
    requires b == seq(z, _ => 0) + rest && Lead(b, IsZero) == z && Number(rest, 256) == v
    ensures InBase(Written(v, 58), 58) && Encoded(b) == seq(z, _ => '1') + Text(Written(v, 58))
  {
    WrittenInBase(v, 58);
    assert b[z..] == rest;
  }

  lemma AfterOnes(w: string, z: nat)
    requires z == Lead(w, IsOne)
    ensures w == seq(z, _ => '1') + w[z..]
  {
    assert forall i :: 0 <= i < z ==> IsOne(w[i]);
  }

  lemma FirstNotZero(w: string, z: nat)
    requires AllDigits(w) && z == Lead(w, IsOne)
    ensures AllDigits(w[z..]) && (w[z..] != [] ==> DigitsOf(w[z..])[0] != 0)
  {
    if z < |w| {
      DigitMatches(w[z]);
      CharMatches(DigitOf(w[z]));
    }
  }

  lemma Zeroed(b: seq<nat>, z: nat, rest: seq<nat>)
    requires InBase(rest, 256) && b == seq(z, _ => 0) + rest && (rest != [] ==> rest[0] != 0)
    ensures InBase(b, 256) && Lead(b, IsZero) == z
  {
    if rest != [] {
      assert b[z] == rest[0];
    }
    LeadUnique(b, IsZero, z);
  }

  lemma TextBack(s: string)
    requires AllDigits(s)
    ensures Text(DigitsOf(s)) == s
  {
    hide DigitOf, CharOf, IsSpace;
    forall i | 0 <= i < |s| ensures Text(DigitsOf(s))[i] == s[i] {
      DigitMatches(s[i]);
    }
  }

  // ----- The loops

  method CountLead<T>(s: seq<T>, p: T -> bool) returns (n: nat)
    ensures n == Lead(s, p)
  {
    n := 0;
    while n < |s| && p(s[n])
      invariant n <= |s| && forall i :: 0 <= i < n ==> p(s[i])
    {
      n := n + 1;
    }
    LeadUnique(s, p, n);
  }

  /** The digits of a number in another base, computed in a buffer of the given size, big-endian. */
  method Convert(s: seq<nat>, fromBase: nat, toBase: nat, size: nat) returns (digits: seq<nat>)
    requires fromBase > 1 && toBase > 1 && InBase(s, fromBase) && Pow(fromBase, |s|) <= Pow(toBase, size)
    ensures digits == Written(Number(s, fromBase), toBase)
  {
    hide Val, Pow, ToDigits, Number;
    var buffer: seq<nat>, length: nat := seq(size, _ => 0), 0;
    ValZero(buffer, toBase);
    NumberEmpty(s, fromBase);
    for i := 0 to |s|
      invariant |buffer| == size && length <= size && InBase(buffer, toBase)
      invariant forall k :: length <= k < size ==> buffer[k] == 0
      invariant Val(buffer, toBase) == Number(s[..i], fromBase)
    {
      NumberNext(s, fromBase, i);
      NumberBound(s[..i + 1], fromBase);
      PowGrows(fromBase, i + 1, |s|);
      buffer, length := MultiplyAdd(buffer, length, toBase, fromBase, s[i]);
    }
    assert s[..|s|] == s;
    var trimmed := Trim(buffer, toBase, length);
    digits := Reverse(trimmed);
  }

  lemma NumberEmpty(s: seq<nat>, base: nat)
    ensures Number(s[..0], base) == 0
  {
  }

  method Encode(b: seq<nat>) returns (s: string)
    requires InBase(b, 256)
    ensures s == Encoded(b)
  {
    hide Number, Written, CharOf, Pow;
    var zeroes := CountLead(b, IsZero);
    var rest := b[zeroes..];
    EncodeRoom(|rest|);
    var digits := Convert(rest, 256, 58, |rest| * 138 / 100 + 1);
    WrittenInBase(Number(rest, 256), 58);
    s := seq(zeroes, _ => '1');
    for i := 0 to |digits|
      invariant s == seq(zeroes, _ => '1') + Text(digits)[..i]
    {
      s := s + [CharOf(digits[i])];
    }
  }

  /** None stands for a refusal. */
  method Decode(s: string) returns (r: Option<seq<nat>>)
    ensures r == Decoded(s)
  {
    hide *;
    var start := CountLead(s, IsSpace);
    var t := s[start..];
    var zeroes := CountLead(t, IsOne);
    var rest := t[zeroes..];
    var buffer, length, i, bad, digits := ReadDigits(rest);
    if bad {
      BadDigit(s, zeroes, i);
      return None;
    }
    EndOfWord(s, zeroes, i, digits);
    var trailing := CountLead(rest[i..], IsSpace);
    if trailing != |rest| - i {
      return None;
    }
    var trimmed := Trim(buffer, 256, length);
    WrittenIs(Val(buffer, 256), trimmed);
    r := Some(seq(zeroes, _ => 0) + Reverse(trimmed));
  }

  /** Reads digits up to a space or the end into a base-256 buffer; bad if there is another character. */
  method ReadDigits(rest: string) returns (buffer: seq<nat>, length: nat, i: nat, bad: bool, ghost digits: seq<nat>)
    ensures i <= |rest| && (forall k :: 0 <= k < i ==> NotSpace(rest[k]))
    ensures bad ==> i < |rest| && NotSpace(rest[i]) && DigitOf(rest[i]) == -1
    ensures !bad && i < |rest| ==> !NotSpace(rest[i])
    ensures DigitsRead(rest[..i], digits) && Val(buffer, 256) == Number(digits, 58)
    ensures length <= |buffer| && InBase(buffer, 256) && (forall k :: length <= k < |buffer| ==> buffer[k] == 0)
  {
    hide Number, Pow, Val, DigitOf, IsSpace, NotSpace, DigitsRead;
    var size := |rest| * 733 / 1000 + 1;
    buffer, length := seq(size, _ => 0), 0;
    ValZero(buffer, 256);
    i := 0;
    digits := [];
    NoDigits(rest);
    bad := false;
    while i < |rest| && !IsSpace(rest[i])
      invariant 0 <= i <= |rest| && |buffer| == size && length <= size && InBase(buffer, 256)
      invariant forall k :: length <= k < size ==> buffer[k] == 0
      invariant forall k :: 0 <= k < i ==> NotSpace(rest[k])
      invariant DigitsRead(rest[..i], digits) && Val(buffer, 256) == Number(digits, 58)
    {
      NotASpace(rest[i]);
      var carry := DigitOf(rest[i]);
      if carry == -1 {
        bad := true;
        return;
      }
      DigitMatches(rest[i]);
      NextDigit(rest, i, digits, carry);
      DecodeFits(digits + [carry], |rest|);
      buffer, length := MultiplyAdd(buffer, length, 256, 58, carry);
      digits := digits + [carry];
      i := i + 1;
    }
    if i < |rest| {
      NotASpace(rest[i]);
    }
  }

  lemma NoDigits(rest: string)
    ensures DigitsRead(rest[..0], []) && Number([], 58) == 0
  {
  }

  lemma WrittenIs(v: nat, digits: seq<nat>)
    requires digits == ToDigits(v, 256)
    ensures Reverse(digits) == Written(v, 256)
  {
  }

  lemma NotASpace(c: char)
    ensures !IsSpace(c) <==> NotSpace(c)
  {
  }

  ghost predicate DigitsRead(w: string, digits: seq<nat>)
  {
    AllDigits(w) && DigitsOf(w) == digits
  }

  lemma NextDigit(rest: string, i: nat, digits: seq<nat>, d: nat)
    requires i < |rest| && DigitsRead(rest[..i], digits) && d == DigitOf(rest[i])
    ensures DigitsRead(rest[..i + 1], digits + [d])
    ensures InBase(digits + [d], 58) && |digits| == i && Number(digits + [d], 58) == 58 * Number(digits, 58) + d
  {
    hide DigitOf, Number;
    var longer := rest[..i + 1];
    assert longer == rest[..i] + [rest[i]];
    assert AllDigits(longer);
    assert DigitsOf(longer) == digits + [d];
    DigitMatches(rest[i]);
    NumberNext(digits + [d], 58, i);
    assert (digits + [d])[..i] == digits && (digits + [d])[..i + 1] == digits + [d];
  }

  lemma DecodeFits(digits: seq<nat>, n: nat)
    requires InBase(digits, 58) && |digits| <= n
    ensures Number(digits, 58) < Pow(256, n * 733 / 1000 + 1)
  {
    hide Pow, Number;
    NumberBound(digits, 58);
    PowGrows(58, |digits|, n);
    DecodeRoom(n);
  }

  /** The word of a string whose first part was read. */
  lemma WordLength(s: string, zeroes: nat, i: nat)
    requires var t := s[Lead(s, IsSpace)..];
             zeroes == Lead(t, IsOne) && i <= |t| - zeroes && (forall k :: 0 <= k < i ==> NotSpace(t[zeroes..][k]))
    ensures var t := s[Lead(s, IsSpace)..];
            && Lead(t, NotSpace) >= zeroes + i
            && ((zeroes + i < |t| ==> !NotSpace(t[zeroes + i])) ==> Lead(t, NotSpace) == zeroes + i)
  {
    OneIsDigit();
    hide IsSpace, NotSpace, DigitOf;
    var t := s[Lead(s, IsSpace)..];
    var n := Lead(t, NotSpace);
    forall k | 0 <= k < zeroes + i ensures NotSpace(t[k]) {
      if k < zeroes {
        assert IsOne(t[k]);
      } else {
        assert t[k] == t[zeroes..][k - zeroes];
      }
    }
    LeadAtLeast(t, NotSpace, zeroes + i);
    if zeroes + i == |t| || !NotSpace(t[zeroes + i]) {
      LeadUnique(t, NotSpace, zeroes + i);
    }
  }

  lemma {:induction false} LeadAtLeast<T>(s: seq<T>, p: T -> bool, n: nat)
    requires n <= |s| && forall i :: 0 <= i < n ==> p(s[i])
    ensures Lead(s, p) >= n
  {
    if n > 0 {
      LeadAtLeast(s[1..], p, n - 1);
    }
  }

  lemma BadDigit(s: string, zeroes: nat, i: nat)
    requires var t := s[Lead(s, IsSpace)..];
             && zeroes == Lead(t, IsOne) && i < |t| - zeroes && (forall k :: 0 <= k < i ==> NotSpace(t[zeroes..][k]))
             && NotSpace(t[zeroes + i]) && DigitOf(t[zeroes + i]) == -1
    ensures Decoded(s) == None
  {
    hide *;
    var t := s[Lead(s, IsSpace)..];
    assert t[zeroes..][i] == t[zeroes + i];
    WordLength(s, zeroes, i + 1);
    var n := Lead(t, NotSpace);
    WordIs(s, t, n);
    BadWord(s, t[..n], zeroes + i);
  }

  lemma BadWord(s: string, w: string, k: nat)
    requires Word(s) == Some(w) || Word(s) == None
    requires k < |w| && DigitOf(w[k]) == -1
    ensures Decoded(s) == None
  {
    hide IsSpace, NotSpace, DigitOf, Number, Written, Word;
    assert !AllDigits(w);
  }

  lemma EndOfWord(s: string, zeroes: nat, i: nat, digits: seq<nat>)
    requires var t := s[Lead(s, IsSpace)..];
             && zeroes == Lead(t, IsOne) && i <= |t| - zeroes && (forall k :: 0 <= k < i ==> NotSpace(t[zeroes..][k]))
             && (i < |t| - zeroes ==> !NotSpace(t[zeroes + i])) && DigitsRead(t[zeroes..][..i], digits)
    ensures var t := s[Lead(s, IsSpace)..];
            Decoded(s) == if Lead(t[zeroes..][i..], IsSpace) == |t| - zeroes - i
                          then Some(seq(zeroes, _ => 0) + Written(Number(digits, 58), 256)) else None
  {
    hide *;
    var t := s[Lead(s, IsSpace)..];
    var n := zeroes + i;
    WordLength(s, zeroes, i);
    WordIs(s, t, n);
    var w := t[..n];
    assert t[zeroes..][i..] == t[n..];
    assert w[zeroes..] == t[zeroes..][..i];
    LeadOnes(t, w, zeroes);
    DecodedIs(s, w, zeroes, digits);
  }

  lemma WordIs(s: string, t: string, n: nat)
    requires t == s[Lead(s, IsSpace)..] && n == Lead(t, NotSpace)
    ensures Word(s) == if Lead(t[n..], IsSpace) == |t| - n then Some(t[..n]) else None
  {
  }

  lemma DecodedIs(s: string, w: string, zeroes: nat, digits: seq<nat>)
    requires Word(s) == Some(w) || Word(s) == None
    requires zeroes == Lead(w, IsOne) && DigitsRead(w[zeroes..], digits)
    ensures Decoded(s) == if Word(s).None? then None else Some(seq(zeroes, _ => 0) + Written(Number(digits, 58), 256))
  {
    OneIsDigit();
    hide IsSpace, NotSpace, DigitOf, Number, Written, Word;
    forall k | 0 <= k < |w| ensures DigitOf(w[k]) != -1 {
      if k < zeroes {
        assert IsOne(w[k]);
      } else {
        assert w[k] == w[zeroes..][k - zeroes];
      }
    }
  }

  lemma LeadOnes(t: string, w: string, zeroes: nat)
    requires w <= t && zeroes == Lead(t, IsOne) <= |w|
    ensures Lead(w, IsOne) == zeroes
  {
    if zeroes < |w| {
      assert w[zeroes] == t[zeroes];
    }
    LeadUnique(w, IsOne, zeroes);
  }
}
