/** Which text decodes as Bech32, and to what: exactly the encodings, in one case or the other. */
module Bech32Text {

  import opened Bech32Checksum
  import opened Bech32

  // ----- The two tables agree

  /** A character in the decoding table is the one the character set has for its symbol, or its capital. */
  predicate Back(row: nat, k: nat)
    requires k < 16
  {
    var d := RevRow(row)[k];
    d == -1 || (0 <= d < 32 && Charset(d) as int == 16 * row + k + (if row == 4 || row == 5 then 32 else 0))
  }

  lemma Back3(k: nat)
    requires k < 16
    ensures Back(3, k)
  {
  }

  lemma Back6(k: nat)
    requires k < 16
    ensures Back(6, k) && Back(4, k)
  {
  }

  lemma Back7(k: nat)
    requires k < 16
    ensures Back(7, k) && Back(5, k)
  {
  }

  /** Capitals stand for what small letters stand for, and every data character is the one its symbol is written as. */
  lemma CharOfSymbol(c: char)
    ensures Rev(LowerCase(c)) == Rev(c)
    ensures Rev(c) == -1 || (0 <= Rev(c) < 32 && Charset(Rev(c)) == LowerCase(c))
  {
    CaseOfRow(c);
    var row, k := c as int / 16, c as int % 16;
    if row == 3 { Back3(k); } else if row == 4 || row == 6 { Back6(k); } else if row == 5 || row == 7 { Back7(k); }
    hide Charset;
    if (row == 4 || row == 5) && Rev(c) != -1 {
      CapitalData(row, k);
    }
  }

  /** Everything the table has in its capital rows is a capital. */
  lemma CapitalData(row: nat, k: nat)
    requires (row == 4 || row == 5) && k < 16 && RevRow(row)[k] != -1
    ensures IsUpper((16 * row + k) as char)
  {
  }

  lemma CaseOfRow(c: char)
    ensures IsUpper(c) ==> (c as int / 16 == 4 || c as int / 16 == 5)
    ensures IsUpper(c) ==> LowerCase(c) as int / 16 == c as int / 16 + 2 && LowerCase(c) as int % 16 == c as int % 16
  {
  }

  // ----- Letter case

  /** The text with its capitals made small. */
  function Decapitalised(s: string): (r: string)
    ensures |r| == |s|
  {
    seq(|s|, i requires 0 <= i < |s| => if 'A' <= s[i] <= 'Z' then (s[i] as int + 32) as char else s[i])
  }

  predicate Mixed(s: string)
  {
    && (exists i :: 0 <= i < |s| && 'a' <= s[i] <= 'z')
    && (exists i :: 0 <= i < |s| && 'A' <= s[i] <= 'Z')
  }

  /** A human-readable part: visible characters and no capitals. */
  predicate Readable(hrp: string)
  {
    |hrp| > 0 && forall i :: 0 <= i < |hrp| ==> 33 <= hrp[i] as int <= 126 && !('A' <= hrp[i] <= 'Z')
  }

  lemma LowerIs(s: string)
    ensures Lower(s) == Decapitalised(s)
  {
  }

  lemma MixedIs(s: string)
    ensures Mixed(s) <==> AnyLower(s) && AnyUpper(s)
  {
    if AnyLower(s) {
      var i :| 0 <= i < |s| && IsLower(s[i]);
      assert 'a' <= s[i] <= 'z';
    }
    if AnyUpper(s) {
      var i :| 0 <= i < |s| && IsUpper(s[i]);
      assert 'A' <= s[i] <= 'Z';
    }
    if exists i :: 0 <= i < |s| && 'a' <= s[i] <= 'z' {
      var i :| 0 <= i < |s| && 'a' <= s[i] <= 'z';
      assert IsLower(s[i]);
    }
    if exists i :: 0 <= i < |s| && 'A' <= s[i] <= 'Z' {
      var i :| 0 <= i < |s| && 'A' <= s[i] <= 'Z';
      assert IsUpper(s[i]);
    }
  }

  lemma ReadableIs(hrp: string)
    ensures Readable(hrp) <==> HrpOk(hrp)
  {
    if HrpOk(hrp) {
      forall i | 0 <= i < |hrp| ensures 33 <= hrp[i] as int <= 126 && !('A' <= hrp[i] <= 'Z') {
        assert Printable(hrp[i]) && !IsUpper(hrp[i]);
      }
    }
  }

  lemma CaseOfChar(c: char)
    ensures Printable(LowerCase(c)) <==> Printable(c)
    ensures LowerCase(c) == '1' <==> c == '1'
    ensures LowerCase(LowerCase(c)) == LowerCase(c)
  {
  }

  lemma LowerPrintable(s: string)
    ensures AllPrintable(Lower(s)) <==> AllPrintable(s)
  {
    hide Printable, LowerCase;
    forall i | 0 <= i < |s| ensures Printable(Lower(s)[i]) <==> Printable(s[i]) {
      CaseOfChar(s[i]);
    }
    if AllPrintable(Lower(s)) {
      forall i | 0 <= i < |s| ensures Printable(s[i]) {
        assert Printable(Lower(s)[i]);
      }
    }
  }

  lemma LowerLastOne(s: string)
    ensures LastOne(Lower(s)) == LastOne(s)
  {
    hide LowerCase;
    var u := Lower(s);
    forall i | 0 <= i < |s| ensures u[i] == '1' <==> s[i] == '1' {
      CaseOfChar(s[i]);
    }
    var p, q := LastOne(s), LastOne(u);
    assert p < |s| ==> s[p] == '1' && u[p] == '1';
    assert q < |s| ==> u[q] == '1' && s[q] == '1';
  }

  lemma LowerValues(s: string)
    ensures AllData(Lower(s)) <==> AllData(s)
    ensures AllData(s) ==> Values(Lower(s)) == Values(s) && Chars(Values(s)) == Lower(s)
  {
    hide Rev, LowerCase, Charset;
    var u := Lower(s);
    forall i | 0 <= i < |s|
      ensures Rev(u[i]) == Rev(s[i]) && (Rev(s[i]) == -1 || (0 <= Rev(s[i]) < 32 && Charset(Rev(s[i])) == u[i]))
    {
      CharOfSymbol(s[i]);
    }
    if AllData(u) {
      forall i | 0 <= i < |s| ensures 0 <= Rev(s[i]) < 32 {
        assert 0 <= Rev(u[i]) < 32;
      }
    }
  }

  lemma LowerTwice(s: string)
    ensures Lower(Lower(s)) == Lower(s)
  {
    hide LowerCase;
    forall i | 0 <= i < |s| ensures LowerCase(LowerCase(s[i])) == LowerCase(s[i]) {
      CaseOfChar(s[i]);
    }
  }

  lemma LowerSlices(s: string, p: nat)
    requires p <= |s|
    ensures Lower(s)[..p] == Lower(s[..p]) && Lower(s)[p..] == Lower(s[p..])
  {
  }

  /** Decoding does not distinguish capitals from small letters, but refuses a mixture. */
  lemma CaseIgnored(s: string)
    ensures Mixed(s) ==> Decoded(s) == None
    ensures !Mixed(s) ==> Decoded(s) == Decoded(Lower(s))
  {
    hide Lower, LastOne, AllPrintable, AnyLower, AnyUpper, AllData, Values, Verifies, Mixed;
    MixedIs(s);
    LowerPrintable(s);
    LowerLastOne(s);
    LowerHasNoUpper(s);
    var p := LastOne(s);
    if p < |s| {
      LowerSlices(s, p);
      LowerSlices(s, p + 1);
      LowerTwice(s[..p]);
      LowerValues(s[p + 1..]);
    }
  }

  /** Text that decodes is an encoding of what it decodes to. */
  lemma DecodedEncodes(s: string)
    requires Decoded(s).Some?
    ensures var (hrp, values) := Decoded(s).value;
            Lower(s) == Encoded(hrp, values) && Readable(hrp)
  {
    hide Lower, LastOne, AllPrintable, AnyLower, AnyUpper, AllData, Values, Expand, ChecksumOf, PolyModOf, PolyOf, Chars, Readable;
    var p := LastOne(s);
    var vals := Values(s[p + 1..]);
    var (hrp, values) := Decoded(s).value;
    var sum := vals[|vals| - 6..];
    assert vals == values + sum;
    assert Expand(hrp) + vals == (Expand(hrp) + values) + sum;
    ChecksumUnique(Expand(hrp) + values, sum);
    LowerValues(s[p + 1..]);
    LowerJoin(s, p);
    PartReadable(s, p);
  }

  lemma LowerJoin(s: string, p: nat)
    requires p < |s| && s[p] == '1'
    ensures Lower(s) == Lower(s[..p]) + "1" + Lower(s[p + 1..])
  {
    hide LowerCase;
    CaseOfChar(s[p]);
  }

  lemma PartReadable(s: string, p: nat)
    requires AllPrintable(s) && 0 < p <= |s|
    ensures Readable(Lower(s[..p]))
  {
    hide Readable;
    ReadableIs(Lower(s[..p]));
    LowerPrintable(s[..p]);
    LowerHasNoUpper(s[..p]);
  }

  /**
   Text decodes to a human-readable part and data exactly when, capitals made
   small, it is their encoding, the part is readable, the text has at most 90
   characters and it does not mix capitals and small letters.
   */
  lemma DecodeExact(s: string, hrp: string, values: seq<Symbol>)
    ensures Decoded(s) == Some((hrp, values)) <==>
            Decapitalised(s) == Encoded(hrp, values) && Readable(hrp) && |s| <= 90 && !Mixed(s)
  {
    hide Decapitalised, Decoded, Encoded, Readable, Mixed, Lower, HrpOk;
    LowerIs(s);
    CaseIgnored(s);
    ReadableIs(hrp);
    EncodedLength(hrp, values);
    RoundTrip(hrp, values);
    if Decoded(s).Some? {
      DecodedEncodes(s);
      DecodedShort(s);
    }
  }

  lemma EncodedLength(hrp: string, values: seq<Symbol>)
    ensures |Encoded(hrp, values)| == |hrp| + |values| + 7
  {
    hide Encoded;
    EncodedParts(hrp, values);
  }

  lemma DecodedShort(s: string)
    requires Decoded(s).Some?
    ensures |s| <= 90
  {
    hide LastOne, AllPrintable, AnyLower, AnyUpper, AllData, Values, Verifies, Lower;
  }
}
