/** The bits of the five multiples of the generator, column by column. */
module Bech32Generator {

  import opened Bits
  import opened Bech32Checksum

  lemma FifthBit(x: nat, k: nat)
    ensures Bit(x, k + 5) == Bit(x / 32, k)
  {
    hide Bit;
    assert x / 2 / 2 / 2 / 2 / 2 == x / 32;
    BitDown(x, k + 4);
    BitDown(x / 2, k + 3);
    BitDown(x / 2 / 2, k + 2);
    BitDown(x / 2 / 2 / 2, k + 1);
    BitDown(x / 2 / 2 / 2 / 2, k);
  }

  lemma BitDown(x: nat, k: nat)
    ensures Bit(x, k + 1) == Bit(x / 2, k)
  {
  }

  function Down(x: nat, q: nat): nat
  {
    if q == 0 then x else Down(x / 32, q - 1)
  }

  lemma {:induction false} DownBit(x: nat, q: nat, r: nat)
    ensures Bit(x, 5 * q + r) == Bit(Down(x, q), r)
  {
    hide Bit;
    if q > 0 {
      FifthBit(x, 5 * (q - 1) + r);
      DownBit(x / 32, q - 1, r);
    }
  }

  /** The bits of x from the q-th symbol on are those of y. */
  lemma Chunk(x: nat, y: nat, q: nat)
    requires q <= 5 && y == Down(x, q)
    ensures forall r: nat {:trigger Bit(y, r)} :: Bit(x, 5 * q + r) == Bit(y, r)
  {
    hide Bit;
    forall r: nat ensures Bit(x, 5 * q + r) == Bit(y, r) {
      DownBit(x, q, r);
    }
  }

  lemma Columns1()
    ensures Column(5, true, true, true, false, true)
    ensures Column(6, false, true, true, true, false)
    ensures Column(7, true, false, true, true, true)
    ensures Column(8, true, false, true, true, false)
    ensures Column(9, true, true, false, true, true)
  {
    hide Bit;
    Chunk(0x3b6a57b2, 0x1db52bd, 1);
    Chunk(0x26508e6d, 0x1328473, 1);
    Chunk(0x1ea119fa, 0xf508cf, 1);
    Chunk(0x3d4233dd, 0x1ea119e, 1);
    Chunk(0x2a1462b3, 0x150a315, 1);
    Digits1();
  }

  lemma Digits1()
    ensures Bit(0x1db52bd, 0) && !Bit(0x1db52bd, 1) && Bit(0x1db52bd, 2) && Bit(0x1db52bd, 3) && Bit(0x1db52bd, 4)
    ensures Bit(0x1328473, 0) && Bit(0x1328473, 1) && !Bit(0x1328473, 2) && !Bit(0x1328473, 3) && Bit(0x1328473, 4)
    ensures Bit(0xf508cf, 0) && Bit(0xf508cf, 1) && Bit(0xf508cf, 2) && Bit(0xf508cf, 3) && !Bit(0xf508cf, 4)
    ensures !Bit(0x1ea119e, 0) && Bit(0x1ea119e, 1) && Bit(0x1ea119e, 2) && Bit(0x1ea119e, 3) && Bit(0x1ea119e, 4)
    ensures Bit(0x150a315, 0) && !Bit(0x150a315, 1) && Bit(0x150a315, 2) && !Bit(0x150a315, 3) && Bit(0x150a315, 4)
  {
  }

  lemma Columns2()
    ensures Column(10, true, true, false, false, false)
    ensures Column(11, false, true, true, false, false)
    ensures Column(12, true, false, true, true, false)
    ensures Column(13, false, false, false, true, true)
    ensures Column(14, true, false, false, false, true)
  {
    hide Bit;
    Chunk(0x3b6a57b2, 0xeda95, 2);
    Chunk(0x26508e6d, 0x99423, 2);
    Chunk(0x1ea119fa, 0x7a846, 2);
    Chunk(0x3d4233dd, 0xf508c, 2);
    Chunk(0x2a1462b3, 0xa8518, 2);
    Digits2();
  }

  lemma Digits2()
    ensures Bit(0xeda95, 0) && !Bit(0xeda95, 1) && Bit(0xeda95, 2) && !Bit(0xeda95, 3) && Bit(0xeda95, 4)
    ensures Bit(0x99423, 0) && Bit(0x99423, 1) && !Bit(0x99423, 2) && !Bit(0x99423, 3) && !Bit(0x99423, 4)
    ensures !Bit(0x7a846, 0) && Bit(0x7a846, 1) && Bit(0x7a846, 2) && !Bit(0x7a846, 3) && !Bit(0x7a846, 4)
    ensures !Bit(0xf508c, 0) && !Bit(0xf508c, 1) && Bit(0xf508c, 2) && Bit(0xf508c, 3) && !Bit(0xf508c, 4)
    ensures !Bit(0xa8518, 0) && !Bit(0xa8518, 1) && !Bit(0xa8518, 2) && Bit(0xa8518, 3) && Bit(0xa8518, 4)
  {
  }

  lemma Columns3()
    ensures Column(15, false, true, false, false, false)
    ensures Column(16, false, false, true, false, false)
    ensures Column(17, true, false, false, true, false)
    ensures Column(18, false, false, false, false, true)
    ensures Column(19, true, false, false, false, false)
  {
    hide Bit;
    Chunk(0x3b6a57b2, 0x76d4, 3);
    Chunk(0x26508e6d, 0x4ca1, 3);
    Chunk(0x1ea119fa, 0x3d42, 3);
    Chunk(0x3d4233dd, 0x7a84, 3);
    Chunk(0x2a1462b3, 0x5428, 3);
    Digits3();
  }

  lemma Digits3()
    ensures !Bit(0x76d4, 0) && !Bit(0x76d4, 1) && Bit(0x76d4, 2) && !Bit(0x76d4, 3) && Bit(0x76d4, 4)
    ensures Bit(0x4ca1, 0) && !Bit(0x4ca1, 1) && !Bit(0x4ca1, 2) && !Bit(0x4ca1, 3) && !Bit(0x4ca1, 4)
    ensures !Bit(0x3d42, 0) && Bit(0x3d42, 1) && !Bit(0x3d42, 2) && !Bit(0x3d42, 3) && !Bit(0x3d42, 4)
    ensures !Bit(0x7a84, 0) && !Bit(0x7a84, 1) && Bit(0x7a84, 2) && !Bit(0x7a84, 3) && !Bit(0x7a84, 4)
    ensures !Bit(0x5428, 0) && !Bit(0x5428, 1) && !Bit(0x5428, 2) && Bit(0x5428, 3) && !Bit(0x5428, 4)
  {
  }

  lemma Columns4()
    ensures Column(20, false, true, false, false, true)
    ensures Column(21, true, false, true, false, false)
    ensures Column(22, true, true, false, true, false)
    ensures Column(23, false, false, true, false, false)
    ensures Column(24, true, false, false, true, false)
  {
    hide Bit;
    Chunk(0x3b6a57b2, 0x3b6, 4);
    Chunk(0x26508e6d, 0x265, 4);
    Chunk(0x1ea119fa, 0x1ea, 4);
    Chunk(0x3d4233dd, 0x3d4, 4);
    Chunk(0x2a1462b3, 0x2a1, 4);
    Digits4();
  }

  lemma Digits4()
    ensures !Bit(0x3b6, 0) && Bit(0x3b6, 1) && Bit(0x3b6, 2) && !Bit(0x3b6, 3) && Bit(0x3b6, 4)
    ensures Bit(0x265, 0) && !Bit(0x265, 1) && Bit(0x265, 2) && !Bit(0x265, 3) && !Bit(0x265, 4)
    ensures !Bit(0x1ea, 0) && Bit(0x1ea, 1) && !Bit(0x1ea, 2) && Bit(0x1ea, 3) && !Bit(0x1ea, 4)
    ensures !Bit(0x3d4, 0) && !Bit(0x3d4, 1) && Bit(0x3d4, 2) && !Bit(0x3d4, 3) && Bit(0x3d4, 4)
    ensures Bit(0x2a1, 0) && !Bit(0x2a1, 1) && !Bit(0x2a1, 2) && !Bit(0x2a1, 3) && !Bit(0x2a1, 4)
  {
  }

  lemma Columns5()
    ensures Column(25, true, true, true, false, true)
    ensures Column(26, false, true, true, true, false)
    ensures Column(27, true, false, true, true, true)
    ensures Column(28, true, false, true, true, false)
    ensures Column(29, true, true, false, true, true)
  {
    hide Bit;
    Chunk(0x3b6a57b2, 0x1d, 5);
    Chunk(0x26508e6d, 0x13, 5);
    Chunk(0x1ea119fa, 0xf, 5);
    Chunk(0x3d4233dd, 0x1e, 5);
    Chunk(0x2a1462b3, 0x15, 5);
    Digits5();
  }

  lemma Digits5()
    ensures Bit(0x1d, 0) && !Bit(0x1d, 1) && Bit(0x1d, 2) && Bit(0x1d, 3) && Bit(0x1d, 4)
    ensures Bit(0x13, 0) && Bit(0x13, 1) && !Bit(0x13, 2) && !Bit(0x13, 3) && Bit(0x13, 4)
    ensures Bit(0xf, 0) && Bit(0xf, 1) && Bit(0xf, 2) && Bit(0xf, 3) && !Bit(0xf, 4)
    ensures !Bit(0x1e, 0) && Bit(0x1e, 1) && Bit(0x1e, 2) && Bit(0x1e, 3) && Bit(0x1e, 4)
    ensures Bit(0x15, 0) && !Bit(0x15, 1) && Bit(0x15, 2) && !Bit(0x15, 3) && Bit(0x15, 4)
  {
  }
}
