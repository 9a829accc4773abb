/** The CRC-24Q checksum: the 32-bit register loop, and what it computes over GF(2). */
module Crc24q {
  import opened Bits
  import opened Gf2

  const POLY: bv32 := 0x1864CFB

  const EXPONENTS: set<nat> := {24, 23, 18, 17, 14, 11, 10, 7, 6, 5, 4, 3, 1, 0}

  /** The generator x^24 + x^23 + x^18 + ... + x + 1 as a bit string. */
  function CrcPoly(): (g: Poly)
    ensures |g| == 25 && g[0] && g[24]
  {
    seq(25, i requires 0 <= i < 25 => 24 - i in EXPONENTS)
  }

  /** The remainder of data(x)*x^24 by the generator. */
  function Crc(data: seq<byte>): (r: Poly)
    ensures |r| == 24
  {
    Rem(BitsOf(data) + Zeros(24), CrcPoly())
  }

  // ---------- the register as a polynomial ----------

  predicate At(c: bv32, mask: bv32) {
    c & mask != 0
  }

  /** The mask of coefficient i of a 24-bit register, counting from the top. */
  function Mask(i: nat): bv32
    requires i < 24
  {
    match i
    case 0 => 0x800000 case 1 => 0x400000 case 2 => 0x200000 case 3 => 0x100000
    case 4 => 0x080000 case 5 => 0x040000 case 6 => 0x020000 case 7 => 0x010000
    case 8 => 0x008000 case 9 => 0x004000 case 10 => 0x002000 case 11 => 0x001000
    case 12 => 0x000800 case 13 => 0x000400 case 14 => 0x000200 case 15 => 0x000100
    case 16 => 0x000080 case 17 => 0x000040 case 18 => 0x000020 case 19 => 0x000010
    case 20 => 0x000008 case 21 => 0x000004 case 22 => 0x000002 case _ => 0x000001
  }

  /** The low 24 bits of a register. */
  function RegisterBits(c: bv32): (r: Poly)
    ensures |r| == 24
  {
    seq(24, i requires 0 <= i < 24 => At(c, Mask(i)))
  }

  /** A mask with a single bit set. */
  predicate OneBit(m: bv32) {
    m != 0 && m & (m - 1) == 0
  }

  lemma MaskIsOneBit(i: nat)
    requires i < 24
    ensures OneBit(Mask(i)) && Mask(i) <= 0x800000
    ensures i > 0 ==> Mask(i) << 1 == Mask(i - 1)
  {
  }

  lemma BelowMask(x: bv32, m: bv32)
    requires OneBit(m) && m <= 0x800000 && x < m << 1 && !At(x, m)
    ensures x < m
  {
  }

  /** A non-zero register below 2^(24-i) has a one at place i or further down. */
  lemma {:induction false} FindOne(x: bv32, i: nat) returns (k: nat)
    requires i < 24 && 0 < x < Mask(i) << 1
    ensures k < 24 && At(x, Mask(k))
    decreases 24 - i
  {
    MaskIsOneBit(i);
    k := i;
    if !At(x, Mask(i)) {
      BelowMask(x, Mask(i));
      if i < 23 {
        MaskIsOneBit(i + 1);
        k := FindOne(x, i + 1);
      }
    }
  }

  lemma XorAtMask(c: bv32, d: bv32, m: bv32)
    requires OneBit(m)
    ensures At(c ^ d, m) == (At(c, m) != At(d, m))
  {
  }

  /** Two different 24-bit registers differ at some place. */
  lemma DifferAt(c: bv32, d: bv32) returns (k: nat)
    requires c < 0x1000000 && d < 0x1000000 && c != d
    ensures k < 24 && At(c, Mask(k)) != At(d, Mask(k))
  {
    var x := c ^ d;
    assert 0 < x < 0x1000000;
    k := FindOne(x, 0);
    MaskIsOneBit(k);
    hide Mask, At;
    XorAtMask(c, d, Mask(k));
  }

  lemma RegisterBitsInjective(c: bv32, d: bv32)
    requires c < 0x1000000 && d < 0x1000000
    ensures RegisterBits(c) == RegisterBits(d) <==> c == d
  {
    hide Mask, At;
    if c != d {
      var k := DifferAt(c, d);
      assert RegisterBits(c)[k] != RegisterBits(d)[k];
    }
  }

  lemma ShiftAtMask(c: bv32, m: bv32)
    requires OneBit(m) && m <= 0x800000
    ensures At(c << 1, m << 1) == At(c, m)
    ensures !At(c << 1, 1)
  {
  }

  lemma XorBits(c: bv32, d: bv32)
    ensures RegisterBits(c ^ d) == Xor(RegisterBits(c), RegisterBits(d))
  {
    hide At, Mask;
    forall i: nat | i < 24 ensures At(c ^ d, Mask(i)) == (At(c, Mask(i)) != At(d, Mask(i))) {
      MaskIsOneBit(i);
      XorAtMask(c, d, Mask(i));
    }
  }

  lemma NextBit(c: bv32, i: nat)
    requires i < 24
    ensures At(c << 1, Mask(i)) == (i < 23 && At(c, Mask(i + 1)))
  {
    if i < 23 {
      MaskIsOneBit(i + 1);
      ShiftAtMask(c, Mask(i + 1));
    } else {
      ShiftAtMask(c, 1);
    }
  }

  lemma ShiftBits(c: bv32)
    ensures RegisterBits(c << 1) == RegisterBits(c)[1..] + [false]
  {
    hide At, Mask;
    var r, s := RegisterBits(c << 1), RegisterBits(c)[1..] + [false];
    forall i: nat | i < 24 ensures r[i] == s[i] {
      NextBit(c, i);
    }
  }

  lemma PolyBits()
    ensures CrcPoly()[1..] == RegisterBits(POLY)
  {
    var g, r := CrcPoly()[1..], RegisterBits(POLY);
    forall i: nat | i < 24 ensures g[i] == r[i] {
      assert g[i] == (23 - i in EXPONENTS);
    }
  }

  /** One turn of the inner loop: shift left, and subtract the polynomial on overflow. */
  lemma TurnBits(c: bv32)
    requires c < 0x1000000
    ensures (c << 1) & 0x1000000 != 0 ==>
      (c << 1) ^ POLY < 0x1000000 && RegisterBits((c << 1) ^ POLY) == Shift(RegisterBits(c), false, CrcPoly())
    ensures (c << 1) & 0x1000000 == 0 ==>
      c << 1 < 0x1000000 && RegisterBits(c << 1) == Shift(RegisterBits(c), false, CrcPoly())
  {
    TopBit(c);
    hide At, Mask, CrcPoly, Xor;
    XorBits(c << 1, POLY);
    ShiftBits(c);
    PolyBits();
    ShiftForm(RegisterBits(c), false, CrcPoly());
  }

  lemma TopBit(c: bv32)
    requires c < 0x1000000
    ensures (c << 1) & 0x1000000 != 0 <==> RegisterBits(c)[0]
    ensures (c << 1) & 0x1000000 != 0 ==> (c << 1) ^ POLY < 0x1000000
    ensures (c << 1) & 0x1000000 == 0 ==> c << 1 < 0x1000000
  {
  }

  function High(b: byte): bv32 { (b as bv32) << 16 }
  function Middle(b: byte): bv32 { (b as bv32) << 8 }
  function Low(b: byte): bv32 { b as bv32 }

  lemma HighByteBits(b: byte)
    ensures RegisterBits(High(b)) == BitsOfByte(b) + Zeros(16)
  {
  }

  lemma MiddleByteBits(b: byte)
    ensures RegisterBits(Middle(b)) == Zeros(8) + BitsOfByte(b) + Zeros(8)
  {
  }

  lemma LowByteBits(b: byte)
    ensures RegisterBits(Low(b)) == Zeros(16) + BitsOfByte(b)
  {
  }

  lemma TakeInByte(c: bv32, b: byte)
    requires c < 0x1000000
    ensures c ^ ((b as bv32) << 16) < 0x1000000
    ensures RegisterBits(c ^ ((b as bv32) << 16)) == Xor(RegisterBits(c), BitsOfByte(b) + Zeros(16))
  {
    hide At, Mask, BitsOfByte, BitOfByte, Xor;
    XorBits(c, (b as bv32) << 16);
    HighByteBits(b);
  }

  // ---------- the loop ----------

  /** The checksum loop, as both decoders have it. */
  method Compute(data: seq<byte>) returns (crc: bv32)
    ensures crc < 0x1000000 && RegisterBits(crc) == Crc(data)
  {
    hide RegisterBits, Rem, CrcPoly, BitsOf, Zeros, Shifts, Register, Xor, Shift, BitsOfByte;
    crc := 0;
    EmptyBits();
    for i := 0 to |data|
      invariant crc < 0x1000000
      invariant RegisterBits(crc) == Register(BitsOf(data[..i]), CrcPoly())
    {
      ghost var before := RegisterBits(crc);
      TakeInByte(crc, data[i]);
      crc := crc ^ ((data[i] as bv32) << 16);
      ghost var start := RegisterBits(crc);
      ShiftsZero(start, CrcPoly());
      for b := 0 to 8
        invariant crc < 0x1000000
        invariant RegisterBits(crc) == Shifts(start, b, CrcPoly())
      {
        TurnBits(crc);
        ShiftsStep(start, b, CrcPoly());
        crc := crc << 1;
        if crc & 0x1000000 != 0 {
          crc := crc ^ POLY;
        }
      }
      NextByte(before, data[..i], data[i]);
      assert data[..i + 1] == data[..i] + [data[i]];
    }
    assert data[..|data|] == data;
    RegisterIsPaddedRem(BitsOf(data), CrcPoly());
    MaskIsIdle(crc);
    crc := crc & 0xFFFFFF;
  }

  lemma EmptyBits()
    ensures RegisterBits(0) == Register(BitsOf([]), CrcPoly())
  {
    hide CrcPoly;
    assert BitsOf([]) == [];
  }

  lemma NextByte(r: Poly, data: seq<byte>, b: byte)
    requires r == Register(BitsOf(data), CrcPoly())
    ensures Shifts(Xor(r, BitsOfByte(b) + Zeros(16)), 8, CrcPoly()) == Register(BitsOf(data + [b]), CrcPoly())
  {
    hide BitsOfByte, BitsOf, Register, Shifts, CrcPoly, Xor, Zeros;
    InjectBlock(r, BitsOf(data), BitsOfByte(b), CrcPoly());
    BitsOfAppend(data, [b]);
    BitsOfSingleton(b);
  }

  lemma MaskIsIdle(crc: bv32)
    requires crc < 0x1000000
    ensures crc & 0xFFFFFF == crc
  {
  }

  // ---------- the checksum as a test on whole frames ----------

  /** The 24-bit value stored in three bytes, as the framer assembles it. */
  function Stored(b0: byte, b1: byte, b2: byte): bv32 {
    ((b0 as bv32) << 16) | ((b1 as bv32) << 8) | (b2 as bv32)
  }

  function XorOfThree(c: bv32, d: bv32, e: bv32): bv32 {
    (c ^ d) ^ e
  }

  lemma StoredIsXor(b0: byte, b1: byte, b2: byte)
    ensures Stored(b0, b1, b2) < 0x1000000
    ensures Stored(b0, b1, b2) == XorOfThree(High(b0), Middle(b1), Low(b2))
  {
  }

  lemma XorOfThreeBits(c: bv32, d: bv32, e: bv32)
    ensures RegisterBits(XorOfThree(c, d, e)) == Xor(Xor(RegisterBits(c), RegisterBits(d)), RegisterBits(e))
  {
    hide RegisterBits, Xor;
    XorBits(c ^ d, e);
    XorBits(c, d);
  }

  lemma JoinThree(a: Poly, b: Poly, c: Poly)
    requires |a| == |b| == |c| == 8
    ensures Xor(Xor(a + Zeros(16), Zeros(8) + b + Zeros(8)), Zeros(16) + c) == a + b + c
  {
  }

  lemma StoredBits(b0: byte, b1: byte, b2: byte)
    ensures Stored(b0, b1, b2) < 0x1000000
    ensures RegisterBits(Stored(b0, b1, b2)) == BitsOf([b0, b1, b2])
  {
    StoredIsXor(b0, b1, b2);
    hide RegisterBits, BitsOfByte, BitsOf, Stored, Xor, Zeros, XorOfThree, High, Middle, Low;
    XorOfThreeBits(High(b0), Middle(b1), Low(b2));
    HighByteBits(b0);
    MiddleByteBits(b1);
    LowByteBits(b2);
    JoinThree(BitsOfByte(b0), BitsOfByte(b1), BitsOfByte(b2));
    ThreeBytes(b0, b1, b2);
  }

  lemma ThreeBytes(b0: byte, b1: byte, b2: byte)
    ensures BitsOf([b0, b1, b2]) == BitsOfByte(b0) + BitsOfByte(b1) + BitsOfByte(b2)
  {
    hide BitsOfByte, BitsOf;
    BitsOfSingleton(b0);
    BitsOfSingleton(b1);
    BitsOfSingleton(b2);
    BitsOfAppend([b0], [b1]);
    BitsOfAppend([b0] + [b1], [b2]);
    assert [b0, b1, b2] == [b0] + [b1] + [b2];
  }

  /** The framer's comparison of registers is the comparison of the stored bits with the remainder. */
  lemma ComparisonOfBits(crc: bv32, data: seq<byte>, b0: byte, b1: byte, b2: byte)
    requires crc < 0x1000000 && RegisterBits(crc) == Crc(data)
    ensures Stored(b0, b1, b2) == crc <==> BitsOf([b0, b1, b2]) == Crc(data)
  {
    hide Crc, Stored, BitsOf, RegisterBits;
    StoredBits(b0, b1, b2);
    RegisterBitsInjective(Stored(b0, b1, b2), crc);
  }

  /** The whole frame, checksum included, is divisible by the generator exactly when the checksum is right. */
  lemma CheckIsZeroRemainder(data: seq<byte>, stored: seq<byte>)
    requires |stored| == 3
    ensures BitsOf(stored) == Crc(data) <==> Rem(BitsOf(data + stored), CrcPoly()) == Zeros(24)
  {
    hide Rem, CrcPoly, BitsOf, Xor;
    BitsOfAppend(data, stored);
    RemAppendTail(BitsOf(data), BitsOf(stored), CrcPoly());
    XorZeroMeansEqual(Crc(data), BitsOf(stored));
  }
}
