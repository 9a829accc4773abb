/** Powers of x modulo the CRC-24Q generator, multiplied on 24-bit registers. */
module PowersOfX {
  import opened Bits
  import opened Gf2
  import opened Crc24q

  /** The polynomial 1 as a remainder. */
  function Unit(g: Poly): (r: Poly)
    requires Generator(g)
    ensures |r| == |g| - 1
  {
    Zeros(|g| - 2) + [true]
  }

  // ---------- multiplication modulo g ----------

  /** r*s modulo g by Horner's rule. */
  function MulMod(r: Poly, s: Poly, g: Poly): (p: Poly)
    requires Generator(g) && |r| == |g| - 1
    ensures |p| == |r|
  {
    if s == [] then Zeros(|r|)
    else Xor(Shift(MulMod(r, s[..|s| - 1], g), false, g), Scale(s[|s| - 1], r))
  }

  lemma ShiftsOfUnit(b: bool, n: nat, g: Poly)
    requires Generator(g)
    ensures Shifts(Zeros(|g| - 2) + [b], n, g) == Scale(b, Shifts(Unit(g), n, g))
  {
    if !b {
      ZerosFacts(|g| - 2, 1);
      ShiftsOfZeros(n, g);
    }
  }

  /** Multiplying by x^n. */
  lemma {:induction false} MulByPower(n: nat, s: Poly, g: Poly)
    requires Generator(g)
    ensures MulMod(Shifts(Unit(g), n, g), s, g) == Shifts(Rem(s, g), n, g)
  {
    hide Shift, Shifts, Unit, Xor, Zeros, Scale;
    if s == [] {
      ShiftsOfZeros(n, g);
    } else {
      var s', b := s[..|s| - 1], s[|s| - 1];
      MulByPower(n, s', g);
      BringDownSplits(Rem(s', g), b, n, g);
      ShiftsOfUnit(b, n, g);
    }
  }

  lemma PowerSum(m: nat, n: nat, g: Poly)
    requires Generator(g)
    ensures MulMod(Shifts(Unit(g), m, g), Shifts(Unit(g), n, g), g) == Shifts(Unit(g), n + m, g)
  {
    hide Shifts, Unit, MulMod, Rem;
    var s := Shifts(Unit(g), n, g);
    MulByPower(m, s, g);
    RemShort(s, g);
    assert Zeros(0) + s == s;
    ShiftsCompose(Unit(g), n, m, g);
  }

  // ---------- the same on 24-bit registers ----------

  function Turn(c: bv32): bv32 {
    if (c << 1) & 0x1000000 != 0 then (c << 1) ^ POLY else c << 1
  }

  function AddIf(b: bool, c: bv32, r: bv32): bv32 {
    c ^ (if b then r else 0)
  }

  function Horner(a: bv32, r: bv32, s: bv32, m: bv32): bv32 {
    AddIf(At(s, m), Turn(a), r)
  }

  function Horner4(a: bv32, r: bv32, s: bv32, m0: bv32, m1: bv32, m2: bv32, m3: bv32): bv32 {
    Horner(Horner(Horner(Horner(a, r, s, m0), r, s, m1), r, s, m2), r, s, m3)
  }

  /** The product of two registers modulo the generator. */
  function Product(r: bv32, s: bv32): bv32 {
    var a := Horner4(0, r, s, 0x800000, 0x400000, 0x200000, 0x100000);
    var b := Horner4(a, r, s, 0x080000, 0x040000, 0x020000, 0x010000);
    var c := Horner4(b, r, s, 0x008000, 0x004000, 0x002000, 0x001000);
    var d := Horner4(c, r, s, 0x000800, 0x000400, 0x000200, 0x000100);
    var e := Horner4(d, r, s, 0x000080, 0x000040, 0x000020, 0x000010);
    Horner4(e, r, s, 0x000008, 0x000004, 0x000002, 0x000001)
  }

  predicate Small(c: bv32) {
    c < 0x1000000
  }

  /** a is r times the i top coefficients of s. */
  ghost predicate Partial(a: bv32, r: Poly, t: Poly, i: nat)
    requires |r| == |t| == 24 && i <= 24
  {
    Small(a) && RegisterBits(a) == MulMod(r, t[..i], CrcPoly())
  }

  lemma TurnIsShift(c: bv32)
    requires Small(c)
    ensures Small(Turn(c)) && RegisterBits(Turn(c)) == Shift(RegisterBits(c), false, CrcPoly())
  {
    hide RegisterBits, CrcPoly, Shift;
    TurnBits(c);
  }

  lemma AddIfBits(b: bool, c: bv32, r: bv32)
    requires Small(c) && Small(r)
    ensures Small(AddIf(b, c, r))
    ensures RegisterBits(AddIf(b, c, r)) == Xor(RegisterBits(c), Scale(b, RegisterBits(r)))
  {
    hide RegisterBits, Xor, Zeros, Small, AddIf;
    AddIfCases(b, c, r);
    if b {
      AddBits(c, r);
    } else {
      XorZeros(RegisterBits(c));
    }
  }

  lemma AddIfCases(b: bool, c: bv32, r: bv32)
    ensures b ==> AddIf(b, c, r) == c ^ r
    ensures !b ==> AddIf(b, c, r) == c
  {
  }

  lemma AddBits(c: bv32, r: bv32)
    requires Small(c) && Small(r)
    ensures Small(c ^ r)
    ensures RegisterBits(c ^ r) == Xor(RegisterBits(c), RegisterBits(r))
  {
    hide RegisterBits, Xor;
    XorBits(c, r);
  }

  lemma MulModSnoc(r: Poly, t: Poly, i: nat, g: Poly)
    requires Generator(g) && |r| == |g| - 1 && i < |t|
    ensures MulMod(r, t[..i + 1], g) == Xor(Shift(MulMod(r, t[..i], g), false, g), Scale(t[i], r))
  {
    assert t[..i + 1][..i] == t[..i];
  }

  lemma HornerStep(a: bv32, r: bv32, s: bv32, i: nat, m: bv32)
    requires i < 24 && Small(r) && RegisterBits(s)[i] == At(s, m)
    requires Partial(a, RegisterBits(r), RegisterBits(s), i)
    ensures Partial(Horner(a, r, s, m), RegisterBits(r), RegisterBits(s), i + 1)
  {
    hide RegisterBits, At, Shift, CrcPoly, Xor, Scale, Turn, AddIf, Small, MulMod;
    TurnIsShift(a);
    AddIfBits(At(s, m), Turn(a), r);
    MulModSnoc(RegisterBits(r), RegisterBits(s), i, CrcPoly());
  }

  lemma ZeroRegister()
    ensures RegisterBits(0) == Zeros(24)
  {
  }

  lemma Horner4Step(a: bv32, r: bv32, s: bv32, i: nat, m0: bv32, m1: bv32, m2: bv32, m3: bv32)
    requires i + 4 <= 24 && Small(r) && Partial(a, RegisterBits(r), RegisterBits(s), i)
    requires var t := RegisterBits(s);
      t[i] == At(s, m0) && t[i + 1] == At(s, m1) && t[i + 2] == At(s, m2) && t[i + 3] == At(s, m3)
    ensures Partial(Horner4(a, r, s, m0, m1, m2, m3), RegisterBits(r), RegisterBits(s), i + 4)
  {
    hide Partial, Horner, RegisterBits, At, Small;
    HornerStep(a, r, s, i, m0);
    var b := Horner(a, r, s, m0);
    HornerStep(b, r, s, i + 1, m1);
    var c := Horner(b, r, s, m1);
    HornerStep(c, r, s, i + 2, m2);
    HornerStep(Horner(c, r, s, m2), r, s, i + 3, m3);
  }

  lemma PartialEnds(a: bv32, r: Poly, t: Poly)
    requires |r| == |t| == 24
    ensures Partial(0, r, t, 0)
    ensures Partial(a, r, t, 24) ==> Small(a) && RegisterBits(a) == MulMod(r, t, CrcPoly())
  {
    ZeroRegister();
    hide RegisterBits, CrcPoly;
    assert t[..24] == t;
  }

  lemma ProductIsMulMod(r: bv32, s: bv32)
    requires Small(r)
    ensures Small(Product(r, s))
    ensures RegisterBits(Product(r, s)) == MulMod(RegisterBits(r), RegisterBits(s), CrcPoly())
  {
    var t := RegisterBits(s);
    BitsAreMasks(s);
    hide Horner4, Partial, RegisterBits, At, Small, MulMod, CrcPoly;
    PartialEnds(Product(r, s), RegisterBits(r), t);
    Horner4Step(0, r, s, 0, 0x800000, 0x400000, 0x200000, 0x100000);
    var a := Horner4(0, r, s, 0x800000, 0x400000, 0x200000, 0x100000);
    Horner4Step(a, r, s, 4, 0x080000, 0x040000, 0x020000, 0x010000);
    var b := Horner4(a, r, s, 0x080000, 0x040000, 0x020000, 0x010000);
    Horner4Step(b, r, s, 8, 0x008000, 0x004000, 0x002000, 0x001000);
    var c := Horner4(b, r, s, 0x008000, 0x004000, 0x002000, 0x001000);
    Horner4Step(c, r, s, 12, 0x000800, 0x000400, 0x000200, 0x000100);
    var d := Horner4(c, r, s, 0x000800, 0x000400, 0x000200, 0x000100);
    Horner4Step(d, r, s, 16, 0x000080, 0x000040, 0x000020, 0x000010);
    var e := Horner4(d, r, s, 0x000080, 0x000040, 0x000020, 0x000010);
    Horner4Step(e, r, s, 20, 0x000008, 0x000004, 0x000002, 0x000001);
  }

  lemma BitIsMask(s: bv32, i: nat, m: bv32)
    requires i < 24 && m == Mask(i)
    ensures RegisterBits(s)[i] == At(s, m)
  {
  }

  lemma BitsAreMasks(s: bv32)
    ensures var t := RegisterBits(s);
      && t[0] == At(s, 0x800000) && t[1] == At(s, 0x400000) && t[2] == At(s, 0x200000) && t[3] == At(s, 0x100000)
      && t[4] == At(s, 0x080000) && t[5] == At(s, 0x040000) && t[6] == At(s, 0x020000) && t[7] == At(s, 0x010000)
      && t[8] == At(s, 0x008000) && t[9] == At(s, 0x004000) && t[10] == At(s, 0x002000) && t[11] == At(s, 0x001000)
      && t[12] == At(s, 0x000800) && t[13] == At(s, 0x000400) && t[14] == At(s, 0x000200) && t[15] == At(s, 0x000100)
      && t[16] == At(s, 0x000080) && t[17] == At(s, 0x000040) && t[18] == At(s, 0x000020) && t[19] == At(s, 0x000010)
      && t[20] == At(s, 0x000008) && t[21] == At(s, 0x000004) && t[22] == At(s, 0x000002) && t[23] == At(s, 0x000001)
  {
    hide RegisterBits, At;
    BitIsMask(s, 0, 0x800000); BitIsMask(s, 1, 0x400000); BitIsMask(s, 2, 0x200000); BitIsMask(s, 3, 0x100000);
    BitIsMask(s, 4, 0x080000); BitIsMask(s, 5, 0x040000); BitIsMask(s, 6, 0x020000); BitIsMask(s, 7, 0x010000);
    BitIsMask(s, 8, 0x008000); BitIsMask(s, 9, 0x004000); BitIsMask(s, 10, 0x002000); BitIsMask(s, 11, 0x001000);
    BitIsMask(s, 12, 0x000800); BitIsMask(s, 13, 0x000400); BitIsMask(s, 14, 0x000200); BitIsMask(s, 15, 0x000100);
    BitIsMask(s, 16, 0x000080); BitIsMask(s, 17, 0x000040); BitIsMask(s, 18, 0x000020); BitIsMask(s, 19, 0x000010);
    BitIsMask(s, 20, 0x000008); BitIsMask(s, 21, 0x000004); BitIsMask(s, 22, 0x000002); BitIsMask(s, 23, 0x000001);
  }

  /** c holds x^n. */
  ghost predicate IsPower(c: bv32, n: nat) {
    Small(c) && RegisterBits(c) == Shifts(Unit(CrcPoly()), n, CrcPoly())
  }

  lemma Multiply(c: bv32, m: nat, d: bv32, n: nat)
    requires IsPower(c, m) && IsPower(d, n)
    ensures IsPower(Product(c, d), m + n)
  {
    hide RegisterBits, Product, CrcPoly, Shifts, MulMod, Unit;
    ProductIsMulMod(c, d);
    PowerSum(m, n, CrcPoly());
  }

  // ---------- single powers of x ----------

  /** Six steps of four bits each make a product. */
  lemma ByStages(r: bv32, s: bv32, a: bv32, b: bv32, c: bv32, d: bv32, e: bv32, p: bv32)
    requires Horner4(0, r, s, 0x800000, 0x400000, 0x200000, 0x100000) == a
    requires Horner4(a, r, s, 0x080000, 0x040000, 0x020000, 0x010000) == b
    requires Horner4(b, r, s, 0x008000, 0x004000, 0x002000, 0x001000) == c
    requires Horner4(c, r, s, 0x000800, 0x000400, 0x000200, 0x000100) == d
    requires Horner4(d, r, s, 0x000080, 0x000040, 0x000020, 0x000010) == e
    requires Horner4(e, r, s, 0x000008, 0x000004, 0x000002, 0x000001) == p
    ensures Product(r, s) == p
  {
    hide Horner4;
  }

  lemma Squares1A()
    ensures Product(0x000002, 0x000002) == 0x000004
    ensures Product(0x000004, 0x000004) == 0x000010
    ensures Product(0x000010, 0x000010) == 0x000100
    ensures Product(0x000100, 0x000100) == 0x010000
  {
    hide Product;
    ByStages(0x000002, 0x000002, 0x000000, 0x000000, 0x000000, 0x000000, 0x000000, 0x000004);
    ByStages(0x000004, 0x000004, 0x000000, 0x000000, 0x000000, 0x000000, 0x000000, 0x000010);
    ByStages(0x000010, 0x000010, 0x000000, 0x000000, 0x000000, 0x000000, 0x000010, 0x000100);
    ByStages(0x000100, 0x000100, 0x000000, 0x000000, 0x000000, 0x000100, 0x001000, 0x010000);
  }

  lemma Squares1B()
    ensures Product(0x010000, 0x010000) == 0x668F48
    ensures Product(0x668F48, 0x668F48) == 0x36EB3D
    ensures Product(0x36EB3D, 0x36EB3D) == 0x6243DA
    ensures Product(0x6243DA, 0x6243DA) == 0xCB800E
  {
    hide Product;
    ByStages(0x010000, 0x010000, 0x000000, 0x010000, 0x100000, 0x864CFB, 0xC54E89, 0x668F48);
    ByStages(0x668F48, 0x668F48, 0xD16F4B, 0x73B0D8, 0x9C9121, 0x61DC67, 0x188447, 0x36EB3D);
    ByStages(0x36EB3D, 0x36EB3D, 0x5B3D47, 0x1004E4, 0x016D26, 0x7CFA34, 0x0BE110, 0x6243DA);
    ByStages(0x6243DA, 0x6243DA, 0xCBC427, 0x4AA21C, 0x3684B2, 0xC216B8, 0x608B37, 0xCB800E);
  }

  lemma Squares2A()
    ensures Product(0xCB800E, 0xCB800E) == 0x7DB43E
    ensures Product(0x7DB43E, 0x7DB43E) == 0xDEF23C
    ensures Product(0xDEF23C, 0xDEF23C) == 0x3D145A
    ensures Product(0x3D145A, 0x3D145A) == 0xC5BF56
  {
    hide Product;
    ByStages(0xCB800E, 0xCB800E, 0x67AA52, 0xFC69B9, 0xBD5622, 0x787AEF, 0x18D1E7, 0x7DB43E);
    ByStages(0x7DB43E, 0x7DB43E, 0xF64041, 0xB6EA05, 0xA45CDB, 0x1E0587, 0xE0C8C9, 0xDEF23C);
    ByStages(0xDEF23C, 0xDEF23C, 0x470136, 0x41AE08, 0xF5AFD4, 0x5FABED, 0x0A4E75, 0x3D145A);
    ByStages(0x3D145A, 0x3D145A, 0x473CEE, 0x478318, 0xD6C33B, 0x2C49FB, 0x870F8F, 0xC5BF56);
  }

  lemma Squares2B()
    ensures Product(0xC5BF56, 0xC5BF56) == 0x11E898
    ensures Product(0x11E898, 0x11E898) == 0xEACC65
    ensures Product(0xEACC65, 0xEACC65) == 0x0893EB
    ensures Product(0x0893EB, 0x0893EB) == 0xDBEA27
  {
    hide Product;
    ByStages(0xC5BF56, 0xC5BF56, 0x2EADF2, 0xBFD1D5, 0xAC41C2, 0x0968E7, 0x495588, 0x11E898);
    ByStages(0x11E898, 0x11E898, 0x11E898, 0x892DE3, 0xD86899, 0xBDE673, 0xEDD3A7, 0xEACC65);
    ByStages(0xEACC65, 0xEACC65, 0x3D606C, 0x405738, 0xF8213C, 0xD259B3, 0x65CC40, 0x0893EB);
    ByStages(0x0893EB, 0x0893EB, 0x000000, 0x449F58, 0x961FD2, 0x5F84DF, 0x9A10C8, 0xDBEA27);
  }

  lemma Squares3A()
    ensures Product(0xDBEA27, 0xDBEA27) == 0xEC11C0
    ensures Product(0xEC11C0, 0xEC11C0) == 0x6EC0ED
    ensures Product(0x6EC0ED, 0x6EC0ED) == 0xE7B0EE
    ensures Product(0xE7B0EE, 0xE7B0EE) == 0xDE2E52
  {
    hide Product;
    ByStages(0xDBEA27, 0xDBEA27, 0x7EB999, 0x58F6C1, 0x0E0D01, 0x172A71, 0xC5735E, 0xEC11C0);
    ByStages(0xEC11C0, 0xEC11C0, 0x1D409A, 0x116ABA, 0x7CF69B, 0xBC0767, 0x2E415E, 0x6EC0ED);
    ByStages(0x6EC0ED, 0x6EC0ED, 0xE0CE95, 0x2E0B8E, 0x2DBC3C, 0x5116CD, 0x9E96C1, 0xE7B0EE);
    ByStages(0xE7B0EE, 0xE7B0EE, 0x798F0E, 0x3B4870, 0xB47B58, 0xEAAD4F, 0x6BE92B, 0xDE2E52);
  }

  lemma Squares3B()
    ensures Product(0xDE2E52, 0xDE2E52) == 0x37A1AE
    ensures Product(0x37A1AE, 0x37A1AE) == 0x85C31E
    ensures Product(0x85C31E, 0x85C31E) == 0x000002
  {
    hide Product;
    ByStages(0xDE2E52, 0xDE2E52, 0x424F90, 0x116E7C, 0xAABB64, 0x2693E9, 0x49E571, 0x37A1AE);
    ByStages(0x37A1AE, 0x37A1AE, 0x58E2F2, 0x1DE170, 0x0C592C, 0xF2336E, 0x49CA19, 0x85C31E);
    ByStages(0x85C31E, 0x85C31E, 0xBDFE11, 0x6AE3B4, 0x972FC8, 0x5D389B, 0x43E0B4, 0x000002);
  }

  lemma Powers1()
    ensures IsPower(0x010000, 16) && IsPower(0x668F48, 32) && IsPower(0xCB800E, 256)
  {
    hide IsPower, Product;
    XIsPower();
    Squares1A();
    Squares1B();
    Multiply(0x000002, 1, 0x000002, 1);
    Multiply(0x000004, 2, 0x000004, 2);
    Multiply(0x000010, 4, 0x000010, 4);
    Multiply(0x000100, 8, 0x000100, 8);
    Multiply(0x010000, 16, 0x010000, 16);
    Multiply(0x668F48, 32, 0x668F48, 32);
    Multiply(0x36EB3D, 64, 0x36EB3D, 64);
    Multiply(0x6243DA, 128, 0x6243DA, 128);
  }

  lemma Powers2()
    ensures IsPower(0x3D145A, 2048) && IsPower(0xC5BF56, 4096) && IsPower(0x11E898, 8192)
    ensures IsPower(0x0893EB, 32768) && IsPower(0xDBEA27, 65536)
  {
    hide IsPower, Product;
    Powers1();
    Squares2A();
    Squares2B();
    Multiply(0xCB800E, 256, 0xCB800E, 256);
    Multiply(0x7DB43E, 512, 0x7DB43E, 512);
    Multiply(0xDEF23C, 1024, 0xDEF23C, 1024);
    Multiply(0x3D145A, 2048, 0x3D145A, 2048);
    Multiply(0xC5BF56, 4096, 0xC5BF56, 4096);
    Multiply(0x11E898, 8192, 0x11E898, 8192);
    Multiply(0xEACC65, 16384, 0xEACC65, 16384);
    Multiply(0x0893EB, 32768, 0x0893EB, 32768);
  }

  /** x^(2^23) = x. */
  lemma Powers3()
    ensures IsPower(0xEC11C0, 131072) && IsPower(0x000002, 8388608)
  {
    hide IsPower, Product;
    Powers2();
    Squares3A();
    Squares3B();
    Multiply(0xDBEA27, 65536, 0xDBEA27, 65536);
    Multiply(0xEC11C0, 131072, 0xEC11C0, 131072);
    Multiply(0x6EC0ED, 262144, 0x6EC0ED, 262144);
    Multiply(0xE7B0EE, 524288, 0xE7B0EE, 524288);
    Multiply(0xDE2E52, 1048576, 0xDE2E52, 1048576);
    Multiply(0x37A1AE, 2097152, 0x37A1AE, 2097152);
    Multiply(0x85C31E, 4194304, 0x85C31E, 4194304);
  }

  lemma XIsPower()
    ensures IsPower(1, 0) && IsPower(0x000002, 1)
  {
    OneIsUnit();
    hide RegisterBits, CrcPoly;
    TurnIsShift(1);
    ShiftsZero(Unit(CrcPoly()), CrcPoly());
    ShiftsStep(Unit(CrcPoly()), 0, CrcPoly());
  }

  lemma OneIsUnit()
    ensures RegisterBits(1) == Unit(CrcPoly())
  {
    hide CrcPoly;
  }

  lemma Product47()
    ensures Product(0x000002, 0x000004) == 0x000008 && Product(0x000008, 0x000010) == 0x000080
    ensures Product(0x000080, 0x000100) == 0x008000 && Product(0x008000, 0x668F48) == 0x1B04A9
  {
    hide Product;
    ByStages(0x000002, 0x000004, 0x000000, 0x000000, 0x000000, 0x000000, 0x000000, 0x000008);
    ByStages(0x000008, 0x000010, 0x000000, 0x000000, 0x000000, 0x000000, 0x000008, 0x000080);
    ByStages(0x000080, 0x000100, 0x000000, 0x000000, 0x000000, 0x000080, 0x000800, 0x008000);
    ByStages(0x008000, 0x668F48, 0x030000, 0x330000, 0x3899F6, 0x828696, 0x8BE859, 0x1B04A9);
  }

  lemma Power47()
    ensures IsPower(0x1B04A9, 47)
  {
    hide IsPower, Product;
    XIsPower();
    Squares1A();
    Squares1B();
    Product47();
    Multiply(0x000002, 1, 0x000002, 1);
    Multiply(0x000004, 2, 0x000004, 2);
    Multiply(0x000010, 4, 0x000010, 4);
    Multiply(0x000100, 8, 0x000100, 8);
    Multiply(0x010000, 16, 0x010000, 16);
    Multiply(0x000002, 1, 0x000004, 2);
    Multiply(0x000008, 3, 0x000010, 4);
    Multiply(0x000080, 7, 0x000100, 8);
    Multiply(0x008000, 15, 0x668F48, 32);
  }

  lemma Product178481A()
    ensures Product(0x000002, 0x010000) == 0x020000 && Product(0x020000, 0x668F48) == 0x6C12A4
    ensures Product(0x6C12A4, 0xCB800E) == 0x46CD2A && Product(0x46CD2A, 0x3D145A) == 0x3311C2
  {
    hide Product;
    ByStages(0x000002, 0x010000, 0x000000, 0x000002, 0x000020, 0x000200, 0x002000, 0x020000);
    ByStages(0x020000, 0x668F48, 0x0C0000, 0xCC0000, 0xE267D8, 0x80CF55, 0xA57469, 0x6C12A4);
    ByStages(0x6C12A4, 0xCB800E, 0x5A0ABD, 0x6D3AF0, 0xA6903A, 0x425794, 0xB69FA1, 0x46CD2A);
    ByStages(0x46CD2A, 0x3D145A, 0xCB577E, 0xE0191C, 0xFFEE3F, 0x5D658D, 0x1847B3, 0x3311C2);
  }

  lemma Product178481B()
    ensures Product(0x3311C2, 0xC5BF56) == 0x78EAD4 && Product(0x78EAD4, 0x11E898) == 0x79A39F
    ensures Product(0x79A39F, 0x0893EB) == 0x4C13B9 && Product(0x4C13B9, 0xEC11C0) == 0x475A89
  {
    hide Product;
    ByStages(0x3311C2, 0xC5BF56, 0xD285E3, 0x6323D9, 0x60FED1, 0x916959, 0xCE0E98, 0x78EAD4);
    ByStages(0x78EAD4, 0x11E898, 0x78EAD4, 0x693883, 0xD54689, 0x2B8CE5, 0x813EDF, 0x79A39F);
    ByStages(0x79A39F, 0x0893EB, 0x000000, 0xC1850E, 0x9211A9, 0x8C33F3, 0x30BEBE, 0x4C13B9);
    ByStages(0x4C13B9, 0xEC11C0, 0xC46DA8, 0x28F782, 0x49BE94, 0x441C18, 0x8E6DBB, 0x475A89);
  }

  lemma Power178481()
    ensures IsPower(0x475A89, 178481)
  {
    hide IsPower, Product;
    XIsPower();
    Powers1();
    Powers2();
    Powers3();
    Product178481A();
    Product178481B();
    Multiply(0x000002, 1, 0x010000, 16);
    Multiply(0x020000, 17, 0x668F48, 32);
    Multiply(0x6C12A4, 49, 0xCB800E, 256);
    Multiply(0x46CD2A, 305, 0x3D145A, 2048);
    Multiply(0x3311C2, 2353, 0xC5BF56, 4096);
    Multiply(0x78EAD4, 6449, 0x11E898, 8192);
    Multiply(0x79A39F, 14641, 0x0893EB, 32768);
    Multiply(0x4C13B9, 47409, 0xEC11C0, 131072);
  }
}
