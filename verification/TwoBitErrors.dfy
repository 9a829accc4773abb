/** Two flipped bits go unnoticed exactly when their distance is a multiple of 2^23 - 1, the order of x
    modulo the CRC-24Q generator; no two bits of a frame are that far apart. */
module TwoBitErrors {
  import opened Bits
  import opened Gf2
  import opened Crc24q
  import opened Framing
  import opened ErrorDetection
  import opened PowersOfX

  /** x^n is 1 modulo g. */
  predicate Cycle(n: nat, g: Poly)
    requires Generator(g)
  {
    Shifts(Unit(g), n, g) == Unit(g)
  }

  // ---------- exponents with x^n = 1 ----------

  lemma ShiftsCancel(r: Poly, s: Poly, n: nat, g: Poly)
    requires OddConstantTerm(g) && |r| == |s| == |g| - 1
    requires Shifts(r, n, g) == Shifts(s, n, g)
    ensures r == s
  {
    hide Shifts;
    XorZeroMeansEqual(r, s);
    XorZeroMeansEqual(Shifts(r, n, g), Shifts(s, n, g));
    ShiftsLinear(r, s, n, g);
    if r != s {
      ShiftsKeepNonZero(Xor(r, s), n, g);
    }
  }

  lemma CycleDifference(a: nat, b: nat, g: Poly)
    requires OddConstantTerm(g) && b <= a && Cycle(a, g) && Cycle(b, g)
    ensures Cycle(a - b, g)
  {
    hide Shifts, Unit;
    ShiftsCompose(Unit(g), a - b, b, g);
    ShiftsCancel(Shifts(Unit(g), a - b, g), Unit(g), b, g);
  }

  lemma {:induction false} CycleMultiple(a: nat, n: nat, g: Poly)
    requires Generator(g) && Cycle(a, g)
    ensures Cycle(n * a, g)
  {
    hide Unit;
    if n > 0 {
      CycleMultiple(a, n - 1, g);
      assert n * a == a + (n - 1) * a;
      ShiftsCompose(Unit(g), a, (n - 1) * a, g);
    }
  }

  /** Euclid on exponents: u*a and u*b give a common divisor h of a and b with u*h. */
  lemma {:induction false} CycleEuclid(u: nat, a: nat, b: nat, g: Poly) returns (h: nat, x: nat, y: nat)
    requires OddConstantTerm(g) && a > 0 && b > 0 && Cycle(u * a, g) && Cycle(u * b, g)
    ensures h > 0 && a == h * x && b == h * y && Cycle(u * h, g)
    decreases a + b
  {
    hide Cycle;
    if a == b {
      h, x, y := a, 1, 1;
    } else if a > b {
      assert u * a - u * b == u * (a - b) && u * b <= u * a;
      CycleDifference(u * a, u * b, g);
      h, x, y := CycleEuclid(u, a - b, b, g);
      assert a == h * x + h * y == h * (x + y);
      x := x + y;
    } else {
      assert u * b - u * a == u * (b - a) && u * a <= u * b;
      CycleDifference(u * b, u * a, g);
      h, x, y := CycleEuclid(u, a, b - a, g);
      assert b == h * x + h * y == h * (x + y);
      y := x + y;
    }
  }

  // ---------- which powers of x are 1 ----------

  lemma FullCycle()
    ensures Cycle(47 * 178481, CrcPoly())
  {
    hide RegisterBits, Shifts, Unit, CrcPoly;
    XIsPower();
    Powers3();
    var u := Unit(CrcPoly());
    ShiftsZero(u, CrcPoly());
    ShiftsCompose(u, 47 * 178481, 1, CrcPoly());
    ShiftsCancel(Shifts(u, 47 * 178481, CrcPoly()), u, 1, CrcPoly());
  }

  lemma NoShortCycle()
    ensures !Cycle(47, CrcPoly())
  {
    hide RegisterBits, Shifts, Unit, CrcPoly;
    Power47();
    OneIsUnit();
    RegisterBitsInjective(0x1B04A9, 1);
  }

  lemma NoLongCycle()
    ensures !Cycle(178481, CrcPoly())
  {
    hide RegisterBits, Shifts, Unit, CrcPoly;
    Power178481();
    OneIsUnit();
    RegisterBitsInjective(0x475A89, 1);
  }

  lemma SmallDivisors()
    ensures forall d :: 2 <= d <= 422 ==> 178481 % d != 0
  {
  }

  lemma AwayFromZero(h: nat, k: int)
    ensures k >= 1 ==> h * k >= h
    ensures k <= -1 ==> h * k + h <= 0
  {
    if k >= 1 {
      FactorAtLeast(h, k);
    } else if k <= -1 {
      FactorAtLeast(h, -k);
      assert h * k + h * -k == 0;
    }
  }

  lemma {:induction false} FactorAtLeast(h: nat, k: nat)
    requires k >= 1
    ensures h * k >= h
  {
    if k > 1 {
      FactorAtLeast(h, k - 1);
      assert h * k == h * (k - 1) + h;
    }
  }

  lemma MultipleOf(n: nat, h: nat, y: nat)
    requires h > 0 && n == h * y
    ensures n % h == 0
  {
    var q, r := n / h, n % h;
    assert h * (y - q) == h * y - h * q == r;
    AwayFromZero(h, y - q);
  }

  lemma LargeProduct(h: nat, y: nat)
    requires 423 <= h && 423 <= y
    ensures 423 * 423 <= h * y
  {
  }

  lemma FactorBound(h: nat, x: nat)
    requires h * x >= 1
    ensures h <= h * x
  {
  }

  /** 178481 is prime. */
  lemma DivisorOfPrime(h: nat, y: nat)
    requires h * y == 178481 && h < 178481
    ensures h == 1
  {
    SmallDivisors();
    FactorBound(h, y);
    FactorBound(y, h);
    assert y * h == h * y;
    MultipleOf(178481, h, y);
    MultipleOf(178481, y, h);
    if 422 < h && 422 < y {
      LargeProduct(h, y);
    }
  }

  const ORDER: nat := 47 * 178481

  /** A positive cycle is a multiple of both prime factors of 2^23 - 1. */
  lemma CycleFactors(d: nat) returns (k: nat, m: nat)
    requires d > 0 && Cycle(d, CrcPoly())
    ensures d == 178481 * k && d == 47 * m
  {
    hide Cycle, CrcPoly;
    NoShortCycle();
    NoLongCycle();
    FullCycle();
    CycleMultiple(d, 47, CrcPoly());
    var h, x, y := CycleEuclid(47, d, 178481, CrcPoly());
    FactorBound(h, y);
    if h < 178481 { DivisorOfPrime(h, y); }
    k := x;
    CycleMultiple(d, 178481, CrcPoly());
    var h7, x7, y7 := CycleEuclid(178481, d, 47, CrcPoly());
    FactorBound(h7, y7);
    DivisorOf47(h7, y7);
    m := x7;
  }

  lemma DivisorOf47(h: nat, y: nat)
    requires h * y == 47 && h <= 47
    ensures h == 1 || h == 47
  {
    assert forall d :: 2 <= d <= 46 ==> 47 % d != 0;
    if h > 0 { MultipleOf(47, h, y); }
  }

  /** A multiple of both primes is a multiple of their product. */
  lemma BothPrimes(d: nat, k: nat, m: nat)
    requires d == 178481 * k && d == 47 * m
    ensures d % ORDER == 0
  {
    var j := 15 * (m - 3797 * k) - 7 * k;
    assert k == 47 * j;
    assert d == ORDER * j;
  }

  /** The exponents of x that give 1 are the multiples of 2^23 - 1. */
  lemma CyclesExactly(d: nat)
    ensures Cycle(d, CrcPoly()) <==> d % ORDER == 0
  {
    hide Cycle, CrcPoly;
    FullCycle();
    if d % ORDER == 0 {
      CycleMultiple(ORDER, d / ORDER, CrcPoly());
    }
    if d > 0 && Cycle(d, CrcPoly()) {
      var k, m := CycleFactors(d);
      BothPrimes(d, k, m);
    }
  }

  // ---------- two flipped bits ----------

  lemma TwoOnesRemainder(d: nat, g: Poly)
    requires Generator(g) && d >= 1
    ensures Rem([true] + Zeros(d - 1) + [true], g) == Xor(Shifts(Unit(g), d, g), Unit(g))
  {
    hide Rem, Shifts, Xor, Shift;
    var head: Poly := [true];
    RemShort(head, g);
    RemTrailingZeros(head, d - 1, g);
    RemStep(head + Zeros(d - 1), true, g);
    BringDown(Shifts(Unit(g), d - 1, g), true, g);
    ShiftsCompose(Unit(g), d - 1, 1, g);
  }

  /** Two ones at distance d, anywhere in any string of bits, leave no remainder exactly at multiples of
      2^23 - 1. */
  lemma TwoOnesExactly(a: nat, d: nat, c: nat)
    requires d >= 1
    ensures Rem(Zeros(a) + ([true] + Zeros(d - 1) + [true]) + Zeros(c), CrcPoly()) == Zeros(24) <==> d % ORDER == 0
  {
    hide Rem, Shifts, CrcPoly, Unit;
    var g := CrcPoly();
    var e := [true] + Zeros(d - 1) + [true];
    CyclesExactly(d);
    TwoOnesRemainder(d, g);
    XorZeroMeansEqual(Shifts(Unit(g), d, g), Unit(g));
    RemLeadingZeros(a, e, g);
    RemTrailingZeros(Zeros(a) + e, c, g);
    ZeroStaysZero(Rem(e, g), c, g);
  }

  /** Shifting leads to zero only from zero. */
  lemma ZeroStaysZero(r: Poly, n: nat, g: Poly)
    requires OddConstantTerm(g) && |r| == |g| - 1
    ensures Shifts(r, n, g) == Zeros(|r|) <==> r == Zeros(|r|)
  {
    hide Shifts;
    ShiftsOfZeros(n, g);
    if r != Zeros(|r|) { ShiftsKeepNonZero(r, n, g); }
  }

  /** Exactly the bits at i and j are flipped. */
  predicate FlippedAt(e: Poly, i: nat, j: nat) {
    i < j < |e| && forall k :: 0 <= k < |e| ==> (e[k] <==> k == i || k == j)
  }

  lemma FlippedForm(e: Poly, i: nat, j: nat)
    requires FlippedAt(e, i, j)
    ensures e == Zeros(i) + ([true] + Zeros(j - i - 1) + [true]) + Zeros(|e| - 1 - j)
  {
  }

  /** Data of any length with a right checksum, two bits flipped: the checksum is still right exactly when
      the two are a multiple of 2^23 - 1 apart. */
  lemma TwoFlipsExactly(f: seq<byte>, f': seq<byte>, i: nat, j: nat)
    requires |f| == |f'| >= 3 && ChecksumMatches(f) && FlippedAt(Flips(f, f'), i, j)
    ensures ChecksumMatches(f') <==> (j - i) % ORDER == 0
  {
    hide Flips, Zeros, ChecksumMatches, Rem, CrcPoly;
    var e := Flips(f, f');
    CorruptionIsError(f, f');
    FlippedForm(e, i, j);
    TwoOnesExactly(i, j - i, |e| - 1 - j);
  }

  /** As DamagedFrameIsRejected, for any two flipped bits. */
  lemma TwoFlipsAreRejected(f: seq<byte>, f': seq<byte>, tail: seq<byte>, i: nat, j: nat)
    requires ValidFrame(f) && |f| == FrameLength(f) == |f'|
    requires IsPreamble(f'[0]) && PayloadLength(f') == PayloadLength(f)
    requires FlippedAt(Flips(f, f'), i, j)
    ensures var p := Scan(f' + tail);
      |p.items| > 0 && p.items[0] == BadCrc(f'[0]) && p == Prepend([BadCrc(f'[0])], Scan(f'[1..] + tail))
  {
    hide Flips, FlippedAt, ChecksumMatches, Scan, LengthOf, IsPreamble, Prepend;
    assert f[..|f|] == f && f'[..|f'|] == f';
    TwoFlipsAreNoticed(f, f', i, j);
    RejectedAtHead(f', tail);
  }

  lemma TwoFlipsAreNoticed(f: seq<byte>, f': seq<byte>, i: nat, j: nat)
    requires 3 <= |f| == |f'| <= 1029 && ChecksumMatches(f) && FlippedAt(Flips(f, f'), i, j)
    ensures !ChecksumMatches(f')
  {
    TwoFlipsExactly(f, f', i, j);
    hide ChecksumMatches;
  }
}
