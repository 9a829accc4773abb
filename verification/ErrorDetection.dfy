/** Which transmission errors the CRC-24Q check of the framer cannot miss. */
module ErrorDetection {
  import opened Bits
  import opened Gf2
  import opened Crc24q
  import opened Framing
  import opened FramingLaws

  // ---------- patterns with a non-zero remainder, for any generator ----------

  predicate OddConstantTerm(g: Poly) {
    Generator(g) && g[|g| - 1]
  }

  /** A non-zero string has a one. */
  lemma {:induction false} OneAt(r: Poly) returns (k: nat)
    requires r != Zeros(|r|)
    ensures k < |r| && r[k]
  {
    k := 0;
    while k < |r| && !r[k]
      invariant k <= |r|
      invariant forall i :: 0 <= i < k ==> !r[i]
    {
      k := k + 1;
    }
  }

  lemma NotZeros(r: Poly, k: nat)
    requires k < |r| && r[k]
    ensures r != Zeros(|r|)
  {
    assert !Zeros(|r|)[k];
  }

  /** Multiplying by x cannot reach zero when the generator has a constant term. */
  lemma ShiftKeepsNonZero(r: Poly, g: Poly)
    requires OddConstantTerm(g) && |r| == |g| - 1 && r != Zeros(|r|)
    ensures Shift(r, false, g) != Zeros(|r|)
  {
    var d := |r|;
    var k := OneAt(r);
    ShiftForm(r, false, g);
    NotZeros(Shift(r, false, g), if r[0] then d - 1 else k - 1);
  }

  lemma {:induction false} ShiftsKeepNonZero(r: Poly, n: nat, g: Poly)
    requires OddConstantTerm(g) && |r| == |g| - 1 && r != Zeros(|r|)
    ensures Shifts(r, n, g) != Zeros(|r|)
  {
    hide Shift, Zeros;
    if n > 0 {
      ShiftsKeepNonZero(r, n - 1, g);
      ShiftKeepsNonZero(Shifts(r, n - 1, g), g);
    }
  }

  lemma PaddedBurst(a: nat, burst: Poly, g: Poly)
    requires OddConstantTerm(g) && |burst| <= |g| - 1 && burst != Zeros(|burst|)
    ensures Rem(Zeros(a) + burst, g) != Zeros(|g| - 1)
  {
    hide Rem, Zeros;
    RemLeadingZeros(a, burst, g);
    RemShort(burst, g);
    var z := Zeros(|g| - 1 - |burst|);
    var k := OneAt(burst);
    assert (z + burst)[|z| + k] == burst[k];
    NotZeros(z + burst, |z| + k);
  }

  /** A burst: errors confined to a window no longer than the degree. */
  lemma BurstHasRemainder(a: nat, burst: Poly, c: nat, g: Poly)
    requires OddConstantTerm(g) && |burst| <= |g| - 1 && burst != Zeros(|burst|)
    ensures Rem(Zeros(a) + burst + Zeros(c), g) != Zeros(|g| - 1)
  {
    hide Rem, Shifts, Zeros;
    PaddedBurst(a, burst, g);
    RemTrailingZeros(Zeros(a) + burst, c, g);
    ShiftsKeepNonZero(Rem(Zeros(a) + burst, g), c, g);
  }

  // ---------- parity ----------

  lemma ParitySnoc(a: Poly, b: bool)
    ensures Parity(a + [b]) == (b != Parity(a))
  {
    assert (a + [b])[..|a|] == a;
  }

  lemma {:induction false} ParityXor(a: Poly, b: Poly)
    requires |a| == |b|
    ensures Parity(Xor(a, b)) == (Parity(a) != Parity(b))
  {
    if a != [] {
      var n := |a| - 1;
      ParityXor(a[..n], b[..n]);
      assert Xor(a, b)[..n] == Xor(a[..n], b[..n]);
    }
  }

  lemma {:induction false} ParityTail(a: Poly)
    requires a != []
    ensures Parity(a) == (a[0] != Parity(a[1..]))
  {
    if |a| == 1 {
      assert a[1..] == [] && a[..0] == [];
    } else {
      var n := |a| - 1;
      ParityTail(a[..n]);
      assert a[..n][1..] == a[1..][..n - 1];
    }
  }

  lemma {:induction false} ParityZeros(n: nat)
    ensures !Parity(Zeros(n))
  {
    if n > 0 {
      ParityZeros(n - 1);
      assert Zeros(n)[..n - 1] == Zeros(n - 1);
    }
  }

  lemma ParityShift(r: Poly, b: bool, g: Poly)
    requires Generator(g) && |r| == |g| - 1 && !Parity(g)
    ensures Parity(Shift(r, b, g)) == (b != Parity(r))
  {
    hide Parity;
    ShiftEquation(r, b, g);
    ParityXor(r + [b], Scale(r[0], g));
    ParitySnoc(r, b);
    ParityZeros(|g|);
    ParityTail([false] + Shift(r, b, g));
    hide Shift;
    assert ([false] + Shift(r, b, g))[1..] == Shift(r, b, g);
  }

  /** A generator with an even number of terms keeps parity, so it catches every odd number of errors. */
  lemma {:induction false} ParityOfRemainder(m: Poly, g: Poly)
    requires Generator(g) && !Parity(g)
    ensures Parity(Rem(m, g)) == Parity(m)
  {
    hide Shift;
    if m == [] {
      ParityZeros(|g| - 1);
    } else {
      ParityOfRemainder(m[..|m| - 1], g);
      ParityShift(Rem(m[..|m| - 1], g), m[|m| - 1], g);
    }
  }

  lemma OddHasRemainder(e: Poly, g: Poly)
    requires Generator(g) && !Parity(g) && Parity(e)
    ensures Rem(e, g) != Zeros(|g| - 1)
  {
    ParityOfRemainder(e, g);
    ParityZeros(|g| - 1);
  }

  lemma PrefixParity(g: Poly, k: nat)
    requires k < |g|
    ensures Parity(g[..k + 1]) == (g[k] != Parity(g[..k]))
  {
    ParitySnoc(g[..k], g[k]);
    assert g[..k + 1] == g[..k] + [g[k]];
  }

  lemma FiveParity(g: Poly, k: nat)
    requires k + 5 <= |g|
    ensures Parity(g[..k + 5]) == (g[k + 4] != (g[k + 3] != (g[k + 2] != (g[k + 1] != (g[k] != Parity(g[..k]))))))
  {
    hide Parity;
    PrefixParity(g, k);
    PrefixParity(g, k + 1);
    PrefixParity(g, k + 2);
    PrefixParity(g, k + 3);
    PrefixParity(g, k + 4);
  }

  lemma Coefficients()
    ensures var g := CrcPoly();
      && g[0] && g[1] && !g[2] && !g[3] && !g[4]
      && !g[5] && g[6] && g[7] && !g[8] && !g[9]
      && g[10] && !g[11] && !g[12] && g[13] && g[14]
      && !g[15] && !g[16] && g[17] && g[18] && g[19]
      && g[20] && g[21] && !g[22] && g[23] && g[24]
  {
  }

  /** The CRC-24Q generator has fourteen terms. */
  lemma CrcPolyIsEven()
    ensures !Parity(CrcPoly())
  {
    hide Parity, CrcPoly, Zeros;
    Coefficients();
    var g := CrcPoly();
    ParityZeros(0);
    assert g[..0] == Zeros(0);
    FiveParity(g, 0);
    FiveParity(g, 5);
    FiveParity(g, 10);
    FiveParity(g, 15);
    FiveParity(g, 20);
    assert g[..25] == g;
  }

  // ---------- what this means for frames ----------

  /** The bits in which two frames of the same length differ. */
  function Flips(f: seq<byte>, f': seq<byte>): (e: Poly)
    requires |f| == |f'|
    ensures |e| == 8 * |f|
  {
    Xor(BitsOf(f), BitsOf(f'))
  }

  /** At least one bit flipped, all within some window of 24 consecutive bits. */
  ghost predicate IsBurst(e: Poly) {
    exists a: nat, c: nat :: IsBurstAt(e, a, c)
  }

  predicate IsBurstAt(e: Poly, a: nat, c: nat) {
    && a + c <= |e| <= a + 24 + c
    && e[..a] == Zeros(a) && e[|e| - c..] == Zeros(c)
    && e != Zeros(|e|)
  }

  /** A frame whose bits are divisible by the generator stays so only under divisible errors. */
  lemma CorruptionIsError(f: seq<byte>, f': seq<byte>)
    requires |f| == |f'| >= 3 && ChecksumMatches(f)
    ensures ChecksumMatches(f') <==> Rem(Flips(f, f'), CrcPoly()) == Zeros(24)
  {
    hide Rem, CrcPoly, BitsOf;
    FrameDivides(f);
    FrameDivides(f');
    RemLinear(BitsOf(f), BitsOf(f'), CrcPoly());
    XorZeros(Rem(BitsOf(f'), CrcPoly()));
  }

  lemma FrameDivides(f: seq<byte>)
    requires |f| >= 3
    ensures ChecksumMatches(f) <==> Rem(BitsOf(f), CrcPoly()) == Zeros(24)
  {
    hide Rem, CrcPoly, BitsOf, Zeros, Crc;
    CheckIsZeroRemainder(f[..|f| - 3], f[|f| - 3..]);
    assert f[..|f| - 3] + f[|f| - 3..] == f;
  }

  lemma BurstDetected(e: Poly)
    requires IsBurst(e)
    ensures Rem(e, CrcPoly()) != Zeros(24)
  {
    hide Rem, CrcPoly;
    var a: nat, c: nat :| IsBurstAt(e, a, c);
    var burst := e[a..|e| - c];
    assert e == Zeros(a) + burst + Zeros(c);
    var k := OneAt(e);
    assert k >= a && k < |e| - c;
    NotZeros(burst, k - a);
    BurstHasRemainder(a, burst, c, CrcPoly());
  }

  lemma OddDetected(e: Poly)
    requires Parity(e)
    ensures Rem(e, CrcPoly()) != Zeros(24)
  {
    CrcPolyIsEven();
    OddHasRemainder(e, CrcPoly());
  }

  /** A valid frame f arrives as f', its preamble and ten length bits intact. If the damage is a
      burst of at most 24 bits or an odd number of flips, the framer does not deliver it: it counts
      one bad checksum at that position and scans on behind the preamble. */
  lemma DamagedFrameIsRejected(f: seq<byte>, f': seq<byte>, tail: seq<byte>)
    requires ValidFrame(f) && |f| == FrameLength(f) == |f'|
    requires IsPreamble(f'[0]) && PayloadLength(f') == PayloadLength(f)
    requires IsBurst(Flips(f, f')) || Parity(Flips(f, f'))
    ensures var p := Scan(f' + tail);
      |p.items| > 0 && p.items[0] == BadCrc(f'[0]) && p == Prepend([BadCrc(f'[0])], Scan(f'[1..] + tail))
  {
    var e := Flips(f, f');
    assert f[..|f|] == f && f'[..|f'|] == f';
    hide Flips, IsBurst, ChecksumMatches, Parity, Scan, LengthOf, IsPreamble;
    CorruptionIsError(f, f');
    if IsBurst(e) {
      BurstDetected(e);
    } else {
      OddDetected(e);
    }
    RejectedAtHead(f', tail);
  }

  lemma RejectedAtHead(f: seq<byte>, tail: seq<byte>)
    requires Candidate(f) && |f| == FrameLength(f) && !ChecksumMatches(f)
    ensures var p := Scan(f + tail);
      |p.items| > 0 && p.items[0] == BadCrc(f[0]) && p == Prepend([BadCrc(f[0])], Scan(f[1..] + tail))
  {
    hide ChecksumMatches, Scan, LengthOf, IsPreamble, Prepend;
    assert f[..|f|] == f;
    FirstIsStable(f, tail);
    ScanFirst(f + tail);
    assert (f + tail)[1..] == f[1..] + tail;
    PrependParts([BadCrc(f[0])], Scan(f[1..] + tail));
  }
}
