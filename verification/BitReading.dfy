/** The bit cursor both decoders read messages with, most significant bit first. */
module BitReading {
  import opened Bits

  const TWO_64: nat := 0x1_0000_0000_0000_0000
  const TWO_63: nat := 0x8000_0000_0000_0000

  /** The two's-complement number an n-bit field with unsigned value v stands for. */
  function ToSigned(v: nat, n: nat): int {
    if n > 0 && v >= Pow2(n - 1) then v - Pow2(n) else v
  }

  /** The field encoding of a signed number. */
  function FromSigned(x: int, n: nat): nat
    requires -Pow2(n) <= x < Pow2(n)
  {
    if x < 0 then x + Pow2(n) else x
  }

  class BitReader {
    const data: seq<byte>
    const totalBits: nat
    var bitpos: nat

    ghost predicate Valid()
      reads this
    {
      totalBits == 8 * |data| && bitpos <= totalBits
    }

    ghost function Remaining(): seq<bool>
      requires Valid()
      reads this
    {
      BitsOf(data)[bitpos..]
    }

    constructor (data: seq<byte>)
      ensures Valid() && Remaining() == BitsOf(data)
    {
      this.data := data;
      totalBits := 8 * |data|;
      bitpos := 0;
    }

    /** Reads n bits as an unsigned number; prior is what the output variable held before the call. */
    method GetU(n: int, prior: nat) returns (ok: bool, out: nat)
      requires Valid()
      modifies this`bitpos
      ensures Valid()
      ensures ok <==> 0 <= n <= 64 && n <= |old(Remaining())|
      ensures ok ==> out == Value(old(Remaining())[..n]) && Remaining() == old(Remaining())[n..]
      ensures !ok ==> out == prior && bitpos == old(bitpos)
    {
      if n < 0 || n > 64 { return false, prior; }
      if bitpos + n > totalBits { return false, prior; }
      ghost var all := Remaining();
      hide BitsOf, Value, Pow2;
      EmptyValue(all[..0]);
      var v := 0;
      for i := 0 to n
        invariant bitpos == old(bitpos) && v == Value(all[..i])
      {
        var idx := bitpos + i;
        var bit := (data[idx / 8] >> (7 - idx % 8)) & 1;
        ShiftAndMask(data[idx / 8], idx % 8);
        BitAt(data, idx);
        assert all[i] == BitsOf(data)[idx];
        NextValue(all, i);
        v := (v * 2) % TWO_64 + (if bit == 1 then 1 else 0);
      }
      bitpos := bitpos + n;
      assert all[n..] == Remaining();
      return true, v;
    }

    /** Reads n bits as a two's-complement number, sign-extending within 64 bits. */
    method GetS(n: int, prior: int) returns (ok: bool, out: int)
      requires Valid() && n != 64
      modifies this`bitpos
      ensures Valid()
      ensures ok <==> 0 <= n < 64 && n <= |old(Remaining())|
      ensures ok ==> out == ToSigned(Value(old(Remaining())[..n]), n) && Remaining() == old(Remaining())[n..]
      ensures !ok ==> out == prior && bitpos == old(bitpos)
    {
      var got, u := GetU(n, 0);
      if !got { return false, prior; }
      if n == 0 { return true, 0; }
      ValueBelow(old(Remaining())[..n]);
      TopBitOf(u, n - 1);
      if ShiftRight(u, n - 1) % 2 == 1 {
        var mask := TWO_64 - Pow2(n);
        u := u + mask;
      }
      out := if u >= TWO_63 then u - TWO_64 else u;
      return true, out;
    }

    method Skip(nbits: nat) returns (ok: bool)
      requires Valid()
      modifies this`bitpos
      ensures Valid()
      ensures ok <==> nbits <= |old(Remaining())|
      ensures ok ==> Remaining() == old(Remaining())[nbits..]
      ensures !ok ==> bitpos == old(bitpos)
    {
      if bitpos + nbits > totalBits { return false; }
      bitpos := bitpos + nbits;
      return true;
    }
  }

  lemma BitAt(data: seq<byte>, idx: nat)
    requires idx < 8 * |data|
    ensures BitsOf(data)[idx] == BitOfByte(data[idx / 8], idx % 8)
  {
  }

  lemma {:induction false} Pow2Monotone(m: nat, n: nat)
    requires m <= n
    ensures Pow2(m) <= Pow2(n)
    decreases n
  {
    if m < n { Pow2Monotone(m, n - 1); }
  }

  lemma Pow2By8(n: nat)
    ensures Pow2(n + 8) == 256 * Pow2(n)
  {
    assert Pow2(n + 2) == 2 * Pow2(n + 1);
    assert Pow2(n + 4) == 2 * Pow2(n + 3);
    assert Pow2(n + 6) == 2 * Pow2(n + 5);
  }

  lemma Pow2Of63()
    ensures Pow2(63) == TWO_63 && Pow2(64) == TWO_64
  {
    assert Pow2(0) == 1;
    Pow2By8(0);
    Pow2By8(8);
    Pow2By8(16);
    Pow2By8(24);
    Pow2By8(32);
    Pow2By8(40);
    Pow2By8(48);
    Pow2By8(56);
  }

  lemma ValueBelow(t: seq<bool>)
    requires |t| <= 63
    ensures Value(t) < Pow2(|t|) <= TWO_63
  {
    Pow2Monotone(|t|, 63);
    Pow2Of63();
  }

  /** The shift never loses a bit: what has been read so far is below 2^63. */
  lemma NextValue(t: seq<bool>, i: nat)
    requires i < |t| && i < 64
    ensures Value(t[..i + 1]) == (Value(t[..i]) * 2) % TWO_64 + (if t[i] then 1 else 0)
  {
    ValueBelow(t[..i]);
    ValueSnoc(t[..i], t[i]);
    assert t[..i + 1] == t[..i] + [t[i]];
  }

  // ---------- laws ----------

  /** ToSigned is the only number of n-bit two's-complement range congruent to v modulo 2^n. */
  lemma TwosComplement(v: nat, n: nat, x: int)
    requires n >= 1 && v < Pow2(n)
    ensures x == ToSigned(v, n) <==> -Pow2(n - 1) <= x < Pow2(n - 1) && (x - v) % Pow2(n) == 0
  {
    var p := Pow2(n);
    if -Pow2(n - 1) <= x < Pow2(n - 1) { SmallMultiples(x - v, p); }
    SmallMultiples(ToSigned(v, n) - v, p);
  }

  lemma SmallMultiples(y: int, p: int)
    requires p > 0 && -2 * p < y < p
    ensures y % p == 0 <==> y == 0 || y == -p
  {
    if y >= 0 { SmallRemainder(y, p, 0); }
    else if y >= -p { SmallRemainder(y, p, -1); }
    else { SmallRemainder(y, p, -2); }
  }

  /** The remainder of a number whose quotient is known. */
  lemma SmallRemainder(y: int, p: int, q: int)
    requires p > 0 && q * p <= y < q * p + p
    ensures y % p == y - q * p
  {
    var r := y - q * p;
    assert y == (y / p) * p + y % p;
    SameQuotient(y / p - q, p, r - y % p);
  }

  lemma SameQuotient(d: int, p: int, e: int)
    requires d * p == e && -p < e < p
    ensures e == 0
  {
    if d >= 1 {
      AtLeastOnce(d, p);
    } else if d <= -1 {
      AtLeastOnce(-d, p);
    }
  }

  lemma AtLeastOnce(d: int, p: int)
    requires d >= 1 && p >= 0
    ensures d * p >= p
  {
    assert d * p == p + (d - 1) * p;
  }

  lemma SignedRoundTrip(x: int, n: nat)
    requires n >= 1 && -Pow2(n - 1) <= x < Pow2(n - 1)
    ensures -Pow2(n) <= x < Pow2(n)
    ensures FromSigned(x, n) < Pow2(n) && ToSigned(FromSigned(x, n), n) == x
  {
  }

  /** Reading a and then b bits is one read of both, split. */
  lemma {:induction false} ValueAppend(a: seq<bool>, b: seq<bool>)
    ensures Value(a + b) == Value(a) * Pow2(|b|) + Value(b)
  {
    if b == [] {
      assert a + b == a;
    } else {
      var b', t := b[..|b| - 1], b[|b| - 1];
      ValueAppend(a, b');
      assert b == b' + [t] && a + b == a + b' + [t];
      ValueAppendStep(a, b', t);
    }
  }

  lemma ValueAppendStep(a: seq<bool>, b: seq<bool>, t: bool)
    requires Value(a + b) == Value(a) * Pow2(|b|) + Value(b)
    ensures Value(a + b + [t]) == Value(a) * Pow2(|b| + 1) + Value(b + [t])
  {
    hide Value;
    ValueSnoc(a + b, t);
    ValueSnoc(b, t);
    DoubleProduct(Value(a), Pow2(|b|));
  }

  lemma DoubleProduct(w: int, p: int)
    ensures w * (2 * p) == 2 * (w * p)
  {
  }
}
