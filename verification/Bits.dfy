/** Bytes as the bit strings they carry, most significant bit first. */
module Bits {

  type byte = bv8

  /** Bit k of a byte, counting from its most significant bit. */
  function BitOfByte(b: byte, k: nat): bool
    requires k < 8
  {
    match k
    case 0 => b & 0x80 != 0
    case 1 => b & 0x40 != 0
    case 2 => b & 0x20 != 0
    case 3 => b & 0x10 != 0
    case 4 => b & 0x08 != 0
    case 5 => b & 0x04 != 0
    case 6 => b & 0x02 != 0
    case _ => b & 0x01 != 0
  }

  function BitsOfByte(b: byte): (r: seq<bool>)
    ensures |r| == 8
  {
    seq(8, k requires 0 <= k < 8 => BitOfByte(b, k))
  }

  function BitsOf(s: seq<byte>): (r: seq<bool>)
    ensures |r| == 8 * |s|
  {
    seq(8 * |s|, i requires 0 <= i < 8 * |s| => BitOfByte(s[i / 8], i % 8))
  }

  function Zeros(n: nat): (r: seq<bool>)
    ensures |r| == n
  {
    seq(n, _ => false)
  }

  /** CR LF, which ends a line in the protocols used here. */
  const CRLF: seq<byte> := [0x0D, 0x0A]

  function Concat<T>(parts: seq<seq<T>>): seq<T> {
    if parts == [] then [] else parts[0] + Concat(parts[1..])
  }

  lemma BitsOfAppend(a: seq<byte>, b: seq<byte>)
    ensures BitsOf(a + b) == BitsOf(a) + BitsOf(b)
  {
  }

  lemma BitsOfSingleton(b: byte)
    ensures BitsOf([b]) == BitsOfByte(b)
  {
  }

  /** The shift-and-mask the bit reader uses picks out exactly one bit. */
  lemma ShiftAndMask(b: byte, k: nat)
    requires k < 8
    ensures (b >> (7 - k)) & 1 == if BitOfByte(b, k) then 1 else 0
  {
    if k == 0 {} else if k == 1 {} else if k == 2 {} else if k == 3 {}
    else if k == 4 {} else if k == 5 {} else if k == 6 {} else {}
  }

  // ---------- numbers as bit strings ----------

  function Pow2(n: nat): (r: int)
    ensures r >= 1
  {
    if n == 0 then 1 else 2 * Pow2(n - 1)
  }

  /** The arithmetic right shift. */
  function ShiftRight(v: int, k: nat): (r: int)
    ensures v >= 0 ==> r >= 0
    decreases k
  {
    if k == 0 then v else ShiftRight(v / 2, k - 1)
  }

  /** The unsigned number a bit string stands for. */
  function Value(bits: seq<bool>): (v: nat)
    ensures v < Pow2(|bits|)
  {
    if bits == [] then 0
    else 2 * Value(bits[..|bits| - 1]) + (if bits[|bits| - 1] then 1 else 0)
  }

  /** The n-bit string of v, dropping any higher bits of v. */
  function ToBits(v: int, n: nat): (bits: seq<bool>)
    ensures |bits| == n
    decreases n
  {
    if n == 0 then [] else ToBits(v / 2, n - 1) + [v % 2 == 1]
  }

  lemma {:induction false} ValueOfToBits(v: nat, n: nat)
    requires v < Pow2(n)
    ensures Value(ToBits(v, n)) == v
  {
    if n > 0 {
      ValueOfToBits(v / 2, n - 1);
      assert ToBits(v, n)[..n - 1] == ToBits(v / 2, n - 1);
    }
  }

  lemma {:induction false} ToBitsOfValue(bits: seq<bool>)
    ensures ToBits(Value(bits), |bits|) == bits
  {
    if bits != [] {
      ToBitsOfValue(bits[..|bits| - 1]);
      assert bits == bits[..|bits| - 1] + [bits[|bits| - 1]];
    }
  }

  lemma ValueSnoc(bits: seq<bool>, b: bool)
    ensures Value(bits + [b]) == 2 * Value(bits) + (if b then 1 else 0)
  {
    assert (bits + [b])[..|bits|] == bits;
  }

  /** Shift and mask read one bit of the n-bit string of v. */
  lemma {:induction false} ToBitsAt(v: nat, n: nat, i: nat)
    requires i < n
    ensures ToBits(v, n)[i] <==> ShiftRight(v, n - 1 - i) % 2 == 1
  {
    if i < n - 1 { ToBitsAt(v / 2, n - 1, i); }
  }

  /** For v below 2^(k+1), bit k says whether v reaches 2^k. */
  lemma {:induction false} TopBitOf(v: nat, k: nat)
    requires v < Pow2(k + 1)
    ensures ShiftRight(v, k) % 2 == 1 <==> v >= Pow2(k)
  {
    if k > 0 { TopBitOf(v / 2, k - 1); }
  }

  function One(b: bool): nat { if b then 1 else 0 }

  lemma EmptyValue(t: seq<bool>)
    requires |t| == 0
    ensures Value(t) == 0
  {
  }

  /** Horner's rule on the first k + 1 bits. */
  lemma ValueOfPrefix(t: seq<bool>, k: nat)
    requires k < |t|
    ensures Value(t[..k + 1]) == 2 * Value(t[..k]) + One(t[k])
  {
    assert t[..k + 1][..k] == t[..k];
  }

  // ---------- packing bits into bytes ----------

  function PackByte(t: seq<bool>): (b: byte)
    requires |t| == 8
  {
    (if t[0] then 0x80 else 0) | (if t[1] then 0x40 else 0) | (if t[2] then 0x20 else 0) | (if t[3] then 0x10 else 0) |
    (if t[4] then 0x08 else 0) | (if t[5] then 0x04 else 0) | (if t[6] then 0x02 else 0) | (if t[7] then 0x01 else 0)
  }

  lemma BitsOfPackByte(t: seq<bool>)
    requires |t| == 8
    ensures BitsOfByte(PackByte(t)) == t
  {
    var b := PackByte(t);
    assert BitOfByte(b, 0) == t[0] && BitOfByte(b, 1) == t[1] && BitOfByte(b, 2) == t[2] && BitOfByte(b, 3) == t[3];
    assert BitOfByte(b, 4) == t[4] && BitOfByte(b, 5) == t[5] && BitOfByte(b, 6) == t[6] && BitOfByte(b, 7) == t[7];
    hide BitOfByte, PackByte;
  }

  /** Bits packed eight to a byte; the last byte is filled up with zeros. */
  function PackBytes(t: seq<bool>): (s: seq<byte>)
    ensures |s| == (|t| + 7) / 8
  {
    if |t| == 0 then []
    else if |t| < 8 then [PackByte(t + seq(8 - |t|, _ => false))]
    else [PackByte(t[..8])] + PackBytes(t[8..])
  }

  lemma {:induction false} BitsOfPackBytes(t: seq<bool>)
    ensures |t| <= 8 * |PackBytes(t)| < |t| + 8
    ensures BitsOf(PackBytes(t))[..|t|] == t
  {
    hide PackByte, BitsOfByte, BitsOf;
    if |t| == 0 {
    } else if |t| < 8 {
      BitsOfPackByte(t + seq(8 - |t|, _ => false));
      BitsOfSingleton(PackByte(t + seq(8 - |t|, _ => false)));
    } else {
      BitsOfPackBytes(t[8..]);
      BitsOfPackByte(t[..8]);
      BitsOfSingleton(PackByte(t[..8]));
      BitsOfAppend([PackByte(t[..8])], PackBytes(t[8..]));
      assert t == t[..8] + t[8..];
    }
  }

  lemma {:induction false} PackBytesOfBits(data: seq<byte>)
    ensures PackBytes(BitsOf(data)) == data
    decreases |data|
  {
    if data != [] {
      PackBytesOfBits(data[1..]);
      BitsOfSingleton(data[0]);
      BitsOfAppend([data[0]], data[1..]);
      hide BitsOf, BitsOfByte, PackByte;
      assert data == [data[0]] + data[1..];
      assert BitsOf(data)[..8] == BitsOfByte(data[0]);
      assert BitsOf(data)[8..] == BitsOf(data[1..]);
      PackByteOfBits(data[0]);
    }
  }

  lemma PackByteOfBits(b: byte)
    ensures PackByte(BitsOfByte(b)) == b
  {
  }
}
