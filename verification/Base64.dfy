/** The Base64 encoder for the Authorization header, against section 4 of RFC 4648. */
module Base64 {
  import opened Bits
  import opened Search
  import opened MachineInt

  const UPPER: string := "ABCDEFGHIJKLMNOPQRSTUVWXYZ"
  const LOWER: string := "abcdefghijklmnopqrstuvwxyz"
  const DIGITS: string := "0123456789"
  const ALPHABET: string := UPPER + LOWER + DIGITS + "+/"

  // ---------- the reference: groups of six bits ----------

  /** The character for six bits, or for fewer when zeros fill them up. */
  function Symbol(six: seq<bool>): char
    requires |six| == 6
  {
    ALPHABET[Value(six)]
  }

  /** One character for every six bits; the last group is filled up with zeros. */
  function Sextets(bits: seq<bool>): (t: string)
    ensures |t| == (|bits| + 5) / 6
  {
    if |bits| == 0 then ""
    else if |bits| < 6 then [Symbol(bits + Zeros(6 - |bits|))]
    else [Symbol(bits[..6])] + Sextets(bits[6..])
  }

  /** Enough equals signs to reach a multiple of four characters. */
  function Padding(n: nat): string {
    seq((4 - n % 4) % 4, _ => '=')
  }

  function Encoded(data: seq<byte>): string {
    var t := Sextets(BitsOf(data));
    t + Padding(|t|)
  }

  // ---------- the decoder the standard describes ----------

  /** The number a character stands for, read off the table of the standard. */
  function NumberOf(c: char): Option<nat> {
    if 'A' <= c <= 'Z' then Some(c as int - 'A' as int)
    else if 'a' <= c <= 'z' then Some(c as int - 'a' as int + 26)
    else if '0' <= c <= '9' then Some(c as int - '0' as int + 52)
    else if c == '+' then Some(62)
    else if c == '/' then Some(63)
    else None
  }

  predicate IsAlphabetic(t: string) {
    forall i :: 0 <= i < |t| ==> NumberOf(t[i]).Some?
  }

  function TextBits(t: string): (bits: seq<bool>)
    requires IsAlphabetic(t)
    ensures |bits| == 6 * |t|
  {
    if t == "" then [] else ToBits(NumberOf(t[0]).value, 6) + TextBits(t[1..])
  }

  function PadCount(s: string): (p: nat)
    ensures p <= |s| && p <= 2
  {
    if |s| >= 2 && s[|s| - 1] == '=' && s[|s| - 2] == '=' then 2
    else if |s| >= 1 && s[|s| - 1] == '=' then 1
    else 0
  }

  /** A text without the padding at its end. */
  function Body(s: string): string {
    s[..|s| - PadCount(s)]
  }

  /** Strict decoding: whole quadruples, padding only at the end, and zeros in the unused bits. */
  function Decoded(s: string): Option<seq<byte>> {
    if |s| % 4 != 0 || !IsAlphabetic(Body(s)) then None else
    var bits := TextBits(Body(s));
    var used := |bits| - |bits| % 8;
    if bits[used..] == Zeros(|bits| % 8) then Some(PackBytes(bits[..used])) else None
  }

  // ---------- the encoder's loop ----------

  lemma {:induction false} ToBitsSplit(v: int, n: nat, m: nat)
    ensures ToBits(v, n + m) == ToBits(ShiftRight(v, m), n) + ToBits(v, m)
    decreases m
  {
    if m > 0 {
      ToBitsSplit(v / 2, n, m - 1);
    }
  }

  /** Only the low n bits of a number show in its n-bit string. */
  lemma {:induction false} ToBitsPlus(v: int, k: int, n: nat, m: nat)
    requires n <= m
    ensures ToBits(v + k * Pow2(m), n) == ToBits(v, n)
    decreases n
  {
    if n > 0 {
      HalfOfMultiple(v, k, Pow2(m - 1));
      ToBitsPlus(v / 2, k, n - 1, m - 1);
    }
  }

  lemma HalfOfMultiple(v: int, k: int, p: int)
    ensures (v + k * (2 * p)) / 2 == v / 2 + k * p && (v + k * (2 * p)) % 2 == v % 2
  {
    assert k * (2 * p) == 2 * (k * p);
  }

  lemma WrapKeepsLowBits(x: int, n: nat)
    requires n <= 32
    ensures ToBits(Wrap32(x), n) == ToBits(x, n)
  {
    Pow2Of32();
    var k := (x - INT_MIN) / TWO_32;
    assert x == Wrap32(x) + k * TWO_32;
    ToBitsPlus(Wrap32(x), k, n, 32);
  }

  lemma Pow2Of32()
    ensures Pow2(32) == TWO_32 && Pow2(8) == 256 && Pow2(6) == 64 && Pow2(12) == 4096
  {
    assert Pow2(6) == 64;
    assert Pow2(12) == 4096;
    assert Pow2(18) == 0x40000;
    assert Pow2(24) == 0x1000000;
    assert Pow2(30) == 0x40000000;
  }

  lemma ByteIsSumOfBits(b: byte)
    ensures b as nat == (if BitOfByte(b, 0) then 128 else 0) + (if BitOfByte(b, 1) then 64 else 0)
      + (if BitOfByte(b, 2) then 32 else 0) + (if BitOfByte(b, 3) then 16 else 0)
      + (if BitOfByte(b, 4) then 8 else 0) + (if BitOfByte(b, 5) then 4 else 0)
      + (if BitOfByte(b, 6) then 2 else 0) + (if BitOfByte(b, 7) then 1 else 0)
  {
  }

  lemma ValueOfEight(t: seq<bool>)
    requires |t| == 8
    ensures Value(t) == (if t[0] then 128 else 0) + (if t[1] then 64 else 0) + (if t[2] then 32 else 0)
      + (if t[3] then 16 else 0) + (if t[4] then 8 else 0) + (if t[5] then 4 else 0) + (if t[6] then 2 else 0)
      + (if t[7] then 1 else 0)
  {
    hide Value;
    ValueOfFour(t);
    ValueOfPrefix(t, 4); ValueOfPrefix(t, 5); ValueOfPrefix(t, 6); ValueOfPrefix(t, 7);
    assert t[..8] == t;
  }

  lemma ValueOfFour(t: seq<bool>)
    requires |t| >= 4
    ensures Value(t[..4]) == (if t[0] then 8 else 0) + (if t[1] then 4 else 0) + (if t[2] then 2 else 0)
      + (if t[3] then 1 else 0)
  {
    hide Value;
    EmptyValue(t[..0]);
    ValueOfPrefix(t, 0); ValueOfPrefix(t, 1); ValueOfPrefix(t, 2); ValueOfPrefix(t, 3);
  }

  lemma ByteBits(b: byte)
    ensures ToBits(b as nat, 8) == BitsOfByte(b)
  {
    ByteIsSumOfBits(b);
    ValueOfEight(BitsOfByte(b));
    ToBitsOfValue(BitsOfByte(b));
    hide BitOfByte, Value, ToBits;
  }

  // ---------- one step of the loop ----------

  /** The low eight bits of a number that ends in byte c. */
  lemma ToBitsOfByteEnd(v: int, c: byte)
    ensures ToBits(v * 256 + c as nat, 8) == BitsOfByte(c)
  {
    ByteBits(c);
    Pow2Of32();
    hide ToBits, Pow2;
    ToBitsPlus(c as nat, v, 8, 8);
  }

  lemma ShiftByEight(v: int, c: nat)
    requires c < 256
    ensures ShiftRight(v * 256 + c, 8) == v
  {
    ShiftsByTwo(v * 256 + c, 6);
    ShiftsByTwo(v * 256 + c, 4);
    ShiftsByTwo(v * 256 + c, 2);
    ShiftsByTwo(v * 256 + c, 0);
  }

  lemma {:induction false} ShiftsByTwo(v: int, k: nat)
    ensures ShiftRight(v, k + 2) == ShiftRight(v, k) / 4
    decreases k
  {
    if k > 0 {
      ShiftsByTwo(v / 2, k - 1);
    }
  }

  /** Shifting a byte in puts its bits behind the n bits kept so far. */
  lemma ByteShiftedIn(v: int, c: byte, n: nat)
    requires n <= 5
    ensures ToBits(Wrap32(v * 256 + c as nat), n + 8) == ToBits(v, n) + BitsOfByte(c)
  {
    hide ToBits, Wrap32;
    WrapKeepsLowBits(v * 256 + c as nat, n + 8);
    ToBitsSplit(v * 256 + c as nat, n, 8);
    ByteIsBelow(c);
    ShiftByEight(v, c as nat);
    ToBitsOfByteEnd(v, c);
  }

  lemma ByteIsBelow(c: byte)
    ensures (c as nat) < 256
  {
  }

  lemma {:induction false} ValueOfSix(v: int)
    ensures Value(ToBits(v, 6)) == v % 64
  {
    Pow2Of32();
    var k := v / 64;
    assert v == v % 64 + k * 64;
    ValueOfToBits(v % 64, 6);
    ToBitsPlus(v % 64, k, 6, 6);
  }

  /** The masked shift in the loop yields the first six of the n bits kept. */
  lemma SextetShiftedOut(v: int, n: nat)
    requires n >= 6
    ensures ALPHABET[ShiftRight(v, n - 6) % 64] == Symbol(ToBits(v, n)[..6])
    ensures ToBits(v, n)[6..] == ToBits(v, n - 6)
  {
    hide ToBits, ShiftRight;
    ToBitsSplit(v, 6, n - 6);
    ValueOfSix(ShiftRight(v, n - 6));
    assert ToBits(v, n)[..6] == ToBits(ShiftRight(v, n - 6), 6);
  }

  /** The bits still kept when the input ends, filled up with zeros by one more shift. */
  lemma LastSextet(v: int, n: nat)
    requires 1 <= n <= 5
    ensures ALPHABET[ShiftRight(Wrap32(v * 256), n + 2) % 64] == Symbol(ToBits(v, n) + Zeros(6 - n))
  {
    hide ToBits, ShiftRight, Wrap32, Symbol, ALPHABET;
    ByteShiftedIn(v, 0, n);
    SextetShiftedOut(Wrap32(v * 256), n + 8);
    assert BitsOfByte(0) == Zeros(8);
    assert (ToBits(v, n) + Zeros(8))[..6] == ToBits(v, n) + Zeros(6 - n);
  }

  /** What remains to be encoded: the low bits kept in val, then the bytes not read yet. */
  function Remaining(val: int, kept: nat, rest: seq<byte>): seq<bool> {
    ToBits(val, kept) + BitsOf(rest)
  }

  lemma ReadByte(val: int, kept: nat, rest: seq<byte>)
    requires kept <= 5 && rest != []
    ensures Remaining(Wrap32(val * 256 + rest[0] as int), kept + 8, rest[1..]) == Remaining(val, kept, rest)
  {
    hide ToBits, BitsOf, BitsOfByte, Wrap32;
    ByteShiftedIn(val, rest[0], kept);
    BitsOfSingleton(rest[0]);
    BitsOfAppend([rest[0]], rest[1..]);
    assert rest == [rest[0]] + rest[1..];
  }

  lemma WriteSextet(val: int, kept: nat, rest: seq<byte>)
    requires kept >= 6
    ensures Sextets(Remaining(val, kept, rest))
         == [ALPHABET[ShiftRight(val, kept - 6) % 64]] + Sextets(Remaining(val, kept - 6, rest))
  {
    hide ToBits, BitsOf, ShiftRight, Value;
    SextetShiftedOut(val, kept);
    var bits := Remaining(val, kept, rest);
    assert bits[..6] == ToBits(val, kept)[..6];
    assert bits[6..] == Remaining(val, kept - 6, rest);
  }

  lemma NoBytesLeft(val: int, kept: nat)
    ensures Remaining(val, kept, []) == ToBits(val, kept)
  {
    hide ToBits;
  }

  lemma LastGroup(val: int, kept: nat)
    requires kept <= 5
    ensures Sextets(Remaining(val, kept, []))
         == if kept == 0 then "" else [ALPHABET[ShiftRight(Wrap32(val * 256), kept + 2) % 64]]
  {
    hide ToBits, ShiftRight, Wrap32, ALPHABET, Symbol;
    NoBytesLeft(val, kept);
    if kept > 0 { LastSextet(val, kept); }
  }

  /** What has been written and what remains make up the encoding of the whole input. */
  ghost predicate Progress(data: seq<byte>, out: string, val: int, valb: int, rest: seq<byte>) {
    valb >= -6 && out + Sextets(Remaining(val, valb + 6, rest)) == Sextets(BitsOf(data))
  }

  lemma ReadingProgresses(data: seq<byte>, out: string, val: int, valb: int, i: nat)
    requires i < |data| && valb < 0 && Progress(data, out, val, valb, data[i..])
    ensures Progress(data, out, Wrap32(val * 256 + data[i] as int), valb + 8, data[i + 1..])
  {
    hide Remaining, Sextets, BitsOf, Wrap32;
    ReadByte(val, valb + 6, data[i..]);
    assert data[i..][1..] == data[i + 1..];
  }

  lemma WritingProgresses(data: seq<byte>, out: string, val: int, valb: int, rest: seq<byte>)
    requires valb >= 0 && Progress(data, out, val, valb, rest)
    ensures Progress(data, out + [ALPHABET[ShiftRight(val, valb) % 64]], val, valb - 6, rest)
  {
    hide Remaining, Sextets, BitsOf, ShiftRight;
    WriteSextet(val, valb + 6, rest);
  }

  lemma ClosingFinishes(data: seq<byte>, out: string, val: int, valb: int, rest: seq<byte>)
    requires valb < 0 && |rest| == 0 && Progress(data, out, val, valb, rest)
    ensures Sextets(BitsOf(data))
         == if valb > -6 then out + [ALPHABET[ShiftRight(Wrap32(val * 256), valb + 8) % 64]] else out
  {
    hide Remaining, Sextets, BitsOf, ShiftRight, Wrap32;
    assert rest == [];
    LastGroup(val, valb + 6);
  }

  method Encode(data: seq<byte>) returns (out: string)
    ensures out == Encoded(data)
  {
    hide Progress, Wrap32, ShiftRight, BitsOf, Sextets, ALPHABET;
    out := "";
    var val, valb := 0, -6;
    Start(data);
    for i := 0 to |data|
      invariant -6 <= valb < 0 && Progress(data, out, val, valb, data[i..])
    {
      ReadingProgresses(data, out, val, valb, i);
      val := Wrap32(val * 256 + data[i] as int);
      valb := valb + 8;
      while valb >= 0
        invariant -6 <= valb < 8 && Progress(data, out, val, valb, data[i + 1..])
      {
        WritingProgresses(data, out, val, valb, data[i + 1..]);
        AlphabetSize();
        out := out + [ALPHABET[ShiftRight(val, valb) % 64]];
        valb := valb - 6;
      }
    }
    ClosingFinishes(data, out, val, valb, data[|data|..]);
    if valb > -6 {
      AlphabetSize();
      out := out + [ALPHABET[ShiftRight(Wrap32(val * 256), valb + 8) % 64]];
    }
    out := Pad(out);
  }

  lemma PadOneMore(text: string)
    requires |text| % 4 != 0
    ensures text + "=" + Padding(|text| + 1) == text + Padding(|text|)
    ensures |Padding(|text| + 1)| < |Padding(|text|)|
  {
    assert "=" + Padding(|text| + 1) == Padding(|text|);
  }

  method Pad(text: string) returns (out: string)
    ensures out == text + Padding(|text|)
  {
    out := text;
    while |out| % 4 != 0
      invariant out + Padding(|out|) == text + Padding(|text|)
      decreases |Padding(|out|)|
    {
      hide Padding;
      PadOneMore(out);
      out := out + "=";
    }
  }

  lemma AlphabetSize()
    ensures |ALPHABET| == 64
  {
  }

  lemma Start(data: seq<byte>)
    ensures Progress(data, "", 0, -6, data[0..])
  {
    assert data[0..] == data;
    assert Remaining(0, 0, data) == BitsOf(data);
  }

  /** Of the 32 bits of val, at most the low twelve reach the output: numbers that agree there
      yield the same characters at every shift the loop can make, the closing one included. */
  lemma OnlyLowTwelveBits(v: int, w: int, valb: nat)
    requires v % 4096 == w % 4096 && valb <= 6
    ensures ShiftRight(v, valb) % 64 == ShiftRight(w, valb) % 64
  {
    hide ShiftRight;
    LowBitsAgree(v, w, valb + 6);
    SextetShiftedOut(v, valb + 6);
    SextetShiftedOut(w, valb + 6);
    ValueOfSix(ShiftRight(v, valb));
    ValueOfSix(ShiftRight(w, valb));
    ToBitsSplit(v, 6, valb);
    ToBitsSplit(w, 6, valb);
    hide ToBits;
    assert ToBits(v, 6 + valb)[..6] == ToBits(ShiftRight(v, valb), 6);
    assert ToBits(w, 6 + valb)[..6] == ToBits(ShiftRight(w, valb), 6);
  }

  lemma LowBitsAgree(v: int, w: int, n: nat)
    requires v % 4096 == w % 4096 && n <= 12
    ensures ToBits(v, n) == ToBits(w, n)
  {
    Pow2Of32();
    var k := (v - w) / 4096;
    assert v == w + k * 4096;
    ToBitsPlus(w, k, n, 12);
  }

  // ---------- laws ----------

  lemma UpperCase(v: nat)
    requires v < 26
    ensures ALPHABET[v] as int == 'A' as int + v
  {
  }

  lemma LowerCase(v: nat)
    requires 26 <= v < 52
    ensures ALPHABET[v] as int == 'a' as int + (v - 26)
  {
    assert ALPHABET[v] == LOWER[v - 26];
  }

  lemma Digit(v: nat)
    requires 52 <= v < 62
    ensures ALPHABET[v] as int == '0' as int + (v - 52)
  {
  }

  lemma PlusAndSlash()
    ensures ALPHABET[62] == '+' && ALPHABET[63] == '/'
  {
  }

  /** The table of the encoder and the ranges of the standard number the characters alike. */
  lemma SymbolOf(v: nat)
    requires v < 64
    ensures NumberOf(ALPHABET[v]) == Some(v)
  {
    AlphabetSize();
    hide ALPHABET;
    if v < 26 { UpperCase(v); } else if v < 52 { LowerCase(v); } else if v < 62 { Digit(v); } else { PlusAndSlash(); }
  }

  lemma NumberOfSymbol(c: char)
    ensures NumberOf(c).Some? ==> NumberOf(c).value < 64 && ALPHABET[NumberOf(c).value] == c
  {
    AlphabetSize();
    hide ALPHABET;
    if NumberOf(c).Some? {
      var v := NumberOf(c).value;
      if v < 26 { UpperCase(v); } else if v < 52 { LowerCase(v); } else if v < 62 { Digit(v); } else { PlusAndSlash(); }
    }
  }

  /** Reading the characters back gives the bits and the zeros that filled them up. */
  lemma {:induction false} TextOfSextets(bits: seq<bool>)
    ensures IsAlphabetic(Sextets(bits))
    ensures TextBits(Sextets(bits)) == bits + Zeros(6 * |Sextets(bits)| - |bits|)
  {
    hide NumberOf, ToBits, Value;
    if 0 < |bits| < 6 {
      BitsOfSymbol(bits + Zeros(6 - |bits|));
      OneSymbol(Symbol(bits + Zeros(6 - |bits|)));
    } else if |bits| >= 6 {
      BitsOfSymbol(bits[..6]);
      TextOfSextets(bits[6..]);
      assert bits == bits[..6] + bits[6..];
      assert Sextets(bits)[1..] == Sextets(bits[6..]);
    }
  }

  lemma BitsOfSymbol(six: seq<bool>)
    requires |six| == 6
    ensures NumberOf(Symbol(six)).Some? && ToBits(NumberOf(Symbol(six)).value, 6) == six
  {
    hide ToBits, Value, NumberOf;
    Pow2Of32();
    SymbolOf(Value(six));
    ToBitsOfValue(six);
  }

  lemma OneSymbol(c: char)
    requires NumberOf(c).Some?
    ensures TextBits([c]) == ToBits(NumberOf(c).value, 6)
  {
    assert [c][1..] == "";
  }

  /** Only the characters of the text itself encode its bits, with or without zeros at the end. */
  lemma {:induction false} SextetsOfText(t: string, k: nat)
    requires IsAlphabetic(t) && k <= |TextBits(t)| && k < 6 && TextBits(t)[|TextBits(t)| - k..] == Zeros(k)
    ensures Sextets(TextBits(t)[..|TextBits(t)| - k]) == t
  {
    hide NumberOf, ToBits, Value;
    if t != "" {
      var first, rest := ToBits(NumberOf(t[0]).value, 6), TextBits(t[1..]);
      SymbolOfBits(t[0]);
      var bits := TextBits(t)[..|TextBits(t)| - k];
      if |t| == 1 {
        assert t[1..] == "";
        assert TextBits(t) == first;
        assert bits + Zeros(k) == first;
      } else {
        assert TextBits(t) == first + rest;
        assert rest[|rest| - k..] == Zeros(k);
        SextetsOfText(t[1..], k);
        assert bits[..6] == first && bits[6..] == rest[..|rest| - k];
      }
    }
  }

  lemma SymbolOfBits(c: char)
    requires NumberOf(c).Some?
    ensures Symbol(ToBits(NumberOf(c).value, 6)) == c
  {
    hide NumberOf, ALPHABET, ToBits, Value;
    NumberOfSymbol(c);
    ValueOfSix(NumberOf(c).value);
  }

  lemma EqualsIsNoSymbol()
    ensures NumberOf('=').None?
  {
  }

  lemma PadCountOf(t: string)
    requires IsAlphabetic(t) && |t| % 4 != 1
    ensures PadCount(t + Padding(|t|)) == |Padding(|t|)|
  {
    EqualsIsNoSymbol();
    hide NumberOf;
    var p := Padding(|t|);
    assert |t| > 0 ==> t[|t| - 1] != '=';
    assert |p| >= 1 ==> (t + p)[|t| + |p| - 1] == '=';
    assert |p| == 2 ==> (t + p)[|t| + |p| - 2] == '=';
  }

  /** m groups of six bits hold n bytes. */
  lemma SextetCount(n: nat, m: nat)
    requires 8 * n <= 6 * m < 8 * n + 6
    ensures (6 * m) % 8 == 6 * m - 8 * n && m % 4 != 1 && m + (4 - m % 4) % 4 == 4 * ((n + 2) / 3)
  {
    var q, r := m / 4, m % 4;
    assert m == 4 * q + r;
    SextetRemainder(n, q, r);
    WholeQuads(n, q, r);
  }

  lemma SextetRemainder(n: nat, q: nat, r: nat)
    requires r < 4 && 8 * n <= 6 * (4 * q + r) < 8 * n + 6
    ensures (6 * (4 * q + r)) % 8 == 6 * (4 * q + r) - 8 * n && r != 1
  {
  }

  lemma WholeQuads(n: nat, q: nat, r: nat)
    requires r < 4 && r != 1 && 8 * n <= 6 * (4 * q + r) < 8 * n + 6
    ensures (n + 2) / 3 == if r == 0 then q else q + 1
  {
    if r == 0 {
      assert n == 3 * q;
    } else {
      assert n == 3 * q + (r - 1);
    }
  }

  lemma EncodedLength(data: seq<byte>)
    ensures |Encoded(data)| == 4 * ((|data| + 2) / 3)
  {
    hide Sextets, BitsOf;
    SextetCount(|data|, |Sextets(BitsOf(data))|);
  }

  lemma BodyOfPadded(t: string)
    requires IsAlphabetic(t) && |t| % 4 != 1
    ensures Body(t + Padding(|t|)) == t && |t + Padding(|t|)| % 4 == 0
  {
    hide PadCount, IsAlphabetic;
    PadCountOf(t);
    PaddedLength(|t|);
    assert (t + Padding(|t|))[..|t|] == t;
  }

  lemma PaddedLength(n: nat)
    ensures (n + |Padding(n)|) % 4 == 0
  {
  }

  /** What the decoder sees of an encoding: the characters, and in them the bits and their filling. */
  lemma BodyOfEncoded(data: seq<byte>)
    ensures var s := Encoded(data);
      |s| % 4 == 0 && IsAlphabetic(Body(s)) && TextBits(Body(s)) == BitsOf(data) + Zeros(|TextBits(Body(s))| % 8)
  {
    hide Sextets, BitsOf, TextBits, IsAlphabetic, Body, Padding;
    var t := Sextets(BitsOf(data));
    TextOfSextets(BitsOf(data));
    SextetCount(|data|, |t|);
    BodyOfPadded(t);
  }

  lemma EncodedDecodes(data: seq<byte>)
    ensures Decoded(Encoded(data)) == Some(data)
  {
    hide Encoded, BitsOf, TextBits, IsAlphabetic, Body, PackBytes;
    BodyOfEncoded(data);
    PackBytesOfBits(data);
    var bits := TextBits(Body(Encoded(data)));
    assert bits[..8 * |data|] == BitsOf(data) && bits[8 * |data|..] == Zeros(|bits| % 8);
  }

  lemma TailIsEquals(s: string)
    ensures forall k :: |s| - PadCount(s) <= k < |s| ==> s[k] == '='
  {
  }

  lemma PaddingLength(length: nat, p: nat)
    requires length % 4 == 0 && p <= 2 && p <= length
    ensures |Padding(length - p)| == p && (6 * (length - p)) % 8 < 6
  {
    var q := length / 4;
    assert length == 4 * q;
    if p == 0 { QuadsAndRest(q, 0); } else { QuadsAndRest(q - 1, 4 - p); }
  }

  lemma QuadsAndRest(q: nat, r: nat)
    requires r < 4
    ensures (4 * q + r) % 4 == r && (6 * (4 * q + r)) % 8 == (6 * r) % 8
  {
    assert 6 * (4 * q + r) == 8 * (3 * q) + 6 * r;
  }

  lemma PaddingOf(s: string)
    requires |s| % 4 == 0
    ensures s == Body(s) + Padding(|Body(s)|) && (6 * |Body(s)|) % 8 < 6
  {
    TailIsEquals(s);
    PaddingLength(|s|, PadCount(s));
    hide PadCount;
  }

  lemma DecodedEncodes(s: string, data: seq<byte>)
    requires Decoded(s) == Some(data)
    ensures Encoded(data) == s
  {
    hide Sextets, BitsOf, TextBits, IsAlphabetic, PackBytes, Body;
    var bits := TextBits(Body(s));
    var used := |bits| - |bits| % 8;
    BitsOfPackBytes(bits[..used]);
    assert BitsOf(data) == bits[..used];
    PaddingOf(s);
    SextetsOfText(Body(s), |bits| % 8);
  }

  /** A text decodes to a byte string exactly when it is its encoding. */
  lemma DecodesExactlyEncodings(s: string, data: seq<byte>)
    ensures Decoded(s) == Some(data) <==> s == Encoded(data)
  {
    hide Decoded, Encoded;
    if Decoded(s) == Some(data) { DecodedEncodes(s, data); }
    EncodedDecodes(data);
  }
}
