/** Decimal numbers in configuration values: what std::stoi accepts, and what std::to_string prints. */
module IntText {
  import opened Search
  import opened MachineInt

  /** The characters std::isspace accepts in the C locale. */
  predicate IsSpace(c: char) {
    c == ' ' || c == '\t' || c == '\n' || c == '\r' || c as int == 11 || c as int == 12
  }

  predicate IsDigit(c: char) {
    '0' <= c <= '9'
  }

  function Digit(c: char): (d: nat)
    requires IsDigit(c)
    ensures d <= 9
  {
    c as int - '0' as int
  }

  predicate AllSpaces(s: string) {
    forall i :: 0 <= i < |s| ==> IsSpace(s[i])
  }

  predicate AllDigits(s: string) {
    forall i :: 0 <= i < |s| ==> IsDigit(s[i])
  }

  function Number(s: string): nat
    requires AllDigits(s)
  {
    if s == "" then 0 else 10 * Number(s[..|s| - 1]) + Digit(s[|s| - 1])
  }

  /** The first position from i on that holds no white space. */
  function SkipSpaces(s: string, i: nat): (j: nat)
    requires i <= |s|
    ensures i <= j <= |s|
    ensures forall k :: i <= k < j ==> IsSpace(s[k])
    ensures j < |s| ==> !IsSpace(s[j])
    decreases |s| - i
  {
    if i < |s| && IsSpace(s[i]) then SkipSpaces(s, i + 1) else i
  }

  function SkipDigits(s: string, i: nat): (j: nat)
    requires i <= |s|
    ensures i <= j <= |s|
    ensures forall k :: i <= k < j ==> IsDigit(s[k])
    ensures j < |s| ==> !IsDigit(s[j])
    decreases |s| - i
  {
    if i < |s| && IsDigit(s[i]) then SkipDigits(s, i + 1) else i
  }

  datatype Conversion = Conversion(value: int, pos: nat)

  /** The value of the longest number at the start and where it ends; None where std::stoi throws. */
  function Stoi(s: string): Option<Conversion> {
    var i := SkipSpaces(s, 0);
    var negative := i < |s| && s[i] == '-';
    var from := if i < |s| && (s[i] == '-' || s[i] == '+') then i + 1 else i;
    var end := SkipDigits(s, from);
    if end == from then None else
    var value := if negative then -(Number(s[from..end]) as int) else Number(s[from..end]);
    if INT_MIN <= value <= INT_MAX then Some(Conversion(value, end)) else None
  }

  function ParsePositiveInt(value: string): Option<nat> {
    match Stoi(value)
    case None => None
    case Some(parsed) => if parsed.pos != |value| || parsed.value <= 0 then None else Some(parsed.value)
  }

  /** White space, an optional plus sign, and digits to the very end. */
  predicate SpelledAt(s: string, i: nat, n: nat) {
    && i < |s| && AllSpaces(s[..i])
    && var digits := if s[i] == '+' then s[i + 1..] else s[i..];
       digits != "" && AllDigits(digits) && Number(digits) == n
  }

  /** The accepted spellings of a positive int. */
  ghost predicate Spells(s: string, n: nat) {
    1 <= n <= INT_MAX && exists i: nat :: SpelledAt(s, i, n)
  }

  lemma ParsedIsSpelled(s: string, n: nat)
    requires ParsePositiveInt(s) == Some(n)
    ensures Spells(s, n)
  {
    hide Number;
    var i := SkipSpaces(s, 0);
    var from := if i < |s| && s[i] == '+' then i + 1 else i;
    assert i < |s| && s[i] != '-';
    assert s[from..|s|] == s[from..];
    assert SpelledAt(s, i, n);
  }

  lemma SpacesEnd(s: string, i: nat)
    requires i < |s| && AllSpaces(s[..i]) && !IsSpace(s[i])
    ensures SkipSpaces(s, 0) == i
  {
    hide IsSpace;
    assert forall k :: 0 <= k < i ==> s[k] == s[..i][k];
  }

  lemma DigitsEnd(s: string, from: nat)
    requires from <= |s| && AllDigits(s[from..])
    ensures SkipDigits(s, from) == |s|
  {
    hide IsDigit;
    assert forall k :: from <= k < |s| ==> s[k] == s[from..][k - from];
  }

  lemma DigitsAreNoSpaces(c: char)
    ensures IsDigit(c) || c == '+' ==> !IsSpace(c) && c != '-'
  {
  }

  lemma SpelledIsParsed(s: string, i: nat, n: nat)
    requires SpelledAt(s, i, n) && 1 <= n <= INT_MAX
    ensures ParsePositiveInt(s) == Some(n)
  {
    hide Number, IsSpace, IsDigit, SkipSpaces, SkipDigits;
    var from := if s[i] == '+' then i + 1 else i;
    assert s[from..][0] == s[from];
    DigitsAreNoSpaces(s[i]);
    SpacesEnd(s, i);
    DigitsEnd(s, from);
    assert s[from..|s|] == s[from..];
  }

  /** What is accepted, exactly. */
  lemma AcceptedSpellings(s: string, n: nat)
    ensures ParsePositiveInt(s) == Some(n) <==> Spells(s, n)
  {
    hide ParsePositiveInt, SpelledAt;
    if ParsePositiveInt(s) == Some(n) {
      ParsedIsSpelled(s, n);
    }
    if Spells(s, n) {
      var i: nat :| SpelledAt(s, i, n);
      SpelledIsParsed(s, i, n);
    }
  }

  /** No other character occurs in an accepted spelling. */
  lemma SpellingAlphabet(s: string, n: nat)
    requires ParsePositiveInt(s) == Some(n)
    ensures s != "" && forall k :: 0 <= k < |s| ==> IsSpace(s[k]) || IsDigit(s[k]) || s[k] == '+'
  {
    hide Number, SpelledAt, ParsePositiveInt, IsSpace, IsDigit;
    ParsedIsSpelled(s, n);
    var i: nat :| SpelledAt(s, i, n);
    SpelledAlphabet(s, i, n);
  }

  lemma SpelledAlphabet(s: string, i: nat, n: nat)
    requires SpelledAt(s, i, n)
    ensures s != "" && forall k :: 0 <= k < |s| ==> IsSpace(s[k]) || IsDigit(s[k]) || s[k] == '+'
  {
    hide Number, IsSpace, IsDigit;
    var from := if s[i] == '+' then i + 1 else i;
    forall k | 0 <= k < |s| ensures IsSpace(s[k]) || IsDigit(s[k]) || s[k] == '+' {
      if k < i {
        assert s[k] == s[..i][k];
      } else if k >= from {
        assert s[k] == s[from..][k - from];
      }
    }
  }

  // ---------- printing ----------

  function DigitChar(d: nat): (c: char)
    requires d <= 9
    ensures IsDigit(c) && Digit(c) == d
  {
    ('0' as int + d) as char
  }

  function Decimal(n: nat): (s: string)
    ensures s != "" && AllDigits(s)
  {
    if n < 10 then [DigitChar(n)] else Decimal(n / 10) + [DigitChar(n % 10)]
  }

  lemma {:induction false} NumberOfDecimal(n: nat)
    ensures Number(Decimal(n)) == n
  {
    hide Digit, DigitChar;
    if n >= 10 {
      NumberOfDecimal(n / 10);
      assert Decimal(n)[..|Decimal(n)| - 1] == Decimal(n / 10);
    } else {
      assert Decimal(n)[..0] == "";
    }
  }

  /** A printed int is read back. */
  lemma DecimalIsParsed(n: nat)
    requires 1 <= n <= INT_MAX
    ensures ParsePositiveInt(Decimal(n)) == Some(n)
  {
    NumberOfDecimal(n);
    hide Number, Decimal;
    var s := Decimal(n);
    assert s[..0] == "" && s[0..] == s;
    assert IsDigit(s[0]);
    assert SpelledAt(s, 0, n);
    SpelledIsParsed(s, 0, n);
  }
}
