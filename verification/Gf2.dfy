/** Polynomials over GF(2), as bit strings with the highest coefficient first. */
module Gf2 {

  import opened Bits

  type Poly = seq<bool>

  /** Addition, which is also subtraction. */
  function Xor(a: Poly, b: Poly): (r: Poly)
    requires |a| == |b|
    ensures |r| == |a|
  {
    seq(|a|, i requires 0 <= i < |a| => a[i] != b[i])
  }

  function Scale(t: bool, g: Poly): (r: Poly)
    ensures |r| == |g|
  {
    if t then g else Zeros(|g|)
  }

  /** The bit strings used as generators: degree at least one and leading coefficient 1. */
  predicate Generator(g: Poly) {
    |g| >= 2 && g[0]
  }

  /** The schoolbook product q(x)*g(x), one shifted copy of g per coefficient of q. */
  function Times(q: Poly, g: Poly): (r: Poly)
    requires |g| >= 1
    ensures |r| == |q| + |g| - 1
  {
    if q == [] then Zeros(|g| - 1)
    else Xor(Times(q[..|q| - 1], g) + [false], Zeros(|q| - 1) + Scale(q[|q| - 1], g))
  }

  /** r is a remainder of m modulo g: m = q*g + r for some q, with deg r < deg g. */
  ghost predicate IsRemainder(m: Poly, r: Poly, g: Poly)
    requires Generator(g)
  {
    |r| == |g| - 1 && exists q: Poly :: Division(m, q, r, g)
  }

  /** m = q*g + r, written out at the common length. */
  predicate Division(m: Poly, q: Poly, r: Poly, g: Poly)
    requires Generator(g) && |r| == |g| - 1
  {
    |q| == |m| && Zeros(|r|) + m == Xor(Times(q, g), Zeros(|m|) + r)
  }

  /** One step of long division: r*x + b reduced modulo g. */
  function Shift(r: Poly, b: bool, g: Poly): (r': Poly)
    requires Generator(g) && |r| == |g| - 1
    ensures |r'| == |r|
  {
    Xor(r + [b], Scale(r[0], g))[1..]
  }

  /** Long division, bringing the coefficients of m down one at a time. */
  function Rem(m: Poly, g: Poly): (r: Poly)
    requires Generator(g)
    ensures |r| == |g| - 1
  {
    if m == [] then Zeros(|g| - 1)
    else Shift(Rem(m[..|m| - 1], g), m[|m| - 1], g)
  }

  /** r*x^n modulo g. */
  function Shifts(r: Poly, n: nat, g: Poly): (r': Poly)
    requires Generator(g) && |r| == |g| - 1
    ensures |r'| == |r|
  {
    if n == 0 then r else Shift(Shifts(r, n - 1, g), false, g)
  }

  /** The shift-register form of division: each coefficient enters at the top of the register. */
  function Register(m: Poly, g: Poly): (r: Poly)
    requires Generator(g)
    ensures |r| == |g| - 1
  {
    if m == [] then Zeros(|g| - 1)
    else Inject(Register(m[..|m| - 1], g), m[|m| - 1], g)
  }

  function Inject(r: Poly, b: bool, g: Poly): (r': Poly)
    requires Generator(g) && |r| == |g| - 1
    ensures |r'| == |r|
  {
    Shift(Xor(r, [b] + Zeros(|r| - 1)), false, g)
  }

  function Parity(a: Poly): bool {
    if a == [] then false else a[|a| - 1] != Parity(a[..|a| - 1])
  }

  // ---------- algebra of one step ----------

  lemma ZerosFacts(n: nat, k: nat)
    ensures Zeros(n) + Zeros(k) == Zeros(n + k)
    ensures !Zeros(n + 1)[0] && Zeros(n + 1)[1..] == Zeros(n) && Zeros(n) + [false] == Zeros(n + 1)
  {
  }

  lemma XorZeros(a: Poly)
    ensures Xor(a, Zeros(|a|)) == a && Xor(Zeros(|a|), a) == a && Xor(a, a) == Zeros(|a|)
  {
  }

  lemma XorZeroMeansEqual(a: Poly, b: Poly)
    requires |a| == |b|
    ensures Xor(a, b) == Zeros(|a|) <==> a == b
  {
    if Xor(a, b) == Zeros(|a|) {
      forall i | 0 <= i < |a| ensures a[i] == b[i] {
        assert Xor(a, b)[i] == Zeros(|a|)[i];
      }
    }
  }

  /** (a1 a2) + (b1 b2) splits into its halves. */
  lemma XorAppend(a1: Poly, a2: Poly, b1: Poly, b2: Poly)
    requires |a1| == |b1| && |a2| == |b2|
    ensures Xor(a1 + a2, b1 + b2) == Xor(a1, b1) + Xor(a2, b2)
  {
  }

  lemma XorSwap(a: Poly, b: Poly, c: Poly, d: Poly)
    requires |a| == |b| == |c| == |d|
    ensures Xor(Xor(a, b), Xor(c, d)) == Xor(Xor(a, c), Xor(b, d))
  {
  }

  lemma ScaleXor(s: bool, t: bool, g: Poly)
    ensures Scale(s != t, g) == Xor(Scale(s, g), Scale(t, g))
  {
    XorZeros(g);
    XorZeros(Zeros(|g|));
  }

  /** Bringing down one coefficient is exactly adding a multiple of g. */
  lemma ShiftEquation(r: Poly, b: bool, g: Poly)
    requires Generator(g) && |r| == |g| - 1
    ensures Xor(r + [b], Scale(r[0], g)) == [false] + Shift(r, b, g)
  {
    var x := Xor(r + [b], Scale(r[0], g));
    assert x == [x[0]] + x[1..];
  }

  lemma ShiftForm(r: Poly, b: bool, g: Poly)
    requires Generator(g) && |r| == |g| - 1
    ensures Shift(r, b, g) == if r[0] then Xor(r[1..] + [b], g[1..]) else r[1..] + [b]
  {
    XorZeros(r + [b]);
    assert (r + [b])[1..] == r[1..] + [b];
  }

  lemma ShiftLinear(r: Poly, b: bool, s: Poly, c: bool, g: Poly)
    requires Generator(g) && |r| == |s| == |g| - 1
    ensures Shift(Xor(r, s), b != c, g) == Xor(Shift(r, b, g), Shift(s, c, g))
  {
    ScaleXor(r[0], s[0], g);
    XorSwap(r + [b], Scale(r[0], g), s + [c], Scale(s[0], g));
    assert Xor(r, s) + [b != c] == Xor(r + [b], s + [c]);
    var x, y := Xor(r + [b], Scale(r[0], g)), Xor(s + [c], Scale(s[0], g));
    assert Xor(x, y)[1..] == Xor(x[1..], y[1..]);
  }

  lemma {:induction false} ShiftsLinear(r: Poly, s: Poly, n: nat, g: Poly)
    requires Generator(g) && |r| == |s| == |g| - 1
    ensures Shifts(Xor(r, s), n, g) == Xor(Shifts(r, n, g), Shifts(s, n, g))
  {
    hide Shift, Xor, Zeros;
    if n > 0 {
      ShiftsLinear(r, s, n - 1, g);
      ShiftLinear(Shifts(r, n - 1, g), false, Shifts(s, n - 1, g), false, g);
    }
  }

  lemma {:induction false} ShiftsCompose(r: Poly, m: nat, n: nat, g: Poly)
    requires Generator(g) && |r| == |g| - 1
    ensures Shifts(Shifts(r, m, g), n, g) == Shifts(r, m + n, g)
  {
    hide Shift, Xor, Zeros;
    if n > 0 { ShiftsCompose(r, m, n - 1, g); }
  }

  // ---------- long division computes the remainder ----------

  lemma XorCancel(a: Poly, b: Poly, c: Poly)
    requires |a| == |b| == |c|
    ensures Xor(Xor(a, c), Xor(b, c)) == Xor(a, b)
  {
  }

  lemma TimesStep(q: Poly, t: bool, g: Poly)
    requires |g| >= 1
    ensures Times(q + [t], g) == Xor(Times(q, g) + [false], Zeros(|q|) + Scale(t, g))
  {
    assert (q + [t])[..|q|] == q;
  }

  lemma ShiftPadded(n: nat, r: Poly, b: bool, g: Poly)
    requires Generator(g) && |r| == |g| - 1
    ensures Zeros(n + 1) + Shift(r, b, g) == Xor(Zeros(n) + r + [b], Zeros(n) + Scale(r[0], g))
  {
    ShiftEquation(r, b, g);
    hide Shift, Scale;
    XorAppend(Zeros(n), r + [b], Zeros(n), Scale(r[0], g));
    XorZeros(Zeros(n));
    hide Xor;
    assert Zeros(n) + r + [b] == Zeros(n) + (r + [b]);
    assert Zeros(n + 1) + Shift(r, b, g) == Zeros(n) + ([false] + Shift(r, b, g));
  }

  /** Extending the quotient by the old top coefficient keeps dividend = quotient*g + remainder. */
  lemma DivisionStep(q: Poly, m: Poly, r: Poly, b: bool, g: Poly)
    requires Generator(g) && |r| == |g| - 1 && Division(m, q, r, g)
    ensures Division(m + [b], q + [r[0]], Shift(r, b, g), g)
  {
    TimesStep(q, r[0], g);
    ShiftPadded(|m|, r, b, g);
    hide Times, Shift, Scale, Zeros;
    var z, t := Zeros(|m|), Times(q, g);
    XorCancel(t + [false], z + r + [b], z + Scale(r[0], g));
    XorAppend(t, [false], z + r, [b]);
    hide Xor;
    assert Zeros(|r|) + (m + [b]) == Zeros(|r|) + m + [b];
  }

  lemma DivideEmpty(g: Poly)
    requires Generator(g)
    ensures Division([], [], Rem([], g), g)
  {
    assert Zeros(|g| - 1) + [] == Xor(Times([], g), Zeros(0) + Rem([], g));
  }

  lemma {:induction false} RemDivides(m: Poly, g: Poly) returns (q: Poly)
    requires Generator(g)
    ensures Division(m, q, Rem(m, g), g)
  {
    hide Times, Xor, Zeros, Shift, Division;
    if m == [] {
      q := [];
      DivideEmpty(g);
    } else {
      var m', b := m[..|m| - 1], m[|m| - 1];
      var q' := RemDivides(m', g);
      DivisionStep(q', m', Rem(m', g), b, g);
      q := q' + [Rem(m', g)[0]];
      assert m == m' + [b];
    }
  }

  // ---------- laws of the remainder ----------

  lemma {:induction false} RemLinear(a: Poly, b: Poly, g: Poly)
    requires Generator(g) && |a| == |b|
    ensures Rem(Xor(a, b), g) == Xor(Rem(a, g), Rem(b, g))
  {
    if a == [] {
      XorZeros(Zeros(|g| - 1));
    } else {
      var n := |a| - 1;
      RemLinear(a[..n], b[..n], g);
      assert Xor(a, b)[..n] == Xor(a[..n], b[..n]);
      hide Shift, Xor, Zeros;
      ShiftLinear(Rem(a[..n], g), a[n], Rem(b[..n], g), b[n], g);
    }
  }

  lemma RemStep(m: Poly, b: bool, g: Poly)
    requires Generator(g)
    ensures Rem(m + [b], g) == Shift(Rem(m, g), b, g)
  {
    assert (m + [b])[..|m|] == m;
  }

  lemma {:induction false} RemTrailingZeros(m: Poly, n: nat, g: Poly)
    requires Generator(g)
    ensures Rem(m + Zeros(n), g) == Shifts(Rem(m, g), n, g)
  {
    hide Xor, Shift, Zeros;
    if n == 0 {
      assert m + Zeros(0) == m;
    } else {
      ZerosFacts(n - 1, 1);
      RemTrailingZeros(m, n - 1, g);
      RemStep(m + Zeros(n - 1), false, g);
      assert m + Zeros(n) == m + Zeros(n - 1) + [false];
    }
  }

  /** Fewer coefficients than the degree: nothing to reduce. */
  lemma {:induction false} RemShort(m: Poly, g: Poly)
    requires Generator(g) && |m| <= |g| - 1
    ensures Rem(m, g) == Zeros(|g| - 1 - |m|) + m
  {
    hide Shift, Xor, Zeros;
    if m == [] {
      assert Zeros(|g| - 1) + m == Zeros(|g| - 1);
    } else {
      var m', b := m[..|m| - 1], m[|m| - 1];
      RemShort(m', g);
      ShiftForm(Rem(m', g), b, g);
      assert m == m' + [b];
      ZerosFacts(|g| - 1 - |m|, 0);
    }
  }

  lemma {:induction false} RemLeadingZeros(n: nat, m: Poly, g: Poly)
    requires Generator(g)
    ensures Rem(Zeros(n) + m, g) == Rem(m, g)
  {
    hide Xor, Shift, Zeros;
    if m == [] {
      assert Zeros(n) + m == Zeros(n);
      RemOfZeros(n, g);
    } else {
      var k := |m| - 1;
      RemLeadingZeros(n, m[..k], g);
      RemStep(Zeros(n) + m[..k], m[k], g);
      assert Zeros(n) + m == Zeros(n) + m[..k] + [m[k]];
    }
  }

  lemma {:induction false} RemOfZeros(n: nat, g: Poly)
    requires Generator(g)
    ensures Rem(Zeros(n), g) == Zeros(|g| - 1)
  {
    if n > 0 {
      RemOfZeros(n - 1, g);
      assert Zeros(n)[..n - 1] == Zeros(n - 1);
      XorZeros(Zeros(|g|));
      assert Zeros(|g| - 1) + [false] == Zeros(|g|);
    }
  }

  lemma RemOfGenerator(b: bool, g: Poly)
    requires Generator(g)
    ensures Rem(Scale(b, g), g) == Zeros(|g| - 1)
  {
    hide Rem, Shift, Xor;
    if b {
      var h, d := g[..|g| - 1], |g| - 1;
      RemShort(h, g);
      assert Zeros(0) + h == h && g == h + [g[d]];
      RemStep(h, g[d], g);
      ShiftForm(h, g[d], g);
      assert h[1..] + [g[d]] == g[1..];
      XorZeros(g[1..]);
    } else {
      RemOfZeros(|g|, g);
    }
  }

  lemma {:induction false} RemOfMultiple(q: Poly, g: Poly)
    requires Generator(g)
    ensures Rem(Times(q, g), g) == Zeros(|g| - 1)
  {
    if q == [] {
      RemOfZeros(|g| - 1, g);
    } else {
      var q', b := q[..|q| - 1], q[|q| - 1];
      RemOfMultiple(q', g);
      RemOfMultipleStep(Times(q', g), |q'|, b, g);
    }
  }

  lemma RemOfMultipleStep(t: Poly, n: nat, b: bool, g: Poly)
    requires Generator(g) && |t| + 1 == n + |g| && Rem(t, g) == Zeros(|g| - 1)
    ensures Rem(Xor(t + [false], Zeros(n) + Scale(b, g)), g) == Zeros(|g| - 1)
  {
    RemLinear(t + [false], Zeros(n) + Scale(b, g), g);
    hide Rem, Scale, Shift;
    RemTrailingZeros(t, 1, g);
    assert Zeros(1) == [false];
    ShiftsOfZeros(1, g);
    RemLeadingZeros(n, Scale(b, g), g);
    RemOfGenerator(b, g);
    XorZeros(Zeros(|g| - 1));
  }

  /** Any division with a short enough remainder has the remainder long division finds. */
  lemma RemainderUnique(m: Poly, q: Poly, r: Poly, g: Poly)
    requires Generator(g) && |r| == |g| - 1 && Division(m, q, r, g)
    ensures r == Rem(m, g)
  {
    hide Rem, Times;
    RemLinear(Times(q, g), Zeros(|m|) + r, g);
    RemOfMultiple(q, g);
    RemLeadingZeros(|m|, r, g);
    RemShort(r, g);
    assert Zeros(0) + r == r;
    XorZeros(r);
    RemLeadingZeros(|r|, m, g);
  }

  /** Long division is polynomial division: Rem is the one and only remainder. */
  lemma RemainderTheorem(m: Poly, r: Poly, g: Poly)
    requires Generator(g)
    ensures IsRemainder(m, r, g) <==> r == Rem(m, g)
  {
    hide Rem, Division;
    var q := RemDivides(m, g);
    if IsRemainder(m, r, g) {
      var p :| Division(m, p, r, g);
      RemainderUnique(m, p, r, g);
    }
  }

  /** A message m followed by a tail t as long as the degree: the tail is simply added. */
  lemma RemAppendTail(m: Poly, t: Poly, g: Poly)
    requires Generator(g) && |t| == |g| - 1
    ensures Rem(m + t, g) == Xor(Rem(m + Zeros(|t|), g), t)
  {
    var z := Zeros(|m|);
    hide Rem, Shift;
    assert m + t == Xor(m + Zeros(|t|), z + t);
    RemLinear(m + Zeros(|t|), z + t, g);
    RemLeadingZeros(|m|, t, g);
    RemShort(t, g);
    assert Zeros(0) + t == t;
  }

  lemma InjectSplits(r: Poly, b: bool, g: Poly)
    requires Generator(g) && |r| == |g| - 1
    ensures Inject(r, b, g) == Xor(Shift(r, false, g), Shift([b] + Zeros(|r| - 1), false, g))
  {
    ShiftLinear(r, false, [b] + Zeros(|r| - 1), false, g);
  }

  lemma BringDownSplits(r: Poly, b: bool, n: nat, g: Poly)
    requires Generator(g) && |r| == |g| - 1
    ensures Shifts(Shift(r, b, g), n, g)
         == Xor(Shift(Shifts(r, n, g), false, g), Shifts(Zeros(|r| - 1) + [b], n, g))
  {
    hide Xor, Zeros;
    BringDown(r, b, g);
    hide Shift;
    ShiftsLinear(Shifts(r, 1, g), Zeros(|r| - 1) + [b], n, g);
    ShiftsCompose(r, 1, n, g);
  }

  /** Adding b at the top of a register that is deg places ahead is bringing b down at the bottom. */
  lemma InjectAhead(r: Poly, b: bool, g: Poly)
    requires Generator(g) && |r| == |g| - 1
    ensures Inject(Shifts(r, |r|, g), b, g) == Shifts(Shift(r, b, g), |r|, g)
  {
    hide Xor, Zeros, Shift, Inject;
    InjectSplits(Shifts(r, |r|, g), b, g);
    BringDownSplits(r, b, |r|, g);
    ClimbToTop(b, g);
  }

  lemma ClimbToTop(b: bool, g: Poly)
    requires Generator(g)
    ensures Shifts(Zeros(|g| - 2) + [b], |g| - 1, g) == Shift([b] + Zeros(|g| - 2), false, g)
  {
    hide Shift, Xor, Shifts, Zeros;
    ShiftsStep(Zeros(|g| - 2) + [b], |g| - 2, g);
    FreeShifts(|g| - 2, [b], |g| - 2, g);
    assert Zeros(0) == [];
    assert Zeros(0) + [b] + Zeros(|g| - 2) == [b] + Zeros(|g| - 2);
  }

  lemma {:induction false} ShiftsOfZeros(n: nat, g: Poly)
    requires Generator(g)
    ensures Shifts(Zeros(|g| - 1), n, g) == Zeros(|g| - 1)
  {
    if n > 0 {
      ShiftsOfZeros(n - 1, g);
      XorZeros(Zeros(|g|));
      assert Zeros(|g| - 1) + [false] == Zeros(|g|);
    }
  }

  lemma {:induction false} RegisterRunsAhead(m: Poly, g: Poly)
    requires Generator(g)
    ensures Register(m, g) == Shifts(Rem(m, g), |g| - 1, g)
  {
    hide Xor, Shift, Inject, Shifts, Zeros;
    if m == [] {
      ShiftsOfZeros(|g| - 1, g);
    } else {
      var m' := m[..|m| - 1];
      RegisterRunsAhead(m', g);
      InjectAhead(Rem(m', g), m[|m| - 1], g);
    }
  }

  /** The shift register holds m(x)*x^deg modulo g, with no explicit padding. */
  lemma RegisterIsPaddedRem(m: Poly, g: Poly)
    requires Generator(g)
    ensures Register(m, g) == Rem(m + Zeros(|g| - 1), g)
  {
    hide Register, Shifts, Rem;
    RegisterRunsAhead(m, g);
    RemTrailingZeros(m, |g| - 1, g);
  }

  lemma BringDown(r: Poly, b: bool, g: Poly)
    requires Generator(g) && |r| == |g| - 1
    ensures Shift(r, b, g) == Xor(Shifts(r, 1, g), Zeros(|r| - 1) + [b])
  {
    assert Shifts(r, 1, g) == Shift(Shifts(r, 0, g), false, g);
  }


  /** While only leading zeros are shifted out, shifting never meets the generator. */
  lemma {:induction false} FreeShifts(k: nat, w: Poly, j: nat, g: Poly)
    requires Generator(g) && k + |w| == |g| - 1 && j <= k
    ensures Shifts(Zeros(k) + w, j, g) == Zeros(k - j) + w + Zeros(j)
  {
    hide Zeros, Shift, Xor;
    if j == 0 {
      assert Zeros(k) + w == Zeros(k) + w + Zeros(0);
    } else {
      FreeShifts(k, w, j - 1, g);
      ShiftForm(Shifts(Zeros(k) + w, j - 1, g), false, g);
      ZerosFacts(k - j, 0);
      ZerosFacts(j - 1, 1);
    }
  }

  lemma ShiftsStep(r: Poly, n: nat, g: Poly)
    requires Generator(g) && |r| == |g| - 1
    ensures Shifts(r, n + 1, g) == Shift(Shifts(r, n, g), false, g)
  {
  }

  lemma ShiftsZero(r: Poly, g: Poly)
    requires Generator(g) && |r| == |g| - 1
    ensures Shifts(r, 0, g) == r
  {
  }

  lemma RegisterStep(m: Poly, b: bool, g: Poly)
    requires Generator(g)
    ensures Register(m + [b], g) == Inject(Register(m, g), b, g)
  {
    assert (m + [b])[..|m|] == m;
  }

  lemma InjectNothing(r: Poly, m: Poly, g: Poly)
    requires Generator(g) && r == Register(m, g)
    ensures Shifts(Xor(r, [] + Zeros(|r|)), 0, g) == Register(m + [], g)
  {
    hide Register;
    XorZeros(r);
    assert [] + Zeros(|r|) == Zeros(|r|) && m + [] == m;
  }

  /** A whole block of coefficients may enter at the top at once. */
  lemma {:induction false} InjectBlock(r: Poly, m: Poly, t: Poly, g: Poly)
    requires Generator(g) && r == Register(m, g) && |t| <= |r|
    ensures Shifts(Xor(r, t + Zeros(|r| - |t|)), |t|, g) == Register(m + t, g)
  {
    hide Zeros, Xor, Shift, Shifts, Register, Inject;
    if t == [] {
      InjectNothing(r, m, g);
    } else {
      var t', b := t[..|t| - 1], t[|t| - 1];
      InjectBlock(r, m, t', g);
      InjectBlockStep(r, t', b, g);
      RegisterStep(m + t', b, g);
      assert t == t' + [b];
      assert m + t == m + t' + [b];
    }
  }

  lemma OverlayBlock(r: Poly, t: Poly, b: bool, k: nat)
    requires |r| == |t| + 1 + k
    ensures Xor(r, t + [b] + Zeros(k)) == Xor(Xor(r, t + Zeros(k + 1)), Zeros(|t|) + ([b] + Zeros(k)))
  {
  }

  lemma InjectBlockStep(r: Poly, t: Poly, b: bool, g: Poly)
    requires Generator(g) && |r| == |g| - 1 && |t| < |r|
    ensures Shifts(Xor(r, t + [b] + Zeros(|r| - |t| - 1)), |t| + 1, g)
         == Inject(Shifts(Xor(r, t + Zeros(|r| - |t|)), |t|, g), b, g)
  {
    hide Shifts, Shift, Xor, Zeros;
    var n, k := |t|, |r| - |t| - 1;
    var x := Xor(r, t + Zeros(k + 1));
    var w := Zeros(n) + ([b] + Zeros(k));
    OverlayBlock(r, t, b, k);
    InjectedBit(b, k, n);
    ShiftsStep(Xor(x, w), n, g);
    ShiftsLinear(x, w, n, g);
    FreeShifts(n, [b] + Zeros(k), n, g);
  }

  lemma InjectedBit(b: bool, k: nat, n: nat)
    ensures Zeros(0) + ([b] + Zeros(k)) + Zeros(n) == [b] + Zeros(k + n)
  {
  }
}
