/** Polynomials over GF(2) modulo the CRC polynomial, as crc32.c holds them: 32 bits, the lowest power in the top bit. */
module Gf2 {
  /** p(x) without its x^32. */
  const POLY: bv32 := 0xedb88320
  /** The polynomial 1. */
  const ONE: bv32 := 0x8000_0000

  /** Addition of polynomials. */
  function Plus(a: bv32, b: bv32): bv32 {
    a ^ b
  }

  lemma XorAssociates(x: bv32, y: bv32, z: bv32)
    ensures (x ^ y) ^ z == x ^ (y ^ z)
  {
  }

  lemma XorCommutes(x: bv32, y: bv32)
    ensures x ^ y == y ^ x
  {
  }

  lemma XorSelf(x: bv32)
    ensures x ^ x == 0 && x ^ 0 == x && 0 ^ x == x
  {
  }

  lemma PlusAssociates(x: bv32, y: bv32, z: bv32)
    ensures Plus(Plus(x, y), z) == Plus(x, Plus(y, z))
  {
    XorAssociates(x, y, z);
  }

  lemma PlusZero(x: bv32)
    ensures Plus(x, x) == 0 && Plus(x, 0) == x && Plus(0, x) == x
  {
    XorSelf(x);
  }

  lemma PlusCommutes(x: bv32, y: bv32)
    ensures Plus(x, y) == Plus(y, x)
  {
    XorCommutes(x, y);
  }

  lemma PlusLaws(x: bv32, y: bv32, z: bv32)
    ensures Plus(Plus(x, y), z) == Plus(x, Plus(y, z)) && Plus(x, y) == Plus(y, x) && Plus(x, x) == 0 && Plus(x, 0) == x && Plus(0, x) == x
    ensures Plus(Plus(x, y), z) == Plus(Plus(x, z), y) && Plus(Plus(x, y), y) == x
  {
    hide Plus;
    PlusAssociates(x, y, z);
    PlusAssociates(x, z, y);
    PlusAssociates(x, y, y);
    PlusCommutes(x, y);
    PlusCommutes(y, z);
    PlusZero(x);
    PlusZero(y);
  }

  lemma FourPlus(a: bv32, b: bv32, c: bv32, d: bv32)
    ensures Plus(Plus(a, b), Plus(c, d)) == Plus(Plus(a, c), Plus(b, d))
  {
    hide Plus;
    PlusAssociates(a, b, Plus(c, d));
    PlusAssociates(b, c, d);
    PlusCommutes(b, c);
    PlusAssociates(c, b, d);
    PlusAssociates(a, c, Plus(b, d));
  }

  // ---- multiplying by x ----

  function X(b: bv32): bv32 {
    if b & 1 == 1 then (b >> 1) ^ POLY else b >> 1
  }

  /** x^n times a. */
  function XP(n: nat, a: bv32): bv32 {
    if n == 0 then a else XP(n - 1, X(a))
  }

  lemma ShiftXor(a: bv32, b: bv32)
    ensures (a ^ b) >> 1 == (a >> 1) ^ (b >> 1) && (a ^ b) & 1 == (a & 1) ^ (b & 1)
  {
  }

  lemma LowBit(a: bv32)
    ensures a & 1 == 0 || a & 1 == 1
  {
  }

  lemma XorPoly(x: bv32, y: bv32)
    ensures (x ^ y) ^ POLY == (x ^ POLY) ^ y && (x ^ y) ^ POLY == x ^ (y ^ POLY) && x ^ y == (x ^ POLY) ^ (y ^ POLY)
  {
  }

  lemma XLinear(a: bv32, b: bv32)
    ensures X(Plus(a, b)) == Plus(X(a), X(b)) && X(0) == 0
  {
    ShiftXor(a, b);
    LowBit(a);
    LowBit(b);
    XorPoly(a >> 1, b >> 1);
  }

  lemma XNonZero(a: bv32)
    requires a != 0
    ensures X(a) != 0
  {
  }

  lemma {:induction false} XPLinear(n: nat, a: bv32, b: bv32)
    ensures XP(n, Plus(a, b)) == Plus(XP(n, a), XP(n, b)) && XP(n, 0) == 0
  {
    hide X, Plus;
    if n > 0 {
      XLinear(a, b);
      XPLinear(n - 1, X(a), X(b));
    }
  }

  lemma {:induction false} XPAdd(m: nat, n: nat, a: bv32)
    ensures XP(m + n, a) == XP(m, XP(n, a))
    decreases n
  {
    if n > 0 { XPAdd(m, n - 1, X(a)); }
  }

  lemma {:induction false} XPNonZero(n: nat, a: bv32)
    requires a != 0
    ensures XP(n, a) != 0
  {
    if n > 0 {
      XNonZero(a);
      XPNonZero(n - 1, X(a));
    }
  }

  // ---- polynomials of any degree, lowest power first ----

  /** q(x) times b, reduced. */
  function Times(q: seq<bool>, b: bv32): bv32 {
    if q == [] then 0 else Plus(if q[0] then b else 0, Times(q[1..], X(b)))
  }

  /** The remainder of q modulo p. */
  function Remainder(q: seq<bool>): bv32 {
    Times(q, ONE)
  }

  function Coef(q: seq<bool>, i: nat): bool {
    i < |q| && q[i]
  }

  function PolyAdd(p: seq<bool>, q: seq<bool>): (r: seq<bool>)
    ensures |r| == if |p| > |q| then |p| else |q|
    ensures forall i: nat :: Coef(r, i) == (Coef(p, i) != Coef(q, i))
  {
    seq(if |p| > |q| then |p| else |q|, i requires i >= 0 => Coef(p, i) != Coef(q, i))
  }

  function PolyMul(p: seq<bool>, q: seq<bool>): seq<bool> {
    if p == [] then [] else PolyAdd(if p[0] then q else [], [false] + PolyMul(p[1..], q))
  }

  lemma {:induction false} TimesLinear(q: seq<bool>, b: bv32, c: bv32)
    ensures Times(q, Plus(b, c)) == Plus(Times(q, b), Times(q, c)) && Times(q, 0) == 0
  {
    hide X, Plus;
    PlusLaws(0, 0, 0);
    if q != [] {
      XLinear(b, c);
      TimesLinear(q[1..], X(b), X(c));
      FourPlus(if q[0] then b else 0, if q[0] then c else 0, Times(q[1..], X(b)), Times(q[1..], X(c)));
    }
  }

  lemma {:induction false} TimesX(q: seq<bool>, b: bv32)
    ensures Times(q, X(b)) == X(Times(q, b))
  {
    hide X, Plus;
    XLinear(0, 0);
    if q != [] {
      TimesX(q[1..], X(b));
      XLinear(if q[0] then b else 0, Times(q[1..], X(b)));
    }
  }

  lemma {:induction false} TimesXP(q: seq<bool>, n: nat, b: bv32)
    ensures Times(q, XP(n, b)) == XP(n, Times(q, b))
    decreases n
  {
    hide X, Plus;
    if n > 0 {
      TimesXP(q, n - 1, X(b));
      TimesX(q, b);
    }
  }

  lemma {:induction false} TimesConcat(p: seq<bool>, q: seq<bool>, b: bv32)
    ensures Times(p + q, b) == Plus(Times(p, b), Times(q, XP(|p|, b)))
  {
    hide X, Plus;
    if p == [] {
      assert p + q == q;
      PlusLaws(Times(q, b), 0, 0);
    } else {
      assert (p + q)[1..] == p[1..] + q;
      TimesConcat(p[1..], q, X(b));
      PlusLaws(if p[0] then b else 0, Times(p[1..], X(b)), Times(q, XP(|p|, b)));
    }
  }

  /** Multiplying by two polynomials in either order. */
  lemma {:induction false} TimesCommute(p: seq<bool>, q: seq<bool>, b: bv32)
    ensures Times(p, Times(q, b)) == Times(q, Times(p, b))
  {
    hide X, Plus;
    TimesLinear(q, 0, 0);
    if p != [] {
      TimesCommute(p[1..], q, X(b));
      TimesX(q, b);
      TimesLinear(q, if p[0] then b else 0, Times(p[1..], X(b)));
    }
  }

  lemma {:induction false} TimesAdd(p: seq<bool>, q: seq<bool>, b: bv32)
    ensures Times(PolyAdd(p, q), b) == Plus(Times(p, b), Times(q, b))
    decreases |p| + |q|
  {
    hide X, Plus;
    PlusLaws(0, 0, 0);
    if p != [] || q != [] {
      var p', q' := if p == [] then [] else p[1..], if q == [] then [] else q[1..];
      SumTail(p, q, p', q');
      TimesAdd(p', q', X(b));
      var u, v := if Coef(p, 0) then b else 0, if Coef(q, 0) then b else 0;
      FourPlus(u, v, Times(p', X(b)), Times(q', X(b)));
      PlusLaws(b, 0, 0);
      assert Times(p, b) == Plus(u, Times(p', X(b))) && Times(q, b) == Plus(v, Times(q', X(b)));
      hide PolyAdd;
    }
  }

  lemma SumTail(p: seq<bool>, q: seq<bool>, p': seq<bool>, q': seq<bool>)
    requires |p| + |q| > 0 && p' == (if p == [] then [] else p[1..]) && q' == (if q == [] then [] else q[1..])
    ensures PolyAdd(p, q) != [] && PolyAdd(p, q)[1..] == PolyAdd(p', q') && PolyAdd(p, q)[0] == (Coef(p, 0) != Coef(q, 0))
  {
    var s, s' := PolyAdd(p, q), PolyAdd(p', q');
    assert Coef(s, 0) == s[0];
    assert |s'| == |s| - 1;
    forall i | 0 <= i < |s'| ensures s'[i] == s[i + 1] {
      assert Coef(s', i) == s'[i] && Coef(s, i + 1) == s[i + 1];
    }
  }

  /** Multiplying by a product is multiplying by the factors. */
  lemma {:induction false} TimesMul(p: seq<bool>, q: seq<bool>, b: bv32)
    ensures Times(PolyMul(p, q), b) == Times(p, Times(q, b))
  {
    hide X, Plus, PolyAdd;
    if p != [] {
      var rest := PolyMul(p[1..], q);
      TimesAdd(if p[0] then q else [], [false] + rest, b);
      assert ([false] + rest)[1..] == rest;
      TimesMul(p[1..], q, X(b));
      TimesX(q, b);
      PlusLaws(Times(rest, X(b)), 0, 0);
    }
  }

  // ---- 32-bit values as polynomials ----

  function Twice(a: bv32): bv32 {
    a << 1
  }

  function Half(m: bv32): bv32 {
    m >> 1
  }

  function Bit(a: bv32, m: bv32): bool {
    a & m != 0
  }

  /** The n top coefficients of a. */
  function CoeffsN(a: bv32, n: nat): (q: seq<bool>)
    ensures |q| == n
    decreases n
  {
    if n == 0 then [] else [Bit(a, ONE)] + CoeffsN(Twice(a), n - 1)
  }

  function Coeffs(a: bv32): (q: seq<bool>)
    ensures |q| == 32
  {
    CoeffsN(a, 32)
  }

  /** The product of two polynomials, reduced: what multmodp is to compute. */
  function Mul(a: bv32, b: bv32): bv32 {
    Times(Coeffs(a), b)
  }

  /** The first term of the product. */
  function P1(a: bv32, b: bv32): bv32 {
    if Bit(a, ONE) then b else 0
  }

  lemma TimesStep(a: bv32, b: bv32, n: nat)
    requires n > 0
    ensures Times(CoeffsN(a, n), b) == Plus(P1(a, b), Times(CoeffsN(Twice(a), n - 1), X(b)))
  {
    hide X, Plus;
    assert CoeffsN(a, n)[1..] == CoeffsN(Twice(a), n - 1);
  }

  /** a shifted up i times: what is left of it after i steps of multmodp. */
  function Up(a: bv32, i: nat): bv32
    decreases i
  {
    if i == 0 then a else Up(Twice(a), i - 1)
  }

  lemma {:induction false} UpNext(a: bv32, i: nat)
    ensures Up(a, i + 1) == Twice(Up(a, i))
    decreases i
  {
    if i > 0 { UpNext(Twice(a), i - 1); }
  }

  lemma UpAll(a: bv32)
    ensures Up(a, 32) == 0
  {
    hide Up;
    var b := a << 8;
    var c := b << 8;
    var d := c << 8;
    Up8(a, 24);
    Up8(b, 16);
    Up8(c, 8);
    Up8(d, 0);
    NoShift(d << 8);
    AllOut(a);
  }

  lemma AllOut(a: bv32)
    ensures a << 8 << 8 << 8 << 8 == 0
  {
  }

  lemma Up8(a: bv32, i: nat)
    ensures Up(a, i + 8) == Up(a << 8, i)
  {
    Up4(a, i + 4);
    Up4(a << 4, i);
  }

  lemma Up4(a: bv32, i: nat)
    ensures Up(a, i + 4) == Up(a << 4, i)
  {
    assert Up(a, i + 4) == Up(a << 1, i + 3) == Up(a << 1 << 1, i + 2) == Up(a << 1 << 1 << 1, i + 1);
    assert a << 1 << 1 << 1 << 1 == a << 4;
  }

  /** A value is the sum of its terms, provided the bits below the top n are clear. */
  lemma {:induction false} OwnTerms(a: bv32, n: nat)
    requires Up(a, n) == 0
    ensures Times(CoeffsN(a, n), ONE) == a
    decreases n
  {
    hide X, Plus, P1, Twice, Bit;
    if n > 0 {
      OwnTerms(Twice(a), n - 1);
      TimesStep(a, ONE, n);
      TimesX(CoeffsN(Twice(a), n - 1), ONE);
      TopAndRest(a);
    }
  }

  lemma TopAndRest(a: bv32)
    ensures Plus(P1(a, ONE), X(Twice(a))) == a
  {
    LowClear(a);
    TopBit(a);
  }

  lemma LowClear(a: bv32)
    ensures (a << 1) & 1 == 0
  {
  }

  lemma TopBit(a: bv32)
    ensures (a & ONE) ^ ((a << 1) >> 1) == a && (a & ONE == 0 || a & ONE == ONE)
  {
  }

  lemma CoeffsBack(a: bv32)
    ensures Remainder(Coeffs(a)) == a
  {
    UpAll(a);
    OwnTerms(a, 32);
  }

  /** The reduced product is the remainder of the product of the polynomials. */
  lemma MulIsProduct(a: bv32, b: bv32)
    ensures Mul(a, b) == Remainder(PolyMul(Coeffs(a), Coeffs(b)))
  {
    hide Times, Coeffs, PolyMul;
    TimesMul(Coeffs(a), Coeffs(b), ONE);
    CoeffsBack(b);
  }

  lemma MulCommutes(a: bv32, b: bv32)
    ensures Mul(a, b) == Mul(b, a)
  {
    hide Times, Coeffs;
    CoeffsBack(a);
    CoeffsBack(b);
    TimesCommute(Coeffs(a), Coeffs(b), ONE);
  }

  /** The product with x^n. */
  lemma MulPower(n: nat, b: bv32)
    ensures Mul(XP(n, ONE), b) == XP(n, b)
  {
    hide Times, Coeffs, XP;
    MulCommutes(XP(n, ONE), b);
    TimesXP(Coeffs(b), n, ONE);
    CoeffsBack(b);
  }

  /** The CRC polynomial in full, and that it is zero modulo itself. */
  function CrcPoly(): seq<bool> {
    Coeffs(POLY) + [true]
  }

  lemma CrcPolyVanishes(b: bv32)
    ensures Times(CrcPoly(), b) == 0
  {
    hide X, Plus, XP, Coeffs;
    TimesConcat(Coeffs(POLY), [true], b);
    assert [true][1..] == [];
    PlusLaws(XP(32, b), 0, 0);
    Wrap(b);
  }

  /** x^32 is POLY. */
  lemma Wrap(b: bv32)
    ensures Times(Coeffs(POLY), b) == XP(32, b)
  {
    ShiftOut();
    MulPower(32, b);
  }

  lemma ShiftOut()
    ensures XP(32, ONE) == POLY
  {
    hide XP;
    XP8Of(24, ONE, 0x0080_0000);
    XP8Of(16, 0x0080_0000, 0x0000_8000);
    XP8Of(8, 0x0000_8000, 0x0000_0080);
    XP8Of(0, 0x0000_0080, POLY);
    XP0(POLY);
  }

  lemma XP0(b: bv32)
    ensures XP(0, b) == b
  {
  }

  function X8(c: bv32): bv32 {
    X(X(X(X(X(X(X(X(c))))))))
  }

  lemma XP8(n: nat, b: bv32)
    ensures XP(n + 8, b) == XP(n, X8(b)) && XP(8, b) == X8(b)
  {
    hide X;
    var b1 := X(b);
    var b2 := X(b1);
    var b3 := X(b2);
    var b4 := X(b3);
    assert XP(n + 8, b) == XP(n + 7, b1) == XP(n + 6, b2) == XP(n + 5, b3) == XP(n + 4, b4);
    assert XP(n + 4, b4) == XP(n + 3, X(b4)) == XP(n + 2, X(X(b4))) == XP(n + 1, X(X(X(b4))));
    assert XP(8, b) == XP(7, b1) == XP(6, b2) == XP(5, b3) == XP(4, b4);
    assert XP(4, b4) == XP(3, X(b4)) == XP(2, X(X(b4))) == XP(1, X(X(X(b4))));
  }

  lemma XP8Of(n: nat, b: bv32, c: bv32)
    requires X8(b) == c
    ensures XP(n + 8, b) == XP(n, c)
  {
    XP8(n, b);
  }

  /** Remainder is what dividing by the CRC polynomial leaves. */
  lemma RemainderIsRemainder(k: seq<bool>, r: bv32)
    ensures Remainder(PolyAdd(PolyMul(k, CrcPoly()), Coeffs(r))) == r
  {
    hide X, Plus, Coeffs, CrcPoly, PolyAdd, PolyMul;
    TimesAdd(PolyMul(k, CrcPoly()), Coeffs(r), ONE);
    TimesMul(k, CrcPoly(), ONE);
    CrcPolyVanishes(ONE);
    TimesLinear(k, 0, 0);
    CoeffsBack(r);
    PlusLaws(r, 0, 0);
  }

  // ---- multmodp ----

  function Mask(i: nat): bv32 {
    if i == 0 then ONE else Half(Mask(i - 1))
  }

  lemma MaskFacts(i: nat)
    requires i <= 31
    ensures Mask(i) != 0 && (i < 31 ==> Mask(i) & 1 == 0)
  {
    assert Mask(0) == 0x8000_0000 && Mask(1) == 0x4000_0000 && Mask(2) == 0x2000_0000 && Mask(3) == 0x1000_0000;
    assert Mask(4) == 0x0800_0000 && Mask(5) == 0x0400_0000 && Mask(6) == 0x0200_0000 && Mask(7) == 0x0100_0000;
    assert Mask(8) == 0x0080_0000 && Mask(9) == 0x0040_0000 && Mask(10) == 0x0020_0000 && Mask(11) == 0x0010_0000;
    assert Mask(12) == 0x0008_0000 && Mask(13) == 0x0004_0000 && Mask(14) == 0x0002_0000 && Mask(15) == 0x0001_0000;
    assert Mask(16) == 0x8000 && Mask(17) == 0x4000 && Mask(18) == 0x2000 && Mask(19) == 0x1000;
    assert Mask(20) == 0x0800 && Mask(21) == 0x0400 && Mask(22) == 0x0200 && Mask(23) == 0x0100;
    assert Mask(24) == 0x80 && Mask(25) == 0x40 && Mask(26) == 0x20 && Mask(27) == 0x10;
    assert Mask(28) == 0x8 && Mask(29) == 0x4 && Mask(30) == 0x2 && Mask(31) == 0x1;
  }

  /** multmodp's second test: no bit of a below m. */
  function LastBit(a: bv32, m: bv32): bool {
    Clear(a, Below(m))
  }

  function Clear(a: bv32, r: bv32): bool {
    a & r == 0
  }

  /** The bits below the one bit of m. */
  function Below(m: bv32): bv32 {
    m - 1
  }

  /** Testing a moving bit of a is testing the top bit of a shifted up. */
  lemma {:induction false} Probe(a: bv32, i: nat)
    requires i <= 31
    ensures Bit(a, Mask(i)) == Bit(Up(a, i), ONE) && LastBit(a, Mask(i)) == (Twice(Up(a, i)) == 0)
    decreases i
  {
    hide *;
    if i == 0 {
      NoShift(a);
      TopOnly(a);
    } else {
      OneShift(a, i);
      MaskFacts(i - 1);
      Probe(Twice(a), i - 1);
      MoveMask(a, Mask(i - 1));
    }
  }

  lemma NoShift(a: bv32)
    ensures Up(a, 0) == a && Mask(0) == ONE
  {
  }

  lemma OneShift(a: bv32, i: nat)
    requires i > 0
    ensures Up(a, i) == Up(Twice(a), i - 1) && Mask(i) == Half(Mask(i - 1))
  {
  }

  lemma TopOnly(a: bv32)
    ensures LastBit(a, ONE) == (Twice(a) == 0)
  {
  }

  lemma MoveMask(a: bv32, m: bv32)
    requires m & 1 == 0 && m != 0
    ensures Bit(a, Half(m)) == Bit(Twice(a), m) && LastBit(a, Half(m)) == LastBit(Twice(a), m)
  {
    hide Bit, Clear, Below, Half, Twice;
    MoveTest(a, m);
    OneLess(m);
    MoveRest(a, Below(m));
  }

  lemma MoveTest(a: bv32, m: bv32)
    requires m & 1 == 0
    ensures Bit(a, Half(m)) == Bit(Twice(a), m)
  {
  }

  lemma OneLess(m: bv32)
    requires m & 1 == 0 && m != 0
    ensures Below(Half(m)) == Half(Below(m))
  {
  }

  lemma MoveRest(a: bv32, r: bv32)
    ensures Clear(a, Half(r)) == Clear(Twice(a), r)
  {
  }
}
