/** adler32.c: two running sums modulo 65521, reduced as late as 32 bits allow, and their combination. */
module Adler32 {
  import opened Common

  const BASE := 65521
  const NMAX := 5552
  const WORD := 0x1_0000_0000

  // ---- what the checksum is ----

  /** The two sums, taken modulo BASE at every byte (section 8.2 of RFC 1950). */
  function Sums(a: nat, b: nat, buf: seq<Byte>): (nat, nat) {
    if buf == [] then (a % BASE, b % BASE)
    else
      var (x, y) := Sums(a, b, buf[..|buf| - 1]);
      var x' := (x + buf[|buf| - 1]) % BASE;
      (x', (y + x') % BASE)
  }

  function Pack(sums: (nat, nat)): nat {
    sums.1 * 0x1_0000 + sums.0
  }

  /** The sums without reduction. */
  function Total(a: nat, buf: seq<Byte>): nat {
    if buf == [] then a else Total(a, buf[..|buf| - 1]) + buf[|buf| - 1]
  }

  function Weighted(a: nat, b: nat, buf: seq<Byte>): nat {
    if buf == [] then b else Weighted(a, b, buf[..|buf| - 1]) + Total(a, buf)
  }

  lemma ModSum(x: int, y: int)
    ensures (x % BASE + y) % BASE == (x + y) % BASE && (x % BASE + y % BASE) % BASE == (x + y) % BASE
  {
    ModAdd(x, y, BASE);
    ModAdd(y, x % BASE, BASE);
  }

  /** Reducing at every byte or only at the end is the same. */
  lemma {:induction false} LateReduction(a: nat, b: nat, buf: seq<Byte>)
    ensures Sums(a, b, buf) == (Total(a, buf) % BASE, Weighted(a, b, buf) % BASE)
  {
    if buf != [] {
      var prefix, x := buf[..|buf| - 1], buf[|buf| - 1];
      LateReduction(a, b, prefix);
      ModSum(Total(a, prefix), x);
      ModSum(Weighted(a, b, prefix), Total(a, buf));
    }
  }

  /** Starting values shift the sums linearly. */
  lemma {:induction false} StartShift(a: nat, b: nat, buf: seq<Byte>)
    ensures Total(a, buf) == Total(1, buf) + a - 1
    ensures Weighted(a, b, buf) == Weighted(1, 0, buf) + b + |buf| * (a - 1)
  {
    if buf != [] {
      StartShift(a, b, buf[..|buf| - 1]);
      assert |buf| * (a - 1) == (|buf| - 1) * (a - 1) + (a - 1);
    }
  }

  lemma {:induction false} TotalConcat(a: nat, b: nat, s: seq<Byte>, t: seq<Byte>)
    ensures Total(a, s + t) == Total(Total(a, s), t)
    ensures Weighted(a, b, s + t) == Weighted(Total(a, s), Weighted(a, b, s), t)
  {
    if t == [] {
      assert s + t == s;
    } else {
      assert (s + t)[..|s + t| - 1] == s + t[..|t| - 1];
      TotalConcat(a, b, s, t[..|t| - 1]);
    }
  }

  /** Going on from the sums of a first part gives the sums of the whole. */
  lemma Continued(a: nat, b: nat, s: seq<Byte>, t: seq<Byte>)
    ensures var (x, y) := Sums(a, b, s); Sums(x, y, t) == Sums(a, b, s + t)
  {
    var (x, y) := Sums(a, b, s);
    LateReduction(a, b, s);
    LateReduction(a, b, s + t);
    LateReduction(x, y, t);
    TotalConcat(a, b, s, t);
    var ta, tb := Total(a, s), Weighted(a, b, s);
    StartShift(x, y, t);
    StartShift(ta, tb, t);
    SameRemainder(ta, |t|);
    Congruent(Total(1, t) + x - 1, Total(1, t) + ta - 1, ta / BASE);
    Congruent(Weighted(1, 0, t) + y + |t| * (x - 1), Weighted(1, 0, t) + tb + |t| * (ta - 1), tb / BASE + |t| * (ta / BASE));
  }

  lemma SameRemainder(t: nat, n: nat)
    ensures n * (t - 1) == n * (t % BASE - 1) + n * (t / BASE) * BASE
  {
    var q, r := t / BASE, t % BASE;
    assert t - 1 == (r - 1) + q * BASE;
    assert n * ((r - 1) + q * BASE) == n * (r - 1) + n * (q * BASE);
    assert n * (q * BASE) == n * q * BASE;
  }

  lemma Congruent(x: int, y: int, k: int)
    requires y == x + k * BASE
    ensures x % BASE == y % BASE
  {
    var q, r := x / BASE, x % BASE;
    assert y == (q + k) * BASE + r;
    DivModUnique(y, BASE, q + k, r);
  }

  // ---- reduction without division ----

  /** CHOP: 65536 is 15 more than BASE. */
  method Chop(a: nat) returns (r: nat)
    requires a < WORD
    ensures r % BASE == a % BASE && r <= a / 0x1_0000 * 15 + 0xffff
  {
    var tmp := a / 0x1_0000;
    r := a % 0x1_0000;
    r := r + (tmp * 16 - tmp);
    Congruent(r, a, tmp);
  }

  method Mod28(a: nat) returns (r: nat)
    requires a < 0x1000_0000
    ensures r == a % BASE
  {
    r := Chop(a);
    if r >= BASE { r := r - BASE; }
  }

  method ModShift(a: nat) returns (r: nat)
    requires a < WORD
    ensures r == a % BASE
  {
    r := Chop(a);
    r := Mod28(r);
  }

  method Mod63(a: nat) returns (r: nat)
    requires a < 0x8000_0000_0000_0000
    ensures r == a % BASE
  {
    var tmp := a / WORD;
    r := a % WORD;
    r := r + (tmp * 256 - tmp * 32 + tmp);
    Congruent(r, a, tmp * 65551);
    ghost var r1 := r;
    tmp := r / 0x1_0000;
    r := r % 0x1_0000;
    r := r + (tmp * 16 - tmp);
    Congruent(r, r1, tmp);
    ghost var r2 := r;
    tmp := r / 0x1_0000;
    r := r % 0x1_0000;
    r := r + (tmp * 16 - tmp);
    Congruent(r, r2, tmp);
    if r >= BASE { r := r - BASE; }
  }

  /** MOD, in the build with or without division. */
  method Mod(a: nat, noDivide: bool) returns (r: nat)
    requires a < WORD
    ensures r == a % BASE
  {
    if noDivide { r := ModShift(a); } else { r := a % BASE; }
  }

  // ---- the running sums ----

  /** Largest values the sums can have k bytes after a reduction, or after the start with any 16-bit halves. */
  function MostTotal(k: nat): nat {
    0xffff + 255 * k
  }

  function MostWeighted(k: nat): nat {
    if k == 0 then 0xffff else MostWeighted(k - 1) + MostTotal(k)
  }

  lemma {:induction false} MostClosed(k: nat)
    ensures 2 * MostWeighted(k) == 2 * 0xffff * (k + 1) + 255 * (k * (k + 1))
  {
    if k > 0 {
      MostClosed(k - 1);
      assert k * (k + 1) == (k - 1) * k + 2 * k;
    }
  }

  /** NMAX bytes fit between reductions. */
  lemma NoOverflow(k: nat)
    requires k <= NMAX
    ensures MostTotal(k) <= MostWeighted(k) < WORD
  {
    MostClosed(k);
    Square(k, NMAX);
    if k > 0 { assert MostWeighted(k - 1) >= 0; }
  }

  lemma Square(k: nat, n: nat)
    requires k <= n
    ensures k * (k + 1) <= n * (n + 1)
  {
    assert n * (n + 1) - k * (k + 1) == (n - k) * (n + k + 1);
  }

  /** The sums stand for the first i bytes, and k bytes went by since they were last reduced. */
  ghost predicate Running(a: nat, b: nat, buf: seq<Byte>, i: int, adler: int, sum2: int, k: nat) {
    0 <= i <= |buf| && 0 <= adler <= MostTotal(k) && 0 <= sum2 <= MostWeighted(k)
    && adler % BASE == Sums(a, b, buf[..i]).0 && sum2 % BASE == Sums(a, b, buf[..i]).1
  }

  lemma RunStep(a: nat, b: nat, buf: seq<Byte>, i: int, adler: int, sum2: int, k: nat)
    requires Running(a, b, buf, i, adler, sum2, k) && i < |buf|
    ensures Running(a, b, buf, i + 1, adler + buf[i], sum2 + (adler + buf[i]), k + 1)
  {
    assert buf[..i + 1][..i] == buf[..i];
    ModSum(adler, buf[i]);
    ModSum(sum2, adler + buf[i]);
  }

  lemma Reduced(a: nat, b: nat, buf: seq<Byte>, i: int, adler: int, sum2: int, k: nat)
    requires Running(a, b, buf, i, adler, sum2, k)
    ensures Running(a, b, buf, i, adler % BASE, sum2 % BASE, 0)
    ensures (adler % BASE, sum2 % BASE) == Sums(a, b, buf[..i])
  {
  }

  lemma SumsFit(a: nat, b: nat, buf: seq<Byte>, i: int, adler: int, sum2: int, k: nat)
    requires Running(a, b, buf, i, adler, sum2, k) && k <= NMAX
    ensures 0 <= adler < WORD && 0 <= sum2 < WORD
  {
    NoOverflow(k);
  }

  /** DO1 for n bytes: no sum leaves 32 bits as long as no more than NMAX bytes go by between reductions. */
  method Accumulate(buf: array<Byte>, from: nat, n: nat, adler0: nat, sum20: nat, ghost a: nat, ghost b: nat, ghost k: nat) returns (adler: nat, sum2: nat)
    requires from + n <= buf.Length && k + n <= NMAX && Running(a, b, buf[..], from, adler0, sum20, k)
    ensures Running(a, b, buf[..], from + n, adler, sum2, k + n) && adler < WORD && sum2 < WORD
  {
    adler, sum2 := adler0, sum20;
    SumsFit(a, b, buf[..], from, adler, sum2, k);
    hide *;
    var i := 0;
    while i < n
      invariant 0 <= i <= n && Running(a, b, buf[..], from + i, adler, sum2, k + i) && adler < WORD && sum2 < WORD
    {
      RunStep(a, b, buf[..], from + i, adler, sum2, k + i);
      SumsFit(a, b, buf[..], from + i + 1, adler + buf[from + i], sum2 + (adler + buf[from + i]), k + i + 1);
      adler := adler + buf[from + i];
      sum2 := sum2 + adler;
      i := i + 1;
    }
  }

  /** adler32_z for a buffer that is there. Whatever the halves of the first argument, the result has the reduced sums of
      all bytes, but for one case: a single byte on top of an upper half that was not reduced may leave the upper sum
      unreduced. */
  method Update(adler0: nat, buf: array<Byte>, noDivide: bool) returns (r: nat)
    requires adler0 < WORD
    ensures var a, b := adler0 % 0x1_0000, adler0 / 0x1_0000;
            r == Pack(Sums(a, b, buf[..])) <==> (buf.Length == 1 ==> b + (a + buf[0]) % BASE < 2 * BASE)
    ensures buf.Length == 1 ==> r == OneByteResult(adler0 % 0x1_0000, adler0 / 0x1_0000, buf[0])
  {
    var sum2 := adler0 / 0x1_0000;
    var adler := adler0 % 0x1_0000;
    hide Sums, OneByteResult;
    if buf.Length == 1 {
      OneByte(adler, sum2, buf[..]);
      adler, sum2 := Single(adler, sum2, buf[0]);
    } else if buf.Length < 16 {
      adler, sum2 := Few(buf, adler, sum2, noDivide);
    } else {
      adler, sum2 := Blocks(buf, adler, sum2, noDivide);
    }
    return sum2 * 0x1_0000 + adler;
  }

  /** What the one-byte path returns: at most one subtraction in each half. */
  function OneByteResult(a: nat, b: nat, x: Byte): nat {
    var adler := if a + x >= BASE then a + x - BASE else a + x;
    (if b + adler >= BASE then b + adler - BASE else b + adler) * 0x1_0000 + adler
  }

  /** From the upper half 65535 and the lower half 65520, a zero byte: the upper sum comes out as 65534 and should be 13. */
  lemma UnreducedHalf()
    ensures OneByteResult(65520, 65535, 0) == 65534 * 0x1_0000 + 65520 && Pack(Sums(65520, 65535, [0])) == 13 * 0x1_0000 + 65520
  {
    OneByte(65520, 65535, [0]);
  }

  lemma OneByte(a: nat, b: nat, buf: seq<Byte>)
    requires |buf| == 1
    ensures Sums(a, b, buf) == ((a + buf[0]) % BASE, (b + (a + buf[0]) % BASE) % BASE)
  {
    assert buf[..0] == [];
    ModSum(a, buf[0]);
    ModSum(b, (a + buf[0]) % BASE);
  }

  lemma FewBounds(k: nat)
    requires k < 16
    ensures MostTotal(k) < 2 * BASE && MostWeighted(k) < 0x1000_0000
  {
    MostClosed(k);
    Square(k, 16);
  }

  /** Fewer than 16 bytes: one subtraction brings the lower sum down, the upper one stays below 2^28. */
  method Few(buf: array<Byte>, a: nat, b: nat, noDivide: bool) returns (adler: nat, sum2: nat)
    requires a < 0x1_0000 && b < 0x1_0000 && buf.Length < 16
    ensures (adler, sum2) == Sums(a, b, buf[..])
  {
    var len := buf.Length;
    assert buf[..0] == [] && buf[..len] == buf[..];
    adler, sum2 := Accumulate(buf, 0, len, a, b, a, b, 0);
    Reduced(a, b, buf[..], len, adler, sum2, len);
    FewBounds(len);
    assert adler <= MostTotal(len) && sum2 <= MostWeighted(len);
    hide *;
    if adler >= BASE { adler := adler - BASE; }
    sum2 := Mod28Or(sum2, noDivide);
  }

  method Mod28Or(a: nat, noDivide: bool) returns (r: nat)
    requires a < 0x1000_0000
    ensures r == a % BASE
  {
    if noDivide { r := Mod28(a); } else { r := a % BASE; }
  }

  /** One byte, each sum brought down by at most one subtraction. */
  method Single(a: nat, b: nat, x: Byte) returns (adler: nat, sum2: nat)
    requires a < 0x1_0000 && b < 0x1_0000
    ensures adler == (a + x) % BASE && (sum2 == (b + adler) % BASE <==> b + adler < 2 * BASE)
    ensures adler < BASE && sum2 < 0x1_0000 && sum2 * 0x1_0000 + adler == OneByteResult(a, b, x)
  {
    adler := a + x;
    if adler >= BASE { adler := adler - BASE; }
    sum2 := b + adler;
    if sum2 >= BASE { sum2 := sum2 - BASE; }
  }

  /** Blocks of NMAX bytes, sixteen at a time, then the rest. */
  method Blocks(buf: array<Byte>, a: nat, b: nat, noDivide: bool) returns (adler: nat, sum2: nat)
    requires a < 0x1_0000 && b < 0x1_0000 && buf.Length > 0
    ensures (adler, sum2) == Sums(a, b, buf[..])
  {
    adler, sum2 := a, b;
    var pos, len := 0, buf.Length;
    assert buf[..0] == [];
    while len >= NMAX
      invariant 0 <= len && pos + len == buf.Length && Running(a, b, buf[..], pos, adler, sum2, 0)
      invariant len == 0 ==> (adler, sum2) == Sums(a, b, buf[..pos])
    {
      len := len - NMAX;
      adler, sum2 := Sixteens(buf, pos, NMAX / 16, adler, sum2, a, b);
      pos := pos + NMAX;
      Reduced(a, b, buf[..], pos, adler, sum2, NMAX);
      adler := Mod(adler, noDivide);
      sum2 := Mod(sum2, noDivide);
    }
    if len > 0 {
      var n := len / 16;
      if n > 0 {
        adler, sum2 := Sixteens(buf, pos, n, adler, sum2, a, b);
      }
      adler, sum2 := Accumulate(buf, pos + 16 * n, len - 16 * n, adler, sum2, a, b, 16 * n);
      Reduced(a, b, buf[..], buf.Length, adler, sum2, len);
      adler := Mod(adler, noDivide);
      sum2 := Mod(sum2, noDivide);
    }
    assert buf[..buf.Length] == buf[..];
  }

  /** n times DO16. */
  method Sixteens(buf: array<Byte>, from: nat, n0: nat, adler0: nat, sum20: nat, ghost a: nat, ghost b: nat) returns (adler: nat, sum2: nat)
    requires n0 > 0 && from + 16 * n0 <= buf.Length && 16 * n0 <= NMAX && Running(a, b, buf[..], from, adler0, sum20, 0)
    ensures Running(a, b, buf[..], from + 16 * n0, adler, sum2, 16 * n0) && adler < WORD && sum2 < WORD
  {
    adler, sum2 := adler0, sum20;
    var pos, n := from, n0;
    while true
      invariant 0 < n <= n0 && pos == from + 16 * (n0 - n) && Running(a, b, buf[..], pos, adler, sum2, 16 * (n0 - n))
      decreases n
    {
      adler, sum2 := Accumulate(buf, pos, 16, adler, sum2, a, b, 16 * (n0 - n));
      pos := pos + 16;
      n := n - 1;
      if n == 0 { break; }
    }
  }

  /** adler32_z: no buffer asks for the starting value. A length of one is looked at first, so there a buffer must be given. */
  method AdlerZ(adler: nat, buf: array?<Byte>, noDivide: bool) returns (r: nat)
    requires adler < WORD
    ensures buf == null ==> r == 1
    ensures buf != null && adler % 0x1_0000 < BASE && adler / 0x1_0000 < BASE ==> r == Pack(Sums(adler % 0x1_0000, adler / 0x1_0000, buf[..]))
  {
    if buf == null { return 1; }
    r := Update(adler, buf, noDivide);
  }

  // ---- combining ----

  /** The checksum of s from the starting value 1. */
  function Checksum(s: seq<Byte>): nat {
    Pack(Sums(1, 0, s))
  }

  lemma ChecksumHalves(s: seq<Byte>)
    ensures Checksum(s) % 0x1_0000 == Sums(1, 0, s).0 < BASE && Checksum(s) / 0x1_0000 == Sums(1, 0, s).1 < BASE
  {
    LateReduction(1, 0, s);
    DivModUnique(Checksum(s), 0x1_0000, Sums(1, 0, s).1, Sums(1, 0, s).0);
  }

  /** What combining makes of two pairs of sums, the second over n bytes. */
  function Joined(p: (nat, nat), q: (nat, nat), n: nat): (nat, nat) {
    ((p.0 + q.0 + BASE - 1) % BASE, (p.1 + q.1 + n % BASE * (p.0 + BASE - 1)) % BASE)
  }

  /** adler32_combine_. */
  method Combine(adler1: nat, adler2: nat, len2: int, noDivide: bool) returns (r: nat)
    requires adler1 < WORD && adler2 < WORD && len2 < 0x8000_0000_0000_0000
    ensures len2 < 0 ==> r == 0xffff_ffff
    ensures var p, q := (adler1 % 0x1_0000, adler1 / 0x1_0000), (adler2 % 0x1_0000, adler2 / 0x1_0000);
            len2 >= 0 && p.0 < BASE && p.1 < BASE && q.0 < BASE && q.1 < BASE ==> r == Pack(Joined(p, q, len2))
  {
    if len2 < 0 { return 0xffff_ffff; }
    var rem;
    if noDivide { rem := Mod63(len2); } else { rem := len2 % BASE; }
    var sum1 := adler1 % 0x1_0000;
    Product(rem, sum1);
    var sum2 := Mod(rem * sum1, noDivide);
    CombinedSum(rem, sum1, adler1 / 0x1_0000 + adler2 / 0x1_0000, sum2);
    sum1 := sum1 + (adler2 % 0x1_0000 + BASE - 1);
    sum2 := sum2 + (adler1 / 0x1_0000 + adler2 / 0x1_0000 + BASE - rem);
    sum1, sum2 := BringDown(sum1, sum2);
    return sum2 * 0x1_0000 + sum1;
  }

  /** The subtractions at the end. */
  method BringDown(x: nat, y: nat) returns (sum1: nat, sum2: nat)
    ensures x < 3 * BASE ==> sum1 == x % BASE
    ensures y < 4 * BASE ==> sum2 == y % BASE
  {
    sum1, sum2 := x, y;
    if sum1 >= BASE { sum1 := sum1 - BASE; }
    if sum1 >= BASE { sum1 := sum1 - BASE; }
    if sum2 >= 2 * BASE { sum2 := sum2 - 2 * BASE; }
    if sum2 >= BASE { sum2 := sum2 - BASE; }
  }

  lemma Product(rem: nat, a: nat)
    requires rem < BASE && a < 0x1_0000
    ensures 0 <= rem * a < WORD
  {
    assert rem * a <= rem * 0x1_0000;
  }

  lemma CombinedSum(rem: nat, a1: nat, b: nat, s: nat)
    requires s == rem * a1 % BASE
    ensures (s + b + BASE - rem) % BASE == (b + rem * (a1 + BASE - 1)) % BASE
  {
    var q := rem * a1 / BASE;
    assert rem * (a1 + BASE - 1) == rem * a1 + rem * BASE - rem;
    assert (q + rem - 1) * BASE == q * BASE + rem * BASE - BASE;
    Congruent(s + b + BASE - rem, b + rem * (a1 + BASE - 1), q + rem - 1);
  }

  /** Joining the sums of s and of t, with t's length, gives the sums of s followed by t. */
  lemma CombineIsConcat(s: seq<Byte>, t: seq<Byte>)
    ensures Joined(Sums(1, 0, s), Sums(1, 0, t), |t|) == Sums(1, 0, s + t)
  {
    var (a1, b1) := Sums(1, 0, s);
    Continued(1, 0, s, t);
    LateReduction(1, 0, t);
    LateReduction(a1, b1, t);
    StartShift(a1, b1, t);
    hide Sums;
    JoinedTotals(a1, b1, Total(1, t), Weighted(1, 0, t), |t|);
  }

  lemma JoinedTotals(a1: nat, b1: nat, ta: nat, tb: nat, n: nat)
    ensures (a1 + ta % BASE + BASE - 1) % BASE == (ta + a1 - 1) % BASE
    ensures (b1 + tb % BASE + n % BASE * (a1 + BASE - 1)) % BASE == (tb + b1 + n * (a1 - 1)) % BASE
  {
    Congruent(a1 + ta % BASE + BASE - 1, ta + a1 - 1, ta / BASE - 1);
    LengthReduced(n, a1, b1, tb);
  }

  lemma LengthReduced(n: nat, a1: nat, b1: nat, tb: nat)
    ensures (b1 + tb % BASE + n % BASE * (a1 + BASE - 1)) % BASE == (tb + b1 + n * (a1 - 1)) % BASE
  {
    var q, r, p := n / BASE, n % BASE, tb / BASE;
    assert n * (a1 - 1) == (q * BASE + r) * (a1 - 1);
    assert (q * BASE + r) * (a1 - 1) == q * (a1 - 1) * BASE + r * (a1 - 1);
    assert r * (a1 + BASE - 1) == r * (a1 - 1) + r * BASE;
    var k := p + q * (a1 - 1) - r;
    assert k * BASE == p * BASE + q * (a1 - 1) * BASE - r * BASE;
    Congruent(b1 + tb % BASE + r * (a1 + BASE - 1), tb + b1 + n * (a1 - 1), k);
  }
}
