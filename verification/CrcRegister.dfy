/** The CRC register of crc32.c, byte by byte: what it computes, its linearity, the byte table and combining. */
module CrcRegister {
  import opened Gf2
  import opened CrcPowers
  import opened Common

  type byte = bv8

  const ALL: bv32 := 0xffff_ffff

  /** One byte into the register: eight steps of the shift register. */
  function Feed(c: bv32, b: byte): bv32 {
    X8(Plus(c, b as bv32))
  }

  /** The register after all bytes: the plain byte-at-a-time CRC. */
  function Reg(c: bv32, buf: seq<byte>): bv32 {
    if buf == [] then c else Feed(Reg(c, buf[..|buf| - 1]), buf[|buf| - 1])
  }

  /** crc32 of RFC 1952, section 8: the register complemented before and after. */
  function Crc(crc: bv32, buf: seq<byte>): bv32 {
    Plus(Reg(Plus(crc, ALL), buf), ALL)
  }

  // ---- what the register means ----

  /** A byte's coefficients, lowest power first. */
  function ByteCoeffs(b: byte): (q: seq<bool>)
    ensures |q| == 8
  {
    CoeffsN((b as bv32) << 24, 8)
  }

  /** The message as a polynomial: the last byte has the lowest powers. */
  function Message(buf: seq<byte>): (q: seq<bool>)
    ensures |q| == 8 * |buf|
  {
    if buf == [] then [] else ByteCoeffs(buf[|buf| - 1]) + Message(buf[..|buf| - 1])
  }

  lemma X8Linear(a: bv32, b: bv32)
    ensures X8(Plus(a, b)) == Plus(X8(a), X8(b)) && X8(0) == 0
  {
    hide Plus, X8, X;
    XP8(0, a);
    XP8(0, b);
    XP8(0, Plus(a, b));
    XP8(0, 0);
    XPLinear(8, a, b);
  }

  /** A byte in the low bits is the byte's polynomial times x^24. */
  lemma ByteValue(b: byte)
    ensures XP(24, (b as bv32) << 24) == b as bv32
  {
    var a := b as bv32;
    hide X8, XP;
    XP8(16, a << 24);
    XP8(8, a << 16);
    XP8(0, a << 8);
    XP0(X8(a << 8));
    DownByte(a << 24, a << 16);
    DownByte(a << 16, a << 8);
    DownByte(a << 8, a);
    ByteShifts(b);
  }

  lemma ByteShifts(b: byte)
    ensures ((b as bv32) << 24) & 0xff == 0 && ((b as bv32) << 24) >> 8 == (b as bv32) << 16
    ensures ((b as bv32) << 16) & 0xff == 0 && ((b as bv32) << 16) >> 8 == (b as bv32) << 8
    ensures ((b as bv32) << 8) & 0xff == 0 && ((b as bv32) << 8) >> 8 == b as bv32
  {
  }

  /** Eight steps without anything shifted out. */
  lemma DownByte(a: bv32, d: bv32)
    ensures a & 0xff == 0 && a >> 8 == d ==> X8(a) == d
  {
  }

  lemma {:induction false} RegConcat(c: bv32, s: seq<byte>, t: seq<byte>)
    ensures Reg(c, s + t) == Reg(Reg(c, s), t)
  {
    hide Feed;
    if t == [] {
      assert s + t == s;
    } else {
      assert (s + t)[..|s + t| - 1] == s + t[..|t| - 1];
      RegConcat(c, s, t[..|t| - 1]);
    }
  }

  /** A value in the register goes through all bytes on its own. */
  lemma {:induction false} RegLinear(c: bv32, d: bv32, buf: seq<byte>)
    ensures Reg(Plus(c, d), buf) == Plus(XP(8 * |buf|, c), Reg(d, buf))
  {
    hide Plus, X8, X;
    if buf != [] {
      var prefix, b := buf[..|buf| - 1], buf[|buf| - 1] as bv32;
      RegLinear(c, d, prefix);
      var u, v := XP(8 * |prefix|, c), Reg(d, prefix);
      PlusAssociates(u, v, b);
      X8Linear(u, Plus(v, b));
      XPAdd(8, 8 * |prefix|, c);
      XP8(0, u);
    }
  }

  lemma RegFrom(c: bv32, buf: seq<byte>)
    ensures Reg(c, buf) == Plus(XP(8 * |buf|, c), Reg(0, buf))
  {
    RegLinear(c, 0, buf);
    PlusZero(c);
  }

  /** From zero, the register is the message times x^32, modulo the CRC polynomial. */
  lemma {:induction false} RegIsRemainder(buf: seq<byte>)
    ensures Reg(0, buf) == Times(Message(buf), XP(32, ONE))
  {
    hide Plus, X8, X, XP;
    if buf != [] {
      var prefix, b := buf[..|buf| - 1], buf[|buf| - 1];
      RegIsRemainder(prefix);
      X8Linear(Reg(0, prefix), b as bv32);
      TimesConcat(ByteCoeffs(b), Message(prefix), XP(32, ONE));
      TimesXP(Message(prefix), 8, XP(32, ONE));
      XP8(0, Reg(0, prefix));
      ByteTerms(b);
      PlusCommutes(X8(Reg(0, prefix)), X8(b as bv32));
    }
  }

  lemma ByteTerms(b: byte)
    ensures Times(ByteCoeffs(b), XP(32, ONE)) == X8(b as bv32)
  {
    var a := (b as bv32) << 24;
    ByteEnds(b);
    hide Plus, X8, X, XP, Times, CoeffsN;
    OwnTerms(a, 8);
    TimesXP(ByteCoeffs(b), 32, ONE);
    XPAdd(8, 24, a);
    ByteValue(b);
    XP8(0, b as bv32);
  }

  lemma ByteEnds(b: byte)
    ensures Up((b as bv32) << 24, 8) == 0
  {
    Up8((b as bv32) << 24, 0);
  }

  /** Checksums of two parts give that of the whole: shift the first past the second, and add. */
  lemma CrcConcat(crc: bv32, s: seq<byte>, t: seq<byte>)
    ensures Crc(crc, s + t) == Plus(Mul(XP(8 * |t|, ONE), Crc(crc, s)), Crc(0, t))
  {
    hide Plus, Reg, Mul, XP;
    var r, n := Reg(Plus(crc, ALL), s), 8 * |t|;
    var d := Plus(r, ALL);
    RegConcat(Plus(crc, ALL), s, t);
    PlusLaws(r, ALL, 0);
    PlusZero(ALL);
    RegLinear(d, ALL, t);
    PlusAssociates(XP(n, d), Reg(ALL, t), ALL);
    MulPower(n, d);
  }

  // ---- multmodp and the powers of x ----

  method MultModP(a: bv32, b0: bv32) returns (p: bv32)
    requires a != 0
    ensures p == Mul(a, b0)
  {
    hide *;
    var m: bv32, b := 1 << 31, b0;
    p := 0;
    ghost var i: nat := 0;
    StartMul(a, b0);
    while true
      invariant i <= 31 && m == Mask(i) && Up(a, i) != 0 && Plus(p, Rest(Up(a, i), b, 32 - i)) == Mul(a, b0)
      decreases 32 - i
    {
      MulStep(a, b0, p, b, m, i);
      if Bit(a, m) {
        p := Plus(p, b);
        if LastBit(a, m) { break; }
      }
      m := Half(m);
      b := X(b);
      i := i + 1;
    }
  }

  lemma StartMul(a: bv32, b: bv32)
    ensures Up(a, 0) == a && Mask(0) == 1 << 31 && Plus(0, Rest(Up(a, 0), b, 32)) == Mul(a, b)
  {
    PlusZero(Mul(a, b));
  }

  /** One turn of multmodp: either the last term has been added, or the rest is one term shorter. */
  lemma MulStep(a: bv32, b0: bv32, p: bv32, b: bv32, m: bv32, i: nat)
    requires i <= 31 && m == Mask(i) && Up(a, i) != 0 && Plus(p, Rest(Up(a, i), b, 32 - i)) == Mul(a, b0)
    ensures Bit(a, m) && LastBit(a, m) ==> Plus(p, b) == Mul(a, b0)
    ensures !(Bit(a, m) && LastBit(a, m)) ==> i < 31 && Mask(i + 1) == Half(m) && Up(a, i + 1) != 0
    ensures !(Bit(a, m) && LastBit(a, m)) ==> Plus(if Bit(a, m) then Plus(p, b) else p, Rest(Up(a, i + 1), X(b), 31 - i)) == Mul(a, b0)
  {
    hide *;
    var s, n := Up(a, i), 32 - i;
    Probe(a, i);
    UpNext(a, i);
    UpAll(a);
    NextTerm(s, b, n);
    var rest := Rest(Twice(s), X(b), n - 1);
    PlusAssociates(p, if Bit(s, ONE) then b else 0, rest);
    PlusZero(p);
    PlusZero(Plus(p, b));
    if Twice(s) == 0 { NothingLeft(X(b), n - 1); }
    TopBitOnly(s);
    OneShift(a, i + 1);
  }

  lemma NextTerm(s: bv32, b: bv32, n: nat)
    requires n > 0
    ensures Rest(s, b, n) == Plus(if Bit(s, ONE) then b else 0, Rest(Twice(s), X(b), n - 1))
  {
    hide Plus, X, Times, CoeffsN, Bit, Twice;
    TimesStep(s, b, n);
  }

  lemma TopBitOnly(s: bv32)
    requires s != 0
    ensures !Bit(s, ONE) ==> Twice(s) != 0
  {
  }

  lemma {:induction false} NothingLeft(b: bv32, n: nat)
    ensures Rest(0, b, n) == 0
    decreases n
  {
    if n > 0 {
      NextTerm(0, b, n);
      NothingLeft(X(b), n - 1);
      PlusZero(0);
      ZeroBits();
    }
  }

  lemma ZeroBits()
    ensures !Bit(0, ONE) && Twice(0) == 0
  {
  }

  /** x^(n * 2^k), from a table of x^(2^j) for j below 32 whose index wraps. */
  method X2nModP(n0: nat, k0: nat, x2n: array<bv32>) returns (p: bv32)
    requires x2n.Length == 32 && forall j :: 0 <= j < 32 ==> x2n[j] == X2n(j)
    ensures p == XP(n0 * Pow2(k0), ONE)
  {
    var n, k := n0, k0;
    p := 1 << 31;
    ghost var done: nat := 0;
    Ones();
    hide *;
    ghost var total := n0 * Pow2(k0);
    AllLeft(n0, k0);
    while n > 0
      invariant n >= 0 && p == XP(done, ONE) && Exponent(done, n, k) == total
      decreases n
    {
      p, done := PowerTurn(n, k, p, done, x2n);
      n := n / 2;
      k := k + 1;
    }
    NoneLeft(done, k);
  }

  /** The exponent once the bits of n have been used. */
  ghost function Exponent(done: nat, n: nat, k: nat): nat {
    done + n * Pow2(k)
  }

  /** The lowest bit of n: multiplies by its power of x. */
  method PowerTurn(n: nat, k: nat, p0: bv32, ghost done0: nat, x2n: array<bv32>) returns (p: bv32, ghost done: nat)
    requires x2n.Length == 32 && (forall j :: 0 <= j < 32 ==> x2n[j] == X2n(j)) && p0 == XP(done0, ONE)
    ensures p == XP(done, ONE) && Exponent(done, n / 2, k + 1) == Exponent(done0, n, k)
  {
    hide *;
    p, done := p0, done0;
    HalfLeft(done0, n, k);
    if n % 2 == 1 {
      PowerTimes(k, done, p);
      p := MultModP(x2n[k % 32], p);
      done := done + Pow2(k);
    }
  }

  lemma PowerTimes(k: nat, done: nat, p: bv32)
    requires p == XP(done, ONE)
    ensures X2n(k % 32) != 0 && Mul(X2n(k % 32), p) == XP(done + Pow2(k), ONE)
  {
    hide *;
    PowerWraps(k);
    TableNonZero(k);
    MulPower(Pow2(k), p);
    XPAdd(Pow2(k), done, ONE);
  }

  lemma Ones()
    ensures 1 << 31 == ONE && XP(0, ONE) == ONE
  {
  }

  lemma AllLeft(n: nat, k: nat)
    ensures Exponent(0, n, k) == n * Pow2(k)
  {
  }

  lemma NoneLeft(done: nat, k: nat)
    ensures Exponent(done, 0, k) == done
  {
  }

  lemma HalfLeft(done: nat, n: nat, k: nat)
    ensures Exponent(done, n, k) == Exponent(if n % 2 == 1 then done + Pow2(k) else done, n / 2, k + 1)
  {
    HalfStep(n, k);
    hide Pow2;
  }

  lemma HalfStep(n: nat, k: nat)
    ensures n * Pow2(k) == n % 2 * Pow2(k) + n / 2 * Pow2(k + 1)
  {
    assert n == n % 2 + 2 * (n / 2);
    assert (n % 2 + 2 * (n / 2)) * Pow2(k) == n % 2 * Pow2(k) + n / 2 * (2 * Pow2(k));
  }

  lemma TableNonZero(k: nat)
    ensures X2n(k % 32) != 0
  {
    PowerWraps(k);
    XPNonZero(Pow2(k), ONE);
  }

  lemma FirstEntry()
    ensures X2n(0) == 1 << 30
  {
  }

  lemma NextEntry(n: nat)
    requires 0 < n < 32
    ensures X2n(n - 1) != 0 && Mul(X2n(n - 1), X2n(n - 1)) == X2n(n)
  {
    hide *;
    Squares(n - 1);
    TableNonZero(n - 1);
  }

  /** The table of powers, as make_crc_table builds it. */
  method MakeX2n(x2n: array<bv32>)
    requires x2n.Length == 32
    modifies x2n
    ensures forall j :: 0 <= j < 32 ==> x2n[j] == X2n(j)
  {
    hide *;
    FirstEntry();
    var p: bv32 := 1 << 30;
    x2n[0] := p;
    var n := 1;
    while n < 32
      invariant 1 <= n <= 32 && p == X2n(n - 1) && forall j :: 0 <= j < n ==> x2n[j] == X2n(j)
    {
      NextEntry(n);
      p := MultModP(p, p);
      x2n[n] := p;
      n := n + 1;
    }
  }

  /** crc32_combine64. */
  method Combine(crc1: bv32, crc2: bv32, len2: nat, x2n: array<bv32>) returns (r: bv32)
    requires x2n.Length == 32 && forall j :: 0 <= j < 32 ==> x2n[j] == X2n(j)
    ensures r == Plus(Mul(XP(8 * len2, ONE), crc1), crc2)
    ensures forall s, t, start :: |t| == len2 && crc1 == Crc(start, s) && crc2 == Crc(0, t) ==> r == Crc(start, s + t)
  {
    var op := X2nModP(len2, 3, x2n);
    assert Pow2(3) == 8;
    XPNonZero(8 * len2, ONE);
    r := MultModP(op, crc1);
    r := Plus(r, crc2);
    forall s, t, start | |t| == len2 && crc1 == Crc(start, s) && crc2 == Crc(0, t) ensures r == Crc(start, s + t) { CrcConcat(start, s, t); }
  }

  // ---- the byte table ----

  /** The register of byte i: entry i of the table. */
  function Entry(i: int): bv32
    requires 0 <= i < 256
  {
    X8((i as byte) as bv32)
  }

  ghost predicate ByteTable(t: seq<bv32>) {
    |t| == 256 && forall i :: 0 <= i < 256 ==> t[i] == Entry(i)
  }

  method MakeCrcTable(crcTable: array<bv32>)
    requires crcTable.Length == 256
    modifies crcTable
    ensures ByteTable(crcTable[..])
  {
    var i := 0;
    while i < 256
      invariant 0 <= i <= 256 && forall k :: 0 <= k < i ==> crcTable[k] == Entry(k)
    {
      var p := ByteLoop((i as byte) as bv32);
      hide X8;
      crcTable[i] := p;
      i := i + 1;
    }
  }

  /** Eight times p = p & 1 ? (p >> 1) ^ POLY : p >> 1. */
  method ByteLoop(p0: bv32) returns (p: bv32)
    ensures p == X8(p0)
  {
    p := p0;
    XP8(0, p0);
    hide X8, X;
    var j := 0;
    while j < 8
      invariant 0 <= j <= 8 && XP(8 - j, p) == X8(p0)
    {
      p := X(p);
      j := j + 1;
    }
  }

  /** The low byte, as a value and as an index. */
  function Low(c: bv32): bv32 {
    c & 0xff
  }

  function Index(c: bv32): (i: int)
    ensures 0 <= i < 256
  {
    ((c & 0xff) as byte) as int
  }

  lemma EntryAt(c: bv32)
    ensures Entry(Index(c)) == X8(Low(c))
  {
    IndexByte(c);
    hide X8;
  }

  lemma IndexByte(c: bv32)
    ensures (Index(c) as byte) as bv32 == Low(c)
  {
    SameByte((c & 0xff) as byte);
  }

  lemma SameByte(b: byte)
    ensures 0 <= b as int < 256 && (b as int) as byte == b
  {
  }

  function High(c: bv32): bv32 {
    c & 0xffff_ff00
  }

  function Down(c: bv32): bv32 {
    c >> 8
  }

  /** Looking up the low byte and shifting the rest down is eight steps. */
  lemma TableStep(c: bv32)
    ensures Plus(Down(c), X8(Low(c))) == X8(c)
  {
    hide *;
    SplitByte(c);
    HighDown(c);
    X8Linear(High(c), Low(c));
  }

  lemma SplitByte(c: bv32)
    ensures Plus(High(c), Low(c)) == c
  {
  }

  lemma HighDown(c: bv32)
    ensures X8(High(c)) == Down(c)
  {
    DownByte(High(c), Down(c));
    HighClear(c);
    hide X8, High, Down;
  }

  lemma HighClear(c: bv32)
    ensures High(c) & 0xff == 0 && High(c) >> 8 == Down(c)
  {
  }

  lemma ByteDown(c: bv32, b: byte)
    ensures Down(Plus(c, b as bv32)) == Down(c)
  {
  }

  /** crc = (crc >> 8) ^ crc_table[(crc ^ *buf++) & 0xff]. */
  method TakeByte(c: bv32, b: byte, crcTable: array<bv32>) returns (r: bv32)
    requires ByteTable(crcTable[..])
    ensures r == Feed(c, b)
  {
    var x := Plus(c, b as bv32);
    hide Plus, X8, Down, Entry, Index, Low;
    ByteDown(c, b);
    TableStep(x);
    EntryAt(x);
    r := Plus(Down(c), crcTable[Index(x)]);
  }
}
