/** What the block checksum of bzip2 is: the remainder of the text's polynomial, found from the register of zlib's checksum by
    turning the bits around. */
module BlockPolynomial {
  import opened Common
  import G = Gf2
  import R = CrcRegister
  import B = BlockCrc

  /** The n low bits of c, lowest first. */
  function Bits(c: bv32, n: nat): (q: seq<bool>)
    ensures |q| == n
    decreases n
  {
    if n == 0 then [] else [Low(c)] + Bits(G.Half(c), n - 1)
  }

  function Low(c: bv32): bool {
    c & 1 == 1
  }

  /** A text as a polynomial, lowest power first: the last byte has the lowest powers, and of each byte its low bit. */
  function Message(s: seq<Byte>): (q: seq<bool>)
    ensures |q| == 8 * |s|
  {
    if s == [] then [] else Bits(s[|s| - 1] as bv32, 8) + Message(s[..|s| - 1])
  }

  /** q times x^n. */
  function Raised(n: nat, q: seq<bool>): (r: seq<bool>)
    ensures |r| == n + |q|
  {
    seq(n, _ => false) + q
  }

  /** A register turned around. */
  function Rev(c: bv32): bv32 {
    var a := ((c >> 1) & 0x5555_5555) | ((c & 0x5555_5555) << 1);
    var b := ((a >> 2) & 0x3333_3333) | ((a & 0x3333_3333) << 2);
    var d := ((b >> 4) & 0x0f0f_0f0f) | ((b & 0x0f0f_0f0f) << 4);
    var e := ((d >> 8) & 0x00ff_00ff) | ((d & 0x00ff_00ff) << 8);
    (e >> 16) | (e << 16)
  }

  lemma RevXor(c: bv32, d: bv32)
    ensures Rev(c ^ d) == Rev(c) ^ Rev(d)
  {
  }

  lemma RevUp(c: bv32)
    ensures Rev(c << 1) == Rev(c) >> 1 && (c & 0x8000_0000 != 0 <==> Rev(c) & 1 == 1)
  {
  }

  lemma RevDown(c: bv32)
    ensures Rev(G.Half(c)) == G.Twice(Rev(c)) && Low(c) == G.Bit(Rev(c), G.ONE)
  {
  }

  lemma RevConstants()
    ensures Rev(B.POLY) == G.POLY && Rev(0xffff_ffff) == 0xffff_ffff
  {
  }

  /** The coefficients of the register turned around are the register's bits, lowest first. */
  lemma {:induction false} CoeffsAreBits(c: bv32, n: nat)
    ensures G.CoeffsN(Rev(c), n) == Bits(c, n)
    decreases n
  {
    hide Rev;
    if n > 0 {
      RevDown(c);
      hide Low, G.Half, G.Bit, G.Twice;
      CoeffsAreBits(G.Half(c), n - 1);
    }
  }

  // ---- the polynomial ----

  /** x^32 + x^26 + x^23 + x^22 + x^16 + x^12 + x^11 + x^10 + x^8 + x^7 + x^5 + x^4 + x^2 + x + 1. */
  lemma CrcExponents()
    ensures |G.CrcPoly()| == 33
    ensures forall i :: 0 <= i <= 32 ==> (G.CrcPoly()[i] <==> i in {32, 26, 23, 22, 16, 12, 11, 10, 8, 7, 5, 4, 2, 1, 0})
  {
    RevConstants();
    CoeffsAreBits(B.POLY, 32);
    PolyBits();
    hide Rev, G.CoeffsN, Bits;
  }

  lemma PolyBits()
    ensures forall i :: 0 <= i < 32 ==> (Bits(B.POLY, 32)[i] <==> i in {26, 23, 22, 16, 12, 11, 10, 8, 7, 5, 4, 2, 1, 0})
  {
    PolyBytes();
    EightBits(B.POLY, 24);
    EightBits(0x04_c11d, 16);
    EightBits(0x04c1, 8);
    EightBits(0x04, 0);
    hide *;
    NoBits(Half8(0x04));
    var p, q, r, s := Low8(B.POLY), Low8(0x04_c11d), Low8(0x04c1), Low8(0x04);
    FourJoined(p, q, r, s, []);
    var all := p + q + r + s;
    assert Bits(B.POLY, 32) == all + [] == all;
    FourBytes(p, q, r, s);
  }

  lemma FourBytes(p: seq<bool>, q: seq<bool>, r: seq<bool>, s: seq<bool>)
    requires p == [true, true, true, false, true, true, false, true] && q == [true, false, true, true, true, false, false, false]
    requires r == [true, false, false, false, false, false, true, true] && s == [false, false, true, false, false, false, false, false]
    ensures forall i :: 0 <= i < 32 ==> ((p + q + r + s)[i] <==> i in {26, 23, 22, 16, 12, 11, 10, 8, 7, 5, 4, 2, 1, 0})
  {
  }

  lemma NoBits(c: bv32)
    ensures Bits(c, 0) == []
  {
  }

  lemma PolyBytes()
    ensures Half8(B.POLY) == 0x04_c11d && Half8(0x04_c11d) == 0x04c1 && Half8(0x04c1) == 0x04
    ensures Low8(B.POLY) == [true, true, true, false, true, true, false, true] && Low8(0x04_c11d) == [true, false, true, true, true, false, false, false]
    ensures Low8(0x04c1) == [true, false, false, false, false, false, true, true] && Low8(0x04) == [false, false, true, false, false, false, false, false]
  {
  }

  function Half8(c: bv32): bv32 {
    G.Half(G.Half(G.Half(G.Half(G.Half(G.Half(G.Half(G.Half(c))))))))
  }

  /** The low byte's bits. */
  function Low8(c: bv32): seq<bool> {
    var c2 := G.Half(G.Half(c));
    var c4 := G.Half(G.Half(c2));
    var c6 := G.Half(G.Half(c4));
    [Low(c), Low(G.Half(c)), Low(c2), Low(G.Half(c2)), Low(c4), Low(G.Half(c4)), Low(c6), Low(G.Half(c6))]
  }

  lemma EightBits(c: bv32, n: nat)
    ensures Bits(c, n + 8) == Low8(c) + Bits(Half8(c), n)
  {
    var c2 := G.Half(G.Half(c));
    var c4 := G.Half(G.Half(c2));
    var c6 := G.Half(G.Half(c4));
    hide *;
    TwoBits(c, n + 6);
    TwoBits(c2, n + 4);
    TwoBits(c4, n + 2);
    TwoBits(c6, n);
    Low8Pairs(c);
    FourJoined([Low(c), Low(G.Half(c))], [Low(c2), Low(G.Half(c2))], [Low(c4), Low(G.Half(c4))], [Low(c6), Low(G.Half(c6))], Bits(Half8(c), n));
  }

  lemma Low8Pairs(c: bv32)
    ensures var c2 := G.Half(G.Half(c)); var c4 := G.Half(G.Half(c2)); var c6 := G.Half(G.Half(c4));
            Low8(c) == [Low(c), Low(G.Half(c))] + [Low(c2), Low(G.Half(c2))] + [Low(c4), Low(G.Half(c4))] + [Low(c6), Low(G.Half(c6))]
            && Half8(c) == G.Half(G.Half(c6))
  {
    hide Low, G.Half;
  }

  lemma FourJoined(p: seq<bool>, q: seq<bool>, r: seq<bool>, s: seq<bool>, t: seq<bool>)
    ensures p + (q + (r + (s + t))) == (p + q + r + s) + t
  {
  }

  lemma TwoBits(c: bv32, n: nat)
    ensures Bits(c, n + 2) == [Low(c), Low(G.Half(c))] + Bits(G.Half(G.Half(c)), n)
  {
    hide Low, G.Half;
    assert Bits(c, n + 2) == [Low(c)] + Bits(G.Half(c), n + 1);
  }

  // ---- one byte ----

  function Top(c: bv32): bool {
    c & 0x8000_0000 != 0
  }

  function Double(c: bv32): bv32 {
    c << 1
  }

  lemma ShiftIs(c: bv32)
    ensures B.Shift(c) == if Top(c) then G.Plus(Double(c), B.POLY) else Double(c)
  {
  }

  lemma RevDouble(c: bv32)
    ensures G.X(Rev(c)) == if Top(c) then G.Plus(Rev(Double(c)), G.POLY) else Rev(Double(c))
  {
    RevUp(c);
    hide Rev;
  }

  lemma RevPlus(c: bv32, d: bv32)
    ensures Rev(G.Plus(c, d)) == G.Plus(Rev(c), Rev(d))
  {
    RevXor(c, d);
    hide Rev;
  }

  /** A shift step of one register is one of the other. */
  lemma RevShift(c: bv32)
    ensures Rev(B.Shift(c)) == G.X(Rev(c))
  {
    hide *;
    ShiftIs(c);
    RevDouble(c);
    RevPlus(Double(c), B.POLY);
    RevConstants();
  }

  lemma RevShift8(c: bv32)
    ensures Rev(B.Shift8(c)) == G.X8(Rev(c))
  {
    var c1 := B.Shift(c);
    var c2 := B.Shift(c1);
    var c3 := B.Shift(c2);
    var c4 := B.Shift(c3);
    var c5 := B.Shift(c4);
    var c6 := B.Shift(c5);
    var c7 := B.Shift(c6);
    hide B.Shift, Rev, G.X;
    RevShift(c);
    RevShift(c1);
    RevShift(c2);
    RevShift(c3);
    RevShift(c4);
    RevShift(c5);
    RevShift(c6);
    RevShift(c7);
  }

  lemma Shift8Linear(c: bv32, d: bv32)
    ensures B.Shift8(G.Plus(c, d)) == G.Plus(B.Shift8(c), B.Shift8(d))
  {
    hide *;
    RevPlus(c, d);
    RevShift8(c);
    RevShift8(d);
    RevShift8(G.Plus(c, d));
    R.X8Linear(Rev(c), Rev(d));
    RevPlus(B.Shift8(c), B.Shift8(d));
    RevBack(B.Shift8(G.Plus(c, d)), G.Plus(B.Shift8(c), B.Shift8(d)));
  }

  lemma RevBack(c: bv32, d: bv32)
    requires Rev(c) == Rev(d)
    ensures c == d
  {
    RevTwice(c);
    RevTwice(d);
    hide Rev;
  }

  lemma RevTwice(c: bv32)
    ensures Rev(Rev(c)) == c
  {
  }

  /** A byte in the top of the register. */
  function Lifted(b: Byte): bv32 {
    (b as bv32) << 24
  }

  /** The register without its top byte, and what its top byte makes of b. */
  function Rest(c: bv32): bv32 {
    c & 0x00ff_ffff
  }

  function Up24(i: bv32): bv32 {
    i << 24
  }

  /** The table step takes the byte into the top of the register and shifts eight times. */
  lemma UpdateIs(c: bv32, b: Byte)
    ensures B.Update(c, b) == B.Shift8(G.Plus(c, Lifted(b)))
  {
    hide *;
    UpdateParts(c, b);
    Parted(c, b);
    Shift8Linear(Rest(c), Up24(B.Index(c, b)));
    NothingOut(c);
  }

  lemma UpdateParts(c: bv32, b: Byte)
    ensures B.Update(c, b) == G.Plus(c << 8, B.Shift8(Up24(B.Index(c, b))))
  {
    EntryIs(B.Index(c, b));
    hide B.Shift8, B.Entry, Up24, B.Index;
  }

  lemma EntryIs(i: bv32)
    ensures B.Entry(i) == B.Shift8(Up24(i))
  {
    hide B.Shift8;
  }

  lemma Parted(c: bv32, b: Byte)
    ensures G.Plus(c, Lifted(b)) == G.Plus(Rest(c), Up24(B.Index(c, b)))
  {
    PartedWord(c, b as bv32);
  }

  lemma PartedWord(c: bv32, b: bv32)
    ensures c ^ (b << 24) == (c & 0x00ff_ffff) ^ (((c >> 24) ^ b) << 24)
  {
  }

  lemma NothingOut(c: bv32)
    ensures B.Shift8(Rest(c)) == c << 8
  {
    ClearTops(c);
    var c1 := Double(Rest(c));
    var c2 := Double(c1);
    var c3 := Double(c2);
    var c4 := Double(c3);
    var c5 := Double(c4);
    var c6 := Double(c5);
    var c7 := Double(c6);
    hide B.Shift, Double, Top, Rest;
    ShiftIs(Rest(c));
    ShiftIs(c1);
    ShiftIs(c2);
    ShiftIs(c3);
    ShiftIs(c4);
    ShiftIs(c5);
    ShiftIs(c6);
    ShiftIs(c7);
  }

  lemma ClearTops(c: bv32)
    ensures var d := Rest(c); !Top(d) && !Top(Double(d)) && !Top(Double(Double(d))) && !Top(Double(Double(Double(d))))
    ensures var d := Double(Double(Double(Double(Rest(c)))));
            !Top(d) && !Top(Double(d)) && !Top(Double(Double(d))) && !Top(Double(Double(Double(d)))) && Double(Double(Double(Double(d)))) == c << 8
  {
  }

  /** The same byte for the other register. */
  function Turned(b: Byte): bv8 {
    (Rev(Lifted(b)) & 0xff) as bv8
  }

  lemma TurnedIs(b: Byte)
    ensures Turned(b) as bv32 == Rev(Lifted(b))
  {
    RevSmall(b as bv32);
  }

  lemma RevSmall(b: bv32)
    requires b < 256
    ensures Rev(b << 24) & 0xff == Rev(b << 24) && ((Rev(b << 24) & 0xff) as bv8) as bv32 == Rev(b << 24)
  {
  }

  function TurnedAll(s: seq<Byte>): (t: seq<bv8>)
    ensures |t| == |s|
  {
    seq(|s|, i requires 0 <= i < |s| => Turned(s[i]))
  }

  lemma RevUpdate(c: bv32, b: Byte)
    ensures Rev(B.Update(c, b)) == R.Feed(Rev(c), Turned(b))
  {
    hide *;
    UpdateIs(c, b);
    RevShift8(G.Plus(c, Lifted(b)));
    RevPlus(c, Lifted(b));
    TurnedIs(b);
    FeedIs(Rev(c), Turned(b));
  }

  lemma FeedIs(c: bv32, b: bv8)
    ensures R.Feed(c, b) == G.X8(G.Plus(c, b as bv32))
  {
  }

  lemma {:induction false} RevRunning(s: seq<Byte>)
    ensures Rev(B.Running(s)) == R.Reg(R.ALL, TurnedAll(s))
  {
    if s == [] {
      RevConstants();
    } else {
      RevRunning(s[..|s| - 1]);
      RevUpdate(B.Running(s[..|s| - 1]), s[|s| - 1]);
      hide Rev, B.Update, Turned, R.Feed;
      assert TurnedAll(s)[..|s| - 1] == TurnedAll(s[..|s| - 1]);
    }
  }

  /** A byte's coefficients, low bit first. */
  lemma TurnedCoeffs(b: Byte)
    ensures R.ByteCoeffs(Turned(b)) == Bits(b as bv32, 8)
  {
    TurnedIs(b);
    RevAgain(b as bv32);
    CoeffsAreBits(b as bv32, 8);
  }

  lemma RevAgain(b: bv32)
    requires b < 256
    ensures Rev(b << 24) << 24 == Rev(b)
  {
  }

  lemma {:induction false} TurnedMessage(s: seq<Byte>)
    ensures R.Message(TurnedAll(s)) == Message(s)
  {
    if s != [] {
      TurnedMessage(s[..|s| - 1]);
      TurnedCoeffs(s[|s| - 1]);
      hide R.ByteCoeffs, Turned, Bits;
      assert TurnedAll(s)[..|s| - 1] == TurnedAll(s[..|s| - 1]);
    }
  }

  /** The polynomial whose remainder is the register: the text times x^32, and the 32 ones it starts from times x^(8|s|). */
  function Dividend(s: seq<Byte>): seq<bool> {
    G.PolyAdd(Raised(32, Message(s)), Raised(8 * |s|, Bits(0xffff_ffff, 32)))
  }

  /** The register's bits are the coefficients of what dividing this polynomial by the CRC polynomial leaves. */
  lemma RunningIsRemainder(s: seq<Byte>)
    ensures G.Coeffs(G.Remainder(Dividend(s))) == Bits(B.Running(s), 32)
  {
    hide *;
    RevRunning(s);
    R.RegFrom(R.ALL, TurnedAll(s));
    R.RegIsRemainder(TurnedAll(s));
    TurnedMessage(s);
    RemainderOf(s);
    G.PlusCommutes(G.XP(8 * |s|, R.ALL), G.Times(Message(s), G.XP(32, G.ONE)));
    RegisterBits(B.Running(s));
  }

  /** The checksum stored with a block is the complement of that. */
  lemma ChecksumIsRemainder(s: seq<Byte>)
    ensures forall i :: 0 <= i < 32 ==> Bits(B.Checksum(s), 32)[i] != G.Coeffs(G.Remainder(Dividend(s)))[i]
  {
    RunningIsRemainder(s);
    hide Bits, G.Coeffs, G.Remainder, Dividend, B.Running;
    NotBits(B.Running(s));
  }

  /** Adding ones turns every bit. */
  lemma NotBits(c: bv32)
    ensures forall i :: 0 <= i < 32 ==> Bits(!c, 32)[i] != Bits(c, 32)[i]
  {
    XorBits(c, 0xffff_ffff, 32);
    AllBitsSet();
    NotIs(c);
    hide *;
  }

  lemma NotIs(c: bv32)
    ensures !c == G.Plus(c, 0xffff_ffff)
  {
  }

  lemma AllBitsSet()
    ensures forall i :: 0 <= i < 32 ==> Bits(0xffff_ffff, 32)[i]
  {
    OnesMore(0xffff_ffff, 28, 0x0fff_ffff);
    OnesMore(0x0fff_ffff, 24, 0x00ff_ffff);
    OnesMore(0x00ff_ffff, 20, 0x000f_ffff);
    OnesMore(0x000f_ffff, 16, 0xffff);
    OnesMore(0xffff, 12, 0x0fff);
    OnesMore(0x0fff, 8, 0xff);
    OnesMore(0xff, 4, 0x0f);
    OnesMore(0x0f, 0, 0);
    assert Ones(0, 0);
    OnesSet(0xffff_ffff, 32);
  }

  lemma {:induction false} OnesSet(m: bv32, n: nat)
    requires Ones(m, n)
    ensures forall i :: 0 <= i < n ==> Bits(m, n)[i]
    decreases n
  {
    hide Low, G.Half;
    if n > 0 { OnesSet(G.Half(m), n - 1); }
  }

  lemma RegisterBits(c: bv32)
    ensures G.Coeffs(Rev(c)) == Bits(c, 32)
  {
    CoeffsAreBits(c, 32);
  }

  lemma RemainderOf(s: seq<Byte>)
    ensures G.Remainder(Dividend(s)) == G.Plus(G.Times(Message(s), G.XP(32, G.ONE)), G.XP(8 * |s|, R.ALL))
  {
    var p, q := Raised(32, Message(s)), Raised(8 * |s|, Bits(0xffff_ffff, 32));
    hide Rev, Message, Bits, G.XP, G.Plus, G.Times, G.PolyAdd;
    G.TimesAdd(p, q, G.ONE);
    RaisedTimes(32, Message(s), G.ONE);
    RaisedTimes(8 * |s|, Bits(0xffff_ffff, 32), G.ONE);
    AllOnes();
    G.TimesXP(Bits(0xffff_ffff, 32), 8 * |s|, G.ONE);
  }

  lemma AllOnes()
    ensures G.Times(Bits(0xffff_ffff, 32), G.ONE) == R.ALL
  {
    RevConstants();
    RegisterBits(0xffff_ffff);
    hide Rev, Bits, G.Times;
    G.CoeffsBack(R.ALL);
  }

  lemma {:induction false} RaisedTimes(n: nat, q: seq<bool>, b: bv32)
    ensures G.Times(Raised(n, q), b) == G.Times(q, G.XP(n, b))
    decreases n
  {
    hide G.X, G.Plus;
    if n == 0 {
      assert Raised(0, q) == q;
    } else {
      assert Raised(n, q)[1..] == Raised(n - 1, q) && !Raised(n, q)[0];
      RaisedTimes(n - 1, q, G.X(b));
      G.PlusZero(G.Times(Raised(n - 1, q), G.X(b)));
    }
  }

  // ---- the combined checksum ----

  /** The combined checksum moves up by one bit, the top one coming in below, and each bit of the block's is added. */
  lemma CombineBits(c: bv32, crc: bv32)
    ensures forall i :: 0 <= i < 32 ==> Bits(B.Combine(c, crc), 32)[i] == (Bits(c, 32)[(i + 31) % 32] != Bits(crc, 32)[i])
  {
    CombineIs(c, crc);
    XorBits(Rotated(c), crc, 32);
    RotatedBits(c);
    hide *;
  }

  lemma CombineIs(c: bv32, crc: bv32)
    ensures B.Combine(c, crc) == G.Plus(Rotated(c), crc)
  {
  }

  lemma {:induction false} XorBits(c: bv32, d: bv32, n: nat)
    ensures forall i :: 0 <= i < n ==> Bits(G.Plus(c, d), n)[i] == (Bits(c, n)[i] != Bits(d, n)[i])
    decreases n
  {
    hide Low, G.Half, G.Plus;
    if n > 0 {
      XorParts(c, d);
      XorBits(G.Half(c), G.Half(d), n - 1);
    }
  }

  lemma XorParts(c: bv32, d: bv32)
    ensures G.Half(G.Plus(c, d)) == G.Plus(G.Half(c), G.Half(d)) && Low(G.Plus(c, d)) == (Low(c) != Low(d))
  {
  }

  function Rotated(c: bv32): bv32 {
    (c << 1) | (c >> 31)
  }

  lemma RotatedBits(c: bv32)
    ensures forall i :: 0 <= i < 32 ==> Bits(Rotated(c), 32)[i] == Bits(c, 32)[(i + 31) % 32]
  {
    RotatedOnce(c);
    MaskedBits(c, 0x7fff_ffff, 31);
    FrontBits(c, 31);
    LastBit(c);
    FirstBit(Rotated(c), 31);
    hide Bits, Low, G.Half, Rotated;
    forall i | 0 <= i < 32 ensures Bits(Rotated(c), 32)[i] == Bits(c, 32)[(i + 31) % 32] {
      if i > 0 { assert (i + 31) % 32 == i - 1; }
    }
  }

  lemma FirstBit(c: bv32, n: nat)
    ensures Bits(c, n + 1) == [Low(c)] + Bits(G.Half(c), n)
  {
  }

  /** The n low bits of m are set. */
  function Ones(m: bv32, n: nat): bool
    decreases n
  {
    n == 0 || (Low(m) && Ones(G.Half(m), n - 1))
  }

  lemma {:induction false} MaskedBits(c: bv32, m: bv32, n: nat)
    requires Ones(m, n)
    ensures Bits(And(c, m), n) == Bits(c, n)
    decreases n
  {
    hide Low, G.Half, And;
    if n > 0 {
      MaskedBits(G.Half(c), G.Half(m), n - 1);
      MaskedOnce(c, m);
    }
  }

  function And(c: bv32, m: bv32): bv32 {
    c & m
  }

  lemma MaskedOnce(c: bv32, m: bv32)
    requires Low(m)
    ensures G.Half(And(c, m)) == And(G.Half(c), G.Half(m)) && Low(And(c, m)) == Low(c)
  {
  }

  lemma {:induction false} FrontBits(c: bv32, n: nat)
    ensures Bits(c, n + 1)[..n] == Bits(c, n)
    decreases n
  {
    hide Low, G.Half;
    if n > 0 {
      FrontBits(G.Half(c), n - 1);
      assert Bits(c, n + 1)[1..] == Bits(G.Half(c), n);
    }
  }

  lemma LastBit(c: bv32)
    ensures Bits(c, 32)[31] == Top(c)
  {
    var d := Half8(c);
    var e := Half8(d);
    var f := Half8(e);
    EightBits(c, 24);
    EightBits(d, 16);
    EightBits(e, 8);
    EightBits(f, 0);
    TopBitDown(c);
    Low8At7(f);
    hide *;
    NoBits(Half8(f));
    Low8Size(c);
    Low8Size(d);
    Low8Size(e);
    Low8Size(f);
  }

  lemma TopBitDown(c: bv32)
    ensures var d := Half8(Half8(Half8(c))); Low(G.Half(G.Half(G.Half(G.Half(G.Half(G.Half(G.Half(d)))))))) == Top(c)
  {
  }

  lemma Low8Size(c: bv32)
    ensures |Low8(c)| == 8
  {
  }

  lemma Low8At7(d: bv32)
    ensures |Low8(d)| == 8 && Low8(d)[7] == Low(G.Half(G.Half(G.Half(G.Half(G.Half(G.Half(G.Half(d))))))))
  {
    hide Low, G.Half;
  }

  lemma RotatedOnce(c: bv32)
    ensures Low(Rotated(c)) == Top(c) && G.Half(Rotated(c)) == And(c, 0x7fff_ffff) && Ones(0x7fff_ffff, 31)
  {
    OnesMore(0x7fff_ffff, 27, 0x07ff_ffff);
    OnesMore(0x07ff_ffff, 23, 0x007f_ffff);
    OnesMore(0x007f_ffff, 19, 0x0007_ffff);
    OnesMore(0x0007_ffff, 15, 0x7fff);
    OnesMore(0x7fff, 11, 0x07ff);
    OnesMore(0x07ff, 7, 0x7f);
    OnesMore(0x7f, 3, 0x07);
    assert Ones(0x07, 3);
    hide Ones;
  }

  lemma OnesMore(m: bv32, n: nat, d: bv32)
    requires d == m >> 4 && m & 0x0f == 0x0f
    ensures Ones(d, n) ==> Ones(m, n + 4)
  {
    FourDown(m, d);
    hide Low, G.Half;
    assert Ones(G.Half(G.Half(m)), n + 2) == (Low(G.Half(G.Half(m))) && Ones(G.Half(G.Half(G.Half(m))), n + 1));
  }

  lemma FourDown(m: bv32, d: bv32)
    requires d == m >> 4 && m & 0x0f == 0x0f
    ensures Low(m) && Low(G.Half(m)) && Low(G.Half(G.Half(m))) && Low(G.Half(G.Half(G.Half(m)))) && G.Half(G.Half(G.Half(G.Half(m)))) == d
  {
  }
}
