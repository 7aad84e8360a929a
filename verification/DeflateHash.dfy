/** The hash of deflate.c and its chains: head and prev as links between earlier positions with the same hash. */
module DeflateHash {
  import opened Lz77
  import opened Common

  const MIN_MATCH := 3
  const MAX_MATCH := 258
  const MIN_LOOKAHEAD := 262
  const NIL := 0

  // ---- the running hash ----

  /** hash_bits for memLevel 1 to 9. */
  predicate Bits(bits: nat) {
    8 <= bits <= 16
  }

  /** hash_shift, which moves a byte out of the mask in three steps. */
  function HashShift(bits: nat): bv6
    requires Bits(bits)
  {
    if bits <= 9 then 3 else if bits <= 12 then 4 else if bits <= 15 then 5 else 6
  }

  function HashMask(bits: nat): bv32
    requires Bits(bits)
  {
    match bits
    case 8 => 0xff
    case 9 => 0x1ff
    case 10 => 0x3ff
    case 11 => 0x7ff
    case 12 => 0xfff
    case 13 => 0x1fff
    case 14 => 0x3fff
    case 15 => 0x7fff
    case _ => 0xffff
  }

  function HashSize(bits: nat): nat
    requires Bits(bits)
  {
    match bits
    case 8 => 0x100
    case 9 => 0x200
    case 10 => 0x400
    case 11 => 0x800
    case 12 => 0x1000
    case 13 => 0x2000
    case 14 => 0x4000
    case 15 => 0x8000
    case _ => 0x1_0000
  }

  /** hash_bits bits, moved up by the least number of places that takes a byte past them in MIN_MATCH steps. */
  lemma HashParameters(bits: nat)
    requires Bits(bits)
    ensures HashSize(bits) == Pow2(bits) && HashMask(bits) as int == Pow2(bits) - 1
    ensures MIN_MATCH * (HashShift(bits) as int) >= bits > MIN_MATCH * (HashShift(bits) as int - 1)
  {
    assert Pow2(4) == 16;
    Pow2Add(4, 4);
    assert Pow2(12) == 4096 && Pow2(8) == 256;
    match bits
    case 8 => assert HashMask(8) as int == 255;
    case 9 => assert HashMask(9) as int == 511;
    case 10 => assert HashMask(10) as int == 1023;
    case 11 => assert HashMask(11) as int == 2047;
    case 12 => assert HashMask(12) as int == 4095;
    case 13 => assert HashMask(13) as int == 8191;
    case 14 => assert HashMask(14) as int == 16383;
    case 15 => assert HashMask(15) as int == 32767;
    case _ => assert HashMask(16) as int == 65535;
  }

  /** UPDATE_HASH. */
  function UpdateHash(h: bv32, c: byte, bits: nat): bv32
    requires Bits(bits)
  {
    Step(h, c as bv32, HashShift(bits), HashMask(bits))
  }

  /** The hash of three bytes. */
  function Hash3(a: byte, b: byte, c: byte, bits: nat): bv32
    requires Bits(bits)
  {
    UpdateHash(UpdateHash(UpdateHash(0, a, bits), b, bits), c, bits)
  }

  /** h is ready to become the hash of the three bytes that start with a and b. */
  ghost predicate Primed(h: bv32, a: byte, b: byte, bits: nat)
    requires Bits(bits)
  {
    forall c: byte :: UpdateHash(h, c, bits) == Hash3(a, b, c, bits)
  }

  lemma OneByte(a: byte, bits: nat)
    requires Bits(bits)
    ensures UpdateHash(0, a, bits) == a as bv32
  {
  }

  /** Starting from two bytes, as fill_window does. */
  lemma FreshHash(a: byte, b: byte, bits: nat)
    requires Bits(bits)
    ensures Primed(UpdateHash(a as bv32, b, bits), a, b, bits)
  {
    OneByte(a, bits);
  }

  /** After three steps nothing of h is left under the mask. */
  lemma RollsOut(h: bv32, b: byte, c: byte, d: byte, bits: nat)
    requires Bits(bits)
    ensures UpdateHash(UpdateHash(UpdateHash(h, b, bits), c, bits), d, bits) == Hash3(b, c, d, bits)
  {
    var m := HashMask(bits);
    if bits <= 9 { Out3(h, b as bv32, c as bv32, d as bv32, m); }
    else if bits <= 12 { Out4(h, b as bv32, c as bv32, d as bv32, m); }
    else if bits <= 15 { Out5(h, b as bv32, c as bv32, d as bv32, m); }
    else { Out6(h, b as bv32, c as bv32, d as bv32, m); }
  }

  function Step(h: bv32, c: bv32, s: bv6, m: bv32): bv32
    requires s <= 6
  {
    ((h << s) ^ c) & m
  }

  lemma Out3(h: bv32, b: bv32, c: bv32, d: bv32, m: bv32)
    requires m <= 0x1ff
    ensures Step(Step(Step(h, b, 3, m), c, 3, m), d, 3, m) == Step(Step(Step(0, b, 3, m), c, 3, m), d, 3, m)
  {
  }

  lemma Out4(h: bv32, b: bv32, c: bv32, d: bv32, m: bv32)
    requires m <= 0xfff
    ensures Step(Step(Step(h, b, 4, m), c, 4, m), d, 4, m) == Step(Step(Step(0, b, 4, m), c, 4, m), d, 4, m)
  {
  }

  lemma Out5(h: bv32, b: bv32, c: bv32, d: bv32, m: bv32)
    requires m <= 0x7fff
    ensures Step(Step(Step(h, b, 5, m), c, 5, m), d, 5, m) == Step(Step(Step(0, b, 5, m), c, 5, m), d, 5, m)
  {
  }

  lemma Out6(h: bv32, b: bv32, c: bv32, d: bv32, m: bv32)
    requires m <= 0xffff
    ensures Step(Step(Step(h, b, 6, m), c, 6, m), d, 6, m) == Step(Step(Step(0, b, 6, m), c, 6, m), d, 6, m)
  {
  }

  lemma Masked(h: bv32, c: byte, bits: nat)
    requires Bits(bits)
    ensures UpdateHash(h, c, bits) <= HashMask(bits)
  {
  }

  /** The hash of three bytes is primed for the next position: its first byte has left the mask. */
  lemma Rolled(a: byte, b: byte, c: byte, bits: nat)
    requires Bits(bits)
    ensures Primed(Hash3(a, b, c, bits), b, c, bits)
  {
    Masked(0, a, bits);
    forall d: byte ensures UpdateHash(Hash3(a, b, c, bits), d, bits) == Hash3(b, c, d, bits) {
      RollsOut(UpdateHash(0, a, bits), b, c, d, bits);
    }
  }

  lemma LastByte(h: bv32, c: byte, d: byte, bits: nat)
    requires Bits(bits)
    ensures UpdateHash(h, c, bits) == UpdateHash(h, d, bits) ==> c == d
  {
  }

  /** The hash as an index of head. */
  function Index(h: bv32): int {
    h as int
  }

  lemma IndexInjective(x: bv32, y: bv32)
    requires Index(x) == Index(y)
    ensures x == y
  {
    IntBack(x);
    IntBack(y);
  }

  lemma IntBack(x: bv32)
    ensures (x as int) as bv32 == x && 0 <= x as int
  {
  }

  lemma IndexBelow(h: bv32, bits: nat)
    requires Bits(bits) && h <= HashMask(bits)
    ensures 0 <= Index(h) < HashSize(bits)
  {
    match bits
    case 8 => assert h <= 0xff;
    case 9 => assert h <= 0x1ff;
    case 10 => assert h <= 0x3ff;
    case 11 => assert h <= 0x7ff;
    case 12 => assert h <= 0xfff;
    case 13 => assert h <= 0x1fff;
    case 14 => assert h <= 0x3fff;
    case 15 => assert h <= 0x7fff;
    case _ => assert h <= 0xffff;
  }

  /** Place in head of the string at absolute position p. */
  function HashAt(log: seq<byte>, p: int, bits: nat): int
    requires Bits(bits) && 0 <= p && p + 3 <= |log|
  {
    Index(Hash3(log[p], log[p + 1], log[p + 2], bits))
  }

  lemma HashInTable(log: seq<byte>, p: int, bits: nat)
    requires Bits(bits) && 0 <= p && p + 3 <= |log|
    ensures 0 <= HashAt(log, p, bits) < HashSize(bits)
  {
    var h := Hash3(log[p], log[p + 1], log[p + 2], bits);
    Masked(UpdateHash(UpdateHash(0, log[p], bits), log[p + 1], bits), log[p + 2], bits);
    IndexBelow(h, bits);
  }

  /** Why the third byte need not be compared: equal hashes and two equal bytes leave no choice for it. */
  lemma ThirdByte(log: seq<byte>, p: int, q: int, bits: nat)
    requires Bits(bits) && 0 <= p && p + 3 <= |log| && 0 <= q && q + 3 <= |log|
    requires HashAt(log, p, bits) == HashAt(log, q, bits) && log[p] == log[q] && log[p + 1] == log[q + 1]
    ensures log[p + 2] == log[q + 2]
  {
    var h := UpdateHash(UpdateHash(0, log[p], bits), log[p + 1], bits);
    hide UpdateHash;
    IndexInjective(UpdateHash(h, log[p + 2], bits), UpdateHash(h, log[q + 2], bits));
    LastByte(h, log[p + 2], log[q + 2], bits);
  }
}
