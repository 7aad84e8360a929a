/** What stands in front of a block: its marker, its CRC, the randomisation bit and the row of the block itself. */
module BlockMarker {
  import opened Common
  import opened BitStream
  import opened BlockHeader

  function Magic(): seq<Byte> {
    [0x31, 0x41, 0x59, 0x26, 0x53, 0x59]
  }

  /** The n low bytes of v, most significant first. */
  function BytesOf(v: nat, n: nat): (z: seq<Byte>)
    ensures |z| == n
  {
    if n == 0 then [] else BytesOf(v / 256, n - 1) + [v % 256]
  }

  function Number(z: seq<Byte>): nat {
    if z == [] then 0 else Number(z[..|z| - 1]) * 256 + z[|z| - 1]
  }

  lemma {:induction false} NumberOfBytes(v: nat, n: nat)
    requires v < Pow2(8 * n)
    ensures Number(BytesOf(v, n)) == v
  {
    if n > 0 {
      Pow2Add(8 * (n - 1), 8);
      assert Pow2(8) == 256;
      assert v / 256 < Pow2(8 * (n - 1));
      NumberOfBytes(v / 256, n - 1);
      assert BytesOf(v, n)[..n - 1] == BytesOf(v / 256, n - 1);
    }
  }

  /** Bits of a number are those of its upper part q and those of its lower part. */
  lemma {:induction false} SplitBits(v: nat, a: nat, b: nat, q: nat)
    requires q * Pow2(b) <= v < (q + 1) * Pow2(b)
    ensures BitsOf(v, a + b) == BitsOf(q, a) + BitsOf(v, b)
  {
    if b > 0 {
      Doubled(q, Pow2(b - 1));
      Doubled(q + 1, Pow2(b - 1));
      SplitBits(v / 2, a, b - 1, q);
    }
  }

  lemma Doubled(q: int, p: int)
    ensures q * (2 * p) == 2 * (q * p)
  {
  }

  lemma {:induction false} LowBitsOnly(v: nat, n: nat)
    ensures BitsOf(v % Pow2(n), n) == BitsOf(v, n)
  {
    if n > 0 {
      LowBitsOnly(v / 2, n - 1);
      HalfMod(v, Pow2(n - 1));
    }
  }

  lemma HalfMod(v: nat, p: nat)
    requires p > 0
    ensures v % (2 * p) / 2 == v / 2 % p && v % (2 * p) % 2 == v % 2
  {
    var q, r := v / (2 * p), v % (2 * p);
    Quotient(v, 2 * p);
    Doubled(q, p);
    DivModUnique(v / 2, p, q, r / 2);
    DivModUnique(v, 2, q * p + r / 2, r % 2);
  }

  /** A number sent as one field reads back as bytes. */
  lemma {:induction false} FieldIsBytes(v: nat, n: nat)
    ensures BitsOf(v, 8 * n) == BytesBits(BytesOf(v, n))
  {
    if n > 0 {
      FieldIsBytes(v / 256, n - 1);
      assert Pow2(8) == 256;
      SplitBits(v, 8 * (n - 1), 8, v / 256);
      LowBitsOnly(v, 8);
      BytesBitsAppend(BytesOf(v / 256, n - 1), v % 256);
    }
  }

  /** Marker, CRC, whether the block is randomised, and origPtr in 24 bits. */
  function MarkerBits(crc: nat, randomised: bool, origPtr: nat): seq<bool> {
    BytesBits(Magic()) + (BytesBits(BytesOf(crc, 4)) + ([randomised] + BytesBits(BytesOf(origPtr, 3))))
  }

  /** bsPutUChar, one byte after the other. */
  method PutBytes(w: BitWriter, z: seq<Byte>)
    requires w.Valid()
    modifies w
    ensures w.Valid() && w.Bits() == old(w.Bits()) + BytesBits(z)
  {
    assert BytesBits([]) == [];
    hide *;
    ghost var start := w.Bits();
    var i := 0;
    assert z[..0] == [];
    while i < |z|
      invariant 0 <= i <= |z| && w.Valid() && w.Bits() == start + BytesBits(z[..i])
    {
      NextByte(z, i, start);
      w.W(8, z[i]);
      i := i + 1;
    }
    assert z[..|z|] == z;
  }

  lemma NextByte(z: seq<Byte>, i: nat, start: seq<bool>)
    requires i < |z|
    ensures z[i] < Pow2(8) && start + BytesBits(z[..i + 1]) == start + BytesBits(z[..i]) + BitsOf(z[i], 8)
  {
    assert Pow2(8) == 256;
    BytesBitsAppend(z[..i], z[i]);
    assert z[..i + 1] == z[..i] + [z[i]];
    hide BytesBits, BitsOf, Pow2;
    Assoc(start, BytesBits(z[..i]), BitsOf(z[i], 8));
  }

  method SendMarker(w: BitWriter, crc: nat, origPtr: nat)
    requires w.Valid() && crc < Pow2(32) && origPtr < Pow2(24)
    modifies w
    ensures w.Valid() && w.Bits() == old(w.Bits()) + MarkerBits(crc, false, origPtr)
  {
    ghost var a, b, c := BytesBits(Magic()), BytesBits(BytesOf(crc, 4)), BytesBits(BytesOf(origPtr, 3));
    FieldIsBytes(origPtr, 3);
    hide BitWriter.Bits, Aligned, BitsOf, BytesBits, BytesOf, Pow2;
    ghost var s := w.Bits();
    PutBytes(w, Magic());
    PutBytes(w, BytesOf(crc, 4));
    PutBit(w, false);
    w.W(24, origPtr);
    Assoc(s, a, b + ([false] + c));
    Assoc(s + a, b, [false] + c);
    Assoc(s + a + b, [false], c);
  }

  /** GET_UCHAR, on a stream that may be known to start with b. */
  method GetUChar(reader: BitReader, ghost b: Byte, ghost after: seq<bool>, ghost expected: bool) returns (ok: bool, uc: Byte)
    requires reader.Valid() && (expected ==> reader.Bits() == BitsOf(b, 8) + after)
    modifies reader
    ensures reader.Valid() && (expected ==> ok && uc == b && reader.Bits() == after)
  {
    assert Pow2(8) == 256;
    hide BitReader.Bits, LowBits, BitsOf, Pow2;
    ghost var bits := reader.Bits();
    var v := reader.Get(8);
    if expected { TakeNumber(bits, b, 8, after, v, reader.Bits()); }
    if v.None? { return false, 0; }
    Fits(bits, 8);
    return true, v.value;
  }

  /** Reads n bytes into a number, as the decoder does with shifts; more than 32 bits do not fit. */
  method GetNumber(reader: BitReader, n: nat, ghost v: nat, ghost after: seq<bool>, ghost expected: bool) returns (ok: bool, x: nat)
    requires reader.Valid() && n <= 4 && (expected ==> v < Pow2(8 * n) && reader.Bits() == BytesBits(BytesOf(v, n)) + after)
    modifies reader
    ensures reader.Valid() && (expected ==> ok && x == v && reader.Bits() == after)
  {
    ghost var z := BytesOf(v, n);
    if expected { NumberOfBytes(v, n); }
    assert Number([]) == 0;
    hide *;
    x := 0;
    var i := 0;
    assert z[0..] == z && z[..0] == [];
    while i < n
      invariant 0 <= i <= n && reader.Valid() && (expected ==> reader.Bits() == BytesBits(z[i..]) + after && x == Number(z[..i]))
    {
      ok, x := GetOne(reader, x, z, i, after, expected);
      if !ok { return; }
      i := i + 1;
    }
    assert z[..n] == z && z[n..] == [];
    NoBytes(after);
    ok := true;
  }

  lemma NoBytes(after: seq<bool>)
    ensures BytesBits([]) + after == after
  {
  }

  /** One byte more of a number. */
  method GetOne(reader: BitReader, x0: nat, ghost z: seq<Byte>, ghost i: nat, ghost after: seq<bool>, ghost expected: bool) returns (ok: bool, x: nat)
    requires reader.Valid() && i < |z| && (expected ==> reader.Bits() == BytesBits(z[i..]) + after && x0 == Number(z[..i]))
    modifies reader
    ensures reader.Valid() && (expected ==> ok && reader.Bits() == BytesBits(z[i + 1..]) + after && x == Number(z[..i + 1]))
  {
    hide *;
    ghost var more := BytesBits(z[i + 1..]) + after;
    BytesBitsFront(z, i);
    Assoc(BitsOf(z[i], 8), BytesBits(z[i + 1..]), after);
    NumberMore(z, i);
    var uc;
    ok, uc := GetUChar(reader, z[i], more, expected);
    x := x0 * 256 + uc;
  }

  lemma NumberMore(z: seq<Byte>, i: nat)
    requires i < |z|
    ensures Number(z[..i + 1]) == Number(z[..i]) * 256 + z[i]
  {
    assert z[..i + 1][..i] == z[..i];
  }

  datatype Marker = Block(crc: nat, randomised: bool, origPtr: nat) | EndOfStream | Bad | Short

  /** Reads what precedes a block. The byte 0x17 in first place starts the trailer instead; ending says that it is expected. */
  method ReceiveMarker(reader: BitReader, blockSize100k: nat, ghost crc: nat, ghost rand: bool, ghost row: nat, ghost rest: seq<bool>, ghost ending: bool) returns (m: Marker)
    requires reader.Valid() && (ending ==> reader.Bits() == BitsOf(0x17, 8) + rest)
    modifies reader
    ensures reader.Valid() && (m.Block? ==> m.origPtr <= 10 + 100000 * blockSize100k)
    ensures ending ==> m == EndOfStream && reader.Bits() == rest
    ensures !ending && crc < Pow2(32) && row < 0x100_0000 && row <= 10 + 100000 * blockSize100k && old(reader.Bits()) == MarkerBits(crc, rand, row) + rest
            ==> m == Block(crc, rand, row) && reader.Bits() == rest
  {
    Pow2Facts();
    ghost var expected := !ending && crc < Pow2(32) && row < 0x100_0000 && row <= 10 + 100000 * blockSize100k && reader.Bits() == MarkerBits(crc, rand, row) + rest;
    ghost var a, b, c := BytesBits(Magic()), BytesBits(BytesOf(crc, 4)), BytesBits(BytesOf(row, 3));
    hide BitReader.Bits, LowBits, BitsOf, Pow2, BytesOf, BytesBits;
    Assoc(a, b + ([rand] + c), rest);
    Assoc(b, [rand] + c, rest);
    Assoc([rand], c, rest);
    m := ReceiveMagic(reader, if ending then rest else b + ([rand] + (c + rest)), expected, ending);
    if !m.Block? { return; }
    m := ReceiveFields(reader, blockSize100k, crc, rand, row, rest, expected);
  }

  method ReceiveFields(reader: BitReader, blockSize100k: nat, ghost crc: nat, ghost rand: bool, ghost row: nat, ghost rest: seq<bool>, ghost expected: bool) returns (m: Marker)
    requires reader.Valid()
    requires expected ==> crc < Pow2(32) && row < Pow2(24) && row <= 10 + 100000 * blockSize100k
                          && reader.Bits() == BytesBits(BytesOf(crc, 4)) + ([rand] + (BytesBits(BytesOf(row, 3)) + rest))
    modifies reader
    ensures reader.Valid() && (m.Block? ==> m.origPtr <= 10 + 100000 * blockSize100k)
    ensures expected ==> m == Block(crc, rand, row) && reader.Bits() == rest
  {
    hide BitReader.Bits, LowBits, BitsOf, Pow2, BytesOf, BytesBits;
    ghost var c := BytesBits(BytesOf(row, 3));
    var ok, stored, randomised, origPtr;
    ok, stored := GetNumber(reader, 4, crc, [rand] + (c + rest), expected);
    if !ok { return Short; }
    ghost var was := reader.Bits();
    ok, randomised := GetBit(reader);
    if expected {
      assert [] + (c + rest) == c + rest;
      TakeBit(was, rand, [], c + rest, ok, randomised, reader.Bits());
    }
    if !ok { return Short; }
    ok, origPtr := GetNumber(reader, 3, row, rest, expected);
    if !ok { return Short; }
    if origPtr > 10 + 100000 * blockSize100k { return Bad; }
    return Block(stored, randomised, origPtr);
  }

  method ReceiveMagic(reader: BitReader, ghost after: seq<bool>, ghost expected: bool, ghost ending: bool) returns (m: Marker)
    requires reader.Valid() && (expected ==> !ending && reader.Bits() == BytesBits(Magic()) + after)
    requires ending ==> reader.Bits() == BitsOf(0x17, 8) + after
    modifies reader
    ensures reader.Valid() && (expected ==> m.Block? && reader.Bits() == after) && (ending ==> m == EndOfStream && reader.Bits() == after)
    ensures m.Block? ==> m == Block(0, false, 0)
  {
    var z := Magic();
    BytesBitsFront(z, 0);
    assert z[0..] == z && z[0] == 0x31;
    hide *;
    Assoc(BitsOf(z[0], 8), BytesBits(z[1..]), after);
    var ok, uc := GetUChar(reader, if ending then 0x17 else z[0], if ending then after else BytesBits(z[1..]) + after, expected || ending);
    if !ok { return Short; }
    if uc == 0x17 { return EndOfStream; }
    if uc != 0x31 { return Bad; }
    var good;
    ok, good := ReceiveBytes(reader, z, 1, after, expected);
    if !ok { return Short; }
    if !good { return Bad; }
    return Block(0, false, 0);
  }

  /** Compares what is read with the bytes of z from i on. */
  method ReceiveBytes(reader: BitReader, z: seq<Byte>, i0: nat, ghost after: seq<bool>, ghost expected: bool) returns (ok: bool, good: bool)
    requires reader.Valid() && i0 <= |z| && (expected ==> reader.Bits() == BytesBits(z[i0..]) + after)
    modifies reader
    ensures reader.Valid() && (expected ==> ok && good && reader.Bits() == after)
  {
    hide BitReader.Bits, LowBits, BitsOf, BytesBits, Pow2;
    var i := i0;
    while i < |z|
      invariant i0 <= i <= |z| && reader.Valid() && (expected ==> reader.Bits() == BytesBits(z[i..]) + after)
    {
      BytesBitsFront(z, i);
      Assoc(BitsOf(z[i], 8), BytesBits(z[i + 1..]), after);
      var uc;
      ok, uc := GetUChar(reader, z[i], BytesBits(z[i + 1..]) + after, expected);
      if !ok { return false, false; }
      if uc != z[i] { return true, false; }
      i := i + 1;
    }
    assert z[|z|..] == [];
    NoBytes(after);
    return true, true;
  }
}
