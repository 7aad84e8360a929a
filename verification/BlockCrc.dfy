/** The checksums of a bzip2 stream: the 32-bit CRC of a block's bytes, most significant bit first, and its combination
    over the blocks. */
module BlockCrc {
  import opened Common

  const POLY: bv32 := 0x04c1_1db7

  /** One bit of the division by the polynomial. */
  function Shift(c: bv32): bv32 {
    if c & 0x8000_0000 != 0 then (c << 1) ^ POLY else c << 1
  }

  function Shift8(c: bv32): bv32 {
    Shift(Shift(Shift(Shift(Shift(Shift(Shift(Shift(c))))))))
  }

  /** Entry i of BZ2_crc32Table. */
  function Entry(i: bv32): bv32 {
    Shift8(i << 24)
  }

  /** BZ_UPDATE_CRC. */
  function Update(c: bv32, b: Byte): bv32 {
    (c << 8) ^ Entry(Index(c, b))
  }

  function Index(c: bv32, b: Byte): bv32 {
    (c >> 24) ^ (b as bv32)
  }

  /** The register after a row of bytes, from BZ_INITIALISE_CRC. */
  function Running(s: seq<Byte>): bv32 {
    if s == [] then 0xffff_ffff else Update(Running(s[..|s| - 1]), s[|s| - 1])
  }

  /** BZ_FINALISE_CRC. */
  function Checksum(s: seq<Byte>): bv32 {
    !Running(s)
  }

  /** The combined checksum takes in one more block. */
  function Combine(c: bv32, crc: bv32): bv32 {
    ((c << 1) | (c >> 31)) ^ crc
  }

  function Word(c: bv32): (v: nat)
    ensures v < 0x1_0000_0000
  {
    c as nat
  }

  lemma RunningMore(s: seq<Byte>, b: Byte)
    ensures Running(s + [b]) == Update(Running(s), b)
  {
    assert (s + [b])[..|s|] == s;
    hide Update;
  }

  lemma NothingRun()
    ensures Running([]) == 0xffff_ffff
  {
  }
}
