/** A whole bzip2 stream as bits: header, blocks and trailer, and the text it stands for. */
module StreamFormat {
  import opened Common
  import opened BitStream
  import opened RunLength
  import opened BlockCrc
  import opened BlockHeader
  import opened BlockMarker
  import opened BlockTransmission
  import opened P = BlockPipeline
  import R = Rotations
  import O = BlockOutput
  import CT = CodingTables

  /** A block as it was sent: its bytes, whether it was randomised before it was sorted, the order its rotations were sorted
      into, the row of the block itself, and how its last column was laid out. */
  datatype Row = Row(block: seq<Byte>, randomised: bool, order: seq<int>, origPtr: nat, layout: Layout, unseqToSeq: seq<Byte>) {
    /** What was sorted. */
    function Sorted(): (s: seq<Byte>)
      ensures |s| == |block|
    {
      if randomised then seq(|block|, j requires 0 <= j < |block| => O.Masked(block[j], O.RandAfter(j + 1))) else block
    }
  }

  /** The bytes a block stands for. */
  function Text(block: seq<Byte>): seq<Byte> {
    Expand(block, 0).bytes
  }

  /** The block ends between two runs: whatever a decoder would fetch after it, it expands to its text. */
  ghost predicate Whole(block: seq<Byte>) {
    forall wrap: Byte :: Expand(block, wrap) == Expansion(Text(block), true)
  }

  ghost predicate Sent(row: Row, level: int) {
    1 <= level <= 9 && row.origPtr < |row.block| <= 100000 * level && R.SortedRotations(row.Sorted(), row.order) && row.order[row.origPtr] == 0
    && Carries(row.layout, row.Sorted(), row.order, row.unseqToSeq) && |row.layout.selector| <= CT.BZ_MAX_SELECTORS && Whole(row.block)
  }

  ghost predicate AllSent(rows: seq<Row>, level: int) {
    forall i :: 0 <= i < |rows| ==> Sent(rows[i], level)
  }

  function BlockCheck(block: seq<Byte>): bv32 {
    Checksum(Text(block))
  }

  ghost function SentBits(row: Row): seq<bool>
    requires row.layout.Sound()
  {
    MarkerBits(Word(BlockCheck(row.block)), row.randomised, row.origPtr) + row.layout.Bits()
  }

  lemma SentSound(row: Row, level: int)
    requires Sent(row, level)
    ensures row.layout.Sound()
  {
  }

  ghost function RowsBits(rows: seq<Row>, level: int): seq<bool>
    requires AllSent(rows, level)
  {
    if rows == [] then [] else SentSound(rows[0], level); SentBits(rows[0]) + RowsBits(rows[1..], level)
  }

  lemma {:induction false} RowsAppend(rows: seq<Row>, row: Row, level: int)
    requires AllSent(rows, level) && Sent(row, level)
    ensures AllSent(rows + [row], level) && row.layout.Sound() && RowsBits(rows + [row], level) == RowsBits(rows, level) + SentBits(row)
  {
    var all := rows + [row];
    hide Sent, SentBits;
    SentSound(row, level);
    assert forall i :: 0 <= i < |all| ==> all[i] == if i < |rows| then rows[i] else row;
    if rows == [] {
      assert all[1..] == [] && [] + SentBits(row) == SentBits(row) + [];
    } else {
      RowsAppend(rows[1..], row, level);
      SentSound(rows[0], level);
      assert all[1..] == rows[1..] + [row];
      assert RowsBits(all, level) == SentBits(rows[0]) + RowsBits(all[1..], level);
      Assoc(SentBits(rows[0]), RowsBits(rows[1..], level), SentBits(row));
    }
  }

  /** The blocks of a stream, in order. */
  function Blocks(rows: seq<Row>): (blocks: seq<seq<Byte>>)
    ensures |blocks| == |rows|
  {
    seq(|rows|, i requires 0 <= i < |rows| => rows[i].block)
  }

  lemma BlocksAppend(rows: seq<Row>, row: Row)
    ensures Blocks(rows + [row]) == Blocks(rows) + [row.block]
  {
  }

  /** The combined checksum of the blocks of a stream. */
  function CombinedCheck(blocks: seq<seq<Byte>>): bv32 {
    if blocks == [] then 0 else Combine(CombinedCheck(blocks[..|blocks| - 1]), BlockCheck(blocks[|blocks| - 1]))
  }

  lemma CombinedMore(blocks: seq<seq<Byte>>, block: seq<Byte>)
    ensures CombinedCheck(blocks + [block]) == Combine(CombinedCheck(blocks), BlockCheck(block))
    ensures ExpandAll(blocks + [block]) == ExpandAll(blocks) + Text(block)
  {
    assert (blocks + [block])[..|blocks|] == blocks;
    hide Combine, BlockCheck, Expand;
  }

  function HeaderBytes(level: int): seq<Byte>
    requires 1 <= level <= 9
  {
    [0x42, 0x5a, 0x68, 0x30 + level]
  }

  function EndMagic(): seq<Byte> {
    [0x17, 0x72, 0x45, 0x38, 0x50, 0x90]
  }

  /** Two decimal digits a byte. */
  function Digits(z: seq<Byte>): nat {
    if z == [] then 0 else 100 * Digits(z[..|z| - 1]) + Two(z[|z| - 1])
  }

  const PI := 314159265359
  const ROOT := 177245385090

  /** A block begins with the digits of pi, and the stream ends with those of its square root. */
  lemma MagicDigits()
    ensures Digits(BlockMarker.Magic()) == PI && Digits(EndMagic()) == ROOT && ROOT * ROOT <= PI * 100_000_000_000 < (ROOT + 1) * (ROOT + 1)
  {
    DigitsOf(BlockMarker.Magic());
    DigitsOf(EndMagic());
    hide Digits;
    assert Two(0x31) == 31 && Two(0x41) == 41 && Two(0x59) == 59 && Two(0x26) == 26 && Two(0x53) == 53;
    assert Two(0x17) == 17 && Two(0x72) == 72 && Two(0x45) == 45 && Two(0x38) == 38 && Two(0x50) == 50 && Two(0x90) == 90;
  }

  lemma DigitsOf(z: seq<Byte>)
    requires |z| == 6
    ensures Digits(z) == 100 * (100 * (100 * (100 * (100 * Two(z[0]) + Two(z[1])) + Two(z[2])) + Two(z[3])) + Two(z[4])) + Two(z[5])
  {
    DigitsMore(z, 0);
    DigitsMore(z, 1);
    DigitsMore(z, 2);
    DigitsMore(z, 3);
    DigitsMore(z, 4);
    DigitsMore(z, 5);
    assert z[..0] == [] && z[..6] == z;
  }

  lemma DigitsMore(z: seq<Byte>, n: nat)
    requires n < |z|
    ensures Digits(z[..n + 1]) == 100 * Digits(z[..n]) + Two(z[n])
  {
    assert z[..n + 1][..n] == z[..n];
  }

  function Two(b: Byte): nat {
    b / 16 * 10 + b % 16
  }

  function TrailerBits(crc: nat): seq<bool> {
    BytesBits(EndMagic()) + BytesBits(BlockMarker.BytesOf(crc, 4))
  }

  /** What follows the header and the blocks already dealt with. */
  ghost function RestBits(rows: seq<Row>, level: int, crc: nat, padding: nat): seq<bool>
    requires AllSent(rows, level)
  {
    RowsBits(rows, level) + (TrailerBits(crc) + BitsOf(0, padding))
  }

  lemma RestFront(rows: seq<Row>, level: int, crc: nat, padding: nat)
    requires rows != [] && AllSent(rows, level)
    ensures AllSent(rows[1..], level) && rows[0].layout.Sound()
    ensures RestBits(rows, level, crc, padding) == SentBits(rows[0]) + RestBits(rows[1..], level, crc, padding)
  {
    SentSound(rows[0], level);
    hide Sent, SentBits, TrailerBits, BitsOf;
    Assoc(SentBits(rows[0]), RowsBits(rows[1..], level), TrailerBits(crc) + BitsOf(0, padding));
  }

  /** z is a stream of these blocks. */
  ghost predicate IsStream(z: seq<Byte>, level: int, rows: seq<Row>, padding: nat) {
    1 <= level <= 9 && AllSent(rows, level) && padding < 8
    && BytesBits(z) == BytesBits(HeaderBytes(level)) + RestBits(rows, level, Word(CombinedCheck(Blocks(rows))), padding)
  }

  /** z is a stream that stands for text. */
  ghost predicate StandsFor(z: seq<Byte>, text: seq<Byte>) {
    exists level :: StandsAt(z, text, level)
  }

  /** And its header says this block size. */
  ghost predicate StandsAt(z: seq<Byte>, text: seq<Byte>, level: int) {
    exists rows, padding :: IsStream(z, level, rows, padding) && text == ExpandAll(Blocks(rows))
  }

  lemma AtSomeLevel(z: seq<Byte>, text: seq<Byte>, level: int)
    requires StandsAt(z, text, level)
    ensures StandsFor(z, text)
  {
    hide StandsAt;
  }

  /** A block of complete separate runs is whole. */
  lemma RunsWhole(runs: seq<Pair>)
    requires AllRuns(runs) && Separate(runs)
    ensures Whole(Encode(runs)) && Text(Encode(runs)) == Plain(runs)
  {
    hide Expand, Encode, Plain;
    forall wrap: Byte ensures Expand(Encode(runs), wrap) == Expansion(Plain(runs), true) { ExpandEncode(runs, wrap); }
  }

  // ---- a stream in the making ----

  /** The bytes already handed on and the bits since are the header, if it has been begun, and these blocks. */
  ghost predicate SoFar(sent: seq<Byte>, bits: seq<bool>, begun: bool, level: int, rows: seq<Row>) {
    1 <= level <= 9 && AllSent(rows, level) && (!begun ==> rows == [])
    && BytesBits(sent) + bits == (if begun then BytesBits(HeaderBytes(level)) else []) + RowsBits(rows, level)
  }

  lemma NothingSoFar(level: int)
    requires 1 <= level <= 9
    ensures SoFar([], [], false, level, [])
  {
    assert BytesBits([]) + [] == [];
  }

  lemma HeaderSoFar(sent: seq<Byte>, bits: seq<bool>, level: int, rows: seq<Row>)
    requires SoFar(sent, bits, false, level, rows)
    ensures 1 <= level <= 9 && SoFar(sent, bits + BytesBits(HeaderBytes(level)), true, level, rows)
  {
    hide BytesBits, Sent;
    var h := BytesBits(HeaderBytes(level));
    assert rows == [] && RowsBits(rows, level) == [];
    Assoc(BytesBits(sent), bits, h);
    assert BytesBits(sent) + bits == [] && [] + h == h + [];
  }

  lemma RowSoFar(sent: seq<Byte>, bits: seq<bool>, level: int, rows: seq<Row>, row: Row)
    requires SoFar(sent, bits, true, level, rows) && Sent(row, level)
    ensures row.layout.Sound() && SoFar(sent, bits + SentBits(row), true, level, rows + [row])
  {
    RowsAppend(rows, row, level);
    hide BytesBits, Sent, SentBits, RowsBits, HeaderBytes;
    Assoc(BytesBits(sent), bits, SentBits(row));
    Assoc(BytesBits(HeaderBytes(level)), RowsBits(rows, level), SentBits(row));
  }

  lemma RestartSoFar(sent: seq<Byte>, z: seq<Byte>, bits: seq<bool>, rest: seq<bool>, level: int, rows: seq<Row>, begun: bool)
    requires SoFar(sent, bits, begun, level, rows) && bits == BytesBits(z) + rest
    ensures SoFar(sent + z, rest, begun, level, rows)
  {
    BytesBitsConcat(sent, z);
    hide BytesBits, Sent, SentBits, RowsBits, HeaderBytes;
    Assoc(BytesBits(sent), BytesBits(z), rest);
  }

  lemma EndSoFar(sent: seq<Byte>, z: seq<Byte>, bits: seq<bool>, level: int, rows: seq<Row>, padding: nat)
    requires SoFar(sent, bits, true, level, rows) && padding < 8
    requires BytesBits(z) == bits + (TrailerBits(Word(CombinedCheck(Blocks(rows)))) + BitsOf(0, padding))
    ensures IsStream(sent + z, level, rows, padding)
  {
    BytesBitsConcat(sent, z);
    var t := TrailerBits(Word(CombinedCheck(Blocks(rows)))) + BitsOf(0, padding);
    hide BytesBits, Sent, SentBits, RowsBits, HeaderBytes, TrailerBits, CombinedCheck;
    Assoc(BytesBits(sent), bits, t);
    Assoc(BytesBits(HeaderBytes(level)), RowsBits(rows, level), t);
  }
}
