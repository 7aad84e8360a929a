/** BZ2_bzDecompress: header, blocks and trailer of a stream read back, each block's text given out in whatever room the
    caller has, its checksum compared, and the combined checksum at the end. */
module StreamDecoding {
  import opened Common
  import opened RunLength
  import opened BitStream
  import opened BlockCrc
  import opened BlockHeader
  import opened BlockMarker
  import opened StreamFormat
  import P = BlockPipeline
  import T = BlockTransmission
  import CT = CodingTables
  import O = BlockOutput
  import BW = BurrowsWheeler

  /** NeedInput: the input has run out before the stream. Overrun: a table would be overrun. */
  datatype Code = Ok | StreamEnd | SequenceError | DataErrorMagic | DataError | NeedInput | Overrun

  /** Where the decoder stands: before the stream, before a block or the trailer, giving out a block, after the stream,
      or after an error or the end of its input. */
  datatype Phase = Magic | Header | Output | Idle | Stopped

  /** A stream as it was sent. */
  datatype Stream = Stream(level: int, rows: seq<Row>, padding: nat) {
    ghost predicate Good() {
      1 <= level <= 9 && AllSent(rows, level) && padding < 8
    }

    function Crc(): nat {
      Word(CombinedCheck(Blocks(rows)))
    }

    ghost function Text(): seq<Byte> {
      ExpandAll(Blocks(rows))
    }

    /** What is left to read after k blocks. */
    ghost function After(k: nat): seq<bool>
      requires Good() && k <= |rows|
    {
      RestBits(rows[k..], level, Crc(), padding)
    }

    /** The first k blocks have been given out. */
    ghost predicate Given(k: nat, delivered: seq<Byte>, combined: bv32) {
      k <= |rows| && delivered == ExpandAll(Blocks(rows[..k])) && combined == CombinedCheck(Blocks(rows[..k]))
    }

    /** Between blocks k - 1 and k. */
    ghost predicate Between(k: nat, bits: seq<bool>, delivered: seq<Byte>, combined: bv32) {
      Good() && Given(k, delivered, combined) && bits == After(k)
    }

    /** While block k is given out. */
    ghost predicate Inside(k: nat, bits: seq<bool>, delivered: seq<Byte>, combined: bv32, block: seq<Byte>, written: seq<Byte>, stored: nat) {
      Good() && k < |rows| && bits == After(k + 1) && delivered == ExpandAll(Blocks(rows[..k])) + written
      && combined == CombinedCheck(Blocks(rows[..k])) && block == rows[k].block && stored == Word(BlockCheck(block))
    }
  }

  lemma StreamBegins(x: Stream, z: seq<Byte>)
    requires IsStream(z, x.level, x.rows, x.padding)
    ensures x.Good() && BytesBits(z) == BytesBits(HeaderBytes(x.level)) + x.After(0) && x.Between(0, x.After(0), [], 0)
  {
    NoneDone(x.rows);
    hide RestBits, BytesBits, HeaderBytes, Sent, Word, Blocks;
  }

  lemma NoneDone(rows: seq<Row>)
    ensures rows[0..] == rows && rows[..0] == [] && Blocks([]) == [] && ExpandAll([]) == [] && CombinedCheck([]) == 0
  {
    hide Combine, Expand;
  }

  /** What comes next on the wire: a block. */
  lemma BlockNext(x: Stream, k: nat)
    requires x.Good() && k < |x.rows|
    ensures Sent(x.rows[k], x.level) && x.rows[k].layout.Sound()
    ensures x.After(k) == MarkerBits(Word(BlockCheck(x.rows[k].block)), x.rows[k].randomised, x.rows[k].origPtr) + (x.rows[k].layout.Bits() + x.After(k + 1))
  {
    hide *;
    var rest := x.rows[k..];
    assert rest[0] == x.rows[k] && rest[1..] == x.rows[k + 1..];
    GoodRest(x, k);
    GoodRest(x, k + 1);
    RestFront(rest, x.level, x.Crc(), x.padding);
    RowOf(x, k);
    SentSound(x.rows[k], x.level);
    SentBitsAre(x.rows[k]);
    Assoc(MarkerBits(Word(BlockCheck(x.rows[k].block)), x.rows[k].randomised, x.rows[k].origPtr), x.rows[k].layout.Bits(), x.After(k + 1));
  }

  lemma GoodRest(x: Stream, k: nat)
    requires x.Good() && k <= |x.rows|
    ensures AllSent(x.rows[k..], x.level) && x.After(k) == RestBits(x.rows[k..], x.level, x.Crc(), x.padding)
  {
    hide Sent, RestBits;
  }

  lemma SentBitsAre(row: Row)
    requires row.layout.Sound()
    ensures SentBits(row) == MarkerBits(Word(BlockCheck(row.block)), row.randomised, row.origPtr) + row.layout.Bits()
  {
  }

  function EndRest(): seq<Byte> {
    [0x72, 0x45, 0x38, 0x50, 0x90]
  }

  /** What comes next on the wire: the trailer. */
  lemma TrailerNext(x: Stream)
    requires x.Good()
    ensures x.After(|x.rows|) == BitsOf(0x17, 8) + (BytesBits(EndRest()) + (BytesBits(BytesOf(x.Crc(), 4)) + BitsOf(0, x.padding)))
  {
    var e, c, p := BytesBits(EndMagic()), BytesBits(BytesOf(x.Crc(), 4)), BitsOf(0, x.padding);
    EndFront();
    LastRest(x);
    hide *;
    Assoc(e, c, p);
    Assoc(BitsOf(0x17, 8), BytesBits(EndRest()), c + p);
  }

  lemma EndFront()
    ensures BytesBits(EndMagic()) == BitsOf(0x17, 8) + BytesBits(EndRest())
  {
    BytesBitsFront(EndMagic(), 0);
    assert EndMagic()[0..] == EndMagic() && EndMagic()[1..] == EndRest() && EndMagic()[0] == 0x17;
    hide BytesBits, BitsOf;
  }

  lemma LastRest(x: Stream)
    requires x.Good()
    ensures x.After(|x.rows|) == (BytesBits(EndMagic()) + BytesBits(BytesOf(x.Crc(), 4))) + BitsOf(0, x.padding)
  {
    hide Sent, BytesBits, BytesOf, BitsOf, Stream.Crc, EndMagic;
    assert x.rows[|x.rows|..] == [];
  }

  /** A block has been given out in full. */
  lemma BlockDone(x: Stream, k: nat, bits: seq<bool>, delivered: seq<Byte>, combined: bv32, block: seq<Byte>, written: seq<Byte>, stored: nat)
    requires x.Inside(k, bits, delivered, combined, block, written, stored) && written == Text(block)
    ensures k < |x.rows| && x.Between(k + 1, bits, delivered, Combine(combined, BlockCheck(block)))
  {
    OneMore(x, k);
    hide AllSent, Stream.After, Combine, BlockCheck, Text, CombinedCheck, ExpandAll, Blocks, Word;
  }

  lemma OneMore(x: Stream, k: nat)
    requires k < |x.rows|
    ensures ExpandAll(Blocks(x.rows[..k + 1])) == ExpandAll(Blocks(x.rows[..k])) + Text(x.rows[k].block)
    ensures CombinedCheck(Blocks(x.rows[..k + 1])) == Combine(CombinedCheck(Blocks(x.rows[..k])), BlockCheck(x.rows[k].block))
  {
    hide *;
    assert x.rows[..k + 1] == x.rows[..k] + [x.rows[k]];
    BlocksAppend(x.rows[..k], x.rows[k]);
    CombinedMore(Blocks(x.rows[..k]), x.rows[k].block);
  }

  /** The text given out so far is the beginning of the text. */
  lemma {:induction false} PrefixText(x: Stream, k: nat)
    requires k <= |x.rows|
    ensures ExpandAll(Blocks(x.rows[..k])) <= x.Text()
    ensures k < |x.rows| ==> ExpandAll(Blocks(x.rows[..k])) + Text(x.rows[k].block) <= x.Text()
    decreases |x.rows| - k
  {
    if k == |x.rows| {
      assert x.rows[..k] == x.rows;
    } else {
      PrefixText(x, k + 1);
      OneMore(x, k);
    }
  }

  // ---- the fixed parts of a stream ----

  /** The four bytes of the header. */
  method ReceiveHeader(reader: BitReader, ghost level: int, ghost after: seq<bool>, ghost expected: bool) returns (code: Code, blockSize100k: nat)
    requires reader.Valid() && (expected ==> 1 <= level <= 9 && reader.Bits() == BytesBits(HeaderBytes(level)) + after)
    modifies reader
    ensures reader.Valid() && code in {Code.Ok, DataErrorMagic, NeedInput} && (code == Code.Ok ==> 1 <= blockSize100k <= 9)
    ensures expected ==> code == Code.Ok && blockSize100k == level && reader.Bits() == after
  {
    hide BitReader.Bits, LowBits, BitsOf, BytesBits, Pow2;
    ghost var last: Byte := if expected then 0x30 + level else 0;
    if expected { HeaderParts(level, after); }
    blockSize100k := 0;
    var ok, good := ReceiveBytes(reader, [0x42, 0x5a, 0x68], 0, BitsOf(last, 8) + after, expected);
    if !ok { return NeedInput, blockSize100k; }
    if !good { return DataErrorMagic, blockSize100k; }
    var uc;
    ok, uc := GetUChar(reader, last, after, expected);
    if !ok { return NeedInput, blockSize100k; }
    if uc < 0x31 || uc > 0x39 { return DataErrorMagic, blockSize100k; }
    return Code.Ok, uc - 0x30;
  }

  lemma HeaderParts(level: int, after: seq<bool>)
    requires 1 <= level <= 9
    ensures BytesBits(HeaderBytes(level)) + after == BytesBits([0x42, 0x5a, 0x68][0..]) + (BitsOf(0x30 + level, 8) + after)
  {
    var z: seq<Byte> := [0x42, 0x5a, 0x68];
    assert HeaderBytes(level) == z + [0x30 + level] && z[0..] == z;
    BytesBitsAppend(z, 0x30 + level);
    hide BytesBits, BitsOf;
    Assoc(BytesBits(z), BitsOf(0x30 + level, 8), after);
  }

  /** The trailer after its first byte. */
  method ReceiveTrailer(reader: BitReader, ghost crc: nat, ghost after: seq<bool>, ghost expected: bool) returns (code: Code, stored: nat)
    requires reader.Valid() && (expected ==> crc < Pow2(32) && reader.Bits() == BytesBits(EndRest()) + (BytesBits(BytesOf(crc, 4)) + after))
    modifies reader
    ensures reader.Valid() && code in {Code.Ok, Code.DataError, NeedInput} && (expected ==> code == Code.Ok && stored == crc)
  {
    hide BitReader.Bits, LowBits, BitsOf, BytesBits, Pow2, BytesOf;
    stored := 0;
    assert EndRest()[0..] == EndRest();
    var ok, good := ReceiveBytes(reader, EndRest(), 0, BytesBits(BytesOf(crc, 4)) + after, expected);
    if !ok { return NeedInput, stored; }
    if !good { return Code.DataError, stored; }
    ok, stored := GetNumber(reader, 4, crc, after, expected);
    return if ok then Code.Ok else NeedInput, stored;
  }

  /** A block on the wire is read as it was sent. */
  lemma RowFits(row: Row, level: int)
    requires Sent(row, level)
    ensures Word(BlockCheck(row.block)) < Pow2(32) && row.origPtr < 0x100_0000 && row.origPtr <= 10 + 100000 * level
    ensures P.Carries(row.layout, row.Sorted(), row.order, row.unseqToSeq) && row.origPtr < |row.Sorted()| <= 100000 * level && IsPerm(row.order, |row.Sorted()|)
    ensures |row.layout.selector| <= CT.BZ_MAX_SELECTORS
    ensures O.Content(BW.LastColumn(row.Sorted(), row.order), row.origPtr, row.randomised) == row.block
  {
    Pow2Facts();
    hide P.Carries, Whole, Word, BlockCheck, BW.LastColumn, O.Content, Pow2, O.Masked, O.RandAfter;
    if row.randomised {
      O.RandomisedRestored(row.block, row.Sorted(), row.order, row.origPtr);
    } else {
      O.ContentOfSort(row.block, row.order, row.origPtr);
    }
  }

  /** A block after its marker, ready for output. */
  method ReceiveOne(reader: BitReader, origPtr: nat, blockSize100k: nat, small: bool, randomised: bool, ghost row: Row, ghost rest: seq<bool>, ghost expected: bool)
    returns (code: Code, s: O.DState?)
    requires reader.Valid() && 1 <= blockSize100k <= 9
    requires expected ==> Sent(row, blockSize100k) && row.layout.Sound() && origPtr == row.origPtr && randomised == row.randomised && reader.Bits() == row.layout.Bits() + rest
    modifies reader
    ensures reader.Valid() && code in {Code.Ok, NeedInput, Code.DataError, Code.Overrun} && (code == Code.Ok <==> s != null)
    ensures s != null ==> s.Valid() && s.written == [] && s.smallDecompress == small && fresh({s, s.tt, s.ll16, s.ll4, s.cftab})
    ensures expected ==> code == Code.Ok && s.block == row.block && reader.Bits() == rest
  {
    hide *;
    s := null;
    if expected { RowFits(row, blockSize100k); }
    var r, tt, cftab;
    ghost var col;
    r, tt, cftab, col := P.ReceiveBlock(reader, origPtr, blockSize100k, row.layout, rest, row.Sorted(), row.order, row.unseqToSeq);
    if r != Good { return if r == NoInput then NeedInput else if r == Status.Overrun then Code.Overrun else Code.DataError, s; }
    s := P.StartOutput(tt, cftab, origPtr, blockSize100k, small, randomised, col);
    code := Code.Ok;
  }

  // ---- the decoder ----

  /** Blocks that end between two runs, each with its checksum. */
  ghost predicate Checked(blocks: seq<seq<Byte>>, stored: seq<nat>) {
    |blocks| == |stored| && forall i :: 0 <= i < |blocks| ==> blocks[i] != [] && Whole(blocks[i]) && stored[i] == Word(BlockCheck(blocks[i]))
  }

  lemma CheckedMore(blocks: seq<seq<Byte>>, stored: seq<nat>, block: seq<Byte>, check: nat)
    requires Checked(blocks, stored) && Whole(block) && block != [] && check == Word(BlockCheck(block))
    ensures Checked(blocks + [block], stored + [check])
  {
    hide Whole, Word, BlockCheck;
  }

  lemma CheckIs(block: seq<Byte>)
    ensures BlockCheck(block) == !Running(Text(block))
  {
    hide Running, Text;
  }

  /** A block that is whole for one byte after it is whole for all. */
  lemma {:induction false} SameWhole(b: seq<Byte>, v: Byte, w: Byte)
    requires Expand(b, v).ok
    ensures Expand(b, w) == Expand(b, v)
  {
    if b == [] {
    } else if |b| >= 4 && b[0] == b[1] == b[2] == b[3] {
      SameWhole(b[5..], v, w);
    } else {
      SameWhole(b[1..], v, w);
    }
  }

  lemma WholeOnce(b: seq<Byte>, v: Byte)
    ensures Expand(b, v).ok ==> Whole(b) && Text(b) == Expand(b, v).bytes
  {
    if Expand(b, v).ok {
      forall w: Byte ensures Expand(b, w) == Expand(b, v) { SameWhole(b, v, w); }
    }
  }

  class Decoder {
    const reader: BitReader
    const smallDecompress: bool
    var state: Phase
    var blockSize100k: nat
    var out: O.DState?
    var storedBlockCRC: nat
    var storedCombinedCRC: nat
    var calculatedCombinedCRC: bv32
    var delivered: seq<Byte> // all bytes written at next_out
    // the stream being read, if it is one
    ghost const genuine: bool
    ghost const x: Stream
    ghost var done: nat

    ghost var areas: set<object> // what the block being given out is kept in
    // the account of the calls so far
    ghost var read: seq<seq<Byte>> // the blocks given out in full
    ghost var stored: seq<nat>     // and the checksums that came with them

    /** What was delivered is the text of these blocks, each with its checksum, and of one under way. */
    ghost predicate Accounted(underWay: seq<Byte>)
      reads `read, `stored, `delivered, `calculatedCombinedCRC
    {
      Checked(read, stored) && calculatedCombinedCRC == CombinedCheck(read) && delivered == ExpandAll(read) + underWay
    }

    /** The account holds until an error is reported. */
    ghost predicate Ledger()
      reads `state, `out, `read, `stored, `delivered, `calculatedCombinedCRC, out
    {
      state != Stopped ==> Accounted(if state == Output && out != null then out.written else [])
    }

    lemma LedgerIs()
      ensures Ledger() == (state != Stopped ==> Accounted(if state == Output && out != null then out.written else []))
    {
    }

    lemma AccountedMore(was: seq<Byte>, output: seq<Byte>, before: seq<Byte>)
      requires Checked(read, stored) && calculatedCombinedCRC == CombinedCheck(read) && before == ExpandAll(read) + was && delivered == before + output
      ensures Accounted(was + output)
    {
      hide Checked, CombinedCheck, ExpandAll;
    }

    lemma AccountIs(underWay: seq<Byte>)
      requires Accounted(underWay)
      ensures Checked(read, stored) && calculatedCombinedCRC == CombinedCheck(read) && delivered == ExpandAll(read) + underWay
      ensures underWay == [] ==> delivered == ExpandAll(read)
    {
      hide Checked, CombinedCheck, ExpandAll;
    }

    /** One more block. */
    lemma AccountedBlock(before: seq<seq<Byte>>, checks: seq<nat>, block: seq<Byte>, check: nat, combined: bv32)
      requires Checked(before, checks) && combined == CombinedCheck(before) && delivered == ExpandAll(before) + Text(block)
      requires Whole(block) && block != [] && check == Word(BlockCheck(block))
      requires read == before + [block] && stored == checks + [check] && calculatedCombinedCRC == Combine(combined, BlockCheck(block))
      ensures Accounted([])
    {
      hide *;
      CombinedMore(before, block);
      CheckedMore(before, checks, block, check);
      AccountFits();
    }

    lemma AccountFits()
      requires Checked(read, stored) && calculatedCombinedCRC == CombinedCheck(read) && delivered == ExpandAll(read)
      ensures Accounted([])
    {
      hide Checked, CombinedCheck, ExpandAll;
    }

    ghost predicate Held()
      reads `out, `areas
    {
      areas == if out == null then {} else {out, out.tt, out.ll16, out.ll4, out.cftab}
    }

    ghost predicate Valid()
      reads this, reader, areas
    {
      && reader.Valid() && (state in {Header, Output} ==> 1 <= blockSize100k <= 9)
      && Held()
      && (state == Output ==> out != null && out.Valid() && out.smallDecompress == smallDecompress)
      && (genuine ==> OnCourse())
    }

    /** The stream being read and the text given out are in step. */
    ghost predicate OnCourse()
      requires reader.Valid() && (state == Output ==> out != null)
      reads this, reader, out
    {
      x.Good() && match state
        case Magic => reader.Bits() == BytesBits(HeaderBytes(x.level)) + x.After(0) && x.Between(0, x.After(0), delivered, calculatedCombinedCRC)
        case Header => blockSize100k == x.level && x.Between(done, reader.Bits(), delivered, calculatedCombinedCRC)
        case Output => blockSize100k == x.level
                       && x.Inside(done, reader.Bits(), delivered, calculatedCombinedCRC, out.block, out.written, storedBlockCRC)
        case Idle => delivered == x.Text()
        case Stopped => false
    }

    /** BZ2_bzDecompressInit. */
    constructor (pieces: seq<seq<Byte>>, small: bool, ghost genuine: bool, ghost x: Stream)
      requires genuine ==> IsStream(Joined(pieces), x.level, x.rows, x.padding)
      ensures Valid() && state == Magic && delivered == [] && this.genuine == genuine && this.x == x && fresh(reader) && areas == {}
      ensures Ledger()
    {
      hide *;
      reader := new BitReader(pieces);
      smallDecompress := small;
      state, blockSize100k, out, storedBlockCRC, storedCombinedCRC, calculatedCombinedCRC, delivered, done := Magic, 0, null, 0, 0, 0, [], 0;
      areas, read, stored := {}, [], [];
      this.genuine, this.x := genuine, x;
      new;
      if genuine { StreamBegins(x, Joined(pieces)); }
      AtMagic();
      NothingRead();
      LedgerIs();
    }

    lemma NothingRead()
      requires read == [] && stored == [] && delivered == [] && calculatedCombinedCRC == 0
      ensures Accounted([])
    {
      NoneDone([]);
    }

    lemma AtMagic()
      requires reader.Valid() && state == Magic && out == null && areas == {}
      requires genuine ==> x.Good() && reader.Bits() == BytesBits(HeaderBytes(x.level)) + x.After(0) && x.Between(0, x.After(0), delivered, calculatedCombinedCRC)
      ensures Valid()
    {
      hide BitReader.Bits, LowBits, Stream.Between, Stream.After, BytesBits;
    }

    lemma Begun()
      requires Valid() && state == Magic
      ensures reader.Valid() && Held()
      ensures genuine ==> 1 <= x.level <= 9 && x.Good() && reader.Bits() == BytesBits(HeaderBytes(x.level)) + x.After(0)
                          && x.Between(0, x.After(0), delivered, calculatedCombinedCRC)
    {
      hide BitReader.Bits, LowBits, BytesBits, HeaderBytes, Stream.After, Stream.Between;
    }

    /** The beginning of the stream. */
    method Start() returns (code: Code)
      requires Valid() && state == Magic
      modifies this`blockSize100k, this`state, this`done, reader
      ensures Valid() && state == (if code == Code.Ok then Header else Stopped) && code in {Code.Ok, DataErrorMagic, NeedInput}
      ensures genuine ==> code == Code.Ok
    {
      hide *;
      Begun();
      code, blockSize100k := ReceiveHeader(reader, x.level, if genuine then x.After(0) else [], genuine);
      done := 0;
      state := if code == Code.Ok then Header else Stopped;
      if code == Code.Ok { HeaderNext(); } else { HasStopped(); }
    }

    /** The trailer's checksum has to be the one calculated. */
    method Finish() returns (code: Code)
      requires reader.Valid() && Held() && state == Header && 1 <= blockSize100k <= 9
      requires genuine ==> x.Good() && delivered == x.Text() && calculatedCombinedCRC == CombinedCheck(Blocks(x.rows))
                           && reader.Bits() == BytesBits(EndRest()) + (BytesBits(BytesOf(x.Crc(), 4)) + BitsOf(0, x.padding))
      modifies this`state, this`storedCombinedCRC, reader
      ensures Valid() && state in {Idle, Stopped} && code in {StreamEnd, Code.DataError, NeedInput}
      ensures code == StreamEnd ==> state == Idle && Word(calculatedCombinedCRC) == storedCombinedCRC
      ensures genuine ==> code == StreamEnd
    {
      Pow2Facts();
      hide BytesBits, BytesOf, BitsOf, BitReader.Bits, LowBits, Stream.Text, CombinedCheck, Pow2;
      code, storedCombinedCRC := ReceiveTrailer(reader, x.Crc(), BitsOf(0, x.padding), genuine);
      if code != Code.Ok {
        state := Stopped;
      } else {
        state := Idle;
        code := if Word(calculatedCombinedCRC) == storedCombinedCRC then StreamEnd else Code.DataError;
      }
    }

    /** What the header state says about the rest of the stream. */
    lemma Waiting()
      requires Valid() && state == Header
      ensures reader.Valid() && Held() && 1 <= blockSize100k <= 9
      ensures genuine ==> blockSize100k == x.level && x.Between(done, reader.Bits(), delivered, calculatedCombinedCRC)
    {
      hide BitReader.Bits, LowBits, Stream.Between;
    }

    lemma NotGenuine()
      requires Valid() && state == Stopped
      ensures !genuine
    {
    }

    lemma HasStopped()
      requires reader.Valid() && Held() && state == Stopped && !genuine
      ensures Valid()
    {
      hide BitReader.Bits, LowBits;
    }

    /** Reads up to the next block, or to the end of the stream. */
    method ReceiveNext() returns (code: Code)
      requires Valid() && state == Header
      modifies this`state, this`storedCombinedCRC, this`storedBlockCRC, this`out, this`areas, reader
      ensures Valid() && state in {Output, Idle, Stopped} && fresh(areas - old(areas))
      ensures code == Code.Ok <==> state == Output
      ensures code == Code.Ok ==> out != null && out.written == []
      ensures code == StreamEnd ==> state == Idle && Word(calculatedCombinedCRC) == storedCombinedCRC
      ensures genuine ==> code in {Code.Ok, StreamEnd} && (code == StreamEnd ==> delivered == x.Text())
      ensures code != SequenceError
    {
      hide BitReader.Bits, LowBits, Stream.Between, Stream.Given, Stream.Inside, Stream.After, Stream.Good, Stream.Text, Stream.Crc, Sent, MarkerBits, BytesBits, BytesOf, BitsOf,
           CombinedCheck, Blocks, ExpandAll, Word, BlockCheck, Valid, T.Layout.Bits, T.Layout.Sound, Pow2, P.Carries, O.Content;
      Waiting();
      ghost var ending, inner := genuine && done == |x.rows|, genuine && done < |x.rows|;
      if genuine { Upcoming(x, done, reader.Bits(), delivered, calculatedCombinedCRC); }
      ghost var row := if inner then x.rows[done] else NoRow();
      if inner { RowFits(row, x.level); }
      ghost var after := if ending then BytesBits(EndRest()) + (BytesBits(BytesOf(x.Crc(), 4)) + BitsOf(0, x.padding))
                         else if inner then row.layout.Bits() + x.After(done + 1) else [];
      var m := ReceiveMarker(reader, blockSize100k, Word(BlockCheck(row.block)), row.randomised, row.origPtr, after, ending);
      match m
      case EndOfStream =>
        code := Finish();
      case Block(crc, randomised, origPtr) =>
        storedBlockCRC := crc;
        code := ReceiveBody(origPtr, randomised, row, inner);
      case Bad => state := Stopped; HasStopped(); return Code.DataError;
      case Short => state := Stopped; HasStopped(); return NeedInput;
    }

    /** The block after its marker. */
    method ReceiveBody(origPtr: nat, randomised: bool, ghost row: Row, ghost inner: bool) returns (code: Code)
      requires reader.Valid() && Held() && state == Header && 1 <= blockSize100k <= 9 && (genuine ==> inner)
      requires inner ==> x.Good() && done < |x.rows| && row == x.rows[done] && blockSize100k == x.level && row.layout.Sound() && origPtr == row.origPtr && randomised == row.randomised
                         && storedBlockCRC == Word(BlockCheck(row.block)) && x.Given(done, delivered, calculatedCombinedCRC)
                         && reader.Bits() == row.layout.Bits() + x.After(done + 1)
      modifies this`state, this`out, this`areas, reader
      ensures Valid() && state in {Output, Stopped} && fresh(areas - old(areas))
      ensures code == Code.Ok <==> state == Output
      ensures code == Code.Ok ==> out != null && out.written == []
      ensures code !in {StreamEnd, SequenceError} && (genuine ==> code == Code.Ok)
    {
      hide *;
      if inner { RowOf(x, done); }
      var s: O.DState?;
      code, s := ReceiveOne(reader, origPtr, blockSize100k, smallDecompress, randomised, row, if inner then x.After(done + 1) else [], inner);
      if code != Code.Ok {
        state := Stopped;
        HasStopped();
        return;
      }
      out, areas, state := s, {s, s.tt, s.ll16, s.ll4, s.cftab}, Output;
      HoldsOut();
      if inner { InsideBegins(x, done, reader.Bits(), delivered, calculatedCombinedCRC, s.block, storedBlockCRC); }
      GivingOut();
    }

    lemma HoldsOut()
      requires out != null && areas == {out, out.tt, out.ll16, out.ll4, out.cftab}
      ensures Held()
    {
    }

    lemma GivingOut()
      requires reader.Valid() && Held() && state == Output && 1 <= blockSize100k <= 9 && out != null && out.Valid() && out.smallDecompress == smallDecompress
      requires genuine ==> blockSize100k == x.level && x.Inside(done, reader.Bits(), delivered, calculatedCombinedCRC, out.block, out.written, storedBlockCRC)
      ensures Valid()
    {
      hide BitReader.Bits, LowBits, O.DState.Valid, ExpandAll, Blocks, Stream.After, CombinedCheck, Word, BlockCheck;
    }

    /** What the output state says. */
    lemma GivingFacts()
      requires Valid() && state == Output
      ensures reader.Valid() && Held() && 1 <= blockSize100k <= 9 && out != null && out.Valid() && out.smallDecompress == smallDecompress
      ensures genuine ==> blockSize100k == x.level
                          && x.Inside(done, reader.Bits(), delivered, calculatedCombinedCRC, out.block, out.written, storedBlockCRC)
    {
      hide BitReader.Bits, LowBits, O.DState.Valid, Stream.Inside;
    }

    /** Gives out as much of the block as there is room for; when it is complete its checksum is compared. */
    method GiveOut(s: O.DState, room: nat) returns (output: seq<Byte>)
      requires Valid() && state == Output && s == out && Ledger()
      modifies this`delivered, this`state, this`calculatedCombinedCRC, this`done, this`read, this`stored, s
      ensures Ledger()
      ensures Valid() && state in {Output, Header, Stopped} && delivered == old(delivered) + output && |output| <= room
      ensures state == Output ==> |output| == room && (genuine ==> |delivered| < |x.Text()|)
      ensures state == Header && old(s.written) == [] ==> 0 < |output|
      ensures genuine ==> state != Stopped
    {
      hide *;
      GivingFacts();
      LedgerIs();
      ghost var was, bits := s.written, reader.Bits();
      AccountIs(was);
      var corrupt;
      corrupt, output := UnRle(s, room);
      delivered := delivered + output;
      OutcomeFacts(s, corrupt, was, room, output);
      AccountedMore(was, output, old(delivered));
      if genuine {
        InsideGrows(x, done, bits, old(delivered), calculatedCombinedCRC, s.block, was, output, storedBlockCRC);
        GenuineOutcome(s, corrupt, was, room);
        StillText(x, done, bits, delivered, calculatedCombinedCRC, s.block, s.written, storedBlockCRC);
      }
      if corrupt {
        state := Stopped;
        HasStopped();
      } else if s.Done() {
        CloseBlock(s);
      } else {
        GivingOut();
      }
      LedgerIs();
    }

    /** The block is complete: its checksum has to be the one stored with it. */
    method CloseBlock(s: O.DState)
      requires reader.Valid() && Held() && 1 <= blockSize100k <= 9 && s.calculatedBlockCRC == Running(s.written)
      requires Accounted(s.written) && Whole(s.block) && s.block != [] && s.written == Text(s.block)
      requires genuine ==> blockSize100k == x.level && s.written == Text(s.block)
                           && x.Inside(done, reader.Bits(), delivered, calculatedCombinedCRC, s.block, s.written, storedBlockCRC)
      modifies this`state, this`calculatedCombinedCRC, this`done, this`read, this`stored
      ensures Valid() && state in {Header, Stopped} && (genuine ==> state != Stopped)
      ensures state == Header ==> Accounted([])
    {
      hide *;
      CheckIs(s.block);
      var crc := !s.calculatedBlockCRC;
      if genuine {
        CheckOf(x, done, reader.Bits(), delivered, calculatedCombinedCRC, s.block, s.written, storedBlockCRC);
        BlockDone(x, done, reader.Bits(), delivered, calculatedCombinedCRC, s.block, s.written, storedBlockCRC);
      }
      if Word(crc) != storedBlockCRC {
        state := Stopped;
        HasStopped();
      } else {
        Accept(s, crc);
      }
    }

    method Accept(s: O.DState, crc: bv32)
      requires reader.Valid() && Held() && 1 <= blockSize100k <= 9 && crc == BlockCheck(s.block) && Word(crc) == storedBlockCRC
      requires Accounted(s.written) && Whole(s.block) && s.block != [] && s.written == Text(s.block)
      requires genuine ==> blockSize100k == x.level && x.Between(done + 1, reader.Bits(), delivered, Combine(calculatedCombinedCRC, crc))
      modifies this`state, this`calculatedCombinedCRC, this`done, this`read, this`stored
      ensures Valid() && state == Header && Accounted([])
    {
      hide *;
      AccountIs(s.written);
      ghost var combined, before, checks := calculatedCombinedCRC, read, stored;
      calculatedCombinedCRC := Combine(calculatedCombinedCRC, crc);
      state := Header;
      done := done + 1;
      read, stored := read + [s.block], stored + [storedBlockCRC];
      HeaderNext();
      AccountedBlock(before, checks, s.block, storedBlockCRC, combined);
    }

    /** Whether a block has just been begun. */
    ghost function Fresh(): nat
      reads `state, `out, out
    {
      if state == Output && out != null && out.written == [] then 0 else 1
    }

    /** BZ2_bzDecompress, with this much room at next_out. It ends for every input: a block gives at least one byte. */
    method BzDecompress(room: nat) returns (ret: Code, output: seq<Byte>)
      requires Valid() && Ledger()
      modifies this, reader, areas
      ensures Valid() && Ledger() && fresh(areas - old(areas)) && delivered == old(delivered) + output && |output| <= room
      ensures old(state) == Idle <==> ret == SequenceError
      ensures ret == Code.Ok ==> |output| == room
      ensures ret == StreamEnd ==> state == Idle && delivered == ExpandAll(read) && Checked(read, stored) && storedCombinedCRC == Word(CombinedCheck(read))
      ensures genuine ==> ret in {Code.Ok, StreamEnd, SequenceError}
      ensures genuine && ret == Code.Ok ==> |delivered| < |x.Text()|
      ensures genuine && ret == StreamEnd ==> delivered == x.Text()
    {
      ret, output := Code.Ok, [];
      hide *;
      if state == Idle { return SequenceError, output; }
      if state == Stopped { NotGenuine(); return Code.DataError, output; }
      var more := true;
      while more
        invariant Valid() && Ledger() && fresh(areas - old(areas)) && delivered == old(delivered) + output && |output| <= room
        invariant more ==> state in {Magic, Header, Output}
        invariant !more ==> Answer(ret, room - |output|)
        decreases more, room - |output|, Fresh()
      {
        more, ret, output := Turn(room, output);
      }
      AnswerMeans(ret, room - |output|);
      LedgerIs();
      if state == Idle { AccountIs([]); }
    }

    lemma AnswerMeans(ret: Code, left: int)
      requires Answer(ret, left)
      ensures ret != SequenceError && (ret == Code.Ok ==> left == 0)
      ensures ret == StreamEnd ==> state == Idle && Word(calculatedCombinedCRC) == storedCombinedCRC
      ensures genuine ==> ret in {Code.Ok, StreamEnd} && (ret == Code.Ok ==> |delivered| < |x.Text()|) && (ret == StreamEnd ==> delivered == x.Text())
    {
    }

    /** What a returned code means; left is the room not used. */
    ghost predicate Answer(ret: Code, left: int)
      reads this
    {
      && ret != SequenceError && (ret == Code.Ok ==> left == 0)
      && (ret == StreamEnd ==> state == Idle && Word(calculatedCombinedCRC) == storedCombinedCRC)
      && (genuine ==> ret in {Code.Ok, StreamEnd})
      && (genuine && ret == Code.Ok ==> |delivered| < |x.Text()|)
      && (genuine && ret == StreamEnd ==> delivered == x.Text())
    }

    /** One turn: give out what there is of a block, then read up to the next one. */
    method Turn(room: nat, output0: seq<Byte>) returns (more: bool, ret: Code, output: seq<Byte>)
      requires Valid() && Ledger() && state in {Magic, Header, Output} && |output0| <= room
      modifies this, reader, areas
      ensures Valid() && Ledger() && fresh(areas - old(areas)) && output0 <= output && delivered == old(delivered) + output[|output0|..] && |output| <= room
      ensures if more then state == Output && (|output| > |output0| || old(Fresh()) > Fresh()) else Answer(ret, room - |output|)
    {
      hide *;
      FreshIs();
      LedgerIs();
      output, more, ret := output0, false, Code.Ok;
      if state == Output {
        AtOutput();
        ghost var s, was := out, out.written;
        var o := GiveOut(out, room - |output|);
        output := output + o;
        if state == Stopped { ret := Code.DataError; }
        if state != Header { AnswerIs(ret, room - |output|); return; }
      } else if state == Magic {
        ret := Start();
        LedgerIs();
        if ret != Code.Ok { AnswerIs(ret, room - |output|); return; }
      }
      LedgerIs();
      ret := ReceiveNext();
      LedgerIs();
      more := state == Output;
      FreshIs();
      if !more { AnswerIs(ret, room - |output|); }
    }

    lemma AtOutput()
      requires Valid() && state == Output
      ensures out != null && out in areas
    {
      GivingFacts();
    }

    lemma FreshIs()
      ensures Fresh() == if state == Output && out != null && out.written == [] then 0 else 1
    {
    }

    lemma AnswerIs(ret: Code, left: int)
      requires ret != SequenceError && (ret == Code.Ok ==> left == 0)
      requires ret == StreamEnd ==> state == Idle && Word(calculatedCombinedCRC) == storedCombinedCRC
      requires genuine ==> ret in {Code.Ok, StreamEnd} && (ret == Code.Ok ==> |delivered| < |x.Text()|) && (ret == StreamEnd ==> delivered == x.Text())
      ensures Answer(ret, left)
    {
    }

    lemma HeaderNext()
      requires reader.Valid() && Held() && state == Header && 1 <= blockSize100k <= 9
      requires genuine ==> blockSize100k == x.level && x.Between(done, reader.Bits(), delivered, calculatedCombinedCRC)
      ensures Valid()
    {
      hide BitReader.Bits, LowBits, Stream.Given, Stream.After;
    }

    /** Whichever form of the output fits; output is what it wrote. */
    method UnRle(s: O.DState, room: nat) returns (corrupt: bool, output: seq<Byte>)
      requires s.Valid() && s.smallDecompress == smallDecompress
      modifies s
      ensures s.Outcome(corrupt, old(s.written), room, s.Unsaving()) && s.written == old(s.written) + output
    {
      hide O.DState.Valid, O.DState.Outcome;
      var from := |s.written|;
      ghost var before := s.written;
      s.WrittenSoFar();
      s.SetRoom(room);
      if smallDecompress { corrupt := s.UnRleSmall(); } else { corrupt := s.UnRleFast(); }
      Continues(s, corrupt, before, room);
      output := s.written[from..];
    }
  }

  /** A call goes on from what was written before. */
  lemma Continues(s: O.DState, corrupt: bool, before: seq<Byte>, room: nat)
    requires s.Outcome(corrupt, before, room, s.Unsaving()) && before <= Expand(s.block, s.wrap).bytes
    ensures before <= s.written
  {
    hide O.DState.Valid, Expand;
  }

  /** What a call of the output achieved. */
  lemma OutcomeFacts(s: O.DState, corrupt: bool, before: seq<Byte>, room: nat, output: seq<Byte>)
    requires s.Outcome(corrupt, before, room, s.Unsaving()) && s.written == before + output
    ensures s.Valid() && |output| <= room
    ensures !corrupt && !s.Done() ==> |output| == room
    ensures !corrupt && s.Done() ==> s.written != [] && s.calculatedBlockCRC == Running(s.written)
    ensures !corrupt && s.Done() ==> Whole(s.block) && s.block != [] && s.written == Text(s.block)
  {
    s.Sizes();
    WholeOnce(s.block, s.wrap);
    O.SomeText(s.block, s.wrap);
    hide O.DState.VectorsValid, O.OnTrack, Expand, Running, O.FastAt, O.SmallAt, O.RandAfter;
  }

  /** A whole block never turns out corrupt; it is complete exactly when its text has been written. */
  lemma GenuineOutcome(s: O.DState, corrupt: bool, before: seq<Byte>, room: nat)
    requires s.Outcome(corrupt, before, room, s.Unsaving()) && Whole(s.block)
    ensures !corrupt
    ensures if s.Done() then s.written == Text(s.block) else |s.written| < |Text(s.block)|
  {
    assert Expand(s.block, s.wrap) == Expansion(Text(s.block), true);
    hide Expand, O.DState.Valid, Text;
  }

  /** The checksum of a text given out in full is the one stored. */
  lemma CheckOf(x: Stream, k: nat, bits: seq<bool>, delivered: seq<Byte>, combined: bv32, block: seq<Byte>, written: seq<Byte>, stored: nat)
    requires x.Inside(k, bits, delivered, combined, block, written, stored) && written == Text(block)
    ensures !Running(written) == BlockCheck(block) && stored == Word(BlockCheck(block))
  {
    hide Stream.After, Running, Text, ExpandAll, Blocks, CombinedCheck, AllSent;
  }

  lemma InsideGrows(x: Stream, k: nat, bits: seq<bool>, delivered: seq<Byte>, combined: bv32, block: seq<Byte>, was: seq<Byte>, output: seq<Byte>, stored: nat)
    requires x.Inside(k, bits, delivered, combined, block, was, stored)
    ensures x.Inside(k, bits, delivered + output, combined, block, was + output, stored) && Whole(block)
  {
    hide Stream.After, ExpandAll, Blocks, CombinedCheck, Word, BlockCheck, AllSent, Whole;
    JoinText(ExpandAll(Blocks(x.rows[..k])), was, output);
    RowOf(x, k);
  }

  lemma JoinText(a: seq<Byte>, b: seq<Byte>, c: seq<Byte>)
    ensures a + (b + c) == a + b + c
  {
  }

  /** While the block's text is incomplete, so is the stream's. */
  lemma StillText(x: Stream, k: nat, bits: seq<bool>, delivered: seq<Byte>, combined: bv32, block: seq<Byte>, written: seq<Byte>, stored: nat)
    requires x.Inside(k, bits, delivered, combined, block, written, stored)
    ensures |written| < |Text(block)| ==> |delivered| < |x.Text()|
  {
    PrefixText(x, k);
    hide Stream.After, ExpandAll, Blocks, CombinedCheck, Word, BlockCheck, AllSent, Text;
  }

  lemma RowOf(x: Stream, k: nat)
    requires x.Good() && k < |x.rows|
    ensures Sent(x.rows[k], x.level)
  {
    hide Sent;
  }

  lemma InsideBegins(x: Stream, k: nat, bits: seq<bool>, delivered: seq<Byte>, combined: bv32, block: seq<Byte>, stored: nat)
    requires x.Good() && k < |x.rows| && x.Given(k, delivered, combined) && bits == x.After(k + 1) && block == x.rows[k].block && stored == Word(BlockCheck(block))
    ensures x.Inside(k, bits, delivered, combined, block, [], stored)
  {
    hide Stream.After, ExpandAll, Blocks, CombinedCheck, Word, BlockCheck, AllSent;
    assert delivered + [] == delivered;
  }

  ghost function NoRow(): Row {
    Row([], false, [], 0, T.Layout([], [], [], [], [], 0), [])
  }

  /** What comes next in a stream: the trailer after the last block, otherwise a block. */
  lemma Upcoming(x: Stream, k: nat, bits: seq<bool>, delivered: seq<Byte>, combined: bv32)
    requires x.Between(k, bits, delivered, combined)
    ensures x.Good() && k <= |x.rows| && x.Given(k, delivered, combined)
    ensures k == |x.rows| ==> bits == BitsOf(0x17, 8) + (BytesBits(EndRest()) + (BytesBits(BytesOf(x.Crc(), 4)) + BitsOf(0, x.padding)))
                              && delivered == x.Text() && combined == CombinedCheck(Blocks(x.rows))
    ensures k < |x.rows| ==> Sent(x.rows[k], x.level) && x.rows[k].layout.Sound()
                             && bits == MarkerBits(Word(BlockCheck(x.rows[k].block)), x.rows[k].randomised, x.rows[k].origPtr) + (x.rows[k].layout.Bits() + x.After(k + 1))
  {
    hide *;
    BetweenIs(x, k, bits, delivered, combined);
    if k == |x.rows| {
      TrailerNext(x);
      AllGiven(x, delivered, combined);
    } else {
      BlockNext(x, k);
    }
  }

  lemma BetweenIs(x: Stream, k: nat, bits: seq<bool>, delivered: seq<Byte>, combined: bv32)
    requires x.Between(k, bits, delivered, combined)
    ensures x.Good() && k <= |x.rows| && x.Given(k, delivered, combined) && bits == x.After(k)
  {
    hide AllSent, Stream.After, CombinedCheck, Blocks, ExpandAll;
  }

  lemma AllGiven(x: Stream, delivered: seq<Byte>, combined: bv32)
    requires x.Given(|x.rows|, delivered, combined)
    ensures delivered == x.Text() && combined == CombinedCheck(Blocks(x.rows))
  {
    hide CombinedCheck, Blocks, ExpandAll;
    assert x.rows[..|x.rows|] == x.rows;
  }
}
