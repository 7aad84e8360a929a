/** The compression side of bzlib.c: the run-length coder with its carry-over state, and the RUN / FLUSH / FINISH
    machine around it. What it has made when the stream ends stands for what it has taken. */
module Compressor {
  import opened Common
  import opened RunLength
  import W = BitStream
  import X = BlockCrc
  import F = StreamFormat
  import B = BlockCoding
  import Z = StreamSize

  datatype Mode = Idle | Running | Flushing | Finishing
  datatype Phase = Output | Input
  datatype Action = Run | Flush | Finish | Other
  datatype Code = RunOk | FlushOk | FinishOk | StreamEnd | SequenceError | ParamError

  const NO_CHAR := 256
  const OVERSHOOT := 9

  // ---- the run coder on values ----

  /** used marks exactly the bytes that occur in the block. */
  ghost predicate Marks(used: seq<bool>, block: seq<Byte>) {
    |used| == 256 && forall c: Byte :: used[c] <==> c in block
  }

  /** block stores the runs; ch and len are the run still being counted (ch == NO_CHAR: none). */
  ghost predicate Coder(runs: seq<Pair>, block: seq<Byte>, used: seq<bool>, ch: int, len: int) {
    && AllRuns(runs) && Separate(runs) && block == Encode(runs) && Marks(used, block)
    && (ch == NO_CHAR ==> len == 0)
    && (ch != NO_CHAR ==> 0 <= ch < 256 && 1 <= len <= 255)
    && (ch != NO_CHAR && runs != [] ==> runs[|runs| - 1].ch != ch || runs[|runs| - 1].len == 255)
  }

  ghost function NoneUsed(): (used: seq<bool>) {
    seq(256, _ => false)
  }

  ghost function PendingRun(ch: int, len: int): seq<Byte> {
    if 0 <= ch < 256 && 0 <= len then Repeat(ch, len) else []
  }

  /** Everything the coder has taken since the block began. */
  ghost function Taken(runs: seq<Pair>, ch: int, len: int): seq<Byte>
    requires AllRuns(runs)
  {
    Plain(runs) + PendingRun(ch, len)
  }

  lemma PairBytes(p: Pair, c: Byte)
    requires 1 <= p.len <= 255
    ensures c in EncodePair(p) <==> c == p.ch || (p.len >= 4 && c == p.len - 4)
  {
    var e := EncodePair(p);
    assert e[0] == p.ch && (p.len >= 4 ==> e[4] == p.len - 4);
  }

  /** Storing the pending run; a different character, or the same after a full run, may come next. */
  lemma StoreRun(runs: seq<Pair>, block: seq<Byte>, used: seq<bool>, ch: int, len: int, used': seq<bool>)
    requires Coder(runs, block, used, ch, len) && ch != NO_CHAR
    requires used' == if len < 4 then used[ch := true] else used[ch := true][len - 4 := true]
    ensures Coder(runs + [Pair(ch, len)], block + EncodePair(Pair(ch, len)), used', NO_CHAR, 0)
    ensures Plain(runs + [Pair(ch, len)]) == Taken(runs, ch, len)
  {
    EncodeAppend(runs, Pair(ch, len));
    forall c: Byte ensures used'[c] <==> c in block + EncodePair(Pair(ch, len)) { PairBytes(Pair(ch, len), c); }
  }

  lemma NextChar(runs: seq<Pair>, block: seq<Byte>, used: seq<bool>, c: Byte)
    requires Coder(runs, block, used, NO_CHAR, 0)
    requires runs != [] ==> runs[|runs| - 1].ch != c || runs[|runs| - 1].len == 255
    ensures Coder(runs, block, used, c, 1) && Taken(runs, c, 1) == Plain(runs) + [c]
  {
  }

  lemma LongerRun(runs: seq<Pair>, block: seq<Byte>, used: seq<bool>, ch: Byte, len: int)
    requires Coder(runs, block, used, ch, len) && len < 255
    ensures Coder(runs, block, used, ch, len + 1) && Taken(runs, ch, len + 1) == Taken(runs, ch, len) + [ch]
  {
    assert Repeat(ch, len + 1) == Repeat(ch, len) + [ch];
  }

  /** What was taken from the front of the input has been appended to the consumed bytes. */
  ghost predicate Advanced(input: seq<Byte>, next_in: seq<Byte>, before: seq<Byte>, consumed: seq<Byte>) {
    |next_in| <= |input| && next_in == input[|input| - |next_in|..] && consumed == before + input[..|input| - |next_in|]
  }

  lemma AdvancedNot(input: seq<Byte>, before: seq<Byte>)
    ensures Advanced(input, input, before, before)
  {
  }

  lemma TakenAll(input: seq<Byte>, consumed: seq<Byte>)
    requires Advanced(input, [], [], consumed)
    ensures consumed == input
  {
  }

  lemma TakenMore(input: seq<Byte>, before: seq<Byte>, consumed: seq<Byte>)
    requires Advanced(input, [], before, consumed)
    ensures consumed == before + input
  {
  }

  lemma NothingTaken(left: seq<Byte>, before: seq<Byte>, consumed: seq<Byte>)
    requires Advanced([], left, before, consumed)
    ensures left == [] && consumed == before
  {
  }

  lemma AdvanceOne(input: seq<Byte>, next_in: seq<Byte>, before: seq<Byte>, consumed: seq<Byte>)
    requires Advanced(input, next_in, before, consumed) && next_in != []
    ensures Advanced(input, next_in[1..], before, consumed + [next_in[0]])
    ensures |next_in| <= |input|
  {
    var k := |input| - |next_in|;
    assert input[..k + 1] == input[..k] + [input[k]];
  }

  lemma AdvanceTwice(input: seq<Byte>, middle: seq<Byte>, next_in: seq<Byte>, before: seq<Byte>, between: seq<Byte>, consumed: seq<Byte>)
    requires Advanced(input, middle, before, between) && Advanced(middle, next_in, between, consumed)
    ensures Advanced(input, next_in, before, consumed) && |next_in| <= |middle|
  {
    var a, b := |input| - |middle|, |input| - |next_in|;
    assert middle[..|middle| - |next_in|] == input[a..b];
    assert input[..b] == input[..a] + input[a..b];
  }

  /** Both buffers: input taken from the front was appended to the consumed bytes, and as many bytes were delivered
      as room was used. */
  ghost predicate Moved(input: seq<Byte>, next_in: seq<Byte>, before: seq<Byte>, consumed: seq<Byte>,
                        room: int, avail_out: int, given: seq<Byte>, delivered: seq<Byte>) {
    Advanced(input, next_in, before, consumed)
    && 0 <= avail_out <= room && given <= delivered && |delivered| - |given| == room - avail_out
  }

  lemma MovedFacts(input: seq<Byte>, next_in: seq<Byte>, before: seq<Byte>, consumed: seq<Byte>,
                   room: int, avail_out: int, given: seq<Byte>, delivered: seq<Byte>)
    requires Moved(input, next_in, before, consumed, room, avail_out, given, delivered)
    ensures Advanced(input, next_in, before, consumed)
    ensures |given| <= |delivered| && delivered == given + delivered[|given|..] && |delivered[|given|..]| == room - avail_out <= room
  {
  }

  lemma MovedTwice(i0: seq<Byte>, i1: seq<Byte>, i2: seq<Byte>, c0: seq<Byte>, c1: seq<Byte>, c2: seq<Byte>,
                   r0: int, r1: int, r2: int, d0: seq<Byte>, d1: seq<Byte>, d2: seq<Byte>)
    requires Moved(i0, i1, c0, c1, r0, r1, d0, d1) && Moved(i1, i2, c1, c2, r1, r2, d1, d2)
    ensures Moved(i0, i2, c0, c2, r0, r2, d0, d2)
    ensures |i2| <= |i1| <= |i0| && r2 <= r1 <= r0
  {
    AdvanceTwice(i0, i1, i2, c0, c1, c2);
  }

  lemma MovedNot(input: seq<Byte>, before: seq<Byte>, room: int, given: seq<Byte>)
    requires room >= 0
    ensures Moved(input, input, before, before, room, room, given, given)
  {
  }

  lemma MovedOut(input: seq<Byte>, before: seq<Byte>, room: int, left: int, given: seq<Byte>, delivered: seq<Byte>)
    requires 0 <= left <= room && given <= delivered && |delivered| - |given| == room - left
    ensures Moved(input, input, before, before, room, left, given, delivered)
  {
  }

  lemma MovedIn(input: seq<Byte>, next_in: seq<Byte>, before: seq<Byte>, consumed: seq<Byte>, room: int, given: seq<Byte>)
    requires room >= 0 && Advanced(input, next_in, before, consumed)
    ensures Moved(input, next_in, before, consumed, room, room, given, given) && |next_in| <= |input|
  {
  }

  lemma AppendTaken(a: seq<Byte>, b: seq<Byte>, c: Byte)
    ensures (a + b) + [c] == a + (b + [c])
  {
  }

  class EState {
    // run-length coder
    var state_in_ch: int
    var state_in_len: int
    const block: array<Byte>
    var nblock: int
    const nblockMAX: int
    const inUse: array<bool>
    ghost var runs: seq<Pair> // the runs stored in the current block
    // stream machine
    var mode: Mode
    var state: Phase
    var avail_in_expect: int
    var state_out_pos: int
    var blockNo: int
    const blockSize100k: int
    const workFactor: int
    var blockCRC: bv32
    var combinedCRC: bv32
    const w: W.BitWriter // zbits, bsBuff and bsLive
    // the caller's buffers, for the duration of a call
    var next_in: seq<Byte>
    var avail_out: int
    // history
    ghost var consumed: seq<Byte>      // all input taken
    ghost var finished: seq<seq<Byte>> // the blocks compressed
    ghost var rows: seq<F.Row>         // and how they were sent
    ghost var sent: seq<Byte>          // all bytes made before zbits was last restarted
    ghost var ended: bool              // the trailer has been written
    ghost var padding: nat             // and the zeros after it
    var delivered: seq<Byte>           // all bytes written at next_out

    ghost predicate CoderValid()
      reads `nblock, `runs, `state_in_ch, `state_in_len, block, inUse
    {
      1 <= nblockMAX && block.Length == nblockMAX + 19 && inUse.Length == 256 && 0 <= nblock <= block.Length
      && Coder(runs, block[..nblock], inUse[..], state_in_ch, state_in_len)
    }

    /** The block's checksum so far is that of the runs stored. */
    ghost predicate CrcValid()
      reads `runs, `blockCRC
    {
      AllRuns(runs) && blockCRC == X.Running(Plain(runs))
    }

    method Append(c: Byte)
      requires 0 <= nblock < block.Length
      modifies this`nblock, block
      ensures nblock == old(nblock) + 1 && block[..nblock] == old(block[..nblock]) + [c]
    {
      block[nblock] := c;
      nblock := nblock + 1;
    }

    /** The switch of add_pair_to_block. */
    method AppendRun(ch: Byte, len: int)
      requires 1 <= len <= 255 && 0 <= nblock && nblock + 5 <= block.Length && inUse.Length == 256
      modifies this`nblock, block, inUse
      ensures old(nblock) < nblock <= old(nblock) + 5 && block[..nblock] == old(block[..nblock]) + EncodePair(Pair(ch, len))
      ensures inUse[..] == if len < 4 then old(inUse[..]) else old(inUse[..])[len - 4 := true]
    {
      PairWritten(ch, len);
      hide EncodePair, Repeat;
      if len == 1 {
        Append(ch);
      } else if len == 2 {
        Append(ch); Append(ch);
      } else if len == 3 {
        Append(ch); Append(ch); Append(ch);
      } else {
        inUse[len - 4] := true;
        Append(ch); Append(ch); Append(ch); Append(ch);
        Append(len - 4);
      }
    }

    /** The bytes of a run, one, two, three or five of them. */
    lemma PairWritten(ch: Byte, len: int)
      requires 1 <= len <= 255
      ensures EncodePair(Pair(ch, len)) == if len == 1 then [ch] else if len == 2 then [ch] + [ch] else if len == 3 then [ch] + [ch] + [ch]
                                           else [ch] + [ch] + [ch] + [ch] + [len - 4]
    {
    }

    /** BZ_UPDATE_CRC, once for every byte of a run. */
    method UpdateCrc(ch: Byte, len: int, ghost before: seq<Byte>)
      requires 0 <= len && blockCRC == X.Running(before)
      modifies this`blockCRC
      ensures blockCRC == X.Running(before + Repeat(ch, len))
    {
      hide X.Running, X.Update;
      var i := 0;
      assert before + Repeat(ch, 0) == before;
      while i < len
        invariant 0 <= i <= len && blockCRC == X.Running(before + Repeat(ch, i))
      {
        X.RunningMore(before + Repeat(ch, i), ch);
        assert before + Repeat(ch, i) + [ch] == before + Repeat(ch, i + 1);
        blockCRC := X.Update(blockCRC, ch);
        i := i + 1;
      }
    }

    lemma PairReady()
      requires CoderValid() && CrcValid() && state_in_ch != NO_CHAR
      ensures 0 <= state_in_ch < 256 && 1 <= state_in_len <= 255 && 0 <= nblock <= block.Length && inUse.Length == 256
      ensures Coder(runs, block[..nblock], inUse[..], state_in_ch, state_in_len) && AllRuns(runs) && blockCRC == X.Running(Plain(runs))
    {
      hide Encode, Plain, X.Running, Marks, Separate;
    }

    lemma CrcIs()
      requires AllRuns(runs) && blockCRC == X.Running(Plain(runs))
      ensures CrcValid()
    {
      hide Plain, X.Running;
    }

    /** add_pair_to_block. */
    method AddPairToBlock()
      requires CoderValid() && CrcValid() && state_in_ch != NO_CHAR && nblock + 5 <= block.Length
      modifies this`nblock, this`runs, this`blockCRC, block, inUse
      ensures CrcValid()
      ensures old(nblock) < nblock <= old(nblock) + 5 && runs == old(runs) + [Pair(state_in_ch, state_in_len)]
      ensures Coder(runs, block[..nblock], inUse[..], NO_CHAR, 0) && Plain(runs) == Taken(old(runs), state_in_ch, state_in_len)
    {
      hide *;
      PairReady();
      ghost var p, was, used := Pair(state_in_ch, state_in_len), block[..nblock], inUse[..];
      var ch: Byte := state_in_ch;
      UpdateCrc(ch, state_in_len, Plain(runs));
      EncodeAppend(runs, p);
      inUse[ch] := true;
      AppendRun(ch, state_in_len);
      StoreRun(runs, was, used, state_in_ch, state_in_len, inUse[..]);
      runs := runs + [p];
      CrcIs();
    }

    /** flush_RL: stores the pending run, if any, and forgets it. */
    method FlushRL()
      requires CoderValid() && CrcValid() && nblock + 5 <= block.Length
      modifies this`nblock, this`runs, this`state_in_ch, this`state_in_len, this`blockCRC, block, inUse
      ensures CoderValid() && CrcValid() && old(nblock) <= nblock <= old(nblock) + 5 && state_in_ch == NO_CHAR
      ensures Plain(runs) == Taken(old(runs), old(state_in_ch), old(state_in_len))
    {
      if state_in_ch < 256 { AddPairToBlock(); }
      state_in_ch, state_in_len := NO_CHAR, 0;
    }

    /** ADD_CHAR_TO_BLOCK, both tracks. */
    method AddCharToBlock(zchh: Byte)
      requires CoderValid() && CrcValid() && nblock + 5 <= block.Length && (state_in_ch == NO_CHAR ==> runs == [])
      modifies this`nblock, this`runs, this`state_in_ch, this`state_in_len, this`blockCRC, block, inUse
      ensures CoderValid() && CrcValid() && old(nblock) <= nblock <= old(nblock) + 5 && state_in_ch != NO_CHAR
      ensures Taken(runs, state_in_ch, state_in_len) == Taken(old(runs), old(state_in_ch), old(state_in_len)) + [zchh]
    {
      hide *;
      if zchh != state_in_ch && state_in_len == 1 {
        AddSingle(zchh);
      } else if zchh != state_in_ch || state_in_len == 255 {
        NextRun(zchh);
      } else {
        CodingFacts(zchh);
        LongerRun(runs, block[..nblock], inUse[..], zchh, state_in_len);
        state_in_len := state_in_len + 1;
        CodingIs();
      }
    }

    lemma CodingFacts(c: Byte)
      requires CoderValid()
      ensures 0 <= nblock <= block.Length && Coder(runs, block[..nblock], inUse[..], state_in_ch, state_in_len)
      ensures AllRuns(runs) && state_in_len <= 255 && (state_in_ch == NO_CHAR ==> state_in_len == 0) && (state_in_ch < 256 ==> 0 <= state_in_ch)
      ensures 1 <= nblockMAX && block.Length == nblockMAX + 19 && inUse.Length == 256
    {
      hide Encode, Marks, Separate;
    }

    lemma CodingIs()
      requires 0 <= nblock <= block.Length && Coder(runs, block[..nblock], inUse[..], state_in_ch, state_in_len)
      requires 1 <= nblockMAX && block.Length == nblockMAX + 19 && inUse.Length == 256
      ensures CoderValid()
    {
      hide Coder;
    }

    /** The common case: the run before was a single byte. */
    method AddSingle(zchh: Byte)
      requires CoderValid() && CrcValid() && nblock + 5 <= block.Length && zchh != state_in_ch && state_in_len == 1
      modifies this`nblock, this`runs, this`state_in_ch, this`blockCRC, block, inUse
      ensures CoderValid() && CrcValid() && old(nblock) <= nblock <= old(nblock) + 5 && state_in_ch == zchh != NO_CHAR
      ensures Taken(runs, state_in_ch, state_in_len) == Taken(old(runs), old(state_in_ch), old(state_in_len)) + [zchh]
    {
      hide Marks, Separate, Encode, X.Running, Plain;
      var ch: Byte := state_in_ch;
      ghost var was, used := block[..nblock], inUse[..];
      StoreRun(runs, was, used, ch, 1, used[ch := true]);
      UpdateCrc(ch, 1, Plain(runs));
      EncodeAppend(runs, Pair(ch, 1));
      inUse[ch] := true;
      Append(ch);
      runs := runs + [Pair(ch, 1)];
      assert block[..nblock] == was + EncodePair(Pair(ch, 1));
      NextChar(runs, block[..nblock], inUse[..], zchh);
      state_in_ch := zchh;
    }

    /** Any other end of a run. */
    method NextRun(zchh: Byte)
      requires CoderValid() && CrcValid() && nblock + 5 <= block.Length && (state_in_ch == NO_CHAR ==> runs == [])
      requires zchh != state_in_ch || state_in_len == 255
      modifies this`nblock, this`runs, this`state_in_ch, this`state_in_len, this`blockCRC, block, inUse
      ensures CoderValid() && CrcValid() && old(nblock) <= nblock <= old(nblock) + 5 && state_in_ch == zchh != NO_CHAR
      ensures Taken(runs, state_in_ch, state_in_len) == Taken(old(runs), old(state_in_ch), old(state_in_len)) + [zchh]
    {
      hide Marks, Separate, Encode, X.Running, Plain;
      if state_in_ch < 256 { AddPairToBlock(); }
      NextChar(runs, block[..nblock], inUse[..], zchh);
      state_in_ch := zchh;
      state_in_len := 1;
    }

    // ---- the stream machine ----

    /** What has been taken from the caller but is not yet in a finished block. */
    ghost function Unfinished(): seq<Byte>
      reads `state, `runs, `state_in_ch, `state_in_len
    {
      if state == Input && AllRuns(runs) then Taken(runs, state_in_ch, state_in_len) else PendingRun(state_in_ch, state_in_len)
    }

    /** Conservation: input taken = finished blocks, expanded, then what is unfinished; output delivered = what was made
        before, then the part of zbits already copied. */
    ghost predicate Conserved()
      reads `nblock, `runs, `state_in_ch, `state_in_len, `blockCRC, `state, `state_out_pos, `consumed, `finished, `sent, `delivered, block, inUse, w
    {
      && CoderValid() && nblock <= nblockMAX + OVERSHOOT
      && (state == Input ==> nblock < nblockMAX && w.zbits == [] && CrcValid() && (state_in_ch == NO_CHAR ==> runs == []))
      && 0 <= state_out_pos <= |w.zbits|
      && consumed == ExpandAll(finished) + Unfinished()
      && delivered == sent + w.zbits[..state_out_pos]
    }

    /** What has been made is the stream of the finished blocks so far, or all of it. */
    ghost predicate Streaming()
      reads `sent, `blockNo, `state, `rows, `finished, `combinedCRC, `ended, `padding, w
    {
      && 1 <= blockNo && nblockMAX == 100000 * blockSize100k - 19
      && finished == F.Blocks(rows) && combinedCRC == F.CombinedCheck(finished)
      && if ended then F.IsStream(sent + w.zbits, blockSize100k, rows, padding)
         else w.Valid() && F.SoFar(sent, w.Bits(), state == Output || blockNo > 1, blockSize100k, rows)
    }

    /** The stream ends only when all input of a finish has been taken, and then it has ended. */
    ghost predicate Staged(m: Mode)
      reads `state, `avail_in_expect, `state_in_ch, `state_in_len, `ended
    {
      && (ended ==> state == Output && (m == Finishing || m == Idle) && avail_in_expect == 0 && IsEmptyRL())
      && (state == Output && IsEmptyRL() ==> ended || m == Flushing)
    }

    /** All bytes made so far. */
    ghost function Made(): seq<Byte>
      reads `sent, w
    {
      sent + w.zbits
    }

    ghost predicate Valid()
      reads this, block, inUse, w
    {
      Conserved() && Streaming() && Staged(mode)
    }

    predicate IsEmptyRL()
      reads `state_in_ch, `state_in_len
    {
      !(state_in_ch < 256 && state_in_len > 0)
    }

    /** BZ2_bzCompressInit: blockSize100k is 1 .. 9. */
    constructor (blockSize100k: int, workFactor: int)
      requires 1 <= blockSize100k <= 9
      ensures Valid() && Resting() && mode == Running && state == Input && fresh(block) && fresh(inUse) && fresh(w) && nblockMAX == 100000 * blockSize100k - 19
      ensures consumed == [] && delivered == [] && finished == [] && this.blockSize100k == blockSize100k
    {
      this.blockSize100k := blockSize100k;
      this.workFactor := if workFactor == 0 then 30 else workFactor;
      block := new Byte[100000 * blockSize100k](_ => 0);
      inUse := new bool[256](_ => false);
      nblockMAX := 100000 * blockSize100k - 19;
      nblock, state_in_ch, state_in_len, runs := 0, NO_CHAR, 0, [];
      mode, state, avail_in_expect, state_out_pos := Running, Input, 0, 0;
      blockNo, blockCRC, combinedCRC := 1, 0xffff_ffff, 0;
      w := new W.BitWriter.InitWrite();
      next_in, avail_out := [], 0;
      finished, consumed, delivered := [], [], [];
      rows, sent, ended, padding := [], [], false, 0;
      new;
      F.NothingSoFar(blockSize100k);
      NoWriting();
      hide *;
      assert inUse[..] == seq(256, _ => false);
      Begun();
    }

    lemma NoWriting()
      ensures ExpandAll([]) == [] && NoneUsed() == seq(256, _ => false)
    {
    }

    /** Before anything was taken. */
    lemma Begun()
      requires 1 <= nblockMAX && block.Length == nblockMAX + 19 && inUse.Length == 256 && nblock == 0 && runs == [] && w.zbits == [] && state_out_pos == 0
      requires state == Input && mode == Running && state_in_ch == NO_CHAR && state_in_len == 0 && inUse[..] == NoneUsed() && blockCRC == 0xffff_ffff
      requires consumed == ExpandAll([]) == [] && delivered == sent == [] && !ended && finished == [] && rows == [] && combinedCRC == 0
      requires blockNo == 1 && nblockMAX == 100000 * blockSize100k - 19
      requires w.Valid() && F.SoFar(sent, w.Bits(), false, blockSize100k, rows)
      ensures Valid() && Resting()
    {
      hide F.SoFar, W.BitWriter.Bits;
      assert block[..0] == [];
      X.NothingRun();
    }

    /** prepare_new_block; the pending run is carried over. */
    method PrepareNewBlock()
      requires Valid() && state == Output && state_out_pos == |w.zbits| && !ended
      modifies this`nblock, this`runs, this`state_out_pos, this`state, this`blockNo, this`blockCRC, this`sent, w`zbits, inUse
      ensures Valid() && state == Input && nblock == 0 && runs == [] && w.zbits == [] && state_out_pos == 0
    {
      hide *;
      NewBlock();
      ghost var made, bits := w.zbits, w.Bits();
      nblock, runs, state_out_pos, state := 0, [], 0, Input;
      blockNo, blockCRC := blockNo + 1, 0xffff_ffff;
      w.Restart();
      F.RestartSoFar(sent, made, bits, w.Bits(), blockSize100k, rows, true);
      sent := sent + made;
      ClearInUse();
      Renewed();
    }

    /** Between blocks only the run being read is unfinished, and no output waits. */
    lemma NewBlock()
      requires Valid() && state == Output && state_out_pos == |w.zbits| && !ended
      ensures 1 <= nblockMAX && block.Length == nblockMAX + 19 && inUse.Length == 256
      ensures Coder([], [], NoneUsed(), state_in_ch, state_in_len)
      ensures consumed == ExpandAll(finished) + PendingRun(state_in_ch, state_in_len) && delivered == sent + w.zbits
      ensures 1 <= blockNo && nblockMAX == 100000 * blockSize100k - 19 && finished == F.Blocks(rows) && combinedCRC == F.CombinedCheck(finished)
      ensures w.Valid() && F.SoFar(sent, w.Bits(), true, blockSize100k, rows)
    {
      hide ExpandAll, F.Blocks, F.CombinedCheck, F.SoFar, W.BitWriter.Bits;
      assert w.zbits[..state_out_pos] == w.zbits;
    }

    lemma Renewed()
      requires 1 <= nblockMAX && block.Length == nblockMAX + 19 && inUse.Length == 256 && nblock == 0 && runs == [] && w.zbits == [] && state_out_pos == 0
      requires state == Input && Coder([], [], NoneUsed(), state_in_ch, state_in_len) && inUse[..] == NoneUsed() && blockCRC == 0xffff_ffff
      requires consumed == ExpandAll(finished) + PendingRun(state_in_ch, state_in_len) && delivered == sent && !ended
      requires 2 <= blockNo && nblockMAX == 100000 * blockSize100k - 19 && finished == F.Blocks(rows) && combinedCRC == F.CombinedCheck(finished)
      requires w.Valid() && F.SoFar(sent, w.Bits(), true, blockSize100k, rows)
      ensures Valid()
    {
      hide ExpandAll, PendingRun, F.Blocks, F.CombinedCheck, F.SoFar, W.BitWriter.Bits;
      assert block[..0] == [];
      X.NothingRun();
      assert sent + [] == sent;
    }

    method ClearInUse()
      requires inUse.Length == 256
      modifies inUse
      ensures inUse[..] == NoneUsed()
    {
      var i := 0;
      while i < 256
        invariant 0 <= i <= 256 && forall c :: 0 <= c < i ==> !inUse[c]
      {
        inUse[i] := false;
        i := i + 1;
      }
    }

    /** copy_input_until_stop. */
    method CopyInput() returns (progress_in: bool)
      requires CoderValid() && CrcValid() && nblock < nblockMAX && (state_in_ch == NO_CHAR ==> runs == [])
      requires consumed == ExpandAll(finished) + Taken(runs, state_in_ch, state_in_len)
      requires mode != Running ==> avail_in_expect == |next_in|
      modifies this`nblock, this`runs, this`state_in_ch, this`state_in_len, this`next_in, this`avail_in_expect, this`consumed, this`blockCRC, block, inUse
      ensures CoderValid() && CrcValid() && nblock <= nblockMAX + 4 && (state_in_ch == NO_CHAR ==> runs == [])
      ensures consumed == ExpandAll(finished) + Taken(runs, state_in_ch, state_in_len)
      ensures Advanced(old(next_in), next_in, old(consumed), consumed)
      ensures mode != Running ==> avail_in_expect == |next_in|
      ensures nblock >= nblockMAX || next_in == []
      ensures progress_in <==> |next_in| < |old(next_in)|
      ensures !progress_in ==> nblock == old(nblock) && runs == old(runs) && state_in_ch == old(state_in_ch) && state_in_len == old(state_in_len)
    {
      hide Taken, ExpandAll, Advanced, Marks, Encode, Separate, CrcValid;
      progress_in := false;
      ghost var input := next_in;
      AdvancedNot(input, consumed);
      while nblock < nblockMAX && next_in != [] && (mode == Running || avail_in_expect != 0)
        invariant CoderValid() && CrcValid() && nblock <= nblockMAX + 4 && (state_in_ch == NO_CHAR ==> runs == [])
        invariant consumed == ExpandAll(finished) + Taken(runs, state_in_ch, state_in_len)
        invariant Advanced(input, next_in, old(consumed), consumed)
        invariant mode != Running ==> avail_in_expect == |next_in|
        invariant progress_in <==> |next_in| < |input|
        invariant !progress_in ==> nblock == old(nblock) && runs == old(runs) && state_in_ch == old(state_in_ch) && state_in_len == old(state_in_len)
        decreases |next_in|
      {
        progress_in := true;
        AdvanceOne(input, next_in, old(consumed), consumed);
        AppendTaken(ExpandAll(finished), Taken(runs, state_in_ch, state_in_len), next_in[0]);
        AddCharToBlock(next_in[0]);
        consumed := consumed + [next_in[0]];
        next_in := next_in[1..];
        if mode != Running { avail_in_expect := avail_in_expect - 1; }
      }
    }

    /** copy_output_until_stop. */
    method CopyOutput() returns (progress_out: bool)
      requires Valid() && avail_out >= 0
      modifies this`avail_out, this`state_out_pos, this`delivered
      ensures Valid() && 0 <= avail_out <= old(avail_out)
      ensures |delivered| - |old(delivered)| == old(avail_out) - avail_out && old(delivered) <= delivered
      ensures progress_out <==> avail_out < old(avail_out)
      ensures state_out_pos <= |w.zbits| && (state_out_pos == |w.zbits| || avail_out == 0)
      ensures state_out_pos - old(state_out_pos) == old(avail_out) - avail_out
    {
      progress_out := false;
      hide CoderValid, CrcValid, Unfinished, ExpandAll, Streaming, Staged;
      while avail_out != 0 && state_out_pos < |w.zbits|
        invariant Valid() && 0 <= avail_out <= old(avail_out)
        invariant |delivered| - |old(delivered)| == old(avail_out) - avail_out && old(delivered) <= delivered
        invariant progress_out <==> avail_out < old(avail_out)
        invariant state_out_pos - old(state_out_pos) == old(avail_out) - avail_out
        decreases |w.zbits| - state_out_pos
      {
        progress_out := true;
        assert w.zbits[..state_out_pos + 1] == w.zbits[..state_out_pos] + [w.zbits[state_out_pos]];
        delivered := delivered + [w.zbits[state_out_pos]];
        state_out_pos := state_out_pos + 1;
        avail_out := avail_out - 1;
      }
    }

    /** BZ2_compressBlock. */
    method CompressBlock(is_last_block: bool)
      requires CoderValid() && CrcValid() && Streaming() && nblock <= nblockMAX + OVERSHOOT && w.zbits == [] && state_out_pos == 0
      requires state == Input && !ended && consumed == ExpandAll(finished) + Taken(runs, state_in_ch, state_in_len) && delivered == sent
      modifies this`state, this`finished, this`rows, this`blockCRC, this`combinedCRC, this`ended, this`padding, w
      ensures Conserved() && Streaming() && state == Output && ended == is_last_block && (ended ==> w.zbits != [])
      ensures finished == if nblock > 0 then old(finished) + [block[..nblock]] else old(finished)
      ensures |w.zbits| <= Z.Area(blockSize100k, nblock) // all of it fits behind the block
    {
      hide *;
      BlockReady();
      Z.WriterSize(w);
      ghost var b := block[..nblock];
      WriteBlock(b);
      state := Output;
      Z.WriterSize(w);
      Z.FitsBehind(blockSize100k, nblock, |w.Bits()| + 87);
      if is_last_block { SendEnd(); }
      BlockClosed();
    }

    /** Checksum, header and block, as far as there are any. */
    method WriteBlock(ghost b: seq<Byte>)
      requires 0 <= nblock <= block.Length && inUse.Length == 256 && 1 <= blockSize100k <= 9 && nblock <= 100000 * blockSize100k - 10 && b == block[..nblock]
      requires (forall k :: 0 <= k < nblock ==> inUse[block[k]]) && F.Whole(b) && blockCRC == X.Running(F.Text(b))
      requires 1 <= blockNo && finished == F.Blocks(rows) && combinedCRC == F.CombinedCheck(finished)
      requires w.Valid() && F.SoFar(sent, w.Bits(), blockNo > 1, blockSize100k, rows)
      modifies this`finished, this`rows, this`blockCRC, this`combinedCRC, w
      ensures finished == (if nblock > 0 then old(finished) + [b] else old(finished)) == F.Blocks(rows) && combinedCRC == F.CombinedCheck(finished)
      ensures w.Valid() && F.SoFar(sent, w.Bits(), true, blockSize100k, rows)
      ensures |w.Bits()| <= |old(w.Bits())| + 32 + 257_419 + 20 * nblock
    {
      hide *;
      if nblock > 0 { FinaliseCrc(b); }
      if blockNo == 1 { SendHeader(); }
      if nblock > 0 { SendBlock(b); }
    }

    /** What a block that is about to be closed brings along. */
    lemma BlockReady()
      requires CoderValid() && CrcValid() && Streaming() && nblock <= nblockMAX + OVERSHOOT && state == Input && !ended
      ensures 0 <= nblock <= block.Length && inUse.Length == 256 && 1 <= blockSize100k <= 9 && nblock <= 100000 * blockSize100k - 10
      ensures (forall k :: 0 <= k < nblock ==> inUse[block[k]]) && F.Whole(block[..nblock]) && blockCRC == X.Running(F.Text(block[..nblock]))
      ensures 1 <= blockNo && nblockMAX == 100000 * blockSize100k - 19 && finished == F.Blocks(rows) && combinedCRC == F.CombinedCheck(finished)
      ensures w.Valid() && F.SoFar(sent, w.Bits(), blockNo > 1, blockSize100k, rows)
      ensures AllRuns(runs) && ExpandAll(finished) + Taken(runs, state_in_ch, state_in_len)
              == ExpandAll(if nblock > 0 then finished + [block[..nblock]] else finished) + PendingRun(state_in_ch, state_in_len)
    {
      ghost var b := block[..nblock];
      CloseBlock(finished, runs, b, inUse[..], state_in_ch, state_in_len);
      F.RunsWhole(runs);
      assert forall k :: 0 <= k < nblock ==> b[k] in b;
      hide Encode, Plain, Expand, ExpandAll, PendingRun, F.Blocks, F.CombinedCheck, W.BitWriter.Bits, F.Whole, F.Text, X.Running;
      assert 1 <= blockSize100k <= 9 by { hide F.AllSent, W.BytesBits, F.HeaderBytes, F.RowsBits; }
    }

    /** Finishes the block's checksum and takes it into the combined one. */
    method FinaliseCrc(ghost b: seq<Byte>)
      requires blockCRC == X.Running(F.Text(b)) && combinedCRC == F.CombinedCheck(finished)
      modifies this`blockCRC, this`combinedCRC
      ensures blockCRC == F.BlockCheck(b) && combinedCRC == F.CombinedCheck(finished + [b])
    {
      F.CombinedMore(finished, b);
      hide X.Running, X.Combine, F.Text, F.CombinedCheck;
      blockCRC := !blockCRC;
      combinedCRC := X.Combine(combinedCRC, blockCRC);
    }

    /** The header in front of the first block. */
    method SendHeader()
      requires w.Valid() && F.SoFar(sent, w.Bits(), false, blockSize100k, rows) && 1 <= blockSize100k <= 9
      modifies w
      ensures w.Valid() && F.SoFar(sent, w.Bits(), true, blockSize100k, rows) && |w.Bits()| == |old(w.Bits())| + 32
    {
      hide *;
      ghost var bits := w.Bits();
      Z.HeaderSize(blockSize100k);
      B.SendHeader(w, blockSize100k);
      F.HeaderSoFar(sent, bits, blockSize100k, rows);
    }

    /** Sorts and sends the block. */
    method SendBlock(ghost b: seq<Byte>)
      requires 0 < nblock <= block.Length && inUse.Length == 256 && 1 <= blockSize100k <= 9 && nblock <= 100000 * blockSize100k - 10 && b == block[..nblock]
      requires (forall k :: 0 <= k < nblock ==> inUse[block[k]]) && F.Whole(b) && blockCRC == F.BlockCheck(b)
      requires finished == F.Blocks(rows) && w.Valid() && F.SoFar(sent, w.Bits(), true, blockSize100k, rows)
      modifies this`finished, this`rows, w
      ensures finished == old(finished) + [b] == F.Blocks(rows) && w.Valid() && F.SoFar(sent, w.Bits(), true, blockSize100k, rows)
      ensures |w.Bits()| <= |old(w.Bits())| + 257_419 + 20 * nblock
    {
      hide *;
      ghost var bits := w.Bits();
      ghost var row := B.SendRow(w, block[..nblock], inUse, blockCRC, workFactor, blockSize100k);
      Z.RowSize(row, blockSize100k);
      F.RowSoFar(sent, bits, blockSize100k, rows, row);
      F.BlocksAppend(rows, row);
      rows, finished := rows + [row], finished + [b];
    }

    /** The trailer after the last block. */
    method SendEnd()
      requires w.Valid() && F.SoFar(sent, w.Bits(), true, blockSize100k, rows) && combinedCRC == F.CombinedCheck(F.Blocks(rows))
      modifies this`ended, this`padding, w
      ensures ended && F.IsStream(sent + w.zbits, blockSize100k, rows, padding) && w.zbits != []
      ensures 8 * |w.zbits| <= |old(w.Bits())| + 87
    {
      hide *;
      ghost var bits := w.Bits();
      padding := B.SendTrailer(w, combinedCRC);
      Z.TrailerSize(X.Word(combinedCRC));
      Z.BytesSize(w.zbits);
      F.EndSoFar(sent, w.zbits, bits, blockSize100k, rows, padding);
      ended := true;
    }

    lemma BlockClosed()
      requires CoderValid() && nblock <= nblockMAX + OVERSHOOT && state == Output && state_out_pos == 0
      requires consumed == ExpandAll(finished) + PendingRun(state_in_ch, state_in_len) && delivered == sent
      requires 1 <= blockNo && nblockMAX == 100000 * blockSize100k - 19 && finished == F.Blocks(rows) && combinedCRC == F.CombinedCheck(finished)
      requires if ended then F.IsStream(sent + w.zbits, blockSize100k, rows, padding)
               else w.Valid() && F.SoFar(sent, w.Bits(), true, blockSize100k, rows)
      ensures Conserved() && Streaming()
    {
      hide CoderValid, ExpandAll, PendingRun, F.Blocks, F.CombinedCheck, F.SoFar, F.IsStream, W.BitWriter.Bits, W.BitWriter.Valid;
      assert sent + w.zbits[..0] == sent;
    }

    /** The output half of one turn of handle_compress. */
    method OutputTurn() returns (stop: bool, progress: bool)
      requires Valid() && state == Output && avail_out >= 0 && mode != Idle
      modifies this`avail_out, this`state_out_pos, this`delivered, this`nblock, this`runs, this`state, this`blockNo, this`blockCRC, this`sent, w`zbits, inUse
      ensures Valid() && Moved(old(next_in), next_in, old(consumed), consumed, old(avail_out), avail_out, old(delivered), delivered)
      ensures stop && state == Input ==> mode == Flushing && avail_in_expect == 0 && IsEmptyRL() && runs == []
      ensures stop && state == Output ==>
                state_out_pos < |w.zbits| || (mode == Finishing && avail_in_expect == 0 && IsEmptyRL())
      ensures !stop ==> state == Input && (mode != Running && avail_in_expect == 0 ==> !IsEmptyRL())
      ensures avail_out >= 0 && (stop ==> avail_out == 0 || (avail_in_expect == 0 && IsEmptyRL() && state_out_pos >= |w.zbits|))
      ensures progress <==> avail_out < old(avail_out)
      ensures old(Pending()) && avail_out == old(avail_out) ==> Pending()
      ensures stop && state == Output ==> w.zbits == old(w.zbits) && state_out_pos - old(state_out_pos) == old(avail_out) - avail_out
      ensures old(state_out_pos) < |old(w.zbits)| ==> if old(avail_out) == 0 then stop else progress
    {
      ghost var room, given := avail_out, delivered;
      hide Valid, Moved, IsEmptyRL;
      progress := CopyOutput();
      MovedOut(next_in, consumed, room, avail_out, given, delivered);
      if state_out_pos < |w.zbits| { return true, progress; }
      if mode == Finishing && avail_in_expect == 0 && IsEmptyRL() { return true, progress; }
      NotEnded();
      PrepareNewBlock();
      stop := mode == Flushing && avail_in_expect == 0 && IsEmptyRL();
    }

    /** Once the stream has ended there is output to deliver. */
    ghost predicate Pending()
      reads `ended, `state_out_pos, w
    {
      ended ==> state_out_pos < |w.zbits|
    }

    lemma PendingIs()
      requires ended ==> state_out_pos == 0 && w.zbits != []
      ensures Pending()
    {
    }

    lemma NotEnded()
      requires Valid() && mode != Idle && !(mode == Finishing && avail_in_expect == 0 && IsEmptyRL())
      ensures !ended
    {
      hide Conserved, Streaming;
    }

    /** What the state says while input is being taken. */
    lemma InputReady()
      requires Valid() && state == Input
      ensures CoderValid() && CrcValid() && nblock < nblockMAX && w.zbits == [] && (state_in_ch == NO_CHAR ==> runs == []) && state_out_pos == 0
      ensures AllRuns(runs) && consumed == ExpandAll(finished) + Taken(runs, state_in_ch, state_in_len) && delivered == sent
      ensures Streaming() && !ended
    {
      hide Streaming, Encode, Marks, Separate, ExpandAll, Plain, X.Running;
      assert sent + w.zbits[..state_out_pos] == sent;
    }

    lemma StillInput()
      requires CoderValid() && CrcValid() && nblock < nblockMAX && w.zbits == [] && (state_in_ch == NO_CHAR ==> runs == []) && state_out_pos == 0
      requires consumed == ExpandAll(finished) + Taken(runs, state_in_ch, state_in_len) && delivered == sent
      requires Streaming() && !ended && state == Input
      ensures Valid()
    {
      hide Streaming, CoderValid, Taken, ExpandAll, X.Running, Plain;
      assert sent + w.zbits[..state_out_pos] == sent;
    }

    lemma RunFlushed()
      requires CoderValid() && state_in_ch == NO_CHAR
      ensures IsEmptyRL() && AllRuns(runs) && Taken(runs, state_in_ch, state_in_len) == Plain(runs)
    {
      hide Encode, Marks, Separate, Plain;
    }

    /** A full block leaves a run in hand. */
    lemma RunInHand()
      requires CoderValid() && nblock >= nblockMAX && (state_in_ch == NO_CHAR ==> runs == [])
      ensures !IsEmptyRL()
    {
      hide Marks, Separate, Plain;
    }

    lemma OutputReady()
      requires Conserved() && Streaming() && state == Output
      requires (ended ==> mode == Finishing && avail_in_expect == 0 && IsEmptyRL()) && (IsEmptyRL() ==> ended || mode == Flushing)
      ensures Valid()
    {
      hide Conserved, Streaming;
    }

    lemma CoderRoom()
      requires CoderValid() && nblock <= nblockMAX + 4
      ensures nblock + 5 <= block.Length && nblock + 5 <= nblockMAX + OVERSHOOT
    {
    }

    /** The input half of one turn of handle_compress. */
    method InputTurn() returns (stop: bool, progress: bool)
      requires Valid() && state == Input && avail_out >= 0 && mode != Idle && (mode != Running ==> avail_in_expect == |next_in|)
      modifies this, block, inUse, w
      ensures Valid() && Moved(old(next_in), next_in, old(consumed), consumed, old(avail_out), avail_out, old(delivered), delivered) && mode == old(mode) && avail_out == old(avail_out)
      ensures mode != Running ==> avail_in_expect == |next_in|
      ensures stop ==> mode == Running && next_in == [] && state == Input
      ensures !stop ==> state == Output
      ensures !stop ==> |next_in| < |old(next_in)| || (next_in == old(next_in) == [] && mode != Running && IsEmptyRL())
      ensures progress <==> |next_in| < |old(next_in)|
      ensures Pending() && (old(next_in) != [] ==> progress)
      ensures if stop then finished == old(finished) else AllFull(old(finished)) || (LastShort(old(finished)) && Waiting() == 0)
    {
      hide *;
      ghost var input, before := next_in, consumed;
      InputReady();
      progress := CopyInput();
      MovedIn(input, next_in, before, consumed, avail_out, delivered);
      CoderRoom();
      ghost var was := finished;
      if mode != Running && avail_in_expect == 0 {
        CloseLast();
        stop := false;
        WaitingIs();
        OneShort(was);
      } else if nblock >= nblockMAX {
        RunInHand();
        CompressBlock(false);
        OneFull(was);
        OutputReady();
        PendingIs();
        stop := false;
      } else {
        StillInput();
        PendingIs();
        stop := true; // no input left
      }
    }

    /** All input of a flush or finish has been taken. */
    method CloseLast()
      requires CoderValid() && CrcValid() && Streaming() && nblock <= nblockMAX + 4 && w.zbits == [] && state_out_pos == 0
      requires state == Input && !ended && consumed == ExpandAll(finished) + Taken(runs, state_in_ch, state_in_len) && delivered == sent
      requires mode in {Flushing, Finishing} && avail_in_expect == 0
      modifies this`nblock, this`runs, this`state_in_ch, this`state_in_len, this`blockCRC, block, inUse
      modifies this`state, this`finished, this`rows, this`combinedCRC, this`ended, this`padding, w
      ensures Valid() && state == Output && IsEmptyRL() && Pending()
      ensures finished == old(finished) || (|finished| == |old(finished)| + 1 && old(finished) <= finished)
    {
      hide *;
      CoderRoom();
      FlushRL();
      RunFlushed();
      CompressBlock(mode == Finishing);
      OutputReady();
      PendingIs();
    }

    /** The blocks closed since were full. */
    ghost predicate AllFull(was: seq<seq<Byte>>)
      reads `finished
    {
      was <= finished && forall i :: |was| <= i < |finished| ==> |finished[i]| >= nblockMAX
    }

    /** But for the last one, which a flush or finish has closed with all input taken. */
    ghost predicate LastShort(was: seq<seq<Byte>>)
      reads `finished, `mode, `next_in
    {
      was <= finished && mode != Running && next_in == [] && forall i :: |was| <= i < |finished| - 1 ==> |finished[i]| >= nblockMAX
    }

    lemma OneFull(was: seq<seq<Byte>>)
      requires CoderValid() && nblock >= nblockMAX && finished == if nblock > 0 then was + [block[..nblock]] else was
      ensures AllFull(was)
    {
    }

    lemma OneShort(was: seq<seq<Byte>>)
      requires mode != Running && next_in == [] && (finished == was || (|finished| == |was| + 1 && was <= finished))
      ensures LastShort(was)
    {
    }

    lemma NoneClosed(was: seq<seq<Byte>>)
      requires finished == was
      ensures AllFull(was)
    {
    }

    /** No block is closed after a short one. */
    lemma FullThen(was: seq<seq<Byte>>, before: seq<seq<Byte>>)
      requires was <= before && forall i :: |was| <= i < |before| ==> |before[i]| >= nblockMAX
      ensures (AllFull(before) ==> AllFull(was)) && (LastShort(before) ==> LastShort(was))
    {
    }

    lemma AllFullIs(was: seq<seq<Byte>>)
      ensures AllFull(was) ==> was <= finished && forall i :: |was| <= i < |finished| ==> |finished[i]| >= nblockMAX
    {
    }

    lemma StillShort(was: seq<seq<Byte>>, before: seq<seq<Byte>>)
      requires finished == before && was <= before && mode != Running && next_in == [] && forall i :: |was| <= i < |before| - 1 ==> |before[i]| >= nblockMAX
      ensures LastShort(was)
    {
    }

    lemma LastShortIs(was: seq<seq<Byte>>)
      ensures LastShort(was) ==> was <= finished && mode != Running && next_in == [] && forall i :: |was| <= i < |finished| - 1 ==> |finished[i]| >= nblockMAX
    {
    }

    /** The state between turns: valid, in the same mode, and moved on from where the buffers and the history stood. */
    ghost predicate Going(i0: seq<Byte>, c0: seq<Byte>, r0: int, d0: seq<Byte>, m0: Mode)
      reads this, block, inUse, w
    {
      Valid() && mode == m0 && avail_out >= 0 && (mode != Running ==> avail_in_expect == |next_in|)
      && Moved(i0, next_in, c0, consumed, r0, avail_out, d0, delivered)
    }

    lemma GoingStart()
      requires Valid() && avail_out >= 0 && (mode != Running ==> avail_in_expect == |next_in|)
      ensures Going(next_in, consumed, avail_out, delivered, mode)
    {
      AdvancedNot(next_in, consumed);
    }

    lemma GoingIs(i0: seq<Byte>, c0: seq<Byte>, r0: int, d0: seq<Byte>, m0: Mode)
      requires Valid() && mode == m0 && avail_out >= 0 && (mode != Running ==> avail_in_expect == |next_in|)
      requires Moved(i0, next_in, c0, consumed, r0, avail_out, d0, delivered)
      ensures Going(i0, c0, r0, d0, m0)
    {
    }

    lemma GoingFacts(i0: seq<Byte>, c0: seq<Byte>, r0: int, d0: seq<Byte>, m0: Mode)
      requires Going(i0, c0, r0, d0, m0)
      ensures Valid() && mode == m0 && 0 <= avail_out <= r0 && |next_in| <= |i0| && (mode != Running ==> avail_in_expect == |next_in|)
      ensures Moved(i0, next_in, c0, consumed, r0, avail_out, d0, delivered)
    {
    }

    lemma GoingOn(i0: seq<Byte>, i1: seq<Byte>, c0: seq<Byte>, c1: seq<Byte>, r0: int, r1: int, d0: seq<Byte>, d1: seq<Byte>, m0: Mode)
      requires Moved(i0, i1, c0, c1, r0, r1, d0, d1) && Going(i1, c1, r1, d1, m0)
      ensures Going(i0, c0, r0, d0, m0) && mode == m0 && |next_in| <= |i1| <= |i0| && avail_out <= r1 <= r0
    {
      hide Valid;
      MovedTwice(i0, i1, next_in, c0, c1, consumed, r0, r1, avail_out, d0, d1, delivered);
    }

    /** One turn of handle_compress: empty zbits, then fill the block, until one side must wait. */
    method Turn() returns (stop: bool, progress: bool)
      requires Valid() && avail_out >= 0 && mode != Idle && (mode != Running ==> avail_in_expect == |next_in|)
      modifies this, block, inUse, w
      ensures Going(old(next_in), old(consumed), old(avail_out), old(delivered), old(mode))
      ensures progress <==> |next_in| < |old(next_in)| || avail_out < old(avail_out)
      ensures !stop ==> |next_in| < |old(next_in)| || (old(Waiting()) == 1 && Waiting() == 0)
      ensures stop ==> Settled()
      ensures old(Pending()) && avail_out == old(avail_out) ==> Pending()
      ensures (stop && Complete()) || Nearer(old(next_in), old(Waiting()), old(w.zbits), old(state_out_pos), old(avail_out))
      ensures old(Able()) ==> progress
      ensures old(Stuck()) ==> stop && !progress
      ensures AllFull(old(finished)) || (LastShort(old(finished)) && Waiting() == 0)
      ensures old(Waiting()) == 0 && old(next_in) == [] && mode != Running ==> finished == old(finished)
    {
      hide *;
      ghost var i0, c0, r0, d0, m0 := next_in, consumed, avail_out, delivered, mode;
      MovedNot(i0, c0, r0, d0);
      WaitingIs();
      AbleIs();
      stop, progress := false, false;
      if state == Output {
        ghost var z0, p0, e0 := w.zbits, state_out_pos, Waiting();
        stop, progress := OutputTurn();
        if stop {
          OutputSettled();
          GoingIs(i0, c0, r0, d0, m0);
          WaitingIs();
          NoneClosed(old(finished));
          StoppedNear(i0, e0, z0, p0, r0);
          return;
        }
      }
      ghost var i1, c1, r1, d1 := next_in, consumed, avail_out, delivered;
      var p;
      stop, p := InputTurn();
      WaitingIs();
      progress := progress || p;
      MovedTwice(i0, i1, next_in, c0, c1, consumed, r0, r1, avail_out, d0, d1, delivered);
      GoingIs(i0, c0, r0, d0, m0);
      InputSettled(stop);
      if stop {
        NoneClosed(old(finished));
        RunComplete();
      } else {
        NearerIs(i0, old(Waiting()), old(w.zbits), old(state_out_pos), r0);
      }
    }

    /** Between calls output waits to be delivered, or input may be taken. */
    ghost predicate Resting()
      reads `mode, `state, `state_out_pos, w
    {
      mode != Idle && state == Output ==> state_out_pos < |w.zbits|
    }

    /** The next turn moves a byte. */
    ghost predicate Able()
      reads `state, `next_in, `state_out_pos, `avail_out, w
    {
      if state == Input then next_in != [] else state_out_pos < |w.zbits| && avail_out > 0
    }

    /** The next turn stops at once. */
    ghost predicate Stuck()
      reads `mode, `state, `next_in, `state_out_pos, `avail_out, w
    {
      if state == Input then mode == Running && next_in == [] else state_out_pos < |w.zbits| && avail_out == 0
    }

    lemma AbleIs()
      ensures Able() == if state == Input then next_in != [] else state_out_pos < |w.zbits| && avail_out > 0
      ensures Stuck() == if state == Input then mode == Running && next_in == [] else state_out_pos < |w.zbits| && avail_out == 0
    {
    }

    /** Nothing is left to take or to deliver. */
    ghost predicate Done()
      reads `next_in, `state_in_ch, `state_in_len, `state_out_pos, w
    {
      next_in == [] && IsEmptyRL() && state_out_pos >= |w.zbits|
    }

    /** So for a flush or finish; a run asks only for its input to be taken. */
    ghost predicate Complete()
      reads `mode, `next_in, `state_in_ch, `state_in_len, `state_out_pos, w
    {
      Done() || (mode == Running && next_in == [])
    }

    lemma RunComplete()
      requires mode == Running && next_in == []
      ensures Complete()
    {
    }

    /** The machine has come nearer to the end of its work: input was taken, the last block was closed, or as much was delivered
        as room was used. */
    ghost predicate Nearer(i0: seq<Byte>, e0: nat, z0: seq<Byte>, p0: int, r0: int)
      reads `next_in, `state, `state_in_ch, `state_in_len, `state_out_pos, `avail_out, w
    {
      |next_in| < |i0| || Waiting() < e0 || (|next_in| == |i0| && Waiting() == e0 && w.zbits == z0 && state_out_pos - p0 == r0 - avail_out)
    }

    lemma NearerIs(i0: seq<Byte>, e0: nat, z0: seq<Byte>, p0: int, r0: int)
      requires |next_in| < |i0| || Waiting() < e0 || (|next_in| == |i0| && Waiting() == e0 && w.zbits == z0 && state_out_pos - p0 == r0 - avail_out)
      ensures Nearer(i0, e0, z0, p0, r0)
    {
    }

    lemma NearerFacts(i0: seq<Byte>, e0: nat, z0: seq<Byte>, p0: int, r0: int)
      requires Nearer(i0, e0, z0, p0, r0)
      ensures |next_in| < |i0| || Waiting() < e0 || (|next_in| == |i0| && Waiting() == e0 && w.zbits == z0 && state_out_pos - p0 == r0 - avail_out)
    {
    }

    /** Coming nearer twice. */
    lemma NearerOn(i0: seq<Byte>, e0: nat, z0: seq<Byte>, p0: int, r0: int, i1: seq<Byte>, e1: nat, z1: seq<Byte>, p1: int, r1: int)
      requires |i1| < |i0| || e1 < e0 || (|i1| == |i0| && e1 == e0 && z1 == z0 && p1 - p0 == r0 - r1)
      requires Nearer(i1, e1, z1, p1, r1) && |next_in| <= |i1| <= |i0|
      ensures Nearer(i0, e0, z0, p0, r0)
    {
    }

    ghost function Waiting(): nat
      reads `state, `state_in_ch, `state_in_len
    {
      if state == Output && IsEmptyRL() then 0 else 1
    }

    lemma WaitingIs()
      ensures Waiting() == if state == Output && IsEmptyRL() then 0 else 1
    {
    }

    lemma OutputSettled()
      requires avail_out == 0 || (avail_in_expect == 0 && IsEmptyRL() && state_out_pos >= |w.zbits|)
      requires mode != Running ==> avail_in_expect == |next_in|
      requires state == Input ==> mode == Flushing && avail_in_expect == 0 && IsEmptyRL() && runs == []
      requires state == Output ==> state_out_pos < |w.zbits| || (mode == Finishing && avail_in_expect == 0 && IsEmptyRL())
      ensures Settled()
    {
    }

    lemma InputSettled(stop: bool)
      requires stop ==> mode == Running && next_in == [] && state == Input
      ensures stop ==> Settled()
    {
    }

    /** A stop in the output half: nothing is left, or only what was waiting has been delivered. */
    lemma StoppedNear(i0: seq<Byte>, e0: nat, z0: seq<Byte>, p0: int, r0: int)
      requires Valid() && next_in == i0 && (mode != Running ==> avail_in_expect == |next_in|)
      requires if state == Input then mode == Flushing && avail_in_expect == 0 && IsEmptyRL() else Waiting() == e0 && w.zbits == z0 && state_out_pos - p0 == r0 - avail_out
      ensures Complete() || Nearer(i0, e0, z0, p0, r0)
    {
      hide CoderValid, CrcValid, Unfinished, ExpandAll, Streaming, Staged;
    }

    /** A run stops when all input is taken or the room is used up; a flush or finish for want of room, or when there is no
        more to do, and then it has closed the last block. */
    ghost predicate Settled()
      reads `next_in, `avail_out, `state_in_ch, `state_in_len, `state_out_pos, `mode, `state, `runs, w
    {
      if mode == Running then (if state == Input then next_in == [] else avail_out == 0 && state_out_pos < |w.zbits|)
      else (avail_out == 0 || Done()) && (state == Output ==> state_out_pos < |w.zbits| || Done())
           && (Done() ==> if mode == Flushing then state == Input && runs == [] else state == Output)
    }

    /** handle_compress. */
    method HandleCompress() returns (progress: bool)
      requires Valid() && avail_out >= 0 && mode != Idle && (mode != Running ==> avail_in_expect == |next_in|)
      modifies this, block, inUse, w
      ensures Valid() && Moved(old(next_in), next_in, old(consumed), consumed, old(avail_out), avail_out, old(delivered), delivered)
      ensures mode == old(mode) && (mode != Running ==> avail_in_expect == |next_in|)
      ensures progress <==> |next_in| < |old(next_in)| || avail_out < old(avail_out)
      ensures Settled()
      ensures old(Pending()) && avail_out == old(avail_out) ==> Pending()
      ensures Complete() || Nearer(old(next_in), old(Waiting()), old(w.zbits), old(state_out_pos), old(avail_out))
      ensures if old(Able()) then progress else if old(Stuck()) then !progress else true
      ensures AllFull(old(finished)) || LastShort(old(finished))
    {
      hide *;
      ghost var i0, c0, r0, d0, m0 := next_in, consumed, avail_out, delivered, mode;
      ghost var e0, z0, p0, able, stuck, f0 := Waiting(), w.zbits, state_out_pos, Able(), Stuck(), finished;
      GoingStart();
      NoneClosed(f0);
      progress := false;
      var stop := false;
      ghost var first := true;
      NearerIs(i0, e0, z0, p0, r0);
      while !stop
        invariant Going(i0, c0, r0, d0, m0) && (progress <==> |next_in| < |i0| || avail_out < r0)
        invariant stop ==> Settled()
        invariant old(Pending()) && avail_out == r0 ==> Pending()
        invariant (stop && Complete()) || Nearer(i0, e0, z0, p0, r0)
        invariant AllFull(f0) || (LastShort(f0) && (stop || Waiting() == 0))
        invariant if first then !stop && !progress && Able() == able && Stuck() == stuck else (able ==> progress) && (stuck ==> stop && !progress)
        decreases !stop, |next_in|, Waiting()
      {
        GoingFacts(i0, c0, r0, d0, m0);
        ghost var i1, c1, r1, d1 := next_in, consumed, avail_out, delivered;
        ghost var e1, z1, p1 := Waiting(), w.zbits, state_out_pos;
        NearerFacts(i0, e0, z0, p0, r0);
        ghost var f1, full := finished, AllFull(f0);
        AllFullIs(f0);
        LastShortIs(f0);
        var p;
        stop, p := Turn();
        first := false;
        progress := progress || p;
        GoingOn(i0, i1, c0, c1, r0, r1, d0, d1, m0);
        if !(stop && Complete()) { NearerOn(i0, e0, z0, p0, r0, i1, e1, z1, p1, r1); }
        if full { FullThen(f0, f1); } else { StillShort(f0, f1); }
      }
      GoingFacts(i0, c0, r0, d0, m0);
    }

    /** BZ2_bzCompress. left is the input not taken, output what was delivered into the given room. */
    method BzCompress(action: Action, input: seq<Byte>, room: nat) returns (ret: Code, left: seq<Byte>, output: seq<Byte>)
      requires Valid() && Resting()
      modifies this, block, inUse, w
      ensures Valid() && Resting()
      ensures Advanced(input, left, old(consumed), consumed)
      ensures delivered == old(delivered) + output && |output| <= room
      ensures old(mode) == Idle ==> ret == SequenceError && mode == Idle && left == input && output == []
      ensures ret == StreamEnd <==> old(mode) != Idle && mode == Idle
      ensures (ret == StreamEnd || (ret == RunOk && action == Flush)) ==>
                left == [] && consumed == ExpandAll(finished) && delivered == Made()
      ensures ret == StreamEnd ==> F.IsStream(delivered, blockSize100k, rows, padding) && F.StandsAt(delivered, consumed, blockSize100k)
      ensures ret == RunOk ==> mode == Running
      ensures ret == FlushOk ==> action == Flush && mode == Flushing
      ensures ret == FinishOk ==> action == Finish && mode == Finishing
      ensures ret in {FlushOk, FinishOk} ==> avail_in_expect == |left|
      ensures ret in {FlushOk, FinishOk} || (ret == RunOk && left != []) ==> |output| == room
      ensures ret in {FlushOk, FinishOk} || (ret == RunOk && left != []) ==>
                |left| < |input| || Waiting() < old(Waiting()) || (|left| == |input| && Waiting() == old(Waiting()) && Undelivered() == old(Undelivered()) - room)
      ensures old(mode) == Running && action == Run ==>
                ret in {RunOk, ParamError} && (ret == RunOk <==> if old(state) == Input then input != [] else room > 0)
      ensures old(finished) <= finished && forall i :: |old(finished)| <= i < |finished| ==>
                |finished[i]| >= nblockMAX || (i == |finished| - 1 && action in {Flush, Finish} && left == [])
      ensures action == Finish && (old(mode) == Running || (old(mode) == Finishing && old(avail_in_expect) == |input|)) ==>
                ret in {StreamEnd, FinishOk, SequenceError} && (ret == SequenceError <==> room == 0 && (input == [] || old(state) == Output))
    {
      hide *;
      left, output := input, [];
      AdvancedNot(input, consumed);
      UndeliveredIs();
      WaitingIs();
      ret := Begin(action, |input|);
      if ret != RunOk { return; }
      UndeliveredIs();
      WaitingIs();
      var progress;
      progress, left, output := Serve(input, room);
      UndeliveredIs();
      WaitingIs();
      ret := Conclude(action, progress);
      UndeliveredIs();
      WaitingIs();
    }

    /** The work of a call on the caller's buffers. */
    method Serve(input: seq<Byte>, room: nat) returns (progress: bool, left: seq<Byte>, output: seq<Byte>)
      requires Valid() && Resting() && mode != Idle && (mode != Running ==> avail_in_expect == |input|)
      modifies this, block, inUse, w
      ensures Valid() && mode == old(mode) && Settled() && (mode != Running ==> avail_in_expect == |next_in|)
      ensures left == next_in && Advanced(input, left, old(consumed), consumed)
      ensures delivered == old(delivered) + output && |output| == room - avail_out <= room
      ensures mode == Running ==> (progress <==> if old(state) == Input then input != [] else room > 0)
      ensures mode == Finishing ==> (progress <==> room > 0 || (old(state) == Input && input != []))
      ensures Complete() || |left| < |input| || Waiting() < old(Waiting()) || (|left| == |input| && Waiting() == old(Waiting()) && Undelivered() == old(Undelivered()) - |output|)
      ensures mode == Finishing && !progress ==> Resting()
      ensures old(finished) <= finished && forall i :: |old(finished)| <= i < |finished| ==>
                |finished[i]| >= nblockMAX || (i == |finished| - 1 && mode != Running && left == [])
    {
      hide *;
      NotYet();
      var was := |delivered|;
      SetBuffers(input, room);
      RestingIs();
      AbleIs();
      ghost var e0, z0, p0 := Waiting(), w.zbits, state_out_pos;
      UndeliveredIs();
      ghost var f0 := finished;
      progress := HandleCompress();
      AllFullIs(f0);
      LastShortIs(f0);
      MovedFacts(input, next_in, old(consumed), consumed, room, avail_out, old(delivered), delivered);
      left, output := next_in, delivered[was..];
      if !Complete() { NearerFacts(input, e0, z0, p0, room); }
      UndeliveredIs();
      AtFinish(room);
    }

    /** Bytes made and not yet delivered. */
    ghost function Undelivered(): int
      reads `state_out_pos, w
    {
      |w.zbits| - state_out_pos
    }

    lemma UndeliveredIs()
      ensures Undelivered() == |w.zbits| - state_out_pos
    {
    }

    lemma RestingIs()
      requires Resting() && mode != Idle
      ensures state == Output ==> state_out_pos < |w.zbits|
    {
    }

    lemma NotYet()
      requires Valid() && Resting() && mode != Idle
      ensures Pending()
    {
      hide Conserved, Streaming;
    }

    /** A finish makes no progress only when it is given no room. */
    lemma AtFinish(room: int)
      requires Valid() && Settled() && (mode != Running ==> avail_in_expect == |next_in|)
      ensures mode == Finishing && avail_out == room && Pending() ==> room == 0 && Resting()
    {
      hide CoderValid, CrcValid, ExpandAll, Unfinished, Streaming;
    }

    /** The switch on mode and action; RunOk means go on. */
    method Begin(action: Action, avail_in: int) returns (ret: Code)
      requires Valid() && avail_in >= 0
      modifies this`mode, this`avail_in_expect
      ensures Valid() && (ret != RunOk ==> mode == old(mode)) && (old(mode) == Idle ==> ret == SequenceError)
      ensures old(Resting()) ==> Resting()
      ensures old(mode) == Running && action == Other ==> ret == ParamError
      ensures ret in {RunOk, SequenceError, ParamError} && (old(mode) == Running && action != Other ==> ret == RunOk)
      ensures old(mode) == Finishing && action == Finish && old(avail_in_expect) == avail_in ==> ret == RunOk
      ensures ret == RunOk ==> mode == match action case Run => Running case Flush => Flushing case Finish => Finishing case Other => Idle
      ensures ret == RunOk ==> mode != Idle && (mode != Running ==> avail_in_expect == avail_in)
    {
      hide Conserved, Streaming;
      if mode == Idle { return SequenceError; }
      if mode == Running {
        if action == Flush || action == Finish {
          avail_in_expect := avail_in;
          mode := if action == Flush then Flushing else Finishing;
        } else if action != Run {
          return ParamError;
        }
      } else if (mode == Flushing && action != Flush) || (mode == Finishing && action != Finish) || avail_in_expect != avail_in {
        return SequenceError;
      }
      return RunOk;
    }

    method SetBuffers(input: seq<Byte>, room: nat)
      requires Valid()
      modifies this`next_in, this`avail_out
      ensures Valid() && next_in == input && avail_out == room
    {
      hide *;
      ValidParts();
      next_in, avail_out := input, room;
      Rejoined();
    }

    /** The return code after handle_compress, and the step to the next mode when all is done. */
    method Conclude(action: Action, progress: bool) returns (ret: Code)
      requires Valid() && mode != Idle && Settled() && (mode != Running ==> avail_in_expect == |next_in|)
      requires mode == Finishing && !progress ==> Resting()
      requires mode == match action case Run => Running case Flush => Flushing case Finish => Finishing case Other => Idle
      modifies this`mode
      ensures Valid() && Resting()
      ensures ret == StreamEnd <==> mode == Idle
      ensures old(mode) == Running ==> if progress then ret == RunOk else ret == ParamError
      ensures ret == RunOk && next_in != [] ==> avail_out == 0 && !Complete()
      ensures (ret == StreamEnd || (ret == RunOk && action == Flush)) ==>
                next_in == [] && consumed == ExpandAll(finished) && delivered == Made()
      ensures ret == StreamEnd ==> F.IsStream(delivered, blockSize100k, rows, padding) && F.StandsAt(delivered, consumed, blockSize100k)
      ensures ret == RunOk ==> mode == Running
      ensures ret == FlushOk ==> action == Flush && mode == Flushing
      ensures ret == FinishOk ==> action == Finish && mode == Finishing
      ensures ret in {FlushOk, FinishOk} ==> avail_out == 0 && avail_in_expect == |next_in| && !Complete()
      ensures old(mode) == Finishing ==> ret in {StreamEnd, FinishOk, SequenceError} && (ret == SequenceError <==> !progress)
    {
      hide *;
      if mode == Running {
        RunRests();
        ret := if progress then RunOk else ParamError;
      } else if mode == Flushing {
        if avail_in_expect > 0 || !IsEmptyRL() || state_out_pos < |w.zbits| {
          NoRoom();
          ret := FlushOk;
        } else {
          AllFinished();
          mode := Running;
          Rejoined();
          Rests();
          ret := RunOk;
        }
      } else if !progress {
        ret := SequenceError;
      } else if avail_in_expect > 0 || !IsEmptyRL() || state_out_pos < |w.zbits| {
        NoRoom();
        ret := FinishOk;
      } else {
        AllFinished();
        mode := Idle;
        Rejoined();
        Rests();
        ret := StreamEnd;
      }
    }

    lemma NoRoom()
      requires Settled() && mode != Running && |next_in| == avail_in_expect && (avail_in_expect > 0 || !IsEmptyRL() || state_out_pos < |w.zbits|)
      ensures avail_out == 0 && Resting() && !Complete()
    {
    }

    lemma Rests()
      requires mode == Idle || state == Input
      ensures Resting()
    {
    }

    lemma RunRests()
      requires Settled() && mode == Running
      ensures Resting() && (next_in != [] ==> avail_out == 0 && !Complete())
    {
    }

    /** Once settled with nothing waiting, all input taken is in finished blocks and all output made is delivered; after a
        finish the stream is complete. */
    lemma AllFinished()
      requires Valid() && Settled() && mode in {Flushing, Finishing} && |next_in| == avail_in_expect <= 0 && IsEmptyRL() && state_out_pos >= |w.zbits|
      ensures next_in == [] && consumed == ExpandAll(finished) && delivered == Made()
      ensures mode == Finishing ==> F.IsStream(delivered, blockSize100k, rows, padding) && F.StandsAt(delivered, consumed, blockSize100k)
      ensures Conserved() && Streaming() && Staged(if mode == Flushing then Running else Idle) && (mode == Flushing ==> state == Input)
    {
      hide CoderValid, CrcValid, ExpandAll, F.IsStream, F.Blocks, F.CombinedCheck, F.SoFar;
      assert w.zbits[..|w.zbits|] == w.zbits;
      if mode == Finishing {
        assert F.IsStream(delivered, blockSize100k, rows, padding) && consumed == ExpandAll(F.Blocks(rows));
      }
    }

    lemma ValidParts()
      requires Valid()
      ensures Conserved() && Streaming() && Staged(mode)
    {
      hide Conserved, Streaming, Staged;
    }

    lemma Rejoined()
      requires Conserved() && Streaming() && Staged(mode)
      ensures Valid()
    {
      hide Conserved, Streaming, Staged;
    }
  }

  /** Closing a block: what it took moves from the current block to the finished ones, but for the pending run. */
  lemma CloseBlock(finished: seq<seq<Byte>>, runs: seq<Pair>, b: seq<Byte>, used: seq<bool>, ch: int, len: int)
    requires Coder(runs, b, used, ch, len)
    ensures AllRuns(runs) && ExpandAll(finished) + Taken(runs, ch, len) == ExpandAll(if |b| > 0 then finished + [b] else finished) + PendingRun(ch, len)
  {
    FinishBlock(finished, runs);
    assert b == Encode(runs);
    hide *;
    TakenIs(runs, ch, len);
    var x, y, z := ExpandAll(finished), Plain(runs), PendingRun(ch, len);
    assert x + (y + z) == (x + y) + z;
    if |b| == 0 { assert x + y == x; }
  }

  lemma TakenIs(runs: seq<Pair>, ch: int, len: int)
    requires AllRuns(runs)
    ensures Taken(runs, ch, len) == Plain(runs) + PendingRun(ch, len)
  {
  }

  /** A finished block expands to the runs stored in it. */
  lemma FinishBlock(finished: seq<seq<Byte>>, runs: seq<Pair>)
    requires AllRuns(runs) && Separate(runs)
    ensures ExpandAll(finished + [Encode(runs)]) == ExpandAll(finished) + Plain(runs)
    ensures Encode(runs) == [] ==> Plain(runs) == []
  {
    ExpandEncode(runs, 0);
    assert (finished + [Encode(runs)])[..|finished|] == finished;
  }
}
