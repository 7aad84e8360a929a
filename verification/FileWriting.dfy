/** BZ2_bzWriteOpen, BZ2_bzWrite and BZ2_bzWriteClose64: a file is written through a small buffer, call after call, and is a
    complete stream of everything written when it is closed. */
module FileWriting {
  import opened Common
  import opened BitStream
  import F = StreamFormat
  import C = Compressor
  import B = BufferToBuffer

  const BZ_MAX_UNUSED: nat := 5000

  datatype Code = Ok | ParamError

  method WriteOpen(blockSize100k: int, verbosity: int, workFactor: int) returns (ret: Code, bzf: BzFile?)
    ensures ret == ParamError <==> blockSize100k < 1 || blockSize100k > 9 || workFactor < 0 || workFactor > 250 || verbosity < 0 || verbosity > 4
    ensures ret == Ok <==> bzf != null
    ensures bzf != null ==> fresh(bzf) && fresh(bzf.strm) && fresh(bzf.strm.block) && fresh(bzf.strm.inUse) && fresh(bzf.strm.w) && bzf.Valid() && bzf.Text() == [] && bzf.file == [] && bzf.strm.blockSize100k == blockSize100k
  {
    if blockSize100k < 1 || blockSize100k > 9 || workFactor < 0 || workFactor > 250 || verbosity < 0 || verbosity > 4 { return ParamError, null; }
    bzf := new BzFile(blockSize100k, workFactor);
    ret := Ok;
  }

  class BzFile {
    const strm: C.EState
    var file: seq<Byte> // what was handed to the file

    /** Everything written so far. */
    ghost function Text(): seq<Byte>
      reads strm
    {
      strm.consumed
    }

    /** The file holds what the stream machine has delivered. */
    ghost predicate Valid()
      reads this, strm, strm.block, strm.inUse, strm.w
    {
      strm.Valid() && strm.Resting() && strm.mode == C.Running && file == strm.delivered
    }

    constructor (blockSize100k: int, workFactor: int)
      requires 1 <= blockSize100k <= 9
      ensures Valid() && Text() == [] && file == [] && strm.blockSize100k == blockSize100k && fresh(strm) && fresh(strm.block) && fresh(strm.inUse) && fresh(strm.w)
    {
      hide *;
      strm := new C.EState(blockSize100k, workFactor);
      file := [];
      new;
      Opened();
    }

    lemma Opened()
      requires strm.Valid() && strm.Resting() && strm.mode == C.Running && file == strm.delivered
      ensures Valid() && Text() == strm.consumed
    {
      hide C.EState.Valid, C.EState.Resting;
    }

    lemma Parts()
      requires Valid()
      ensures strm.Valid() && strm.Resting() && strm.mode == C.Running && file == strm.delivered && Text() == strm.consumed
    {
      hide C.EState.Valid, C.EState.Resting;
    }

    lemma Room()
      requires strm.Valid()
      ensures strm.Undelivered() >= 0 && BZ_MAX_UNUSED == 5000
    {
    }

    /** BZ2_bzWrite: takes all of buf, whatever it is, and never fails on an open file. */
    method Write(buf: seq<Byte>)
      requires Valid()
      modifies this, strm, strm.block, strm.inUse, strm.w
      ensures Valid() && Text() == old(Text()) + buf && old(file) <= file
    {
      hide *;
      Parts();
      if buf == [] { return; }
      var left := buf;
      ghost var before, given := strm.consumed, file;
      C.AdvancedNot(buf, before);
      while true
        invariant strm.Valid() && strm.Resting() && strm.mode == C.Running && file == strm.delivered && given <= file
        invariant left != [] && C.Advanced(buf, left, before, strm.consumed)
        decreases |left|, strm.Waiting(), strm.Undelivered()
      {
        Room();
        ghost var left1, consumed1 := left, strm.consumed;
        var ret, output;
        ret, left, output := strm.BzCompress(C.Run, left, BZ_MAX_UNUSED);
        C.AdvanceTwice(buf, left1, left, before, consumed1, strm.consumed);
        assert ret == C.RunOk; // any other code would be passed on
        file := file + output;
        if left == [] { break; }
      }
      C.TakenMore(buf, before, strm.consumed);
      Opened();
    }

    /** BZ2_bzWriteClose64: finishes the stream, or abandons it. */
    method WriteClose(abandon: bool)
      requires Valid()
      modifies this, strm, strm.block, strm.inUse, strm.w
      ensures old(file) <= file
      ensures if abandon then file == old(file) else F.StandsAt(file, old(Text()), strm.blockSize100k)
    {
      hide *;
      Parts();
      if abandon { return; }
      ghost var before, given := strm.consumed, file;
      var ret := C.FinishOk;
      while ret != C.StreamEnd
        invariant strm.Valid() && strm.Resting() && file == strm.delivered && given <= file && strm.consumed == before
        invariant if ret == C.StreamEnd then F.StandsAt(file, before, strm.blockSize100k)
                  else strm.mode == C.Running || (strm.mode == C.Finishing && strm.avail_in_expect == 0)
        decreases ret != C.StreamEnd, strm.Waiting(), strm.Undelivered()
      {
        Room();
        ghost var consumed1 := strm.consumed;
        var left, output;
        ret, left, output := strm.BzCompress(C.Finish, [], BZ_MAX_UNUSED);
        C.NothingTaken(left, consumed1, strm.consumed);
        assert ret == C.FinishOk || ret == C.StreamEnd; // any other code would be passed on
        file := file + output;
      }
    }
  }

  lemma {:induction false} JoinedMore(parts: seq<seq<Byte>>, i: nat)
    requires i < |parts|
    ensures Joined(parts[..i + 1]) == Joined(parts[..i]) + parts[i]
  {
    assert parts[..i + 1][1..] == parts[1..][..i];
    if i > 0 {
      JoinedMore(parts[1..], i - 1);
      assert parts[..i][1..] == parts[1..][..i - 1];
    }
  }

  /** Whatever is written, in whatever parts, comes back from the closed file. */
  method WrittenAndRead(parts: seq<seq<Byte>>, blockSize100k: int, workFactor: int, small: bool, room: nat) returns (text: seq<Byte>)
    requires 1 <= blockSize100k <= 9 && 0 <= workFactor <= 250 && |Joined(parts)| <= room
    ensures text == Joined(parts)
  {
    hide F.StandsFor, F.StandsAt, BzFile.Valid;
    var ret, bzf := WriteOpen(blockSize100k, 0, workFactor);
    var i := 0;
    while i < |parts|
      invariant 0 <= i <= |parts| && bzf.Valid() && bzf.Text() == Joined(parts[..i]) && bzf.strm.blockSize100k == blockSize100k
    {
      bzf.Write(parts[i]);
      JoinedMore(parts, i);
      i := i + 1;
    }
    assert parts[..i] == parts;
    bzf.WriteClose(false);
    F.AtSomeLevel(bzf.file, Joined(parts), blockSize100k);
    var code;
    code, text := B.BuffToBuffDecompress(bzf.file, room, if small then 1 else 0, 0, Joined(parts));
  }
}
