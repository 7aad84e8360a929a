/** BZ2_bzBuffToBuffCompress and BZ2_bzBuffToBuffDecompress: a whole buffer through the compressor, and a whole stream
    through the decompressor. */
module BufferToBuffer {
  import opened Common
  import opened StreamFormat
  import opened RunLength
  import C = Compressor
  import W = BitStream
  import D = StreamDecoding

  /** Failed: the code of the call inside is passed on. */
  datatype Code = Ok | ParamError | OutbuffFull | UnexpectedEof | Failed

  method BuffToBuffCompress(source: seq<Byte>, destLen: nat, blockSize100k: int, verbosity: int, workFactor: int) returns (ret: Code, dest: seq<Byte>)
    ensures ret == Ok ==> StandsAt(dest, source, blockSize100k) && |dest| <= destLen
    ensures ret == ParamError <==> blockSize100k < 1 || blockSize100k > 9 || verbosity < 0 || verbosity > 4 || workFactor < 0 || workFactor > 250
    ensures ret != ParamError ==> ret in {Ok, OutbuffFull, Failed} && (ret == Failed <==> source == [] && destLen == 0)
    ensures ret == OutbuffFull ==> |dest| == destLen
  {
    dest := [];
    if blockSize100k < 1 || blockSize100k > 9 || verbosity < 0 || verbosity > 4 || workFactor < 0 || workFactor > 250 { return ParamError, dest; }
    hide *;
    var strm := new C.EState(blockSize100k, workFactor);
    var code, left;
    code, left, dest := strm.BzCompress(C.Finish, source, destLen);
    if code == C.FinishOk { return OutbuffFull, dest; }
    if code != C.StreamEnd { return Failed, dest; }
    C.TakenAll(source, strm.consumed);
    assert strm.delivered == dest;
    ret := Ok;
  }

  /** text: what the source stands for, if it is a stream. */
  method BuffToBuffDecompress(source: seq<Byte>, destLen: nat, small: int, verbosity: int, ghost text: seq<Byte>) returns (ret: Code, dest: seq<Byte>)
    ensures |dest| <= destLen
    ensures ret == ParamError <==> (small != 0 && small != 1) || verbosity < 0 || verbosity > 4
    ensures ret != ParamError && StandsFor(source, text) ==> if |text| <= destLen then ret == Ok && dest == text else ret == OutbuffFull
  {
    dest := [];
    if (small != 0 && small != 1) || verbosity < 0 || verbosity > 4 { return ParamError, dest; }
    ghost var genuine := StandsFor(source, text);
    ghost var x := D.Stream(1, [], 0);
    if genuine { x := Sent(source, text); }
    hide StandsFor, StandsAt, IsStream;
    W.JoinedOne(source);
    var strm := new D.Decoder([source], small == 1, genuine, x);
    var code;
    code, dest := strm.BzDecompress(destLen);
    assert dest == strm.delivered;
    if code == D.Code.Ok || code == D.NeedInput {
      return if |dest| < destLen then UnexpectedEof else OutbuffFull, dest;
    }
    if code != D.StreamEnd { return Failed, dest; }
    ret := Ok;
  }

  lemma Sent(z: seq<Byte>, text: seq<Byte>) returns (x: D.Stream)
    requires StandsFor(z, text)
    ensures IsStream(z, x.level, x.rows, x.padding) && x.Text() == text
  {
    var level :| StandsAt(z, text, level);
    var rows, padding :| IsStream(z, level, rows, padding) && text == ExpandAll(Blocks(rows));
    x := D.Stream(level, rows, padding);
  }

  /** Whatever was compressed comes back, with either form of the output, whenever the room given is enough for it. */
  method RoundTrip(source: seq<Byte>, destLen: nat, blockSize100k: int, verbosity: int, workFactor: int, small: bool) returns (compressed: bool, text: seq<Byte>)
    ensures compressed ==> text == source
  {
    hide StandsFor, StandsAt;
    text := [];
    var ret, dest := BuffToBuffCompress(source, destLen, blockSize100k, verbosity, workFactor);
    compressed := ret == Ok;
    if compressed {
      AtSomeLevel(dest, source, blockSize100k);
      ret, text := BuffToBuffDecompress(dest, |source|, if small then 1 else 0, verbosity, source);
    }
  }
}
