/** The tables in front of a block's data: which bytes are in use, the selectors, and the code lengths, as sent by
    sendMTFValues and as read by BZ2_decompress. */
module BlockHeader {
  import opened Common
  import opened BitStream
  import opened MtfTable

  /** Overrun: the program would store beyond the end of one of its tables; what it does from there on is open. */
  datatype Status = Good | DataError | NoInput | Overrun

  lemma Assoc(a: seq<bool>, b: seq<bool>, c: seq<bool>)
    ensures a + (b + c) == a + b + c
  {
  }

  method PutBit(w: BitWriter, b: bool)
    requires w.Valid()
    modifies w
    ensures w.Valid() && w.Bits() == old(w.Bits()) + [b]
  {
    assert BitsOf(1, 1) == [true] && BitsOf(0, 1) == [false];
    if b { w.W(1, 1); } else { w.W(1, 0); }
  }

  /** GET_BIT. */
  method GetBit(reader: BitReader) returns (ok: bool, b: bool)
    requires reader.Valid()
    modifies reader
    ensures reader.Valid() && (ok ==> old(reader.Bits()) == [b] + reader.Bits()) && (!ok ==> old(reader.Bits()) == [])
  {
    ghost var bits := reader.Bits();
    hide BitReader.Bits, LowBits;
    var v := reader.Get(1);
    if v.None? { return false, false; }
    assert bits[..1] == [bits[0]] && [bits[0]][..0] == [];
    return true, v.value == 1;
  }

  /** Taking a field off a stream that is known to start with it. */
  lemma TakeNumber(bits: seq<bool>, v: nat, n: nat, after: seq<bool>, got: Option<nat>, left: seq<bool>)
    requires v < Pow2(n) && bits == BitsOf(v, n) + after
    requires (got.None? <==> |bits| < n) && (got.Some? ==> got.value == Value(bits[..n]) && left == bits[n..])
    ensures got == Some(v) && left == after
  {
    ValueOfBits(v, n);
    assert bits[..n] == BitsOf(v, n);
  }

  lemma Fits(bits: seq<bool>, n: nat)
    ensures |bits| >= n ==> Value(bits[..n]) < Pow2(n)
  {
    if |bits| >= n { ValueBound(bits[..n]); }
  }

  // ---- the bytes in use ----

  function Row(inUse: seq<bool>, i: nat): (row: seq<bool>)
    requires |inUse| == 256 && i < 16
    ensures |row| == 16 && forall j :: 0 <= j < 16 ==> row[j] == inUse[16 * i + j]
  {
    inUse[16 * i..16 * i + 16]
  }

  function FlagBits(inUse: seq<bool>, i: nat): seq<bool>
    requires |inUse| == 256 && i <= 16
    decreases 16 - i
  {
    if i == 16 then [] else [true in Row(inUse, i)] + FlagBits(inUse, i + 1)
  }

  function RowBits(inUse: seq<bool>, i: nat): seq<bool>
    requires |inUse| == 256 && i <= 16
    decreases 16 - i
  {
    if i == 16 then [] else (if true in Row(inUse, i) then Row(inUse, i) else []) + RowBits(inUse, i + 1)
  }

  /** Sixteen flags, then sixteen bits for every sixteen values of which some is used. */
  function MappingBits(inUse: seq<bool>): seq<bool>
    requires |inUse| == 256
  {
    FlagBits(inUse, 0) + RowBits(inUse, 0)
  }

  method SendMapping(w: BitWriter, inUse: array<bool>)
    requires w.Valid() && inUse.Length == 256
    modifies w
    ensures w.Valid() && w.Bits() == old(w.Bits()) + MappingBits(inUse[..])
  {
    hide BitWriter.Bits, Aligned, RowBits, FlagBits;
    var inUse16 := FindRows(inUse);
    SendFlags(w, inUse, inUse16);
    SendRows(w, inUse, inUse16);
    Assoc(old(w.Bits()), FlagBits(inUse[..], 0), RowBits(inUse[..], 0));
  }

  method SendFlags(w: BitWriter, inUse: array<bool>, inUse16: array<bool>)
    requires w.Valid() && inUse.Length == 256 && inUse16.Length == 16 && forall i :: 0 <= i < 16 ==> inUse16[i] == (true in Row(inUse[..], i))
    modifies w
    ensures w.Valid() && w.Bits() == old(w.Bits()) + FlagBits(inUse[..], 0)
  {
    hide BitWriter.Bits, Aligned, Row;
    ghost var used := inUse[..];
    ghost var all := w.Bits() + FlagBits(used, 0);
    var i := 0;
    while i < 16
      invariant 0 <= i <= 16 && w.Valid() && w.Bits() + FlagBits(used, i) == all
    {
      Assoc(w.Bits(), [inUse16[i]], FlagBits(used, i + 1));
      PutBit(w, inUse16[i]);
      i := i + 1;
    }
    assert w.Bits() + [] == w.Bits();
  }

  method FindRows(inUse: array<bool>) returns (inUse16: array<bool>)
    requires inUse.Length == 256
    ensures fresh(inUse16) && inUse16.Length == 16 && forall i :: 0 <= i < 16 ==> inUse16[i] == (true in Row(inUse[..], i))
  {
    inUse16 := new bool[16](_ => false);
    ghost var used := inUse[..];
    var i := 0;
    while i < 16
      invariant 0 <= i <= 16 && forall k :: 0 <= k < i ==> inUse16[k] == (true in Row(used, k))
    {
      inUse16[i] := false;
      var j := 0;
      assert Row(used, i)[..0] == [];
      while j < 16
        invariant 0 <= j <= 16 && (forall k :: 0 <= k < i ==> inUse16[k] == (true in Row(used, k))) && inUse16[i] == (true in Row(used, i)[..j])
        modifies inUse16
      {
        assert Row(used, i)[..j + 1] == Row(used, i)[..j] + [inUse[16 * i + j]];
        if inUse[i * 16 + j] { inUse16[i] := true; }
        j := j + 1;
      }
      assert Row(used, i)[..16] == Row(used, i);
      i := i + 1;
    }
  }

  method SendRows(w: BitWriter, inUse: array<bool>, inUse16: array<bool>)
    requires w.Valid() && inUse.Length == 256 && inUse16.Length == 16 && forall i :: 0 <= i < 16 ==> inUse16[i] == (true in Row(inUse[..], i))
    modifies w
    ensures w.Valid() && w.Bits() == old(w.Bits()) + RowBits(inUse[..], 0)
  {
    hide BitWriter.Bits, Aligned;
    ghost var used := inUse[..];
    ghost var all := w.Bits() + RowBits(used, 0);
    var i := 0;
    while i < 16
      invariant 0 <= i <= 16 && w.Valid() && w.Bits() + RowBits(used, i) == all
    {
      if inUse16[i] {
        Assoc(w.Bits(), Row(used, i), RowBits(used, i + 1));
        SendRow(w, inUse, i);
      } else {
        assert [] + RowBits(used, i + 1) == RowBits(used, i + 1);
      }
      i := i + 1;
    }
    assert w.Bits() + [] == w.Bits();
  }

  method SendRow(w: BitWriter, inUse: array<bool>, i: nat)
    requires w.Valid() && inUse.Length == 256 && i < 16
    modifies w
    ensures w.Valid() && w.Bits() == old(w.Bits()) + Row(inUse[..], i)
  {
    hide BitWriter.Bits, Aligned;
    ghost var was, row := w.Bits(), Row(inUse[..], i);
    assert was + row[..0] == was;
    var j := 0;
    while j < 16
      invariant 0 <= j <= 16 && w.Valid() && w.Bits() == was + row[..j]
    {
      PutBit(w, inUse[i * 16 + j]);
      assert row[..j + 1] == row[..j] + [inUse[16 * i + j]];
      Assoc(was, row[..j], [inUse[16 * i + j]]);
      j := j + 1;
    }
    assert row[..16] == row;
  }

  /** Taking one bit off a stream that is known to start with b. */
  lemma TakeBit(bits: seq<bool>, b: bool, more: seq<bool>, rest: seq<bool>, ok: bool, got: bool, left: seq<bool>)
    requires bits == [b] + more + rest && (ok ==> bits == [got] + left) && (!ok ==> bits == [])
    ensures ok && got == b && left == more + rest
  {
    assert bits[0] == b && bits[1..] == more + rest;
    assert bits[1..] == left;
  }

  /** Reads the mapping table: what SendMapping wrote for x gives x back, and leaves the rest. */
  method ReceiveMapping(reader: BitReader, inUse: array<bool>, ghost x: seq<bool>, ghost rest: seq<bool>) returns (r: Status)
    requires reader.Valid() && inUse.Length == 256 && |x| == 256
    modifies reader, inUse
    ensures reader.Valid() && (old(reader.Bits()) == MappingBits(x) + rest ==> r == Good && inUse[..] == x && reader.Bits() == rest)
  {
    ghost var expected := reader.Bits() == MappingBits(x) + rest;
    hide BitReader.Bits, LowBits, RowBits, FlagBits;
    Assoc(FlagBits(x, 0), RowBits(x, 0), rest);
    var inUse16 := new bool[16](_ => false);
    var ok := ReceiveFlags(reader, inUse16, x, RowBits(x, 0) + rest, expected);
    if !ok { return NoInput; }
    ClearUse(inUse);
    r := ReceiveRows(reader, inUse, inUse16, x, rest, expected);
  }

  method ClearUse(inUse: array<bool>)
    requires inUse.Length == 256
    modifies inUse
    ensures forall k :: 0 <= k < 256 ==> !inUse[k]
  {
    var i := 0;
    while i < 256
      invariant 0 <= i <= 256 && forall k :: 0 <= k < i ==> !inUse[k]
    {
      inUse[i] := false;
      i := i + 1;
    }
  }

  method ReceiveFlags(reader: BitReader, inUse16: array<bool>, ghost x: seq<bool>, ghost after: seq<bool>, ghost expected: bool) returns (ok: bool)
    requires reader.Valid() && inUse16.Length == 16 && |x| == 256 && (expected ==> reader.Bits() == FlagBits(x, 0) + after)
    modifies reader, inUse16
    ensures reader.Valid() && (expected ==> ok && reader.Bits() == after && forall k :: 0 <= k < 16 ==> inUse16[k] == (true in Row(x, k)))
  {
    hide BitReader.Bits, LowBits, Row;
    var i := 0;
    while i < 16
      invariant 0 <= i <= 16 && reader.Valid()
      invariant expected ==> reader.Bits() == FlagBits(x, i) + after && forall k :: 0 <= k < i ==> inUse16[k] == (true in Row(x, k))
    {
      ghost var was := reader.Bits();
      var b;
      ok, b := GetBit(reader);
      if expected { TakeBit(was, true in Row(x, i), FlagBits(x, i + 1), after, ok, b, reader.Bits()); }
      if !ok { return; }
      inUse16[i] := b;
      i := i + 1;
    }
    return true;
  }

  /** Rows before i are those of x, the others are still unused. */
  ghost predicate RowsRead(inUse: seq<bool>, x: seq<bool>, i: int, j: int) {
    |inUse| == |x| == 256 && forall k :: 0 <= k < 256 ==> inUse[k] == (k < 16 * i + j && x[k])
  }

  method ReceiveRows(reader: BitReader, inUse: array<bool>, inUse16: array<bool>, ghost x: seq<bool>, ghost rest: seq<bool>, ghost expected: bool)
    returns (r: Status)
    requires reader.Valid() && inUse.Length == 256 && |x| == 256 && inUse16.Length == 16 && inUse16 != inUse && forall k :: 0 <= k < 256 ==> !inUse[k]
    requires expected ==> reader.Bits() == RowBits(x, 0) + rest && forall k :: 0 <= k < 16 ==> inUse16[k] == (true in Row(x, k))
    modifies reader, inUse
    ensures reader.Valid() && (expected ==> r == Good && inUse[..] == x && reader.Bits() == rest)
  {
    hide BitReader.Bits, LowBits;
    var i := 0;
    while i < 16
      invariant 0 <= i <= 16 && reader.Valid()
      invariant expected ==> reader.Bits() == RowBits(x, i) + rest && RowsRead(inUse[..], x, i, 0)
    {
      if inUse16[i] {
        ghost var after := RowBits(x, i + 1) + rest;
        if expected { Assoc(Row(x, i), RowBits(x, i + 1), rest); }
        var ok := ReceiveRow(reader, inUse, i, x, after, expected);
        if !ok { return NoInput; }
      } else if expected {
        SkipRow(inUse[..], x, i);
        assert [] + RowBits(x, i + 1) == RowBits(x, i + 1);
      }
      i := i + 1;
    }
    assert expected ==> reader.Bits() == rest;
    return Good;
  }

  lemma SkipRow(inUse: seq<bool>, x: seq<bool>, i: nat)
    requires RowsRead(inUse, x, i, 0) && i < 16 && true !in Row(x, i)
    ensures RowsRead(inUse, x, i + 1, 0)
  {
    forall k | 16 * i <= k < 16 * (i + 1) ensures !x[k] { assert Row(x, i)[k - 16 * i] == x[k]; }
  }

  method ReceiveRow(reader: BitReader, inUse: array<bool>, i: nat, ghost x: seq<bool>, ghost after: seq<bool>, ghost expected: bool) returns (ok: bool)
    requires reader.Valid() && inUse.Length == 256 && |x| == 256 && i < 16
    requires expected ==> reader.Bits() == Row(x, i) + after && RowsRead(inUse[..], x, i, 0)
    modifies reader, inUse
    ensures reader.Valid() && (expected ==> ok && reader.Bits() == after && RowsRead(inUse[..], x, i + 1, 0))
  {
    hide BitReader.Bits, LowBits;
    ghost var row := Row(x, i);
    assert row[0..] == row;
    var j := 0;
    while j < 16
      invariant 0 <= j <= 16 && reader.Valid()
      invariant expected ==> reader.Bits() == row[j..] + after && RowsRead(inUse[..], x, i, j)
    {
      ghost var was := reader.Bits();
      var b;
      ok, b := GetBit(reader);
      if expected {
        assert row[j..] == [row[j]] + row[j + 1..];
        TakeBit(was, row[j], row[j + 1..], after, ok, b, reader.Bits());
      }
      if !ok { return; }
      if b { inUse[i * 16 + j] := true; }
      j := j + 1;
    }
    assert expected ==> row[16..] + after == after;
    return true;
  }
}
