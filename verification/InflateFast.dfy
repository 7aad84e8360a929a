/** inflate_fast of inffast.c: decoding without checks for input and output space. The locals of the C function that shadow
    the stream's and the state's fields are those fields here. */
module InflateFast {
  import opened Common
  import opened Lz77
  import opened InflateCodes
  import opened DeflateCodes
  import opened InflateTables

  datatype Mode = Len | Type | Bad

  const IN_STEP := 6
  const OUT_STEP := 258

  /** No more bits than this are ever held, so 32 of them are enough. */
  const MAX_BITS := 30

  class Inflater {
    const input: seq<Byte>
    const output: array<byte>
    /** The sliding window of output from before this call to inflate, circular once it is full. */
    const window: array<byte>
    const whave: nat
    const wnext: nat
    const codes: Tables
    var nextIn: nat
    var availIn: nat
    var nextOut: nat
    var availOut: nat
    var hold: nat
    var bits: nat
    var mode: Mode
    var beg: nat
    /** The bits from the call on, how many of them are used up, and how they lie in the input. */
    ghost var s: seq<bool>
    ghost var k: nat
    ghost var skew: int
    ghost var first: nat
    ghost var stop: nat

    constructor (input: seq<Byte>, output: array<byte>, window: array<byte>, whave: nat, wnext: nat, codes: Tables)
      requires output != window
      ensures this.input == input && this.output == output && this.window == window && this.whave == whave && this.wnext == wnext && this.codes == codes
      ensures nextIn == 0 && availIn == |input| && nextOut == 0 && availOut == output.Length && hold == 0 && bits == 0 && mode == Len
    {
      this.input, this.output, this.window, this.whave, this.wnext, this.codes := input, output, window, whave, wnext, codes;
      nextIn, availIn, nextOut, availOut, hold, bits, mode, beg := 0, |input|, 0, output.Length, 0, 0, Len, 0;
    }

    // ---- history and copying ----

    /** As updatewindow leaves it: filled from the start, and circular from then on. */
    ghost predicate WindowOk() {
      output != window && wnext <= whave <= window.Length && (if whave < window.Length then wnext == whave else wnext < whave || whave == 0)
    }

    /** The output from before this call to inflate that is still at hand, oldest first. */
    ghost function History(): (h: seq<byte>)
      requires WindowOk()
      reads window
      ensures |h| == whave
    {
      if whave < window.Length then window[..whave] else window[wnext..] + window[..wnext]
    }

    ghost predicate Places()
      reads `beg, `nextOut
    {
      WindowOk() && beg <= nextOut <= output.Length
    }

    /** All output at hand, oldest first. */
    ghost function Past(): (h: seq<byte>)
      requires Places()
      reads window, output, `beg, `nextOut
      ensures |h| == whave + (nextOut - beg)
    {
      History() + output[beg..nextOut]
    }

    /** Where the window has the byte d before the oldest output of this call. */
    ghost function Cell(d: int): int {
      if d <= wnext then wnext - d else window.Length + wnext - d
    }

    lemma BackInWindow(d: nat)
      requires WindowOk() && 1 <= d <= whave
      ensures 0 <= Cell(d) < window.Length && window[Cell(d)] == History()[whave - d]
    {
    }

    /** The next n bytes from here on are those dist back. */
    ghost predicate Leads(inWindow: bool, from: int, dist: nat, n: nat)
      reads `beg, `nextOut
    {
      1 <= dist <= whave + (nextOut - beg)
      && (n > 0 ==> if inWindow then Ahead(from, dist - (nextOut - beg), n) else beg <= from && from + dist == nextOut)
    }

    /** The n bytes from d back on lie in one piece of the window. */
    ghost predicate Ahead(from: int, d: int, n: nat) {
      n <= d <= whave && from == Cell(d) && (d <= wnext || n <= d - wnext)
    }

    /** *out++ = *from++. */
    method CopyByte(inWindow: bool, from: nat, ghost dist: nat, ghost n: nat)
      requires Places() && n > 0 && Leads(inWindow, from, dist, n) && nextOut < output.Length
      modifies output, `nextOut
      ensures Places() && nextOut == old(nextOut) + 1 && Leads(inWindow, from + 1, dist, n - 1) && Past() == Copied(old(Past()), dist, 1)
      ensures forall i :: 0 <= i < output.Length && i != old(nextOut) ==> output[i] == old(output[i])
    {
      SourceIs(inWindow, from, dist, n);
      ghost var h := Past();
      CopiedOne(h, dist);
      hide Past, Copied, WindowOk, History;
      var b := if inWindow then window[from] else output[from];
      PutLiteral(b);
    }

    /** The byte to copy is the one dist back. */
    lemma SourceIs(inWindow: bool, from: nat, dist: nat, n: nat)
      requires Places() && n > 0 && Leads(inWindow, from, dist, n)
      ensures 1 <= dist <= |Past()|
      ensures if inWindow then from < window.Length && window[from] == Past()[|Past()| - dist]
              else from < output.Length && output[from] == Past()[|Past()| - dist]
    {
      if inWindow { BackInWindow(dist - (nextOut - beg)); }
      hide History;
    }

    lemma CopiedOne(h: seq<byte>, dist: nat)
      requires 1 <= dist <= |h|
      ensures Copied(h, dist, 1) == h + [h[|h| - dist]]
    {
      assert Copied(h, dist, 0) == h;
    }

    /** do *out++ = *from++ while (--n), out of the window. */
    method CopyRun(from0: nat, n0: nat, ghost dist: nat)
      requires Places() && n0 > 0 && Leads(true, from0, dist, n0) && nextOut + n0 <= output.Length
      modifies output, `nextOut
      ensures Places() && nextOut == old(nextOut) + n0 && Past() == Copied(old(Past()), dist, n0)
      ensures forall i :: 0 <= i < output.Length && !(old(nextOut) <= i < nextOut) ==> output[i] == old(output[i])
    {
      hide Past, Copied, Leads;
      var from, n := from0, n0;
      ghost var h := Past();
      LeadsFacts(true, from, dist, n);
      CopiedNone(h, dist);
      while true
        invariant Places() && 0 < n <= n0 && nextOut == old(nextOut) + (n0 - n) && Leads(true, from, dist, n) && Past() == Copied(h, dist, n0 - n)
        invariant forall i :: 0 <= i < output.Length && !(old(nextOut) <= i < nextOut) ==> output[i] == old(output[i])
        decreases n
      {
        CopyByte(true, from, dist, n);
        CopyInParts(h, dist, n0 - n, 1);
        from, n := from + 1, n - 1;
        if n == 0 { break; }
      }
    }

    lemma CopiedNone(h: seq<byte>, dist: nat)
      requires 1 <= dist <= |h|
      ensures Copied(h, dist, 0) == h
    {
    }

    lemma LeadsFacts(inWindow: bool, from: int, dist: nat, n: nat)
      requires Places() && Leads(inWindow, from, dist, n)
      ensures 1 <= dist <= |Past()|
    {
    }

    /** The last copying loop: three bytes at a time, then what is left of them. */
    method CopyRest(inWindow: bool, from0: nat, len0: nat, ghost dist: nat)
      requires Places() && Leads(inWindow, from0, dist, len0) && nextOut + len0 <= output.Length
      modifies output, `nextOut
      ensures Places() && nextOut == old(nextOut) + len0 && Past() == Copied(old(Past()), dist, len0)
      ensures forall i :: 0 <= i < output.Length && !(old(nextOut) <= i < nextOut) ==> output[i] == old(output[i])
    {
      hide Past, Copied, Leads;
      var from, len := from0, len0;
      ghost var h := Past();
      LeadsFacts(inWindow, from, dist, len);
      CopiedNone(h, dist);
      while len > 2
        invariant Places() && 0 <= len <= len0 && nextOut == old(nextOut) + (len0 - len) && Leads(inWindow, from, dist, len) && Past() == Copied(h, dist, len0 - len)
        invariant forall i :: 0 <= i < output.Length && !(old(nextOut) <= i < nextOut) ==> output[i] == old(output[i])
      {
        CopyByte(inWindow, from, dist, len);
        CopyInParts(h, dist, len0 - len, 1);
        CopyByte(inWindow, from + 1, dist, len - 1);
        CopyInParts(h, dist, len0 - len + 1, 1);
        CopyByte(inWindow, from + 2, dist, len - 2);
        CopyInParts(h, dist, len0 - len + 2, 1);
        from, len := from + 3, len - 3;
      }
      if len > 0 {
        CopyByte(inWindow, from, dist, len);
        CopyInParts(h, dist, len0 - len, 1);
        if len > 1 {
          CopyByte(inWindow, from + 1, dist, len - 1);
          CopyInParts(h, dist, len0 - len + 1, 1);
        }
      }
    }

    /** Starts a match in one piece of the window that reaches to the oldest output of this call, which comes next. */
    method FromPiece(from0: nat, op: nat, len0: nat, dist: nat) returns (inWindow: bool, from: nat, len: nat)
      requires Places() && op > 0 && Ahead(from0, op, op) && dist == op + (nextOut - beg) && nextOut + len0 <= output.Length
      modifies output, `nextOut
      ensures Places() && len <= len0 && nextOut == old(nextOut) + (len0 - len) && Leads(inWindow, from, dist, len)
      ensures Past() == Copied(old(Past()), dist, len0 - len)
      ensures forall i :: 0 <= i < output.Length && !(old(nextOut) <= i < nextOut) ==> output[i] == old(output[i])
    {
      hide Past, Copied;
      CopiedNone(Past(), dist);
      inWindow, from, len := true, from0, len0;
      if op < len {
        len := len - op;
        CopyRun(from, op, dist);
        inWindow, from := false, nextOut - dist;
      }
    }

    /** Starts a match that begins in the older part of the window, at its end, and may go on at the window's start. */
    method FromEnd(op0: nat, len0: nat, dist: nat) returns (inWindow: bool, from: nat, len: nat)
      requires Places() && 0 < wnext < op0 <= whave && dist == op0 + (nextOut - beg) && nextOut + len0 <= output.Length
      modifies output, `nextOut
      ensures Places() && len <= len0 && nextOut == old(nextOut) + (len0 - len) && Leads(inWindow, from, dist, len)
      ensures Past() == Copied(old(Past()), dist, len0 - len)
      ensures forall i :: 0 <= i < output.Length && !(old(nextOut) <= i < nextOut) ==> output[i] == old(output[i])
    {
      hide Past, Copied;
      ghost var h := Past();
      CopiedNone(h, dist);
      inWindow, len := true, len0;
      from := window.Length + wnext - op0;
      var op := op0 - wnext;
      if op < len {
        len := len - op;
        CopyRun(from, op, dist);
        from := 0;
        if wnext < len {
          op := wnext;
          len := len - op;
          CopyRun(from, op, dist);
          CopyInParts(h, dist, op0 - wnext, wnext);
          inWindow, from := false, nextOut - dist;
        }
      }
    }

    /** A match: from the window, round its end if need be, and from the output of this call. */
    method CopyMatch(len0: nat, dist: nat)
      requires Places() && 3 <= len0 && 1 <= dist <= whave + (nextOut - beg) && nextOut + len0 <= output.Length
      modifies output, `nextOut
      ensures Places() && nextOut == old(nextOut) + len0 && Past() == Copied(old(Past()), dist, len0)
      ensures forall i :: 0 <= i < output.Length && !(old(nextOut) <= i < nextOut) ==> output[i] == old(output[i])
    {
      hide Past, Copied;
      ghost var h := Past();
      var op := nextOut - beg;
      if dist > op {
        op := dist - op;
        var inWindow, from, len;
        if wnext == 0 {
          inWindow, from, len := FromPiece(window.Length - op, op, len0, dist);
        } else if wnext < op {
          inWindow, from, len := FromEnd(op, len0, dist);
        } else {
          inWindow, from, len := FromPiece(wnext - op, op, len0, dist);
        }
        CopyRest(inWindow, from, len, dist);
        CopyInParts(h, dist, len0 - len, len);
      } else {
        CopyRest(false, nextOut - dist, len0, dist);
      }
    }

    // ---- the bit buffer ----

    /** What is left of the input, as bits. */
    ghost function Rest(): seq<bool>
      requires nextIn + availIn <= |input|
      reads `nextIn, `availIn, `hold, `bits
    {
      BitsOf(hold, bits) + Stream(input[nextIn..nextIn + availIn])
    }

    /** hold has the next bits of the stream, and the input follows them. */
    ghost predicate Feeding()
      reads `nextIn, `hold, `bits, `s, `k, `skew, `first, `stop
    {
      Rows(s, input, skew, first, stop) && first <= nextIn <= stop && k + bits == skew + 8 * nextIn && hold == Number(s[k..k + bits])
    }

    /** hold += *in++ << bits; bits += 8. */
    method PullByte()
      requires Feeding() && nextIn < stop && bits <= 22
      modifies `nextIn, `hold, `bits
      ensures Feeding() && nextIn == old(nextIn) + 1 && bits == old(bits) + 8 <= MAX_BITS
    {
      hide Number, Rows, BitsOf, Pow2;
      RowAt(s, input, skew, first, stop, nextIn);
      Pulled(s, k, bits, input[nextIn]);
      hold := hold + input[nextIn] * Pow2(bits);
      nextIn, bits := nextIn + 1, bits + 8;
    }

    /** Two more bytes if fewer than 15 bits are held. */
    method Pull15()
      requires Feeding() && bits <= MAX_BITS && (bits < 15 ==> nextIn + 2 <= stop)
      modifies `nextIn, `hold, `bits
      ensures Feeding() && 15 <= bits <= MAX_BITS && (if old(bits) < 15 then bits == old(bits) + 16 else bits == old(bits) && nextIn == old(nextIn))
    {
      hide *;
      if bits < 15 {
        PullByte();
        PullByte();
      }
    }

    /** hold >>= n; bits -= n. */
    method Drop(n: nat)
      requires Feeding() && n <= bits
      modifies `hold, `bits, `k
      ensures Feeding() && bits == old(bits) - n && k == old(k) + n
    {
      hide Number, Rows, Pow2;
      RowsLength(s, input, skew, first, stop);
      MaskAndShift(s, k, n, bits);
      hold, bits, k := hold / Pow2(n), bits - n, k + n;
    }

    /** The low n bits of hold. */
    method Low(n: nat) returns (v: nat)
      requires Feeding() && n <= bits
      ensures k + n <= |s| && v == Number(s[k..k + n])
    {
      hide Number, Rows, Pow2;
      RowsLength(s, input, skew, first, stop);
      MaskAndShift(s, k, n, bits);
      v := hold % Pow2(n);
    }

    /** One level of a table. */
    method TakeEntry(t: seq<Code>, base: nat, n: nat, ghost budget: nat) returns (here: Code)
      requires Feeding() && Table(t, base, n, budget) && budget <= bits && k + budget <= |s|
      modifies `hold, `bits, `k
      ensures Feeding() && here.bits <= budget && k == old(k) + here.bits && bits == old(bits) - here.bits
      ensures here.Link() ==> 1 <= here.bits && Table(t, here.val, here.op, budget - here.bits)
                              && Walk(t, base, n, budget, s, old(k)) == Walk(t, here.val, here.op, budget - here.bits, s, k)
      ensures !here.Link() ==> Walk(t, base, n, budget, s, old(k)) == (here, k)
    {
      hide Feeding, Number, Rows, Walk, Table, Entry, Code.Link;
      WalkStep(t, base, n, budget, s, k);
      var i := Low(n);
      here := t[base + i];
      Drop(here.bits);
    }

    /** Through the levels of a table to an entry that is no link. */
    method LookUp(t: seq<Code>, n0: nat) returns (here: Code)
      requires Feeding() && Table(t, 0, n0, 15) && 15 <= bits
      modifies `hold, `bits, `k
      ensures Feeding() && old(k) + 15 <= |s| && (here, k) == Walk(t, 0, n0, 15, s, old(k)) && bits + k == old(bits + k)
    {
      hide Feeding, Number, Rows, Walk, Table, Entry, Code.Link;
      ghost var budget: nat := 15;
      Level();
      var base, n := 0, n0;
      while true
        invariant Feeding() && k + bits == old(k + bits) && Table(t, base, n, budget) && budget <= bits && k + budget <= |s|
        invariant Walk(t, 0, n0, 15, s, old(k)) == Walk(t, base, n, budget, s, k)
        decreases budget
      {
        here := TakeEntry(t, base, n, budget);
        if !here.Link() { break; }
        budget := budget - here.bits;
        base, n := here.val, here.op;
      }
    }

    lemma Level()
      requires Feeding()
      ensures k + bits == skew + 8 * nextIn && first <= nextIn <= stop && |s| == skew + 8 * stop && stop <= |input|
    {
    }

    // ---- one turn ----

    /** *out++ = b. */
    method PutLiteral(b: byte)
      requires Places() && nextOut < output.Length
      modifies output, `nextOut
      ensures Places() && nextOut == old(nextOut) + 1 && Past() == old(Past()) + [b]
      ensures forall i :: 0 <= i < output.Length && i != old(nextOut) ==> output[i] == old(output[i])
    {
      output[nextOut] := b;
      nextOut := nextOut + 1;
      assert Past() == old(Past()) + [b];
    }

    /** A length: its base and its extra bits. */
    method TakeLength(here: Code) returns (len: nat)
      requires Feeding() && bits <= MAX_BITS && here.LengthOk() && here.Base() && (bits < here.Extra() ==> nextIn < stop)
      modifies `nextIn, `hold, `bits, `k
      ensures Feeding() && bits <= MAX_BITS && k == old(k) + here.Extra() && k <= |s| && len == here.val + Number(s[old(k)..k]) && 3 <= len <= 258 && (nextIn == old(nextIn) || bits < 8)
    {
      hide Feeding, Number, Rows;
      Level();
      len := here.val;
      var op := here.Extra();
      if op > 0 {
        if bits < op { PullByte(); }
        var v := Low(op);
        NumberBound(s[k..k + op]);
        len := len + v;
        Drop(op);
      } else {
        NumberBound(s[k..k]);
      }
    }

    /** A distance likewise; up to two bytes may be needed. */
    method TakeDistance(here: Code) returns (dist: nat)
      requires Feeding() && bits <= MAX_BITS && here.DistanceOk() && here.Base() && (bits < here.Extra() ==> nextIn < stop) && (bits + 8 < here.Extra() ==> nextIn + 2 <= stop)
      modifies `nextIn, `hold, `bits, `k
      ensures Feeding() && bits <= MAX_BITS && k == old(k) + here.Extra() && k <= |s| && dist == here.val + Number(s[old(k)..k]) && 1 <= dist <= 32768 && (nextIn == old(nextIn) || bits < 8)
    {
      hide Feeding, Number, Rows;
      dist := here.val;
      var op := here.Extra();
      if bits < op {
        PullByte();
        if bits < op { PullByte(); }
      }
      var v := Low(op);
      NumberBound(s[k..k + op]);
      dist := dist + v;
      Drop(op);
    }

    /** A turn once its length is known: k0 and in0 are where it began. */
    method TurnMatch(len: nat, ghost k0: nat, ghost in0: nat)
      requires Feeding() && bits <= MAX_BITS && Places() && codes.Valid() && mode == Len && 3 <= len <= 258 && nextOut + OUT_STEP <= output.Length
      requires nextIn <= in0 + 3 && in0 + IN_STEP <= stop && k0 <= skew + 8 * in0 && k <= k0 + 20
      modifies output, `nextIn, `nextOut, `hold, `bits, `mode, `k
      ensures Feeding() && bits <= MAX_BITS && Places() && nextIn <= in0 + IN_STEP && old(nextOut) <= nextOut <= old(nextOut) + OUT_STEP
      ensures old(k) + 28 <= |s| && var (o, j) := DecodeDistance(codes, s, old(k), len); k == j && Effect(o, old(Past()), Past(), mode)
      ensures forall i :: 0 <= i < output.Length && !(old(nextOut) <= i < nextOut) ==> output[i] == old(output[i])
    {
      hide Feeding, Number, Walk, Table, Copied, Code.Extra, Code.Base, Code.End, Code.Link;
      Level();
      Pull15();
      Level();
      var here := LookUp(codes.dcode, codes.distbits);
      Level();
      if here.Base() {
        var dist := TakeDistance(here);
        Level();
        var op := nextOut - beg;
        if dist > op && dist - op > whave {
          mode := Bad;
        } else {
          CopyMatch(len, dist);
        }
      } else {
        mode := Bad;
      }
    }

    /** One turn: a literal, a match, the end of the block or an error. At most 6 bytes of input and 258 of output. */
    method Turn()
      requires Feeding() && bits <= MAX_BITS && Places() && codes.Valid() && mode == Len && nextIn + IN_STEP <= stop && nextOut + OUT_STEP <= output.Length
      modifies output, `nextIn, `nextOut, `hold, `bits, `mode, `k
      ensures Feeding() && bits <= MAX_BITS && Places() && nextIn <= old(nextIn) + IN_STEP && old(nextOut) <= nextOut <= old(nextOut) + OUT_STEP
      ensures old(k) + 48 <= |s| && var (o, j) := Decode(codes, s, old(k)); k == j && Effect(o, old(Past()), Past(), mode)
      ensures mode == Len ==> nextOut > old(nextOut)
      ensures forall i :: 0 <= i < output.Length && !(old(nextOut) <= i < nextOut) ==> output[i] == old(output[i])
    {
      hide Feeding, Past, Number, Walk, Table, Copied, DecodeDistance, Code.Extra, Code.Base, Code.End, Code.Link;
      Level();
      ghost var k0, in0 := k, nextIn;
      Pull15();
      Level();
      var here := LookUp(codes.lcode, codes.lenbits);
      Level();
      if here.op == 0 {
        PutLiteral(ToByte(here.val));
      } else if here.Base() {
        var len := TakeLength(here);
        Level();
        TurnMatch(len, k0, in0);
      } else if here.End() {
        mode := Type;
      } else {
        mode := Bad;
      }
    }

    // ---- the call ----

    /** Gives back the whole bytes still held. */
    method ReturnUnused()
      requires Feeding() && 0 <= skew + 8 * first < 8
      modifies `nextIn, `hold, `bits
      ensures Feeding() && bits < 8 && bits == old(bits) % 8 && nextIn == old(nextIn) - old(bits) / 8
    {
      hide Number, Rows, Pow2;
      RowsLength(s, input, skew, first, stop);
      var len := bits / 8;
      MaskAndShift(s, k, bits - 8 * len, bits);
      nextIn := nextIn - len;
      bits := bits - 8 * len;
      hold := hold % Pow2(bits);
    }

    /** The bits held and the input still there are the rest of the stream. */
    lemma NothingLost()
      requires Feeding() && nextIn + availIn == stop
      ensures stop <= |input| && k <= |s| && Rest() == s[k..] && hold < Pow2(bits)
    {
      hide *;
      Level();
      Held();
      NumberBound(s[k..k + bits]);
      BitsOfNumber(s[k..k + bits]);
      RowsFrom(s, input, skew, first, stop, nextIn);
      RestIs();
      assert s[k..] == s[k..k + bits] + s[k + bits..];
    }

    lemma Held()
      requires Feeding()
      ensures Rows(s, input, skew, first, stop) && k + bits <= |s| && hold == Number(s[k..k + bits])
    {
    }

    lemma RestIs()
      requires nextIn + availIn <= |input|
      ensures Rest() == BitsOf(hold, bits) + Stream(input[nextIn..nextIn + availIn])
    {
    }

    /** The stream as the call finds it. */
    lemma Entered()
      requires nextIn + availIn <= |input| && hold < Pow2(bits)
      requires s == Rest() && k == 0 && skew == bits - 8 * nextIn && first == nextIn && stop == nextIn + availIn
      ensures Feeding()
    {
      hide Stream, BitsOf;
      assert s[bits..] == Stream(input[first..stop]);
      assert s[0..bits] == BitsOf(hold, bits);
      NumberOfBits(hold, bits);
    }

    /** The loop of inflate_fast. */
    method Turns(last: int, end: int, ghost h: seq<byte>) returns (ghost ts: seq<Token>, ghost j: nat)
      requires Feeding() && bits <= MAX_BITS && Places() && codes.Valid() && mode == Len && k == 0 && h == Past()
      requires nextIn < last == stop - 5 && nextOut < end <= output.Length - 257
      modifies output, `nextIn, `nextOut, `hold, `bits, `mode, `k
      ensures Feeding() && bits <= MAX_BITS && Places() && nextIn <= stop && old(nextOut) <= nextOut <= end + 257
      ensures Codes(codes, s, 0, ts, j) && Past() == Extend(h, ts)
      ensures mode == Len ==> k == j && (nextIn >= last || nextOut >= end)
      ensures mode == Type ==> j + 48 <= |s| && Decode(codes, s, j) == (EndOfBlock, k)
      ensures mode == Bad ==> j + 48 <= |s| && Decode(codes, s, j).1 == k && Wrong(Decode(codes, s, j).0, Past())
      ensures forall i :: 0 <= i < output.Length && !(old(nextOut) <= i < nextOut) ==> output[i] == old(output[i])
    {
      hide Feeding, Past, Codes, Decode, Extend, Tables.Valid;
      ts, j := [], 0;
      NoneYet(codes, s, h);
      while true
        invariant Feeding() && bits <= MAX_BITS && Places() && mode == Len && nextIn < last && old(nextOut) <= nextOut < end
        invariant k == j && Codes(codes, s, 0, ts, j) && Past() == Extend(h, ts)
        invariant forall i :: 0 <= i < output.Length && !(old(nextOut) <= i < nextOut) ==> output[i] == old(output[i])
        decreases end - nextOut
      {
        Level();
        ghost var o, before := Decode(codes, s, k).0, Past();
        Turn();
        Level();
        if mode != Len { break; }
        OneMore(codes, s, ts, j, k, o, h, before, Past());
        ts, j := ts + [o.t], k;
        if !(nextIn < last && nextOut < end) { break; }
      }
    }

    lemma AtHand()
      requires Places()
      ensures Past() == History() + output[beg..nextOut]
    {
    }

    /** inflate_fast: the symbols ts that the bits up to j code are carried out on the output at hand, and what is said about where and why it stopped. */
    method InflateFast(start: nat) returns (ghost ts: seq<Token>, ghost j: nat)
      requires mode == Len && availIn >= 6 && availOut >= 258 && start >= availOut && bits < 8 && hold < Pow2(bits)
      requires nextIn + availIn <= |input| && nextOut + availOut <= output.Length && start - availOut <= nextOut && WindowOk() && codes.Valid()
      modifies this, output
      ensures Places() && beg == old(nextOut - (start - availOut)) && nextOut + availOut == old(nextOut + availOut) && nextIn + availIn == old(nextIn + availIn)
      ensures bits < 8 && hold < Pow2(bits) && nextIn + availIn <= |input|
      ensures s == old(Rest()) && k <= |s| && Rest() == s[k..]
      ensures Codes(codes, s, 0, ts, j) && Past() == Extend(old(History() + output[nextOut - (start - availOut)..nextOut]), ts)
      ensures mode == Len ==> k == j && (availIn <= 8 || availOut < 258)
      ensures mode == Type ==> j + 48 <= |s| && Decode(codes, s, j) == (EndOfBlock, k)
      ensures mode == Bad ==> j + 48 <= |s| && Decode(codes, s, j).1 == k && Wrong(Decode(codes, s, j).0, Past())
      ensures forall m: Message :: Genuine(codes, m, s) ==> Inflated(m, ts, k, mode, Past())
      ensures forall i :: 0 <= i < output.Length && !(old(nextOut) <= i < nextOut) ==> output[i] == old(output[i])
    {
      hide Feeding, Past, Rest, Codes, Decode, Effect, Extend, Tables.Valid, History, Wrong, Pow2, WindowOk, Genuine, Inflated;
      ghost var before := History() + output[nextOut - (start - availOut)..nextOut];
      var last, end := nextIn + (availIn - 5), nextOut + (availOut - 257);
      beg := nextOut - (start - availOut);
      s, k, skew, first, stop := Rest(), 0, bits - 8 * nextIn, nextIn, nextIn + availIn;
      Entered();
      AtHand();
      ts, j := Turns(last, end, before);
      ReturnUnused();
      availIn := if nextIn < last then 5 + (last - nextIn) else 5 - (nextIn - last);
      availOut := if nextOut < end then 257 + (end - nextOut) else 257 - (nextOut - end);
      NothingLost();
      MessagesBack(codes, s, ts, j, k, mode, Past());
    }
  }

  /** What a decoded symbol does: a distance beyond all output at hand is an error. */
  ghost predicate Effect(o: Outcome, before: seq<byte>, after: seq<byte>, mode: Mode) {
    match o
    case Symbol(t) => if TooFar(t, before) then mode == Bad && after == before else mode == Len && after == Apply(before, t)
    case EndOfBlock => mode == Type && after == before
    case Invalid => mode == Bad && after == before
  }

  /** The bits s begin a message written with the codes of these tables. */
  ghost predicate Genuine(c: Tables, m: Message, s: seq<bool>) {
    m.Valid() && Built(c, m.book) && s <= m.Bits()
  }

  /** The first words of a message have been carried out; the end of the block comes after the last of them, and only a distance that
      reaches too far back is an error. */
  ghost predicate Inflated(m: Message, ts: seq<Token>, k: nat, mode: Mode, past: seq<byte>) {
    m.Valid() && |ts| <= |m.words| && ts == m.Means(|ts|) &&
    match mode
    case Len => k == |m.Written(|ts|)|
    case Type => |ts| == |m.words| && k == |m.Written(|ts|)| + |m.book.l[END]|
    case Bad => |ts| < |m.words| && TooFar(m.words[|ts|].Means(m.book), past)
  }

  lemma MessagesBack(c: Tables, s: seq<bool>, ts: seq<Token>, j: nat, k: nat, mode: Mode, past: seq<byte>)
    requires c.Valid() && Codes(c, s, 0, ts, j) && (mode == Len ==> k == j)
    requires mode == Type ==> j + 48 <= |s| && Decode(c, s, j) == (EndOfBlock, k)
    requires mode == Bad ==> j + 48 <= |s| && Wrong(Decode(c, s, j).0, past)
    ensures forall m: Message :: Genuine(c, m, s) ==> Inflated(m, ts, k, mode, past)
  {
    forall m: Message | Genuine(c, m, s) ensures Inflated(m, ts, k, mode, past) {
      hide Codes, Decode, Built, Message.Written, Message.Means, Message.Bits, Message.Valid, Word.Means, Word.Ok, TooFar;
      CodesBack(c, m, s, ts, j);
      if mode != Len { DecodeBack(c, m, s, |ts|); }
      EndCode(m);
    }
  }

  lemma EndCode(m: Message)
    requires m.Valid()
    ensures |m.book.l| == 288 && m.book.Valid() && forall i :: 0 <= i < |m.words| ==> m.words[i].Ok(m.book)
  {
  }

  /** Data that cannot be decoded. */
  predicate Wrong(o: Outcome, past: seq<byte>) {
    o.Invalid? || (o.Symbol? && TooFar(o.t, past))
  }

  predicate TooFar(t: Token, before: seq<byte>) {
    t.Match? && t.dist > |before|
  }

  lemma NoneYet(c: Tables, s: seq<bool>, h: seq<byte>)
    requires c.Valid()
    ensures Codes(c, s, 0, [], 0) && Extend(h, []) == h
  {
  }

  lemma OneMore(c: Tables, s: seq<bool>, ts: seq<Token>, j: nat, k: nat, o: Outcome, h: seq<byte>, before: seq<byte>, after: seq<byte>)
    requires c.Valid() && Codes(c, s, 0, ts, j) && j + 48 <= |s| && Decode(c, s, j) == (o, k) && before == Extend(h, ts) && Effect(o, before, after, Len)
    ensures o.Symbol? && Codes(c, s, 0, ts + [o.t], k) && after == Extend(h, ts + [o.t])
  {
    hide Decode, Extend, Codes;
    CodesMore(c, s, 0, ts, j, o.t, k);
    ExtendMore(h, ts, o.t);
  }

  /** From byte first to byte stop of the input, the stream s holds byte i at bit skew + 8 * i. */
  ghost predicate Rows(s: seq<bool>, input: seq<Byte>, skew: int, first: nat, stop: nat) {
    first <= stop <= |input| && 0 <= skew + 8 * first <= |s| && s[skew + 8 * first..] == Stream(input[first..stop])
  }

  lemma RowsLength(s: seq<bool>, input: seq<Byte>, skew: int, first: nat, stop: nat)
    requires Rows(s, input, skew, first, stop)
    ensures |s| == skew + 8 * stop && stop <= |input|
  {
  }

  lemma RowAt(s: seq<bool>, input: seq<Byte>, skew: int, first: nat, stop: nat, i: nat)
    requires Rows(s, input, skew, first, stop) && first <= i < stop
    ensures i < |input| && 0 <= skew + 8 * i && skew + 8 * i + 8 <= |s| && s[skew + 8 * i..skew + 8 * i + 8] == BitsOf(input[i], 8)
  {
    hide BitsOf;
    var z, j := input[first..stop], i - first;
    StreamAt(z, j);
    assert z[j] == input[i];
    assert s[skew + 8 * i..skew + 8 * i + 8] == s[skew + 8 * first..][8 * j..8 * j + 8];
  }

  lemma RowsFrom(s: seq<bool>, input: seq<Byte>, skew: int, first: nat, stop: nat, i: nat)
    requires Rows(s, input, skew, first, stop) && first <= i <= stop
    ensures stop <= |input| && 0 <= skew + 8 * i <= |s| && s[skew + 8 * i..] == Stream(input[i..stop])
  {
    hide BitsOf;
    var z, j := input[first..stop], i - first;
    StreamFrom(z, j);
    assert z[j..] == input[i..stop];
    assert s[skew + 8 * i..] == s[skew + 8 * first..][8 * j..];
  }

  /** A byte put above the bits held. */
  lemma Pulled(s: seq<bool>, k: nat, n: nat, b: Byte)
    requires k + n + 8 <= |s| && s[k + n..k + n + 8] == BitsOf(b, 8)
    ensures Number(s[k..k + n + 8]) == Number(s[k..k + n]) + b * Pow2(n)
  {
    assert Pow2(8) == 256 by { assert Pow2(4) == 16; Pow2Add(4, 4); }
    NumberOfBits(b, 8);
    hide Number, BitsOf, Pow2;
    assert s[k..k + n + 8] == s[k..k + n] + s[k + n..k + n + 8];
    NumberConcat(s[k..k + n], s[k + n..k + n + 8]);
  }
}
