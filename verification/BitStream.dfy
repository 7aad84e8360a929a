/** The bit streams of compress.c and decompress.c: most significant bit first, through a 32-bit buffer. */
module BitStream {
  import opened Common

  const WORD := 0x1_0000_0000

  function Value(bits: seq<bool>): nat {
    if bits == [] then 0 else 2 * Value(bits[..|bits| - 1]) + if bits[|bits| - 1] then 1 else 0
  }

  /** The low n bits of v. */
  function BitsOf(v: nat, n: nat): (bits: seq<bool>)
    ensures |bits| == n
  {
    if n == 0 then [] else BitsOf(v / 2, n - 1) + [v % 2 == 1]
  }

  lemma {:induction false} ValueBound(bits: seq<bool>)
    ensures Value(bits) < Pow2(|bits|)
  {
    if bits != [] { ValueBound(bits[..|bits| - 1]); }
  }

  lemma {:induction false} ValueOfBits(v: nat, n: nat)
    requires v < Pow2(n)
    ensures Value(BitsOf(v, n)) == v
  {
    if n > 0 {
      ValueOfBits(v / 2, n - 1);
      assert BitsOf(v, n)[..n - 1] == BitsOf(v / 2, n - 1);
    }
  }

  lemma {:induction false} BitsOfValue(bits: seq<bool>)
    ensures BitsOf(Value(bits), |bits|) == bits
  {
    if bits != [] {
      BitsOfValue(bits[..|bits| - 1]);
      assert bits == bits[..|bits| - 1] + [bits[|bits| - 1]];
    }
  }

  lemma {:induction false} ValueConcat(a: seq<bool>, b: seq<bool>)
    ensures Value(a + b) == Value(a) * Pow2(|b|) + Value(b)
  {
    if b == [] {
      assert a + b == a;
    } else {
      var n := |b| - 1;
      assert (a + b)[..|a + b| - 1] == a + b[..n];
      ValueConcat(a, b[..n]);
      Twice(Value(a), Pow2(n), Value(b[..n]));
    }
  }

  lemma Twice(x: int, p: int, y: int)
    ensures 2 * (x * p + y) == x * (2 * p) + 2 * y
  {
  }

  /** The bits of a row of bytes. */
  function BytesBits(z: seq<Byte>): seq<bool> {
    if z == [] then [] else BytesBits(z[..|z| - 1]) + BitsOf(z[|z| - 1], 8)
  }

  lemma {:induction false} BytesBitsConcat(a: seq<Byte>, b: seq<Byte>)
    ensures BytesBits(a + b) == BytesBits(a) + BytesBits(b)
  {
    if b == [] {
      assert a + b == a;
    } else {
      var n := |b| - 1;
      assert (a + b)[..|a + b| - 1] == a + b[..n];
      BytesBitsConcat(a, b[..n]);
    }
  }

  lemma BytesBitsAppend(z: seq<Byte>, b: Byte)
    ensures BytesBits(z + [b]) == BytesBits(z) + BitsOf(b, 8)
  {
    assert (z + [b])[..|z|] == z;
  }

  lemma BytesBitsFront(z: seq<Byte>, i: nat)
    requires i < |z|
    ensures BytesBits(z[i..]) == BitsOf(z[i], 8) + BytesBits(z[i + 1..])
  {
    BytesBitsConcat([z[i]], z[i + 1..]);
    assert z[i..] == [z[i]] + z[i + 1..];
    BytesBitsAppend([], z[i]);
    assert [] + [z[i]] == [z[i]];
  }

  // ---- the writer's buffer: pending bits at the top ----

  /** The buffer's top live bits are the pending bits, the others are clear. */
  ghost predicate Aligned(buff: int, live: int, pending: seq<bool>) {
    0 <= live <= 32 && |pending| == live && buff == Value(pending) * Pow2(32 - live)
  }

  lemma Pow2Facts()
    ensures Pow2(8) == 256 && Pow2(24) == 0x100_0000 && Pow2(32) == WORD
  {
    assert Pow2(4) == 16;
    Pow2Add(4, 4);
    Pow2Add(8, 8);
    Pow2Add(16, 8);
    Pow2Add(24, 8);
  }

  /** x * p is below q * p when x is below q. */
  lemma Scale(x: int, q: int, p: int)
    requires 0 <= x < q && p > 0
    ensures 0 <= x * p <= (q - 1) * p < q * p
  {
    assert (q - 1 - x) * p >= 0;
    assert q * p - (q - 1) * p == p;
  }

  /** A whole byte of pending bits leaves through the top of the buffer. */
  lemma TopByte(buff: int, live: int, pending: seq<bool>)
    requires Aligned(buff, live, pending) && live >= 8
    ensures 0 <= buff / 0x100_0000 < 256 && BitsOf(buff / 0x100_0000, 8) == pending[..8]
    ensures Aligned((buff * 256) % WORD, live - 8, pending[8..])
  {
    hide Value, BitsOf, Pow2;
    Pow2Facts();
    var a, b := pending[..8], pending[8..];
    assert pending == a + b;
    ValueConcat(a, b);
    ValueBound(a);
    ValueBound(b);
    BitsOfValue(a);
    Pow2Add(live - 8, 32 - live);
    Pow2Add(8, 32 - live);
    ShiftOut(buff, Value(a), Value(b), Pow2(live - 8), Pow2(32 - live));
  }

  /** The top byte v of a word, and what is left of the word when it is shifted out. */
  lemma ShiftOut(buff: int, v: nat, w: nat, q: nat, p: nat)
    requires v < 256 && w < q && p > 0 && q * p == 0x100_0000 && buff == (v * q + w) * p
    ensures 0 <= buff / 0x100_0000 == v && (buff * 256) % WORD == w * (256 * p)
  {
    Scale(w, q, p);
    Spread(v, q, p, w);
    var low := w * p;
    Regroup(w, p, 256);
    assert 0 <= low < 0x100_0000 && buff == v * 0x100_0000 + low && low * 256 == w * (256 * p);
    ByteAbove(buff, v, low);
  }

  lemma ByteAbove(buff: int, v: nat, low: nat)
    requires buff == v * 0x100_0000 + low && low < 0x100_0000
    ensures buff / 0x100_0000 == v && (buff * 256) % WORD == low * 256
  {
    DivModUnique(buff, 0x100_0000, v, low);
    DivModUnique(buff * 256, WORD, v, low * 256);
  }

  lemma Spread(a: int, q: int, p: int, b: int)
    ensures (a * q + b) * p == a * (q * p) + b * p
  {
  }

  lemma Regroup(b: int, p: int, k: int)
    ensures b * p * k == b * (k * p)
  {
  }

  /** New bits go in just below the pending ones: nothing is there yet, so or-ing them in is adding them. */
  lemma JoinBits(buff: int, live: int, pending: seq<bool>, n: nat, v: nat)
    requires Aligned(buff, live, pending) && live + n <= 32 && v < Pow2(n)
    ensures Aligned(buff + v * Pow2(32 - live - n), live + n, pending + BitsOf(v, n))
    ensures buff % Pow2(32 - live) == 0 && v * Pow2(32 - live - n) < Pow2(32 - live)
  {
    var p := Pow2(32 - live - n);
    ValueConcat(pending, BitsOf(v, n));
    ValueOfBits(v, n);
    Pow2Add(n, 32 - live - n);
    Spread(Value(pending), Pow2(n), p, v);
    Scale(v, Pow2(n), p);
    DivModUnique(buff, Pow2(32 - live), Value(pending), 0);
  }

  // ---- the reader's buffer: pending bits at the bottom ----

  /** The buffer's low live bits are the pending bits; what stands above them is of no account. */
  ghost predicate LowBits(buff: int, live: int, pending: seq<bool>) {
    0 <= live <= 32 && |pending| == live && 0 <= buff < WORD && buff % Pow2(live) == Value(pending)
  }

  /** Shifting a byte in. Bits pushed out at the top are not pending ones. */
  lemma ShiftIn(buff: int, live: int, pending: seq<bool>, b: Byte)
    requires LowBits(buff, live, pending) && live <= 24
    ensures LowBits((buff * 256) % WORD + b, live + 8, pending + BitsOf(b, 8))
  {
    Pow2Facts();
    ValueConcat(pending, BitsOf(b, 8));
    ValueOfBits(b, 8);
    ValueBound(pending);
    ValueBound(pending + BitsOf(b, 8));
    Pow2Add(8, live);
    Pow2Add(24 - live, live + 8);
    LowByteClear(buff);
    hide *;
    ShiftField(buff, Pow2(live), Pow2(24 - live), Value(pending), b);
  }

  lemma ShiftField(buff: int, m: nat, top: nat, v: int, b: Byte)
    requires 0 < m && 0 < top && top * (256 * m) == WORD && buff % m == v && 0 <= v
    ensures ((buff * 256) % WORD + b) % (256 * m) == v * 256 + b
  {
    var m' := 256 * m;
    var q, k := buff / m, buff * 256 / WORD;
    Quotient(buff, m);
    Quotient(buff * 256, WORD);
    Spread(q, m, 256, v);
    Regroup(k, top, m');
    Minus(q, k * top, m');
    Room(v, m, b);
    DivModUnique((buff * 256) % WORD + b, m', q - k * top, v * 256 + b);
  }

  lemma Room(v: int, m: int, b: Byte)
    requires 0 <= v < m
    ensures 0 <= v * 256 + b < 256 * m
  {
  }

  lemma Minus(a: int, b: int, m: int)
    ensures (a - b) * m == a * m - b * m
  {
  }

  /** A shifted word has room for a byte. */
  lemma LowByteClear(buff: int)
    requires 0 <= buff
    ensures (buff * 256) % WORD <= WORD - 256
  {
    var r := (buff * 256) % WORD;
    assert r == buff * 256 - (buff * 256 / WORD) * WORD;
    assert r == 256 * (buff - (buff * 256 / WORD) * 0x100_0000);
  }

  /** Masking n bits out below the top of the pending ones. */
  lemma TakeBits(buff: int, live: int, pending: seq<bool>, n: nat)
    requires LowBits(buff, live, pending) && n <= live
    ensures (buff / Pow2(live - n)) % Pow2(n) == Value(pending[..n])
    ensures LowBits(buff, live - n, pending[n..])
  {
    var a, b := pending[..n], pending[n..];
    assert pending == a + b;
    ValueConcat(a, b);
    ValueBound(a);
    ValueBound(b);
    Pow2Add(n, live - n);
    hide *;
    TakeField(buff, Pow2(n), Pow2(live - n), Value(a), Value(b));
  }

  /** The field above the lowest p places, taken modulo m. */
  lemma TakeField(x: int, m: nat, p: nat, a: int, b: int)
    requires 0 < m && 0 < p && 0 < m * p && 0 <= a < m && 0 <= b < p && x % (m * p) == a * p + b
    ensures (x / p) % m == a && x % p == b
  {
    var q := x / (m * p);
    Quotient(x, m * p);
    Spread(q, m, p, a);
    DivModUnique(x, p, q * m + a, b);
    DivModUnique(q * m + a, m, q, a);
  }

  lemma Quotient(x: int, m: int)
    requires m > 0
    ensures x == (x / m) * m + x % m
  {
  }

  lemma NothingPending()
    ensures Aligned(0, 0, []) && LowBits(0, 0, [])
  {
    Zero(Pow2(32));
  }

  lemma Zero(p: int)
    ensures 0 * p == 0
  {
  }

  class BitWriter {
    var zbits: seq<Byte>
    var bsBuff: int
    var bsLive: int
    /** The bits still in the buffer. */
    ghost var pending: seq<bool>

    ghost predicate Valid()
      reads this
    {
      Aligned(bsBuff, bsLive, pending)
    }

    /** Everything written. */
    ghost function Bits(): seq<bool>
      reads this
    {
      BytesBits(zbits) + pending
    }

    constructor InitWrite()
      ensures Valid() && Bits() == [] && zbits == []
    {
      zbits, bsBuff, bsLive, pending := [], 0, 0, [];
      NothingPending();
    }

    /** Fills the output area from its beginning again; the bits in the buffer stay. */
    method Restart()
      requires Valid()
      modifies this`zbits
      ensures Valid() && zbits == [] && old(Bits()) == BytesBits(old(zbits)) + Bits()
    {
      zbits := [];
      assert [] + pending == pending;
    }

    /** Moves the top byte of the buffer out. */
    method PutByte()
      requires Valid() && bsLive >= 8
      modifies this
      ensures Valid() && Bits() == old(Bits()) && bsLive == old(bsLive) - 8
    {
      TopByte(bsBuff, bsLive, pending);
      var top := bsBuff / 0x100_0000;
      BytesBitsAppend(zbits, top);
      assert BitsOf(top, 8) + pending[8..] == pending;
      assert BytesBits(zbits) + BitsOf(top, 8) + pending[8..] == BytesBits(zbits) + pending;
      zbits := zbits + [top];
      bsBuff := (bsBuff * 256) % WORD;
      bsLive := bsLive - 8;
      pending := pending[8..];
    }

    /** bsW: writes the low n bits of v. */
    method W(n: nat, v: nat)
      requires Valid() && n <= 25 && v < Pow2(n)
      modifies this
      ensures Valid() && Bits() == old(Bits()) + BitsOf(v, n)
    {
      hide *;
      while bsLive >= 8
        invariant Valid() && Bits() == old(Bits())
        decreases bsLive
      {
        PutByte();
      }
      Join(n, v);
    }

    /** bsBuff |= (v << (32 - bsLive - n)): the bits to be joined on are still clear. */
    method Join(n: nat, v: nat)
      requires Valid() && bsLive < 8 && n <= 25 && v < Pow2(n)
      modifies this
      ensures Valid() && Bits() == old(Bits()) + BitsOf(v, n)
    {
      JoinBits(bsBuff, bsLive, pending, n, v);
      hide Aligned, BytesBits, BitsOf, Pow2;
      assert BytesBits(zbits) + (pending + BitsOf(v, n)) == BytesBits(zbits) + pending + BitsOf(v, n);
      bsBuff := bsBuff + v * Pow2(32 - bsLive - n);
      bsLive := bsLive + n;
      pending := pending + BitsOf(v, n);
    }

    /** bsFinishWrite: the last byte is filled up with zeros. */
    method FinishWrite() returns (ghost padding: nat)
      requires Valid()
      modifies this
      ensures padding < 8 && BytesBits(zbits) == old(Bits()) + BitsOf(0, padding)
    {
      padding := 0;
      while bsLive > 0
        invariant bsLive > 0 ==> Valid()
        invariant bsLive <= 0 ==> -8 < bsLive && pending == []
        invariant padding == if bsLive < 0 then -bsLive else 0
        invariant Bits() == old(Bits()) + BitsOf(0, padding)
        decreases bsLive
      {
        if bsLive >= 8 {
          PutByte();
        } else {
          padding := 8 - bsLive;
          PutLast();
        }
      }
      assert pending == [];
      assert BytesBits(zbits) + [] == BytesBits(zbits);
    }

    /** The last, partial byte. */
    method PutLast()
      requires Valid() && 0 < bsLive < 8
      modifies this
      ensures bsLive == old(bsLive) - 8 && pending == [] && Bits() == old(Bits()) + BitsOf(0, 8 - old(bsLive))
    {
      hide Value, Pow2, BitsOf, BytesBits;
      ghost var n: nat := 8 - bsLive;
      ghost var last := pending + BitsOf(0, n);
      JoinBits(bsBuff, bsLive, pending, n, 0);
      Zero(Pow2(32 - bsLive - n));
      TopByte(bsBuff, 8, last);
      var top := bsBuff / 0x100_0000;
      BytesBitsAppend(zbits, top);
      assert last[..8] == last;
      assert BytesBits(zbits) + last == BytesBits(zbits) + pending + BitsOf(0, n);
      zbits := zbits + [top];
      bsBuff := (bsBuff * 256) % WORD;
      bsLive := bsLive - 8;
      pending := [];
      assert BytesBits(zbits) + [] == BytesBits(zbits);
    }
  }

  /** Pieces of input, one after the other. */
  function Joined(pieces: seq<seq<Byte>>): (z: seq<Byte>) {
    if pieces == [] then [] else pieces[0] + Joined(pieces[1..])
  }

  lemma JoinedOne(z: seq<Byte>)
    ensures Joined([z]) == z
  {
    assert Joined([]) == [];
  }

  /** The input arrives in pieces, of any lengths. When the one at hand is used up the call returns to its caller, who comes
      back with the next one, and reading goes on where it stopped. */
  class BitReader {
    var next_in: seq<Byte>
    var later: seq<seq<Byte>> // what the caller will come back with
    var bsBuff: int
    var bsLive: int
    /** The bits taken from the input and not yet handed out. */
    ghost var pending: seq<bool>

    ghost predicate Valid()
      reads this
    {
      bsLive <= 31 && LowBits(bsBuff, bsLive, pending)
    }

    /** Everything still to be read. */
    ghost function Bits(): seq<bool>
      reads this
    {
      pending + BytesBits(next_in + Joined(later))
    }

    constructor (pieces: seq<seq<Byte>>)
      ensures Valid() && Bits() == BytesBits(Joined(pieces))
    {
      next_in, later, bsBuff, bsLive, pending := [], pieces, 0, 0, [];
      new;
      assert [] + Joined(pieces) == Joined(pieces);
    }

    /** Shifts the next input byte into the buffer. */
    method Refill()
      requires Valid() && bsLive < 24 && next_in != []
      modifies this
      ensures Valid() && Bits() == old(Bits()) && later == old(later) && |next_in| == |old(next_in)| - 1 && bsLive == old(bsLive) + 8
    {
      var b, rest := next_in[0], next_in[1..];
      ghost var z := next_in + Joined(later);
      ShiftIn(bsBuff, bsLive, pending, b);
      BytesBitsFront(z, 0);
      assert z[0..] == z && z[1..] == rest + Joined(later);
      assert pending + (BitsOf(b, 8) + BytesBits(z[1..])) == pending + BitsOf(b, 8) + BytesBits(z[1..]);
      hide *;
      bsBuff := (bsBuff * 256) % WORD + b;
      bsLive := bsLive + 8;
      pending := pending + BitsOf(b, 8);
      next_in := rest;
    }

    /** The caller comes back with the next piece. */
    method Resume()
      requires next_in == [] && later != []
      modifies this`next_in, this`later
      ensures Bits() == old(Bits()) && |later| == |old(later)| - 1
    {
      assert [] + Joined(later) == later[0] + Joined(later[1..]);
      next_in, later := later[0], later[1..];
    }

    /** GET_BITS: the next n bits as a number, or nothing when the last piece runs out first. */
    method Get(n: nat) returns (v: Option<nat>)
      requires Valid() && n <= 24
      modifies this
      ensures Valid()
      ensures v.None? <==> |old(Bits())| < n
      ensures v.Some? ==> v.value == Value(old(Bits())[..n]) && Bits() == old(Bits())[n..]
      ensures v.None? ==> Bits() == old(Bits()) && next_in == [] && later == []
    {
      hide Value, Pow2, BitsOf;
      while bsLive < n
        invariant Valid() && Bits() == old(Bits())
        decreases |later|, |next_in|
      {
        if next_in == [] {
          if later == [] { return None; }
          Resume();
        } else {
          Refill();
        }
      }
      TakeBits(bsBuff, bsLive, pending, n);
      ghost var rest := BytesBits(next_in + Joined(later));
      assert (pending + rest)[..n] == pending[..n];
      assert (pending + rest)[n..] == pending[n..] + rest;
      v := Some((bsBuff / Pow2(bsLive - n)) % Pow2(n));
      bsLive := bsLive - n;
      pending := pending[n..];
    }
  }
}
