/** What inflate_fast decodes: a stream of bits, least significant first, and decoding tables as inftrees.h lays them out. */
module InflateCodes {
  import opened Common
  import opened Lz77

  // ---- bits, least significant first (section 3.1.1 of RFC 1951) ----

  function Number(bits: seq<bool>): nat {
    if bits == [] then 0 else (if bits[0] then 1 else 0) + 2 * Number(bits[1..])
  }

  function BitsOf(v: nat, n: nat): (bits: seq<bool>)
    ensures |bits| == n
  {
    if n == 0 then [] else [v % 2 == 1] + BitsOf(v / 2, n - 1)
  }

  lemma {:induction false} NumberBound(bits: seq<bool>)
    ensures Number(bits) < Pow2(|bits|)
  {
    if bits != [] { NumberBound(bits[1..]); }
  }

  lemma {:induction false} NumberOfBits(v: nat, n: nat)
    requires v < Pow2(n)
    ensures Number(BitsOf(v, n)) == v
  {
    if n > 0 {
      NumberOfBits(v / 2, n - 1);
      assert BitsOf(v, n)[1..] == BitsOf(v / 2, n - 1);
    }
  }

  lemma {:induction false} BitsOfNumber(bits: seq<bool>)
    ensures BitsOf(Number(bits), |bits|) == bits
  {
    if bits != [] {
      BitsOfNumber(bits[1..]);
      var r := Number(bits[1..]);
      DivModUnique(Number(bits), 2, r, if bits[0] then 1 else 0);
      assert bits == [bits[0]] + bits[1..];
    }
  }

  lemma {:induction false} NumberConcat(a: seq<bool>, b: seq<bool>)
    ensures Number(a + b) == Number(a) + Pow2(|a|) * Number(b)
  {
    if a == [] {
      assert a + b == b;
    } else {
      NumberConcat(a[1..], b);
      NumberFirst(a);
      NumberFirst(a + b);
      assert (a + b)[1..] == a[1..] + b && Pow2(|a|) == 2 * Pow2(|a| - 1);
      hide Number, Pow2;
      Doubled(Pow2(|a| - 1), Number(b));
    }
  }

  lemma NumberFirst(a: seq<bool>)
    requires a != []
    ensures Number(a) == (if a[0] then 1 else 0) + 2 * Number(a[1..])
  {
  }

  lemma Doubled(p: int, x: int)
    ensures 2 * (p * x) == (2 * p) * x
  {
  }

  /** The low n of m bits by mask, the others by shift. */
  lemma MaskAndShift(s: seq<bool>, k: nat, n: nat, m: nat)
    requires n <= m && k + m <= |s|
    ensures Number(s[k..k + m]) % Pow2(n) == Number(s[k..k + n])
    ensures Number(s[k..k + m]) / Pow2(n) == Number(s[k + n..k + m])
  {
    hide Number, Pow2;
    var a, b := s[k..k + n], s[k + n..k + m];
    assert s[k..k + m] == a + b;
    Parts(a, b);
  }

  lemma Parts(a: seq<bool>, b: seq<bool>)
    ensures Number(a + b) % Pow2(|a|) == Number(a) && Number(a + b) / Pow2(|a|) == Number(b)
  {
    hide Number, Pow2;
    NumberConcat(a, b);
    NumberBound(a);
    var x, p, q, r := Number(a + b), Pow2(|a|), Number(b), Number(a);
    assert x == q * p + r;
    DivModUnique(x, p, q, r);
  }

  /** The bits of a row of bytes. */
  function Stream(z: seq<Byte>): (s: seq<bool>)
    ensures |s| == 8 * |z|
  {
    if z == [] then [] else BitsOf(z[0], 8) + Stream(z[1..])
  }

  lemma {:induction false} StreamAt(z: seq<Byte>, i: nat)
    requires i < |z|
    ensures Stream(z)[8 * i..8 * i + 8] == BitsOf(z[i], 8)
  {
    if i > 0 {
      StreamAt(z[1..], i - 1);
      assert Stream(z)[8 * i..8 * i + 8] == Stream(z[1..])[8 * (i - 1)..8 * (i - 1) + 8];
    }
  }

  lemma {:induction false} StreamFrom(z: seq<Byte>, i: nat)
    requires i <= |z|
    ensures Stream(z)[8 * i..] == Stream(z[i..])
  {
    if i == 0 {
      assert z[0..] == z;
    } else {
      StreamFrom(z[1..], i - 1);
      assert z[1..][i - 1..] == z[i..];
      assert Stream(z)[8 * i..] == Stream(z[1..])[8 * (i - 1)..];
    }
  }

  // ---- decoding tables ----

  /** A table entry. */
  datatype Code = Code(op: nat, bits: nat, val: nat) {
    /** A length or distance base, with this many extra bits. */
    predicate Base() { op / 16 % 2 == 1 }

    function Extra(): nat { op % 16 }

    predicate Link() { op != 0 && !Base() && op / 64 % 2 == 0 }

    predicate End() { op / 32 % 2 == 1 }

    predicate LengthOk() {
      (op == 0 ==> val < 256) && (Base() ==> Extra() <= 5 && 3 <= val && val + Pow2(Extra()) - 1 <= 258)
    }

    predicate DistanceOk() {
      op != 0 && (Base() ==> Extra() <= 13 && 1 <= val && val + Pow2(Extra()) - 1 <= 32768)
    }
  }

  /** A table of 2^n entries at base, and the tables it links to, for codes of at most budget bits. */
  ghost predicate Table(t: seq<Code>, base: nat, n: nat, budget: nat)
    decreases budget, 1
  {
    n <= budget && base + Pow2(n) <= |t| && forall i :: base <= i < base + Pow2(n) ==> Entry(t, t[i], n, budget)
  }

  ghost predicate Entry(t: seq<Code>, e: Code, n: nat, budget: nat)
    decreases budget, 0
  {
    e.bits <= n && (e.Link() ==> 1 <= e.bits <= budget && Table(t, e.val, e.op, budget - e.bits))
  }

  /** Literals are bytes, lengths are 3 to 258. */
  ghost predicate Lengths(t: seq<Code>) {
    forall i :: 0 <= i < |t| ==> t[i].LengthOk()
  }

  /** Distances are 1 to 32768. */
  ghost predicate Distances(t: seq<Code>) {
    forall i :: 0 <= i < |t| ==> t[i].DistanceOk()
  }

  /** Both tables and the sizes of their first levels. */
  datatype Tables = Tables(lcode: seq<Code>, lenbits: nat, dcode: seq<Code>, distbits: nat) {
    ghost predicate Valid() {
      Table(lcode, 0, lenbits, 15) && Lengths(lcode) && Table(dcode, 0, distbits, 15) && Distances(dcode)
    }
  }

  /** The entry that the bits from k on lead to, and where its code ends. */
  ghost function Walk(t: seq<Code>, base: nat, n: nat, budget: nat, s: seq<bool>, k: nat): (r: (Code, nat))
    requires Table(t, base, n, budget) && k + budget <= |s|
    ensures r.0 in t && !r.0.Link() && k <= r.1 <= k + budget
    decreases budget
  {
    NumberBound(s[k..k + n]);
    var e := t[base + Number(s[k..k + n])];
    assert Entry(t, e, n, budget);
    if e.Link() then Walk(t, e.val, e.op, budget - e.bits, s, k + e.bits) else (e, k + e.bits)
  }

  /** One level. */
  lemma WalkStep(t: seq<Code>, base: nat, n: nat, budget: nat, s: seq<bool>, k: nat)
    requires Table(t, base, n, budget) && k + budget <= |s|
    ensures n <= budget && base + Number(s[k..k + n]) < |t|
    ensures var e := t[base + Number(s[k..k + n])];
            e.bits <= n && if e.Link() then 1 <= e.bits <= budget && Table(t, e.val, e.op, budget - e.bits)
                                        && Walk(t, base, n, budget, s, k) == Walk(t, e.val, e.op, budget - e.bits, s, k + e.bits)
                           else Walk(t, base, n, budget, s, k) == (e, k + e.bits)
  {
    NumberBound(s[k..k + n]);
    var e := t[base + Number(s[k..k + n])];
    assert Entry(t, e, n, budget);
  }

  datatype Outcome = Symbol(t: Token) | EndOfBlock | Invalid

  function ToByte(v: int): byte {
    (v % 256) as byte
  }

  /** A distance follows a length. */
  ghost function DecodeDistance(c: Tables, s: seq<bool>, k: nat, len: nat): (r: (Outcome, nat))
    requires c.Valid() && k + 28 <= |s|
    ensures k <= r.1 <= k + 28
    ensures r.0.Invalid? || (r.0.Symbol? && r.0.t.Match? && r.0.t.len == len && 1 <= r.0.t.dist <= 32768)
  {
    var (d, j) := Walk(c.dcode, 0, c.distbits, 15, s, k);
    if d.Base() then
      NumberBound(s[j..j + d.Extra()]);
      (Symbol(Match(d.val + Number(s[j..j + d.Extra()]), len)), j + d.Extra())
    else (Invalid, j)
  }

  /** The literal, or length and distance, that the bits from k on code, and where it ends (section 3.2.5 of RFC 1951). */
  ghost function Decode(c: Tables, s: seq<bool>, k: nat): (r: (Outcome, nat))
    requires c.Valid() && k + 48 <= |s|
    ensures k <= r.1 <= k + 48
    ensures r.0.Symbol? && r.0.t.Match? ==> 3 <= r.0.t.len <= 258 && 1 <= r.0.t.dist <= 32768
  {
    var (e, k1) := Walk(c.lcode, 0, c.lenbits, 15, s, k);
    if e.op == 0 then (Symbol(Lit(ToByte(e.val))), k1)
    else if e.Base() then
      var k2 := k1 + e.Extra();
      NumberBound(s[k1..k2]);
      DecodeDistance(c, s, k2, e.val + Number(s[k1..k2]))
    else (if e.End() then EndOfBlock else Invalid, k1)
  }

  /** The bits from a to b code exactly the tokens ts; every one starts where 48 bits are left. */
  ghost predicate Codes(c: Tables, s: seq<bool>, a: nat, ts: seq<Token>, b: nat)
    requires c.Valid()
    decreases |ts|, 0
  {
    if ts == [] then a == b else CodesVia(c, s, a, ts[..|ts| - 1], ts[|ts| - 1], b)
  }

  ghost predicate CodesVia(c: Tables, s: seq<bool>, a: nat, front: seq<Token>, t: Token, b: nat)
    requires c.Valid()
    decreases |front|, 1
  {
    exists j: nat :: Codes(c, s, a, front, j) && CodesNext(c, s, j, t, b)
  }

  ghost predicate CodesNext(c: Tables, s: seq<bool>, j: nat, t: Token, b: nat)
    requires c.Valid()
  {
    j + 48 <= |s| && Decode(c, s, j) == (Symbol(t), b)
  }

  lemma CodesMore(c: Tables, s: seq<bool>, a: nat, ts: seq<Token>, j: nat, t: Token, b: nat)
    requires c.Valid() && Codes(c, s, a, ts, j) && CodesNext(c, s, j, t, b)
    ensures Codes(c, s, a, ts + [t], b)
  {
    assert (ts + [t])[..|ts|] == ts;
  }

  /** Expansion of tokens onto a history. */
  function Extend(h: seq<byte>, ts: seq<Token>): seq<byte> {
    if ts == [] then h else Apply(Extend(h, ts[..|ts| - 1]), ts[|ts| - 1])
  }

  lemma ExtendMore(h: seq<byte>, ts: seq<Token>, t: Token)
    ensures Extend(h, ts + [t]) == Apply(Extend(h, ts), t)
  {
    assert (ts + [t])[..|ts|] == ts;
  }

  /** From an empty history this is the expansion that the matcher's tokens are proved against. */
  lemma {:induction false} ExtendIsExpand(ts: seq<Token>)
    ensures Extend([], ts) == Expand(ts)
  {
    if ts != [] { ExtendIsExpand(ts[..|ts| - 1]); }
  }
}
