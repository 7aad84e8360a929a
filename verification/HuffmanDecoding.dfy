/** Why the limit/base/perm loop of decompress.c reads a canonical code back, and nothing else. */
module HuffmanDecoding {
  import opened Common
  import opened Counting
  import opened BitStream
  import opened HuffmanCodes

  ghost function CodeBits(len: seq<int>, s: int): (bits: seq<bool>)
    requires Lengths(len) && 0 <= s < |len|
    ensures |bits| == len[s]
  {
    FirstNonNegative(len, len[s]);
    RankBelow(len, s);
    BitsOf(Code(len, s), len[s])
  }

  lemma DivDiv(v: nat, p: nat)
    requires p > 0
    ensures v / 2 / p == v / (2 * p)
  {
    var q, r := v / (2 * p), v % (2 * p);
    Quotient(v, 2 * p);
    assert 0 <= r / 2 < p;
    assert v / 2 == q * p + r / 2 by { assert q * (2 * p) == 2 * (q * p); }
    DivModUnique(v / 2, p, q, r / 2);
  }

  /** The first n of l bits are the bits of the number shifted down. */
  lemma {:induction false} BitsPrefix(v: nat, l: nat, n: nat)
    requires n <= l
    ensures BitsOf(v, l)[..n] == BitsOf(v / Pow2(l - n), n)
    decreases l
  {
    if n < l {
      BitsPrefix(v / 2, l - 1, n);
      DivDiv(v, Pow2(l - 1 - n));
      assert BitsOf(v, l)[..n] == BitsOf(v / 2, l - 1)[..n];
    } else {
      DivModUnique(v, 1, v, 0);
    }
  }

  lemma QuotientAtLeast(x: int, k: int, p: int)
    requires p > 0 && x >= k * p
    ensures x / p >= k
  {
    Quotient(x, p);
    if x / p < k { Grow(x / p + 1, k, p); Distribute(x / p, 1, p); }
  }

  lemma QuotientBelow(x: nat, n: nat, l: nat)
    requires n <= l && x < Pow2(l)
    ensures x / Pow2(l - n) < Pow2(n)
  {
    Pow2Add(n, l - n);
    var p := Pow2(l - n);
    Quotient(x, p);
    if x / p >= Pow2(n) { Grow(Pow2(n), x / p, p); }
  }

  /** Reading one more bit. */
  lemma NextBit(bits: seq<bool>, n: nat)
    requires n < |bits|
    ensures Value(bits[..n + 1]) == 2 * Value(bits[..n]) + Value(bits[n..][..1])
  {
    assert bits[..n + 1][..n] == bits[..n];
    assert bits[n..][..1] == [bits[n]] && [bits[n]][..0] == [];
  }

  /** The value of a code, and the place it leads to. */
  lemma CodeValue(len: seq<int>, s: int)
    requires Lengths(len) && KraftHolds(len) && 0 <= s < |len|
    ensures Value(CodeBits(len, s)) == Code(len, s) && 0 <= First(len, len[s]) <= Code(len, s) < Pow2(len[s])
    ensures Code(len, s) < First(len, len[s]) + Count(len, len[s]) && Code(len, s) - First(len, len[s]) + Below(len, len[s]) == Pos(len, s)
  {
    FirstNonNegative(len, len[s]);
    RankBelow(len, s);
    RoomForCodes(len, len[s]);
    hide First, Count, Below, Pow2, KraftHolds;
    ValueOfBits(Code(len, s), len[s]);
  }

  /** A proper beginning of a code lies beyond all codes of its own length. */
  lemma CodePrefix(len: seq<int>, s: int, n: nat)
    requires Lengths(len) && KraftHolds(len) && 0 <= s < |len| && n < len[s]
    ensures Value(CodeBits(len, s)[..n]) >= First(len, n) + Count(len, n)
  {
    CodeValue(len, s);
    hide First, Count, Below, Pow2, KraftHolds, Value, Pos;
    FirstGrows(len, n, len[s]);
    PrefixValue(Code(len, s), len[s], n, First(len, n) + Count(len, n));
  }

  lemma PrefixValue(v: nat, l: nat, n: nat, k: int)
    requires n <= l && v < Pow2(l) && v >= k * Pow2(l - n)
    ensures Value(BitsOf(v, l)[..n]) >= k
  {
    hide *;
    BitsPrefix(v, l, n);
    QuotientBelow(v, n, l);
    QuotientAtLeast(v, k, Pow2(l - n));
    ValueOfBits(v / Pow2(l - n), n);
  }

  lemma SoundLengths(b: Book)
    requires b.Sound()
    ensures |b.limit| == |b.base| == |b.perm| == BZ_MAX_ALPHA_SIZE && Lengths(b.len) && b.maxLen < |b.limit|
    ensures forall i :: 0 <= i < |b.len| ==> 0 <= b.minLen <= b.len[i] <= b.maxLen
  {
  }

  lemma SoundAt(b: Book, n: nat)
    requires b.Sound() && b.minLen <= n <= b.maxLen
    ensures n < |b.limit| && n < |b.base| && b.limit[n] == First(b.len, n) + Count(b.len, n) - 1 && b.base[n] == First(b.len, n) - Below(b.len, n)
  {
    hide First, Count, Below;
  }

  lemma SoundPlace(b: Book, s: int)
    requires b.Sound() && 0 <= s < |b.len|
    ensures 0 <= Pos(b.len, s) < |b.len| && Pos(b.len, s) < |b.perm| && b.perm[Pos(b.len, s)] == s
  {
    PosRange(b.len, s);
    hide Pos, First, Count, Below;
  }

  /** On bits that start with the code of s the loop goes on until all bits of the code are read, and then finds s. */
  lemma StopsAt(b: Book, bits: seq<bool>, s: int)
    requires b.Sound() && KraftHolds(b.len) && 0 <= s < |b.len| && CodeBits(b.len, s) <= bits
    ensures forall n: nat :: b.minLen <= n < b.len[s] ==> Value(bits[..n]) > b.limit[n]
    ensures var v, l := Value(bits[..b.len[s]]), b.len[s]; v <= b.limit[l] && 0 <= v - b.base[l] < |b.len| && b.perm[v - b.base[l]] == s
  {
    hide *;
    SoundLengths(b);
    forall n: nat | b.minLen <= n < b.len[s] ensures Value(bits[..n]) > b.limit[n] { GoesOn(b, bits, s, n); }
    EndsWith(b, bits, s);
  }

  lemma GoesOn(b: Book, bits: seq<bool>, s: int, n: nat)
    requires b.Sound() && KraftHolds(b.len) && 0 <= s < |b.len| && CodeBits(b.len, s) <= bits && b.minLen <= n < b.len[s]
    ensures Value(bits[..n]) > b.limit[n]
  {
    assert bits[..n] == CodeBits(b.len, s)[..n];
    hide *;
    SoundLengths(b);
    SoundAt(b, n);
    CodePrefix(b.len, s, n);
  }

  lemma EndsWith(b: Book, bits: seq<bool>, s: int)
    requires b.Sound() && KraftHolds(b.len) && 0 <= s < |b.len| && CodeBits(b.len, s) <= bits
    ensures var v, l := Value(bits[..b.len[s]]), b.len[s]; v <= b.limit[l] && 0 <= v - b.base[l] < |b.len| && b.perm[v - b.base[l]] == s
  {
    assert bits[..b.len[s]] == CodeBits(b.len, s);
    hide *;
    SoundLengths(b);
    SoundAt(b, b.len[s]);
    SoundPlace(b, s);
    CodeValue(b.len, s);
  }

  /** No length before n ended the search. */
  ghost predicate Searching(b: Book, bits: seq<bool>, n: nat) {
    |b.limit| == BZ_MAX_ALPHA_SIZE && n <= |bits| + 1 && n <= LONGEST + 1 && 0 <= b.minLen
    && forall k: nat :: b.minLen <= k < n ==> Value(bits[..k]) > b.limit[k]
  }

  /** So far unmatched bits are at or beyond the first code of their length. */
  lemma {:induction false} PastEarlier(b: Book, bits: seq<bool>, n: nat)
    requires b.Sound() && Searching(b, bits, n) && b.minLen <= n <= b.maxLen && n <= |bits|
    ensures Value(bits[..n]) >= First(b.len, n)
  {
    if n == b.minLen {
      NothingShorter(b.len, b.minLen);
    } else {
      PastEarlier(b, bits, n - 1);
      NextBit(bits, n - 1);
    }
  }

  /** Beyond the longest code the tables stop nothing. */
  lemma {:induction false} PastLongest(b: Book, bits: seq<bool>, n: nat)
    requires b.Sound() && Searching(b, bits, n) && b.maxLen < n && n <= |bits|
    ensures Value(bits[..n]) > 0
  {
    NextBit(bits, n - 1);
    if n - 1 == b.maxLen {
      var i :| 0 <= i < |b.len| && b.len[i] == b.maxLen;
      RankBelow(b.len, i);
      FirstNonNegative(b.len, b.maxLen);
    } else {
      PastLongest(b, bits, n - 1);
    }
  }

  /** Some symbol of length n has rank r among those of its length. */
  lemma {:induction false} OfRank(len: seq<int>, n: int, r: int) returns (i: int)
    requires 0 <= r < Count(len, n)
    ensures 0 <= i < |len| && len[i] == n && Count(len[..i], n) == r
  {
    i := |len| - 1;
    assert len[..i + 1] == len;
    BelowStep(len, i, n);
    if len[i] != n || r < Count(len[..i], n) {
      i := OfRank(len[..i], n, r);
      assert len[..|len| - 1][..i] == len[..i];
    }
  }

  /** When the loop stops, the bits read are the code of the symbol it names. */
  lemma Found(b: Book, bits: seq<bool>, n: nat) returns (s: int)
    requires b.Sound() && Searching(b, bits, n) && b.minLen <= n <= LONGEST && n <= |bits| && Value(bits[..n]) <= b.limit[n]
    ensures n <= b.maxLen && 0 <= s < |b.len| && b.len[s] == n && CodeBits(b.len, s) == bits[..n]
    ensures 0 <= Value(bits[..n]) - b.base[n] < |b.len| && b.perm[Value(bits[..n]) - b.base[n]] == s
  {
    if n > b.maxLen { PastLongest(b, bits, n); }
    PastEarlier(b, bits, n);
    hide First, Count, Below, Value, Searching;
    s := OfRank(b.len, n, Value(bits[..n]) - First(b.len, n));
    BitsOfValue(bits[..n]);
    assert Value(bits[..n]) == Code(b.len, s);
    assert Value(bits[..n]) - b.base[n] == Pos(b.len, s);
  }

  /** No code is the beginning of another. */
  lemma PrefixFree(b: Book, bits: seq<bool>, s: int, t: int)
    requires b.Sound() && KraftHolds(b.len)
    requires 0 <= s < |b.len| && 0 <= t < |b.len| && CodeBits(b.len, s) <= bits && CodeBits(b.len, t) <= bits
    ensures s == t
  {
    StopsAt(b, bits, s);
    StopsAt(b, bits, t);
    hide *;
    SoundLengths(b);
    NotShorter(b, bits, b.len[s], b.len[t]);
    NotShorter(b, bits, b.len[t], b.len[s]);
  }

  /** A search that stops at length l does not go on beyond it. */
  lemma NotShorter(b: Book, bits: seq<bool>, l: nat, n: nat)
    requires l < |b.limit| && n <= |b.limit| && l <= |bits| && n <= |bits| && 0 <= b.minLen <= l && Value(bits[..l]) <= b.limit[l]
    requires forall k: nat :: b.minLen <= k < n ==> Value(bits[..k]) > b.limit[k]
    ensures n <= l
  {
  }

  datatype Symbol = Sym(sym: int) | Refused | NoInput

  /** What reading a symbol from bits must give: the one whose code the bits start with, if there is one. */
  ghost predicate Decodes(len: seq<int>, bits: seq<bool>, r: Symbol, rest: seq<bool>) {
    Lengths(len)
    && (r.Sym? ==> 0 <= r.sym < |len| && bits == CodeBits(len, r.sym) + rest)
    && forall s :: 0 <= s < |len| && CodeBits(len, s) <= bits ==> r == Sym(s)
  }

  lemma OneFound(b: Book, bits: seq<bool>, s: int, rest: seq<bool>)
    requires b.Sound() && 0 <= s < |b.len| && b.len[s] <= |bits| && CodeBits(b.len, s) == bits[..b.len[s]] && rest == bits[b.len[s]..]
    ensures KraftHolds(b.len) ==> Decodes(b.len, bits, Sym(s), rest)
  {
    hide KraftHolds, CodeBits;
    if KraftHolds(b.len) {
      forall t | 0 <= t < |b.len| && CodeBits(b.len, t) <= bits ensures t == s { PrefixFree(b, bits, s, t); }
    }
  }

  /** The bits ran out, or every length was tried: no code is there. */
  lemma NoneFound(b: Book, bits: seq<bool>, n: nat, r: Symbol, rest: seq<bool>)
    requires b.Sound() && Searching(b, bits, n) && !r.Sym? && (n > LONGEST || n > |bits|)
    ensures KraftHolds(b.len) ==> Decodes(b.len, bits, r, rest)
  {
    hide KraftHolds;
    if KraftHolds(b.len) {
      forall s | 0 <= s < |b.len| && CodeBits(b.len, s) <= bits ensures false { StopsAt(b, bits, s); }
    }
  }

  lemma SoundSizes(b: Book)
    requires b.Sound()
    ensures |b.limit| == |b.base| == |b.perm| == BZ_MAX_ALPHA_SIZE == 258 && 1 <= b.minLen <= LONGEST == 20
  {
  }

  lemma Short(b: Book, bits: seq<bool>)
    requires b.Sound() && |bits| < b.minLen
    ensures Searching(b, bits, |bits| + 1)
  {
  }

  lemma NotYet(b: Book, bits: seq<bool>)
    requires b.Sound() && b.minLen <= |bits|
    ensures Searching(b, bits, b.minLen)
  {
  }

  lemma Onward(b: Book, bits: seq<bool>, n: nat)
    requires Searching(b, bits, n) && n <= LONGEST && n <= |bits| && Value(bits[..n]) > b.limit[n]
    ensures Searching(b, bits, n + 1)
  {
  }

  /** The decoding loop of GET_MTF_VAL: reads bit by bit until limit accepts what was read as a code of zn bits, unless
      the input runs out or zn passes the longest length, in which case no length up to m was accepted. */
  method FindLength(reader: BitReader, limit: array<int>, minLen: nat, ghost b: Book)
    returns (found: bool, r: Symbol, zn: nat, zvec: int, ghost m: nat)
    requires reader.Valid() && b.Sound() && limit[..] == b.limit && minLen == b.minLen
    modifies reader
    ensures reader.Valid()
    ensures var bits := old(reader.Bits());
            found ==> zn <= LONGEST && b.minLen <= zn <= |bits| && Searching(b, bits, zn)
                      && zvec == Value(bits[..zn]) && zvec <= b.limit[zn] && reader.Bits() == bits[zn..]
    ensures var bits := old(reader.Bits());
            !found ==> !r.Sym? && Searching(b, bits, m) && (m > LONGEST || m > |bits|)
  {
    hide *;
    ghost var bits := reader.Bits();
    r, zvec := Refused, 0;
    zn, m := minLen, 0;
    SoundSizes(b);
    var z := reader.Get(zn);
    if z.None? {
      Short(b, bits);
      return false, NoInput, zn, 0, |bits| + 1;
    }
    zvec := z.value;
    NotYet(b, bits);
    while true
      invariant reader.Valid() && minLen <= zn <= |bits| && zn <= LONGEST + 1 && zvec == Value(bits[..zn]) && reader.Bits() == bits[zn..]
      invariant Searching(b, bits, zn)
      decreases LONGEST + 1 - zn
    {
      if zn > LONGEST { return false, Refused, zn, zvec, zn; }
      if zvec <= limit[zn] { return true, Refused, zn, zvec, zn; }
      Onward(b, bits, zn);
      zn := zn + 1;
      z := reader.Get(1);
      if z.None? { return false, NoInput, zn, zvec, zn; }
      NextBit(bits, zn - 1);
      zvec := zvec * 2 + z.value;
    }
  }

  /** GET_MTF_VAL. Whatever the tables, only listed places of perm are looked up. */
  method GetSymbol(reader: BitReader, limit: array<int>, base: array<int>, perm: array<int>, minLen: nat, ghost b: Book) returns (r: Symbol)
    requires reader.Valid() && b.Sound() && limit[..] == b.limit && base[..] == b.base && perm[..] == b.perm && minLen == b.minLen
    modifies reader
    ensures reader.Valid() && (KraftHolds(b.len) ==> Decodes(b.len, old(reader.Bits()), r, reader.Bits()))
    ensures r.Sym? ==> 0 <= r.sym < |b.len|
  {
    ghost var bits := reader.Bits();
    SoundSizes(b);
    hide Value, KraftHolds, Decodes, CodeBits, Searching, First, Count, Below, Pos, Code, Pow2;
    var found, miss, zn, zvec, m := FindLength(reader, limit, minLen, b);
    if !found {
      NoneFound(b, bits, m, miss, reader.Bits());
      return miss;
    }
    ghost var s := Found(b, bits, zn);
    assert base[zn] == base[..][zn];
    var k := zvec - base[zn];
    if k < 0 || k >= BZ_MAX_ALPHA_SIZE { return Refused; }
    assert perm[k] == perm[..][k] == s;
    r := Sym(perm[k]);
    OneFound(b, bits, s, reader.Bits());
  }
}
