/** Canonical prefix codes of huffman.c: assigning codes to lengths, and the tables that decode them. */
module HuffmanCodes {
  import opened Common
  import opened Counting

  const BZ_MAX_ALPHA_SIZE := 258
  const BZ_MAX_CODE_LEN := 23
  /** The longest code a decoder takes. */
  const LONGEST := 20

  /** Legal code lengths. */
  ghost predicate Lengths(len: seq<int>) {
    |len| <= BZ_MAX_ALPHA_SIZE && forall i :: 0 <= i < |len| ==> 1 <= len[i] <= LONGEST
  }

  /** The first code of n bits. */
  function First(len: seq<int>, n: nat): int {
    if n == 0 then 0 else 2 * (First(len, n - 1) + Count(len, n - 1))
  }

  /** The code of symbol i: after the first of its length come those of earlier symbols. */
  function Code(len: seq<int>, i: int): int
    requires 0 <= i < |len| && len[i] >= 0
  {
    First(len, len[i]) + Count(len[..i], len[i])
  }

  lemma CountNonNegative(len: seq<int>, n: int)
    ensures 0 <= Count(len, n) <= |len|
  {
    BelowMonotone(len, n, n + 1);
  }

  /** A symbol comes before the end of its own length's codes. */
  lemma RankBelow(len: seq<int>, i: int)
    requires 0 <= i < |len|
    ensures 0 <= Count(len[..i], len[i]) < Count(len, len[i])
  {
    PosRange(len, i);
    CountNonNegative(len[..i], len[i]);
  }

  lemma {:induction false} NothingShorter(len: seq<int>, n: nat)
    requires forall i :: 0 <= i < |len| ==> n <= len[i]
    ensures First(len, n) == 0 && Below(len, n) == 0
  {
    BelowExtremes(len, n);
    if n > 0 {
      NothingShorter(len, n - 1);
      BelowExtremes(len, n - 1);
    }
  }

  lemma {:induction false} FirstNonNegative(len: seq<int>, n: nat)
    ensures First(len, n) >= 0
  {
    if n > 0 {
      FirstNonNegative(len, n - 1);
      CountNonNegative(len, n - 1);
    }
  }

  /** Longer codes start beyond all extensions of shorter ones. */
  lemma {:induction false} FirstGrows(len: seq<int>, n: nat, l: nat)
    requires n < l
    ensures First(len, l) >= (First(len, n) + Count(len, n)) * Pow2(l - n)
  {
    if n + 1 < l {
      FirstGrows(len, n, l - 1);
      CountNonNegative(len, l - 1);
      Twice(First(len, n) + Count(len, n), Pow2(l - 1 - n));
    }
  }

  lemma Twice(x: int, p: int)
    ensures x * (2 * p) == 2 * (x * p)
  {
  }

  // ---- the Kraft sum ----

  /** The part of 2^m that codes of lengths up to n take up. */
  function Kraft(len: seq<int>, n: int, m: nat): (k: nat) {
    if len == [] then 0
    else Kraft(len[..|len| - 1], n, m) + if len[|len| - 1] <= n && len[|len| - 1] <= m && 0 <= len[|len| - 1] then Pow2(m - len[|len| - 1]) else 0
  }

  lemma {:induction false} KraftStep(len: seq<int>, n: nat, m: nat)
    requires n <= m && forall i :: 0 <= i < |len| ==> 1 <= len[i]
    ensures n > 0 ==> Kraft(len, n, m) == Kraft(len, n - 1, m) + Count(len, n) * Pow2(m - n)
    ensures n == 0 ==> Kraft(len, n, m) == 0
  {
    if len != [] {
      KraftStep(len[..|len| - 1], n, m);
      assert len[..|len|] == len;
      BelowStep(len, |len| - 1, n);
      OneMore(Count(len[..|len| - 1], n), Pow2(m - n));
    }
  }

  lemma OneMore(c: int, p: int)
    ensures (c + 1) * p == c * p + p
  {
  }

  /** What the codes up to n bits use is told by where the codes of n bits end. */
  lemma {:induction false} KraftIsFirst(len: seq<int>, n: nat, m: nat)
    requires n <= m && forall i :: 0 <= i < |len| ==> 1 <= len[i]
    ensures Kraft(len, n, m) == (First(len, n) + Count(len, n)) * Pow2(m - n)
  {
    hide *;
    KraftStep(len, n, m);
    if n == 0 {
      NoneOfZero(len);
    } else {
      KraftIsFirst(len, n - 1, m);
      FirstNext(len, n - 1);
      Pow2Next(m - n);
      Shifted(First(len, n - 1) + Count(len, n - 1), First(len, n), Count(len, n), Pow2(m - n));
    }
  }

  lemma NoneOfZero(len: seq<int>)
    requires forall i :: 0 <= i < |len| ==> 1 <= len[i]
    ensures First(len, 0) + Count(len, 0) == 0
  {
    BelowExtremes(len, 0);
    BelowExtremes(len, 1);
  }

  lemma Pow2Next(k: nat)
    ensures Pow2(k + 1) == 2 * Pow2(k)
  {
  }

  lemma Shifted(used: int, first: int, here: int, p: int)
    requires first == 2 * used
    ensures used * (2 * p) + here * p == (first + here) * p
  {
  }

  lemma Distribute(a: int, b: int, p: int)
    ensures (a + b) * p == a * p + b * p
  {
  }

  /** The whole Kraft sum, scaled by 2^20, is at most one. */
  ghost predicate KraftHolds(len: seq<int>) {
    Kraft(len, LONGEST, LONGEST) <= Pow2(LONGEST)
  }

  lemma {:induction false} KraftMonotone(len: seq<int>, n: int, n': int, m: nat)
    requires n <= n'
    ensures Kraft(len, n, m) <= Kraft(len, n', m)
  {
    if len != [] { KraftMonotone(len[..|len| - 1], n, n', m); }
  }

  lemma Scale(x: int, p: int)
    requires x > 0 && p > 0
    ensures x * p > 0
  {
  }

  /** Measuring in finer units scales the sum. */
  lemma {:induction false} KraftScale(len: seq<int>, m: nat, d: nat)
    requires forall i :: 0 <= i < |len| ==> len[i] <= m
    ensures Kraft(len, m + d, m + d) == Kraft(len, m, m) * Pow2(d)
  {
    if len != [] {
      var last := len[|len| - 1];
      KraftScale(len[..|len| - 1], m, d);
      if last >= 0 {
        Pow2Add(m - last, d);
        Distribute(Kraft(len[..|len| - 1], m, m), Pow2(m - last), Pow2(d));
      }
    }
  }

  lemma Cancel(x: int, y: int, p: int)
    requires p > 0 && x * p <= y * p
    ensures x <= y
  {
    if x > y { Distribute(y, x - y, p); Scale(x - y, p); }
  }

  /** Codes that take up at most 2^m end by 2^n at every length n. */
  lemma CodesEnd(len: seq<int>, n: nat, m: nat)
    requires n <= m && (forall i :: 0 <= i < |len| ==> 1 <= len[i]) && Kraft(len, n, m) <= Pow2(m)
    ensures First(len, n) + Count(len, n) <= Pow2(n)
  {
    hide *;
    KraftIsFirst(len, n, m);
    Pow2Add(n, m - n);
    Cancel(First(len, n) + Count(len, n), Pow2(n), Pow2(m - n));
  }

  /** Under the Kraft inequality the codes of n bits end by 2^n. */
  lemma RoomForCodes(len: seq<int>, n: nat)
    requires Lengths(len) && KraftHolds(len) && n <= LONGEST
    ensures First(len, n) + Count(len, n) <= Pow2(n)
  {
    hide Pow2, Kraft, First, Count;
    KraftMonotone(len, n, LONGEST, LONGEST);
    CodesEnd(len, n, LONGEST);
  }

  /** Every code fits its length exactly when the Kraft inequality holds. */
  lemma CodesFit(len: seq<int>)
    requires Lengths(len)
    ensures KraftHolds(len) <==> forall i :: 0 <= i < |len| ==> 0 <= Code(len, i) < Pow2(len[i])
  {
    if KraftHolds(len) {
      forall i | 0 <= i < |len| ensures 0 <= Code(len, i) < Pow2(len[i]) {
        FirstNonNegative(len, len[i]);
        RankBelow(len, i);
        RoomForCodes(len, len[i]);
      }
    }
    if forall i :: 0 <= i < |len| ==> 0 <= Code(len, i) < Pow2(len[i]) { FittingCodes(len, LONGEST); }
  }

  /** The last code of n bits fits, so the Kraft sum up to n does; with no codes of n bits look at shorter ones. */
  lemma {:induction false} FittingCodes(len: seq<int>, n: nat)
    requires Lengths(len) && n <= LONGEST && forall i :: 0 <= i < |len| ==> 0 <= Code(len, i) < Pow2(len[i])
    ensures Kraft(len, n, LONGEST) <= Pow2(LONGEST)
  {
    KraftStep(len, n, LONGEST);
    if n > 0 {
      if Count(len, n) == 0 {
        FittingCodes(len, n - 1);
      } else {
        CountNonNegative(len, n);
        LastFits(len, n);
      }
    }
  }

  /** If the last code of n bits fits, so does all that the codes up to n bits use. */
  lemma LastFits(len: seq<int>, n: nat)
    requires Lengths(len) && n <= LONGEST && Count(len, n) > 0 && forall i :: 0 <= i < |len| ==> 0 <= Code(len, i) < Pow2(len[i])
    ensures Kraft(len, n, LONGEST) <= Pow2(LONGEST)
  {
    LastCode(len, n);
    assert forall i :: 0 <= i < |len| ==> 1 <= len[i];
    hide *;
    UsedFits(len, n, LONGEST);
  }

  lemma UsedFits(len: seq<int>, n: nat, m: nat)
    requires n <= m && (forall i :: 0 <= i < |len| ==> 1 <= len[i]) && First(len, n) + Count(len, n) <= Pow2(n)
    ensures Kraft(len, n, m) <= Pow2(m)
  {
    hide *;
    KraftIsFirst(len, n, m);
    Pow2Add(n, m - n);
    Grow(First(len, n) + Count(len, n), Pow2(n), Pow2(m - n));
  }

  lemma LastCode(len: seq<int>, n: nat)
    requires Lengths(len) && Count(len, n) > 0 && forall i :: 0 <= i < |len| ==> 0 <= Code(len, i) < Pow2(len[i])
    ensures First(len, n) + Count(len, n) <= Pow2(n)
  {
    var i := LastOf(len, n);
    hide First, Count, Pow2;
    assert Code(len, i) < Pow2(len[i]);
  }

  lemma Grow(x: int, y: int, p: int)
    requires x <= y && p > 0
    ensures x * p <= y * p
  {
    Distribute(x, y - x, p);
    assert (y - x) * p >= 0;
  }

  /** The last symbol of length n has the last rank. */
  lemma {:induction false} LastOf(len: seq<int>, n: int) returns (i: int)
    requires Count(len, n) > 0
    ensures 0 <= i < |len| && len[i] == n && Count(len[..i], n) == Count(len, n) - 1
  {
    i := |len| - 1;
    assert len[..i + 1] == len;
    BelowStep(len, i, n);
    if len[i] != n {
      i := LastOf(len[..i], n);
      assert len[..|len| - 1][..i] == len[..i];
    }
  }

  // ---- assigning codes ----

  /** Symbols of lengths below n, and those of length n before j, have their codes. */
  ghost predicate AssignedTo(len: seq<int>, code: seq<int>, n: int, j: int) {
    Lengths(len) && |len| <= |code|
    && forall i :: 0 <= i < |len| && (len[i] < n || (len[i] == n && i < j)) ==> code[i] == Code(len, i)
  }

  lemma AssignOne(len: seq<int>, code: seq<int>, n: nat, j: int)
    requires AssignedTo(len, code, n, j) && 0 <= j < |len|
    ensures len[j] == n ==> AssignedTo(len, code[j := First(len, n) + Count(len[..j], n)], n, j + 1)
    ensures len[j] != n ==> AssignedTo(len, code, n, j + 1)
    ensures Count(len[..j + 1], n) == Count(len[..j], n) + if len[j] == n then 1 else 0
  {
    BelowStep(len, j, n);
  }

  lemma NextLength(len: seq<int>, code: seq<int>, n: nat)
    requires AssignedTo(len, code, n, |len|)
    ensures AssignedTo(len, code, n + 1, 0) && 2 * (First(len, n) + Count(len[..|len|], n)) == First(len, n + 1)
  {
    assert len[..|len|] == len;
  }

  lemma NoneAssigned(len: seq<int>, code: seq<int>, n: nat)
    requires Lengths(len) && |len| <= |code| && forall i :: 0 <= i < |len| ==> n <= len[i]
    ensures AssignedTo(len, code, n, 0) && First(len, n) == 0
  {
    NothingShorter(len, n);
  }

  lemma ListStart(len: seq<int>, n: int)
    ensures Count(len[..0], n) == 0 && Below(len, n) + Count(len[..|len|], n) == Below(len, n + 1)
  {
    assert len[..|len|] == len && len[..0] == [];
  }

  method AssignCodes(code: array<int>, length: array<Byte>, minLen: nat, maxLen: nat, alphaSize: nat)
    requires alphaSize <= length.Length && alphaSize <= code.Length && Lengths(length[..alphaSize])
    requires forall i :: 0 <= i < alphaSize ==> minLen <= length[i] <= maxLen
    modifies code
    ensures forall i :: 0 <= i < alphaSize ==> code[i] == Code(length[..alphaSize], i)
  {
    ghost var len: seq<int> := length[..alphaSize];
    var vec, n := 0, minLen;
    NoneAssigned(len, code[..], minLen);
    hide *;
    while n <= maxLen
      invariant minLen <= n && vec == First(len, n) && AssignedTo(len, code[..], n, 0)
      decreases maxLen + 1 - n
    {
      vec := AssignLength(code, length, n, alphaSize, vec, len);
      vec := vec * 2;
      n := n + 1;
    }
    AllAssigned(len, code[..], maxLen, n);
  }

  /** The codes of n bits, in the order of the symbols. */
  method AssignLength(code: array<int>, length: array<Byte>, n: nat, alphaSize: nat, vec0: int, ghost len: seq<int>) returns (vec: int)
    requires alphaSize <= length.Length && alphaSize <= code.Length && len == length[..alphaSize]
    requires vec0 == First(len, n) && AssignedTo(len, code[..], n, 0)
    modifies code
    ensures AssignedTo(len, code[..], n + 1, 0) && vec * 2 == First(len, n + 1)
  {
    hide *;
    vec := vec0;
    var i := 0;
    ListStart(len, n);
    while i < alphaSize
      invariant 0 <= i <= alphaSize && vec == First(len, n) + Count(len[..i], n)
      invariant AssignedTo(len, code[..], n, i)
    {
      AssignOne(len, code[..], n, i);
      assert length[i] == len[i];
      if length[i] == n {
        ghost var was := code[..];
        code[i] := vec;
        assert code[..] == was[i := vec];
        vec := vec + 1;
      }
      i := i + 1;
    }
    NextLength(len, code[..], n);
  }

  lemma AllAssigned(len: seq<int>, code: seq<int>, maxLen: nat, n: nat)
    requires AssignedTo(len, code, n, 0) && maxLen < n && forall i :: 0 <= i < |len| ==> len[i] <= maxLen
    ensures |len| <= |code| && Lengths(len) && forall i :: 0 <= i < |len| ==> code[i] == Code(len, i)
  {
    hide Code;
  }

  // ---- the decoding tables ----

  /** A code book: the lengths of a code, and the tables made from them. */
  datatype Book = Book(len: seq<int>, limit: seq<int>, base: seq<int>, perm: seq<int>, minLen: int, maxLen: int) {
    /** What the decoder needs: where the codes of each length end, how far codes and listing places are apart, the listing. */
    ghost predicate Sound() {
      Lengths(len) && |limit| == |base| == |perm| == BZ_MAX_ALPHA_SIZE && 1 <= minLen <= maxLen <= LONGEST && maxLen in len
      && (forall i :: 0 <= i < |len| ==> minLen <= len[i] <= maxLen)
      && (forall n: nat :: minLen <= n <= maxLen ==> limit[n] == First(len, n) + Count(len, n) - 1 && base[n] == First(len, n) - Below(len, n))
      && (forall n :: 0 <= n <= LONGEST && maxLen < n ==> limit[n] == 0)
      && forall i :: 0 <= i < |len| ==> 0 <= Pos(len, i) < |len| && perm[Pos(len, i)] == i
    }
  }

  /** Symbols of lengths below n, and those of length n before j, are listed. */
  ghost predicate ListedTo(len: seq<int>, perm: seq<int>, n: int, j: int) {
    |len| <= BZ_MAX_ALPHA_SIZE == |perm|
    && forall i :: 0 <= i < |len| && (len[i] < n || (len[i] == n && i < j)) ==> 0 <= Pos(len, i) < |len| && perm[Pos(len, i)] == i
  }

  lemma PosDistinct(len: seq<int>, i: int, j: int)
    requires 0 <= i < |len| && 0 <= j < |len| && i != j
    ensures Pos(len, i) != Pos(len, j) && 0 <= Pos(len, i) < |len|
  {
    PosRange(len, i);
    if len[i] < len[j] || (len[i] == len[j] && i < j) { PosOrder(len, i, j); } else { PosOrder(len, j, i); }
  }

  lemma ListOne(len: seq<int>, perm: seq<int>, n: int, j: int)
    requires |len| <= BZ_MAX_ALPHA_SIZE && 0 <= j < |len| && ListedTo(len, perm, n, j)
    ensures len[j] == n ==> 0 <= Pos(len, j) < |len| && ListedTo(len, perm[Pos(len, j) := j], n, j + 1)
    ensures len[j] != n ==> ListedTo(len, perm, n, j + 1)
    ensures len[j] == n ==> Pos(len, j) == Below(len, n) + Count(len[..j], n)
    ensures Count(len[..j + 1], n) == Count(len[..j], n) + if len[j] == n then 1 else 0
  {
    BelowStep(len, j, n);
    if len[j] == n {
      PosRange(len, j);
      forall i | 0 <= i < |len| && i != j ensures Pos(len, i) != Pos(len, j) { PosDistinct(len, i, j); }
    }
  }

  /** Lists the symbols by length. */
  method FillPerm(perm: array<int>, length: array<Byte>, minLen: nat, maxLen: nat, alphaSize: nat)
    requires perm.Length == BZ_MAX_ALPHA_SIZE && alphaSize <= length.Length && alphaSize <= BZ_MAX_ALPHA_SIZE
    requires forall i :: 0 <= i < alphaSize ==> minLen <= length[i] <= maxLen
    modifies perm
    ensures ListedTo(length[..alphaSize], perm[..], maxLen + 1, 0)
  {
    ghost var len: seq<int> := length[..alphaSize];
    var pp, i := 0, minLen;
    NoneListed(len, perm[..], minLen);
    hide *;
    while i <= maxLen
      invariant minLen <= i && pp == Below(len, i) && ListedTo(len, perm[..], i, 0)
      decreases maxLen + 1 - i
    {
      pp := FillLength(perm, length, i, alphaSize, pp, len);
      i := i + 1;
    }
    ListedPast(len, perm[..], maxLen, i);
  }

  lemma NoneListed(len: seq<int>, perm: seq<int>, n: nat)
    requires |len| <= BZ_MAX_ALPHA_SIZE == |perm| && forall i :: 0 <= i < |len| ==> n <= len[i]
    ensures Below(len, n) == 0 && ListedTo(len, perm, n, 0)
  {
    NothingShorter(len, n);
    hide Below, Pos;
  }

  lemma ListedPast(len: seq<int>, perm: seq<int>, maxLen: nat, n: nat)
    requires ListedTo(len, perm, n, 0) && maxLen < n
    ensures ListedTo(len, perm, maxLen + 1, 0)
  {
    hide Pos;
  }

  /** The symbols of length i, in order. */
  method FillLength(perm: array<int>, length: array<Byte>, i: nat, alphaSize: nat, pp0: int, ghost len: seq<int>) returns (pp: int)
    requires perm.Length == BZ_MAX_ALPHA_SIZE && alphaSize <= length.Length && len == length[..alphaSize] && |len| <= BZ_MAX_ALPHA_SIZE
    requires pp0 == Below(len, i) && ListedTo(len, perm[..], i, 0)
    modifies perm
    ensures pp == Below(len, i + 1) && ListedTo(len, perm[..], i + 1, 0)
  {
    hide *;
    pp := pp0;
    var j := 0;
    ListStart(len, i);
    while j < alphaSize
      invariant 0 <= j <= alphaSize && pp == Below(len, i) + Count(len[..j], i) && ListedTo(len, perm[..], i, j)
    {
      ListOne(len, perm[..], i, j);
      assert length[j] == len[j];
      if length[j] == i {
        ghost var was := perm[..];
        perm[pp] := j;
        assert perm[..] == was[pp := j];
        pp := pp + 1;
      }
      j := j + 1;
    }
    ListedLength(len, perm[..], i);
  }

  lemma ListedLength(len: seq<int>, perm: seq<int>, n: nat)
    requires ListedTo(len, perm, n, |len|)
    ensures ListedTo(len, perm, n + 1, 0)
  {
    hide Pos;
  }

  /** base[k] becomes the number of symbols with lengths below k. */
  method CumulateBase(base: array<int>, length: array<Byte>, alphaSize: nat)
    requires base.Length == BZ_MAX_ALPHA_SIZE && alphaSize <= length.Length && Lengths(length[..alphaSize])
    modifies base
    ensures forall k :: 0 <= k < BZ_MAX_CODE_LEN ==> base[k] == Below(length[..alphaSize], k)
  {
    ghost var len: seq<int> := length[..alphaSize];
    var i := 0;
    while i < BZ_MAX_CODE_LEN
      invariant 0 <= i <= BZ_MAX_CODE_LEN && forall k :: 0 <= k < i ==> base[k] == 0
    {
      base[i] := 0;
      i := i + 1;
    }
    i := 0;
    while i < alphaSize
      invariant 0 <= i <= alphaSize && forall k :: 0 <= k < BZ_MAX_CODE_LEN ==> base[k] == Count(len[..i], k - 1)
    {
      forall n ensures Count(len[..i + 1], n) == Count(len[..i], n) + if len[i] == n then 1 else 0 { BelowStep(len, i, n); }
      assert len[i] == length[i];
      base[length[i] as int + 1] := base[length[i] as int + 1] + 1;
      i := i + 1;
    }
    assert len[..alphaSize] == len;
    BelowExtremes(len, 0);
    BelowExtremes(len, -1);
    i := 1;
    while i < BZ_MAX_CODE_LEN
      invariant 1 <= i <= BZ_MAX_CODE_LEN && (forall k :: 0 <= k < i ==> base[k] == Below(len, k))
      invariant forall k :: i <= k < BZ_MAX_CODE_LEN ==> base[k] == Count(len, k - 1)
    {
      base[i] := base[i] + base[i - 1];
      i := i + 1;
    }
  }

  lemma FirstNext(len: seq<int>, n: nat)
    ensures First(len, n + 1) == (First(len, n) + Count(len, n)) * 2
  {
  }

  method ClearLimit(limit: array<int>)
    requires limit.Length == BZ_MAX_ALPHA_SIZE
    modifies limit
    ensures forall k :: 0 <= k < BZ_MAX_CODE_LEN ==> limit[k] == 0
  {
    var i := 0;
    while i < BZ_MAX_CODE_LEN
      invariant 0 <= i <= BZ_MAX_CODE_LEN && forall k :: 0 <= k < i ==> limit[k] == 0
    {
      limit[i] := 0;
      i := i + 1;
    }
  }

  method FillLimit(limit: array<int>, base: array<int>, ghost len: seq<int>, minLen: nat, maxLen: nat)
    requires limit.Length == base.Length == BZ_MAX_ALPHA_SIZE && limit != base && Lengths(len) && 1 <= minLen <= maxLen <= LONGEST
    requires (forall i :: 0 <= i < |len| ==> minLen <= len[i] <= maxLen) && forall k :: 0 <= k < BZ_MAX_CODE_LEN ==> base[k] == Below(len, k)
    modifies limit
    ensures forall n: nat :: minLen <= n <= maxLen ==> limit[n] == First(len, n) + Count(len, n) - 1
    ensures forall n :: maxLen < n <= LONGEST ==> limit[n] == 0
  {
    CumulatedIs(len, base[..]);
    NothingShorter(len, minLen);
    hide *;
    ClearLimit(limit);
    LimitedNone(len, limit[..], minLen, maxLen);
    FillLimits(limit, base, len, minLen, maxLen);
    LimitedAll(len, limit[..], minLen, maxLen);
  }

  method FillLimits(limit: array<int>, base: array<int>, ghost len: seq<int>, minLen: nat, maxLen: nat)
    requires limit.Length == base.Length == BZ_MAX_ALPHA_SIZE && limit != base && minLen <= maxLen <= LONGEST
    requires Cumulated(len, base[..]) && LimitedTo(len, limit[..], minLen, maxLen, minLen) && First(len, minLen) == 0
    modifies limit
    ensures LimitedTo(len, limit[..], minLen, maxLen, maxLen + 1)
  {
    assert BZ_MAX_ALPHA_SIZE == 258 && LONGEST == 20;
    hide *;
    var vec, i := 0, minLen;
    while i <= maxLen
      invariant minLen <= i <= maxLen + 1 && vec == First(len, i) && LimitedTo(len, limit[..], minLen, maxLen, i)
    {
      FirstNext(len, i);
      CountAt(len, base[..], i);
      vec := vec + (base[i + 1] - base[i]);
      LimitedOne(len, limit[..], minLen, maxLen, i);
      limit[i] := vec - 1;
      vec := vec * 2;
      i := i + 1;
    }
  }

  /** base counts the symbols with lengths below k. */
  ghost predicate Cumulated(len: seq<int>, base: seq<int>) {
    |base| == BZ_MAX_ALPHA_SIZE && forall k :: 0 <= k < BZ_MAX_CODE_LEN ==> base[k] == Below(len, k)
  }

  lemma CumulatedIs(len: seq<int>, base: seq<int>)
    requires |base| == BZ_MAX_ALPHA_SIZE && forall k :: 0 <= k < BZ_MAX_CODE_LEN ==> base[k] == Below(len, k)
    ensures Cumulated(len, base)
  {
    hide Below;
  }

  lemma CountAt(len: seq<int>, base: seq<int>, k: nat)
    requires Cumulated(len, base) && k <= LONGEST
    ensures k + 1 < |base| && base[k + 1] - base[k] == Count(len, k)
  {
    hide Below;
  }

  /** The limits of the lengths before i are set, those beyond the longest are zero. */
  ghost predicate LimitedTo(len: seq<int>, limit: seq<int>, minLen: nat, maxLen: nat, i: nat) {
    |limit| == BZ_MAX_ALPHA_SIZE && minLen <= i <= maxLen + 1 <= LONGEST + 1
    && (forall n: nat :: minLen <= n < i ==> limit[n] == First(len, n) + Count(len, n) - 1)
    && forall n :: maxLen < n <= LONGEST ==> limit[n] == 0
  }

  lemma LimitedNone(len: seq<int>, limit: seq<int>, minLen: nat, maxLen: nat)
    requires |limit| == BZ_MAX_ALPHA_SIZE && minLen <= maxLen <= LONGEST && forall k :: 0 <= k < BZ_MAX_CODE_LEN ==> limit[k] == 0
    ensures LimitedTo(len, limit, minLen, maxLen, minLen)
  {
  }

  lemma LimitedOne(len: seq<int>, limit: seq<int>, minLen: nat, maxLen: nat, i: nat)
    requires LimitedTo(len, limit, minLen, maxLen, i) && i <= maxLen
    ensures |limit| == BZ_MAX_ALPHA_SIZE && i < |limit| && LimitedTo(len, limit[i := First(len, i) + Count(len, i) - 1], minLen, maxLen, i + 1)
  {
    hide First, Count;
  }

  lemma LimitedAll(len: seq<int>, limit: seq<int>, minLen: nat, maxLen: nat)
    requires LimitedTo(len, limit, minLen, maxLen, maxLen + 1)
    ensures |limit| == BZ_MAX_ALPHA_SIZE && maxLen <= LONGEST
    ensures forall n: nat :: minLen <= n <= maxLen ==> limit[n] == First(len, n) + Count(len, n) - 1
    ensures forall n :: maxLen < n <= LONGEST ==> limit[n] == 0
  {
    hide First, Count;
  }

  method CreateDecodeTables(limit: array<int>, base: array<int>, perm: array<int>, length: array<Byte>, minLen: nat, maxLen: nat, alphaSize: nat)
    requires limit.Length == base.Length == perm.Length == BZ_MAX_ALPHA_SIZE && limit != base && limit != perm && base != perm
    requires alphaSize <= length.Length && Lengths(length[..alphaSize]) && 1 <= minLen <= maxLen <= LONGEST
    requires (forall i :: 0 <= i < alphaSize ==> minLen <= length[i] <= maxLen) && maxLen in length[..alphaSize]
    modifies limit, base, perm
    ensures Book(length[..alphaSize], limit[..], base[..], perm[..], minLen, maxLen).Sound()
  {
    ghost var len: seq<int> := length[..alphaSize];
    FillPerm(perm, length, minLen, maxLen, alphaSize);
    CumulateBase(base, length, alphaSize);
    FillLimit(limit, base, len, minLen, maxLen);
    hide Lengths, First, Below, Count;
    Rebase(limit, base, len, minLen, maxLen);
    hide Pos;
    Tabled(len, limit[..], base[..], perm[..], minLen, maxLen);
  }

  /** Turns the counts in base into the distances between codes and listing places. */
  method Rebase(limit: array<int>, base: array<int>, ghost len: seq<int>, minLen: nat, maxLen: nat)
    requires limit.Length == base.Length == BZ_MAX_ALPHA_SIZE && limit != base && 1 <= minLen <= maxLen <= LONGEST
    requires forall i :: 0 <= i < |len| ==> minLen <= len[i] <= maxLen
    requires forall n: nat :: minLen <= n <= maxLen ==> limit[n] == First(len, n) + Count(len, n) - 1
    requires forall k :: 0 <= k < BZ_MAX_CODE_LEN ==> base[k] == Below(len, k)
    modifies base
    ensures forall n: nat :: minLen <= n <= maxLen ==> base[n] == First(len, n) - Below(len, n)
  {
    RebaseStart(len, base[..], minLen);
    assert BZ_MAX_ALPHA_SIZE == 258 && LONGEST == 20;
    hide *;
    ghost var l := limit[..];
    var i := minLen + 1;
    while i <= maxLen
      invariant minLen + 1 <= i <= maxLen + 1 && limit[..] == l && Rebased(len, base[..], minLen, i)
    {
      RebaseStep(len, base[..], minLen, i, limit[i - 1]);
      base[i] := ((limit[i - 1] + 1) * 2) - base[i];
      i := i + 1;
    }
    RebaseDone(len, base[..], minLen, maxLen);
  }

  /** Entries for the lengths before i are distances, the others still counts. */
  ghost predicate Rebased(len: seq<int>, base: seq<int>, minLen: nat, i: nat) {
    |base| == BZ_MAX_ALPHA_SIZE && i <= BZ_MAX_CODE_LEN
    && (forall k: nat :: minLen <= k < i ==> base[k] == First(len, k) - Below(len, k))
    && forall k :: i <= k < BZ_MAX_CODE_LEN ==> base[k] == Below(len, k)
  }

  lemma RebaseStart(len: seq<int>, base: seq<int>, minLen: nat)
    requires |base| == BZ_MAX_ALPHA_SIZE && 1 <= minLen <= LONGEST && forall i :: 0 <= i < |len| ==> minLen <= len[i]
    requires forall k :: 0 <= k < BZ_MAX_CODE_LEN ==> base[k] == Below(len, k)
    ensures Rebased(len, base, minLen, minLen + 1)
  {
    NothingShorter(len, minLen);
    hide Below, Count, First;
  }

  lemma RebaseStep(len: seq<int>, base: seq<int>, minLen: nat, i: nat, l: int)
    requires Rebased(len, base, minLen, i) && 0 < i < BZ_MAX_CODE_LEN && l == First(len, i - 1) + Count(len, i - 1) - 1
    ensures |base| == BZ_MAX_ALPHA_SIZE && Rebased(len, base[i := (l + 1) * 2 - base[i]], minLen, i + 1)
  {
    FirstNext(len, i - 1);
    hide Below, Count, First;
  }

  lemma RebaseDone(len: seq<int>, base: seq<int>, minLen: nat, maxLen: nat)
    requires Rebased(len, base, minLen, maxLen + 1)
    ensures |base| == BZ_MAX_ALPHA_SIZE && maxLen < |base| && forall n: nat :: minLen <= n <= maxLen ==> base[n] == First(len, n) - Below(len, n)
  {
    hide Below, First;
  }

  lemma Tabled(len: seq<int>, limit: seq<int>, base: seq<int>, perm: seq<int>, minLen: nat, maxLen: nat)
    requires Lengths(len) && |limit| == |base| == |perm| == BZ_MAX_ALPHA_SIZE && 1 <= minLen <= maxLen <= LONGEST && maxLen in len
    requires forall i :: 0 <= i < |len| ==> minLen <= len[i] <= maxLen
    requires forall n: nat :: minLen <= n <= maxLen ==> limit[n] == First(len, n) + Count(len, n) - 1
    requires forall n: nat :: minLen <= n <= maxLen ==> base[n] == First(len, n) - Below(len, n)
    requires forall n :: maxLen < n <= LONGEST ==> limit[n] == 0
    requires ListedTo(len, perm, maxLen + 1, 0)
    ensures Book(len, limit, base, perm, minLen, maxLen).Sound()
  {
    hide First, Count, Below, Pos, Lengths;
  }
}
