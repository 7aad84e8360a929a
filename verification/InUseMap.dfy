/** The maps between byte values and the numbers of the bytes a block uses. */
module InUseMap {
  import opened Common

  /** How many of the first n byte values are in use. */
  ghost function Used(inUse: seq<bool>, n: nat): (r: nat)
    requires n <= |inUse|
    ensures r <= n
  {
    if n == 0 then 0 else Used(inUse, n - 1) + if inUse[n - 1] then 1 else 0
  }

  lemma {:induction false} UsedMonotone(inUse: seq<bool>, a: nat, b: nat)
    requires a <= b <= |inUse|
    ensures Used(inUse, a) <= Used(inUse, b)
  {
    if a < b { UsedMonotone(inUse, a, b - 1); }
  }

  /** Used values have numbers below the total, and different values have different numbers. */
  lemma UsedRank(inUse: seq<bool>, a: nat, b: nat)
    requires a < b <= |inUse| && inUse[a]
    ensures Used(inUse, a) < Used(inUse, b)
  {
    UsedMonotone(inUse, a + 1, b);
  }

  /** unseqToSeq numbers the used values in order. */
  ghost predicate Numbers(inUse: seq<bool>, unseqToSeq: seq<Byte>) {
    |inUse| == |unseqToSeq| == 256 && forall c :: 0 <= c < 256 && inUse[c] ==> unseqToSeq[c] == Used(inUse, c)
  }

  /** seqToUnseq lists the used values in order. */
  ghost predicate Lists(inUse: seq<bool>, seqToUnseq: seq<Byte>) {
    |inUse| == |seqToUnseq| == 256 && forall c :: 0 <= c < 256 && inUse[c] ==> seqToUnseq[Used(inUse, c)] == c
  }

  /** The decoder's map undoes the encoder's. */
  lemma MapsInverse(inUse: seq<bool>, unseqToSeq: seq<Byte>, seqToUnseq: seq<Byte>, c: Byte)
    requires Numbers(inUse, unseqToSeq) && Lists(inUse, seqToUnseq) && inUse[c]
    ensures unseqToSeq[c] < Used(inUse, 256) && seqToUnseq[unseqToSeq[c]] == c
  {
    UsedRank(inUse, c, 256);
  }

  method MakeMapsE(inUse: array<bool>, unseqToSeq: array<Byte>) returns (nInUse: nat)
    requires inUse.Length == unseqToSeq.Length == 256
    modifies unseqToSeq
    ensures nInUse == Used(inUse[..], 256) && Numbers(inUse[..], unseqToSeq[..])
  {
    ghost var used := inUse[..];
    nInUse := 0;
    var i := 0;
    while i < 256
      invariant 0 <= i <= 256 && nInUse == Used(used, i) && inUse[..] == used
      invariant forall c :: 0 <= c < i && used[c] ==> unseqToSeq[c] == Used(used, c)
    {
      if inUse[i] {
        unseqToSeq[i] := nInUse;
        nInUse := nInUse + 1;
      }
      i := i + 1;
    }
  }

  method MakeMapsD(inUse: array<bool>, seqToUnseq: array<Byte>) returns (nInUse: nat)
    requires inUse.Length == seqToUnseq.Length == 256
    modifies seqToUnseq
    ensures nInUse == Used(inUse[..], 256) && Lists(inUse[..], seqToUnseq[..])
  {
    ghost var used := inUse[..];
    nInUse := 0;
    var i := 0;
    while i < 256
      invariant 0 <= i <= 256 && nInUse == Used(used, i) && inUse[..] == used
      invariant forall c {:trigger Used(used, c)} :: 0 <= c < i && used[c] ==> Used(used, c) < nInUse && seqToUnseq[Used(used, c)] == c
    {
      if inUse[i] {
        seqToUnseq[nInUse] := i;
        nInUse := nInUse + 1;
      }
      i := i + 1;
    }
  }
}
