/** Literals and distance/length pairs, and what they expand to (section 3.2.3 of RFC 1951). */
module Lz77 {
  type byte = bv8

  datatype Token = Lit(b: byte) | Match(dist: nat, len: nat)

  /** len bytes more, each the one dist before; the copy may run into its own output. */
  function Copied(s: seq<byte>, dist: nat, len: nat): (r: seq<byte>)
    requires 1 <= dist <= |s|
    ensures |r| == |s| + len
  {
    if len == 0 then s else
      var t := Copied(s, dist, len - 1);
      t + [t[|t| - dist]]
  }

  /** Nothing to be expanded reaches back before the beginning. */
  function Expand(ts: seq<Token>): (s: seq<byte>) {
    if ts == [] then [] else Apply(Expand(ts[..|ts| - 1]), ts[|ts| - 1])
  }

  function Apply(s: seq<byte>, t: Token): seq<byte> {
    match t
    case Lit(b) => s + [b]
    case Match(dist, len) => if 1 <= dist <= |s| then Copied(s, dist, len) else s
  }

  lemma ExpandAppend(ts: seq<Token>, t: Token)
    ensures Expand(ts + [t]) == Apply(Expand(ts), t)
  {
    assert (ts + [t])[..|ts|] == ts;
  }

  /** In data that repeat themselves dist back for len bytes, copying goes on with the data. */
  lemma {:induction false} CopyGoesOn(log: seq<byte>, a: nat, dist: nat, len: nat)
    requires 1 <= dist <= a && a + len <= |log|
    requires forall x, y :: a <= x < a + len && y == x - dist ==> log[x] == log[y]
    ensures Copied(log[..a], dist, len) == log[..a + len]
  {
    if len > 0 {
      CopyGoesOn(log, a, dist, len - 1);
      var t, k := log[..a + (len - 1)], len - 1;
      var x, y := a + k, a + k - dist;
      assert t[|t| - dist] == log[y] == log[x];
      assert log[..a + len] == t + [log[a + k]];
    }
  }

  /** Copying in two parts. */
  lemma {:induction false} CopyInParts(s: seq<byte>, dist: nat, m: nat, n: nat)
    requires 1 <= dist <= |s|
    ensures Copied(Copied(s, dist, m), dist, n) == Copied(s, dist, m + n)
  {
    if n > 0 { CopyInParts(s, dist, m, n - 1); }
  }

  /** Where a copied byte comes from. */
  lemma {:induction false} CopiedAt(s: seq<byte>, dist: nat, len: nat, k: nat)
    requires 1 <= dist <= |s| && k < |s| + len
    ensures k < |s| ==> Copied(s, dist, len)[k] == s[k]
    ensures k >= |s| ==> Copied(s, dist, len)[k] == Copied(s, dist, len)[k - dist]
  {
    if len > 0 {
      if k < |s| + len - 1 { CopiedAt(s, dist, len - 1, k); }
    }
  }
}
