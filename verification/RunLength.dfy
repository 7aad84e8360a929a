/** The first run-length stage of bzlib.c: what a block expands to, and why encoded runs expand back to themselves. */
module RunLength {
  import opened Common

  function Repeat(c: Byte, n: nat): (r: seq<Byte>)
    ensures |r| == n && forall i :: 0 <= i < n ==> r[i] == c
  {
    seq(n, _ => c)
  }

  /** What the decoder makes of a block: the bytes it writes, and whether the block was well formed. */
  datatype Expansion = Expansion(bytes: seq<Byte>, ok: bool)

  function After(prefix: seq<Byte>, e: Expansion): Expansion {
    Expansion(prefix + e.bytes, e.ok)
  }

  /** Four equal bytes are followed by a count of further copies. When the block ends before the count, the decoder
      takes the byte its walk comes to next (wrap) for a count and reports the data as corrupt afterwards. */
  function Expand(b: seq<Byte>, wrap: Byte): Expansion {
    if b == [] then Expansion([], true)
    else if |b| >= 4 && b[0] == b[1] == b[2] == b[3] then
      if |b| == 4 then Expansion(Repeat(b[0], wrap as nat + 4), false)
      else After(Repeat(b[0], b[4] as nat + 4), Expand(b[5..], wrap))
    else After([b[0]], Expand(b[1..], wrap))
  }

  /** A run of len copies of ch. */
  datatype Pair = Pair(ch: Byte, len: int)

  /** How add_pair_to_block stores a run. */
  function EncodePair(p: Pair): (r: seq<Byte>)
    requires 1 <= p.len <= 255
  {
    if p.len < 4 then Repeat(p.ch, p.len) else Repeat(p.ch, 4) + [p.len - 4]
  }

  ghost predicate AllRuns(ps: seq<Pair>) {
    forall i :: 0 <= i < |ps| ==> 1 <= ps[i].len <= 255
  }

  /** Neighbouring runs differ, unless the first was cut at the maximum length. */
  ghost predicate Separate(ps: seq<Pair>) {
    forall i, j :: 0 <= i && j == i + 1 && j < |ps| ==> ps[i].ch != ps[j].ch || ps[i].len == 255
  }

  ghost function Encode(ps: seq<Pair>): seq<Byte>
    requires AllRuns(ps)
  {
    if ps == [] then [] else EncodePair(ps[0]) + Encode(ps[1..])
  }

  ghost function Plain(ps: seq<Pair>): seq<Byte>
    requires AllRuns(ps)
  {
    if ps == [] then [] else Repeat(ps[0].ch, ps[0].len) + Plain(ps[1..])
  }

  /** Separate runs are recovered exactly, whatever the byte after the block. */
  lemma {:induction false} ExpandEncode(ps: seq<Pair>, wrap: Byte)
    requires AllRuns(ps) && Separate(ps)
    ensures Expand(Encode(ps), wrap) == Expansion(Plain(ps), true)
  {
    if ps != [] {
      var p, rest := ps[0], Encode(ps[1..]);
      ExpandEncode(ps[1..], wrap);
      if p.len < 4 {
        if |ps| > 1 { FirstByte(ps[1..]); assert ps[1].ch != p.ch; }
        ExpandShort(p.ch, p.len, rest, wrap);
      } else {
        ExpandLong(p.ch, p.len - 4, rest, wrap);
        assert Repeat(p.ch, 4) + [(p.len - 4) as Byte] + rest == EncodePair(p) + rest;
      }
    }
  }

  lemma FirstByte(ps: seq<Pair>)
    requires AllRuns(ps) && ps != []
    ensures Encode(ps) != [] && Encode(ps)[0] == ps[0].ch
  {
  }

  /** A short run before a different byte expands to itself. */
  lemma {:induction false} ExpandShort(c: Byte, n: nat, rest: seq<Byte>, wrap: Byte)
    requires n < 4 && (rest != [] ==> rest[0] != c)
    ensures Expand(Repeat(c, n) + rest, wrap) == After(Repeat(c, n), Expand(rest, wrap))
  {
    var b := Repeat(c, n) + rest;
    if n == 0 {
      assert b == rest;
      assert [] + Expand(rest, wrap).bytes == Expand(rest, wrap).bytes;
    } else {
      ExpandShort(c, n - 1, rest, wrap);
      assert b[1..] == Repeat(c, n - 1) + rest;
      assert b[0] == c && (rest != [] ==> b[n] == rest[0]);
      assert Expand(b, wrap) == After([c], Expand(b[1..], wrap));
      hide Expand;
      var e := Expand(rest, wrap).bytes;
      assert [c] + (Repeat(c, n - 1) + e) == Repeat(c, n) + e;
    }
  }

  lemma ExpandLong(c: Byte, n: Byte, rest: seq<Byte>, wrap: Byte)
    ensures Expand(Repeat(c, 4) + [n] + rest, wrap) == After(Repeat(c, n as nat + 4), Expand(rest, wrap))
  {
    var b := Repeat(c, 4) + [n] + rest;
    assert b[5..] == rest && b[4] == n && b[0] == c;
  }

  lemma {:induction false} EncodeAppend(ps: seq<Pair>, p: Pair)
    requires AllRuns(ps) && 1 <= p.len <= 255
    ensures AllRuns(ps + [p]) && Encode(ps + [p]) == Encode(ps) + EncodePair(p)
    ensures Plain(ps + [p]) == Plain(ps) + Repeat(p.ch, p.len)
  {
    var qs := ps + [p];
    if ps == [] {
      assert qs[1..] == [];
    } else {
      EncodeAppend(ps[1..], p);
      assert qs[1..] == ps[1..] + [p] && qs[0] == ps[0];
    }
  }

  /** The bytes a sequence of finished blocks expands to. */
  ghost function ExpandAll(blocks: seq<seq<Byte>>): seq<Byte> {
    if blocks == [] then []
    else ExpandAll(blocks[..|blocks| - 1]) + Expand(blocks[|blocks| - 1], 0).bytes
  }
}
