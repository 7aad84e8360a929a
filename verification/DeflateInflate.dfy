/** From the matcher to the decoder: what deflate hands on, written as a block, is taken by inflate_fast and gives the input back. */
module DeflateInflate {
  import opened Lz77
  import opened InflateCodes
  import opened DeflateCodes
  import opened InflateFast
  import opened Deflate

  /** The tokens as a block in the codes of a book. */
  ghost function BlockOf(book: Book, ts: seq<Token>, rest: seq<bool>): Message
    requires Legal(ts)
  {
    Message(book, seq(|ts|, i requires 0 <= i < |ts| => assert LegalAt(ts, i); WordOf(ts[i])), rest)
  }

  lemma BlockValid(book: Book, ts: seq<Token>, rest: seq<bool>)
    requires Full(book) && Legal(ts)
    ensures BlockOf(book, ts, rest).Valid() && BlockOf(book, ts, rest).Means(|ts|) == ts
  {
    var m := BlockOf(book, ts, rest);
    forall i | 0 <= i < |ts| ensures m.words[i].Ok(book) && m.words[i].Means(book) == ts[i] {
      assert LegalAt(ts, i);
      hide Word.Ok, Word.Means, WordOf, Expand;
      WordFor(ts[i], book);
    }
    hide Word.Ok, Word.Means, WordOf;
    assert m.Means(|ts|) == ts;
  }

  /** However far inflate_fast has come in the block, it has written the beginning of the input; it never finds an error, and at the
      end of the block it has written all of it. */
  lemma InputBack(book: Book, ts: seq<Token>, rest: seq<bool>, log: seq<byte>, got: seq<Token>, k: nat, mode: Mode, past: seq<byte>)
    requires Full(book) && Legal(ts) && Expand(ts) == log
    requires Inflated(BlockOf(book, ts, rest), got, k, mode, past) && past == Extend([], got)
    ensures mode != Bad && got <= ts && past <= log && (mode == Type ==> past == log)
  {
    var m := BlockOf(book, ts, rest);
    BlockValid(book, ts, rest);
    hide BlockOf, WordOf, Word.Means, Word.Ok, Message.Valid, Message.Written, Expand;
    assert got == ts[..|got|] by {
      forall i | 0 <= i < |got| ensures got[i] == ts[i] { assert m.Means(|got|)[i] == m.Means(|ts|)[i]; }
    }
    ExtendIsExpand(got);
    ExpandGrows(ts, |got|);
    if |got| < |ts| { NotTooFar(book, ts, rest, |got|); }
  }

  lemma NotTooFar(book: Book, ts: seq<Token>, rest: seq<bool>, n: nat)
    requires Full(book) && Legal(ts) && n < |ts|
    ensures BlockOf(book, ts, rest).Valid() && !TooFar(BlockOf(book, ts, rest).words[n].Means(book), Expand(ts[..n]))
  {
    BlockValid(book, ts, rest);
    assert LegalAt(ts, n);
    hide WordOf, Word.Means, Word.Ok, Expand, Message.Valid;
    var m := BlockOf(book, ts, rest);
    assert m.Means(|ts|)[n] == m.words[n].Means(book);
  }

  lemma {:induction false} ExpandGrows(ts: seq<Token>, n: nat)
    requires n <= |ts|
    ensures Expand(ts[..n]) <= Expand(ts)
  {
    if n == |ts| {
      assert ts[..n] == ts;
    } else {
      var front := ts[..|ts| - 1];
      ExpandGrows(front, n);
      assert front[..n] == ts[..n];
      ApplyGrows(Expand(front), ts[|ts| - 1]);
    }
  }

  lemma ApplyGrows(s: seq<byte>, t: Token)
    ensures s <= Apply(s, t)
  {
    if t.Match? && 1 <= t.dist <= |s| { CopiedGrows(s, t.dist, t.len); }
  }

  lemma {:induction false} CopiedGrows(s: seq<byte>, dist: nat, len: nat)
    requires 1 <= dist <= |s|
    ensures s <= Copied(s, dist, len)
  {
    if len > 0 { CopiedGrows(s, dist, len - 1); }
  }
}
