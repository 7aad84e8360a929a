/** The fixed codes (section 3.2.6 of RFC 1951) and the decoding tables for them. */
module FixedCodes {
  import opened Common
  import B = BitStream
  import opened InflateCodes
  import opened DeflateCodes
  import opened InflateTables

  /** The first m bits. */
  lemma ValueOfFirst(s: seq<bool>, m: nat)
    requires m <= |s|
    ensures B.Value(s) / Pow2(|s| - m) == B.Value(s[..m])
  {
    hide B.Value;
    assert s == s[..m] + s[m..];
    B.ValueConcat(s[..m], s[m..]);
    B.ValueBound(s[m..]);
    DivModUnique(B.Value(s), Pow2(|s| - m), B.Value(s[..m]), B.Value(s[m..]));
  }

  /** The low bits of an index are the first bits of what it stands for. */
  lemma {:induction false} BitsMod(i: nat, n: nat, m: nat)
    requires m <= n
    ensures BitsOf(i, n)[..m] == BitsOf(i % Pow2(m), m)
  {
    if m > 0 {
      BitsMod(i / 2, n - 1, m - 1);
      var p, q := Pow2(m - 1), i / Pow2(m);
      var r := i % Pow2(m);
      assert i == q * (2 * p) + r;
      assert i == 2 * (q * p) + r;
      assert r / 2 < p;
      DivModUnique(i / 2, p, q, r / 2);
      assert r % 2 == i % 2;
    }
  }

  /** How long the code of a symbol is, and its value. */
  function FixedLength(sym: nat): nat {
    if sym < 144 then 8 else if sym < 256 then 9 else if sym < 280 then 7 else 8
  }

  function FixedValue(sym: nat): nat
    requires sym < 288
  {
    if sym < 144 then 0x30 + sym else if sym < 256 then 0x190 + (sym - 144) else if sym < 280 then sym - 256 else 0xc0 + (sym - 280)
  }

  /** Codes have their most significant bit first, unlike everything else in the stream. */
  function FixedBook(): Book {
    Book(seq(288, i requires 0 <= i < 288 => B.BitsOf(FixedValue(i), FixedLength(i))), seq(32, i requires 0 <= i < 32 => B.BitsOf(i, 5)))
  }

  /** The symbol that nine bits begin with. */
  function FixedSymbol(r: nat): (sym: nat)
    requires r < 512
    ensures sym < 288
  {
    if r / 4 < 24 then 256 + r / 4 else if r / 2 < 0xc0 then r / 2 - 0x30 else if r / 2 < 0xc8 then 280 + (r / 2 - 0xc0) else 144 + (r - 0x190)
  }

  function FixedEntry(i: nat): Code
    requires i < 512
  {
    var r := B.Value(BitsOf(i, 9));
    B.ValueBound(BitsOf(i, 9));
    assert Pow2(9) == 512;
    var sym := FixedSymbol(r);
    Code(LengthOp(sym), FixedLength(sym), LengthVal(sym))
  }

  function FixedDistance(i: nat): Code {
    var sym := B.Value(BitsOf(i, 5));
    Code(DistanceOp(sym), 5, DistanceVal(sym))
  }

  /** lenfix and distfix. */
  function FixedTables(): Tables {
    Tables(seq(512, i requires 0 <= i < 512 => FixedEntry(i)), 9, seq(32, i requires 0 <= i < 32 => FixedDistance(i)), 5)
  }

  lemma Powers()
    ensures Pow2(0) == 1 && Pow2(1) == 2 && Pow2(2) == 4 && Pow2(3) == 8 && Pow2(4) == 16 && Pow2(5) == 32 && Pow2(6) == 64
    ensures Pow2(7) == 128 && Pow2(8) == 256 && Pow2(9) == 512 && Pow2(10) == 1024 && Pow2(11) == 2048 && Pow2(12) == 4096 && Pow2(13) == 8192
  {
    assert Pow2(4) == 16;
    Pow2Add(4, 4);
    Pow2Add(8, 4);
  }

  lemma EntryOk(sym: nat, n: nat)
    requires sym < 288
    ensures Code(LengthOp(sym), n, LengthVal(sym)).LengthOk() && !Code(LengthOp(sym), n, LengthVal(sym)).Link()
  {
    Powers();
    hide Pow2;
  }

  lemma DistanceEntryOk(sym: nat, n: nat)
    ensures Code(DistanceOp(sym), n, DistanceVal(sym)).DistanceOk() && !Code(DistanceOp(sym), n, DistanceVal(sym)).Link()
  {
    Powers();
    hide Pow2;
  }

  /** The fixed tables fit the decoder. */
  lemma FixedValid()
    ensures FixedTables().Valid() && FixedBook().Valid()
  {
    Powers();
    hide Pow2;
    var c := FixedTables();
    forall i | 0 <= i < 512 ensures Entry(c.lcode, c.lcode[i], 9, 15) && c.lcode[i].LengthOk() {
      hide FixedSymbol, LengthOp, LengthVal;
      B.ValueBound(BitsOf(i, 9));
      var sym := FixedSymbol(B.Value(BitsOf(i, 9)));
      EntryOk(sym, FixedLength(sym));
    }
    forall i | 0 <= i < 32 ensures Entry(c.dcode, c.dcode[i], 5, 15) && c.dcode[i].DistanceOk() {
      hide DistanceOp, DistanceVal;
      DistanceEntryOk(B.Value(BitsOf(i, 5)), 5);
    }
  }

  /** An index that begins with a code stands for bits that begin with it. */
  lemma IndexBegins(i: nat, n: nat, v: nat, m: nat)
    requires m <= n && v < Pow2(m) && i < Pow2(n) && i % Pow2(m) == Number(B.BitsOf(v, m))
    ensures B.Value(BitsOf(i, n)) / Pow2(n - m) == v
  {
    BitsMod(i, n, m);
    BitsOfNumber(B.BitsOf(v, m));
    B.ValueOfBits(v, m);
    ValueOfFirst(BitsOf(i, n), m);
  }

  lemma SymbolOf(sym: nat, r: nat)
    requires sym < 288 && r < 512
    requires r / (if FixedLength(sym) == 7 then 4 else if FixedLength(sym) == 8 then 2 else 1) == FixedValue(sym)
    ensures FixedSymbol(r) == sym
  {
  }

  lemma FixedFilled(sym: nat)
    requires sym < 288
    ensures Filled(FixedTables().lcode, 0, 9, B.BitsOf(FixedValue(sym), FixedLength(sym)), LengthOp(sym), LengthVal(sym))
  {
    Powers();
    var n, v := FixedLength(sym), FixedValue(sym);
    hide Pow2, Number, B.Value, BitsOf, LengthOp, LengthVal, FixedSymbol;
    forall i | 0 <= i < 512 && i % Pow2(n) == Number(B.BitsOf(v, n)) ensures FixedTables().lcode[i] == Code(LengthOp(sym), n, LengthVal(sym)) {
      IndexBegins(i, 9, v, n);
      B.ValueBound(BitsOf(i, 9));
      SymbolOf(sym, B.Value(BitsOf(i, 9)));
    }
  }

  lemma FixedDistanceFilled(sym: nat)
    requires sym < 32
    ensures Filled(FixedTables().dcode, 0, 5, B.BitsOf(sym, 5), DistanceOp(sym), DistanceVal(sym))
  {
    Powers();
    hide Pow2, Number, B.Value, BitsOf, DistanceOp, DistanceVal;
    forall i | 0 <= i < 32 && i % Pow2(5) == Number(B.BitsOf(sym, 5)) ensures FixedTables().dcode[i] == Code(DistanceOp(sym), 5, DistanceVal(sym)) {
      IndexBegins(i, 5, sym, 5);
    }
  }

  /** They are the tables of the fixed codes, and these have a word for every literal and match the format allows. */
  lemma FixedBuilt()
    ensures Built(FixedTables(), FixedBook()) && Full(FixedBook())
  {
    var c, book := FixedTables(), FixedBook();
    FixedValid();
    forall i | 0 <= i < 288 ensures LaidOut(c.lcode, 9, book.l[i], LengthOp(i), LengthVal(i)) {
      FixedFilled(i);
      hide Filled, FixedValue, LengthOp, LengthVal;
    }
    forall i | 0 <= i < 32 ensures LaidOut(c.dcode, 5, book.d[i], DistanceOp(i), DistanceVal(i)) {
      FixedDistanceFilled(i);
      hide Filled, DistanceOp, DistanceVal;
    }
  }
}
