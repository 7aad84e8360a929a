/** What a string of move-to-front symbols means: the byte column it stands for. Symbols 0 and 1 (RUNA and RUNB) are the
    digits of a run of the list's front entry, symbol s > 1 fetches entry s - 1 and moves it to the front. */
module MtfCoding {
  import opened Common
  import opened RunLength
  import opened MtfTable

  const BZ_RUNA := 0
  const BZ_RUNB := 1

  /** A reader of symbols: its list, the column so far and the weight of the next run digit. */
  datatype Reading = Reading(list: seq<Byte>, column: seq<Byte>, weight: nat)

  ghost predicate Symbols(syms: seq<int>, top: int) {
    forall k :: 0 <= k < |syms| ==> 0 <= syms[k] <= top
  }

  function Step(m: Reading, sym: int): (m': Reading)
    requires |m.list| == 256 && 0 <= sym <= 256
    ensures |m'.list| == 256
  {
    if sym <= BZ_RUNB then Reading(m.list, m.column + Repeat(m.list[0], (sym + 1) * m.weight), 2 * m.weight)
    else Reading(MoveFront(m.list, sym - 1), m.column + [m.list[sym - 1]], 1)
  }

  ghost function Meaning(syms: seq<int>): (m: Reading)
    requires Symbols(syms, 256)
    ensures |m.list| == 256
  {
    if syms == [] then Reading(Identity(), [], 1) else Step(Meaning(syms[..|syms| - 1]), syms[|syms| - 1])
  }

  lemma MeaningAppend(syms: seq<int>, sym: int)
    requires Symbols(syms, 256) && 0 <= sym <= 256
    ensures Symbols(syms + [sym], 256) && Meaning(syms + [sym]) == Step(Meaning(syms), sym)
  {
    assert (syms + [sym])[..|syms|] == syms;
  }

  /** The weight outgrows the column only by one: a run cannot be heavier than what it has produced. */
  lemma {:induction false} WeightBound(syms: seq<int>)
    requires Symbols(syms, 256)
    ensures 1 <= Meaning(syms).weight <= |Meaning(syms).column| + 1
  {
    if syms != [] {
      var m, sym := Meaning(syms[..|syms| - 1]), syms[|syms| - 1];
      WeightBound(syms[..|syms| - 1]);
      if sym == BZ_RUNB { assert (sym + 1) * m.weight == 2 * m.weight; }
    }
  }

  /** More symbols, more column. */
  lemma {:induction false} ColumnGrows(syms: seq<int>, i: int, j: int)
    requires Symbols(syms, 256) && 0 <= i <= j <= |syms|
    ensures Meaning(syms[..i]).column <= Meaning(syms[..j]).column
  {
    if i < j {
      ColumnGrows(syms, i, j - 1);
      assert syms[..j][..j - 1] == syms[..j - 1];
    }
  }

  // ---- runs ----

  /** The value of run digits, least significant first: a bijective base-two numeral. */
  function RunValue(run: seq<int>): nat
    requires Symbols(run, 1)
  {
    if run == [] then 0 else run[0] + 1 + 2 * RunValue(run[1..])
  }

  /** The digits of a run of length z. */
  function RunCode(z: nat): (run: seq<int>)
    ensures Symbols(run, 1) && |run| <= z
  {
    if z == 0 then [] else [(z - 1) % 2] + RunCode((z - 1) / 2)
  }

  lemma {:induction false} RunCodeValue(z: nat)
    ensures RunValue(RunCode(z)) == z
  {
    if z > 0 {
      var run := RunCode((z - 1) / 2);
      assert RunCode(z)[1..] == run;
      RunCodeValue((z - 1) / 2);
    }
  }

  lemma {:induction false} RunCodeUnique(run: seq<int>)
    requires Symbols(run, 1)
    ensures RunCode(RunValue(run)) == run
  {
    if run != [] {
      RunCodeUnique(run[1..]);
      assert (RunValue(run) - 1) / 2 == RunValue(run[1..]);
      assert run == [run[0]] + run[1..];
    }
  }

  lemma RepeatAdd(c: Byte, a: nat, b: nat)
    ensures Repeat(c, a) + Repeat(c, b) == Repeat(c, a + b)
  {
  }

  /** Reading digits after a heavier start adds as many front entries as their value says. */
  lemma {:induction false} RunMeaning(syms: seq<int>, run: seq<int>)
    requires Symbols(syms, 256) && Symbols(run, 1)
    ensures Symbols(syms + run, 256)
    ensures var m := Meaning(syms); var m' := Meaning(syms + run);
            m'.list == m.list && m'.column == m.column + Repeat(m.list[0], RunValue(run) * m.weight)
    decreases |run|
  {
    var m := Meaning(syms);
    if run == [] {
      assert syms + run == syms;
      assert m.column + Repeat(m.list[0], 0) == m.column;
    } else {
      var d, rest := run[0], RunValue(run[1..]);
      assert RunValue(run) == d + 1 + 2 * rest;
      hide Meaning, Repeat, RunValue;
      MeaningAppend(syms, d);
      RunMeaning(syms + [d], run[1..]);
      assert syms + [d] + run[1..] == syms + run;
      RunJoined(m.column, m.list[0], d, rest, m.weight);
    }
  }

  /** A run's first symbol and the rest of it, whose symbols weigh twice as much. */
  lemma RunJoined(column: seq<Byte>, c: Byte, d: int, rest: nat, w: nat)
    requires 0 <= d
    ensures (d + 1) * w >= 0 && rest * (2 * w) >= 0 && (d + 1 + 2 * rest) * w >= 0
    ensures column + Repeat(c, (d + 1) * w) + Repeat(c, rest * (2 * w)) == column + Repeat(c, (d + 1 + 2 * rest) * w)
  {
    hide *;
    RunWeight(d, rest, w);
    var a, b := (d + 1) * w, rest * (2 * w);
    RepeatAdd(c, a, b);
    assert column + Repeat(c, a) + Repeat(c, b) == column + (Repeat(c, a) + Repeat(c, b));
  }

  lemma RunWeight(d: int, rest: nat, w: nat)
    requires 0 <= d
    ensures (d + 1 + 2 * rest) * w == (d + 1) * w + rest * (2 * w) && (d + 1) * w >= 0 && rest * (2 * w) >= 0
  {
  }
}
