/**
  The gradation calculator: from the input table (a partial weight and a
  typed cumulative-passing entry per sieve) to retained, cumulative-retained
  and passing percentages per sieve. The mode is chosen once for the whole
  table: by weight when the weights sum to more than zero, otherwise by
  passing entries when any entry is filled in, otherwise there is no table.
 */
module Gradation {
  import opened Wrappers
  import opened Percent
  import opened Series

  /** What was typed into the cumulative-passing cell. */
  datatype Entry = Blank | Number(x: real) | Text

  /** One input row: sieve designation, partial weight in grams, passing entry. */
  datatype InputRow = InputRow(sieve: string, weight: Option<real>, entry: Entry)

  /** One computed row; every percentage is rounded to two decimals. */
  datatype Row = Row(sieve: string, retained: Pct, cumulative: Pct, passing: Pct)

  datatype Mode = ByWeight | ByPassing

  /** The computed table with the mode that produced it, or nothing to compute from. */
  datatype Gradation = Table(mode: Mode, rows: seq<Row>) | NoData

  /** The weight column; an empty cell is NaN. */
  function Weights(input: seq<InputRow>): (r: Column)
    ensures |r| == |input|
    ensures forall i :: 0 <= i < |input| ==> (r[i].Num? <==> input[i].weight.Some?)
    ensures forall i :: 0 <= i < |input| && input[i].weight.Some? ==> r[i] == Num(input[i].weight.value)
  {
    seq(|input|, i requires 0 <= i < |input| =>
      if input[i].weight.Some? then Num(input[i].weight.value) else NaN)
  }

  /** No row gives a weight. */
  predicate NoWeight(input: seq<InputRow>) {
    forall i :: 0 <= i < |input| ==> input[i].weight.None?
  }

  /** No weight given is negative. */
  predicate NoNegativeWeight(input: seq<InputRow>) {
    forall i :: 0 <= i < |input| && input[i].weight.Some? ==> input[i].weight.value >= 0.0
  }

  /** Some row gives a positive weight. */
  predicate SomePositiveWeight(input: seq<InputRow>) {
    exists k :: 0 <= k < |input| && input[k].weight.Some? && input[k].weight.value > 0.0
  }

  /**
    Sum of the weights given, empty cells skipped: 0 when no weight is
    given, and never negative when no weight is negative.
   */
  function TotalWeight(input: seq<InputRow>): (t: real)
    ensures NoWeight(input) ==> t == 0.0
    ensures NoNegativeWeight(input) ==> t >= 0.0
  {
    var ws := Weights(input);
    if NoWeight(input) then
      SumNoNumbers(ws);
      Sum(ws)
    else if NoNegativeWeight(input) then
      assert forall k :: 0 <= k < |ws| ==> Val(ws[k]) >= 0.0;
      SumPositive(ws);
      Sum(ws)
    else
      Sum(ws)
  }

  /**
    With no negative weight the total is positive exactly when some weight
    is, so weight mode is chosen exactly when some sieve retained a
    positive weight.
   */
  lemma TotalWeightPositive(input: seq<InputRow>)
    requires NoNegativeWeight(input)
    ensures TotalWeight(input) > 0.0 <==> SomePositiveWeight(input)
  {
    var ws := Weights(input);
    assert forall k :: 0 <= k < |ws| ==> Val(ws[k]) >= 0.0;
    SumPositive(ws);
    if SomePositiveWeight(input) {
      var k :| 0 <= k < |input| && input[k].weight.Some? && input[k].weight.value > 0.0;
      assert Val(ws[k]) > 0.0;
    }
    if exists k :: 0 <= k < |ws| && Val(ws[k]) > 0.0 {
      var k :| 0 <= k < |ws| && Val(ws[k]) > 0.0;
      assert input[k].weight.Some? && input[k].weight.value > 0.0;
    }
  }

  /** Numeric coercion of the passing entries: text and blanks become NaN. */
  function Coerce(input: seq<InputRow>): (r: Column)
    ensures |r| == |input|
    ensures forall i :: 0 <= i < |input| ==> (r[i].Num? <==> input[i].entry.Number?)
    ensures forall i :: 0 <= i < |input| && input[i].entry.Number? ==> r[i].v == input[i].entry.x
  {
    seq(|input|, i requires 0 <= i < |input| =>
      if input[i].entry.Number? then Num(input[i].entry.x) else NaN)
  }

  /** Some passing cell holds anything at all, numeric or not. */
  predicate AnyEntry(input: seq<InputRow>) {
    exists i :: 0 <= i < |input| && !input[i].entry.Blank?
  }

  function Assemble(input: seq<InputRow>, retained: Column, cumulative: Column, passing: Column): (rows: seq<Row>)
    requires |retained| == |cumulative| == |passing| == |input|
    ensures |rows| == |input|
    ensures forall i :: 0 <= i < |input| ==>
      rows[i] == Row(input[i].sieve, retained[i], cumulative[i], passing[i])
  {
    seq(|input|, i requires 0 <= i < |input| =>
      Row(input[i].sieve, retained[i], cumulative[i], passing[i]))
  }

  function RetainedOf(rows: seq<Row>): (r: Column)
    ensures |r| == |rows| && forall i :: 0 <= i < |rows| ==> r[i] == rows[i].retained
  {
    seq(|rows|, i requires 0 <= i < |rows| => rows[i].retained)
  }

  function PassingOf(rows: seq<Row>): (r: Column)
    ensures |r| == |rows| && forall i :: 0 <= i < |rows| ==> r[i] == rows[i].passing
  {
    seq(|rows|, i requires 0 <= i < |rows| => rows[i].passing)
  }

  /** Weight mode's retained column: each weight as a rounded percentage of the total. */
  function WeightRetained(input: seq<InputRow>): (r: Column)
    requires TotalWeight(input) > 0.0
    ensures |r| == |input| && AllCents(r)
  {
    RoundCol(Percentage(Weights(input), TotalWeight(input)))
  }

  /** Weight mode's cumulative column: the rounded running sum of the retained column. */
  function WeightCumulative(input: seq<InputRow>): (r: Column)
    requires TotalWeight(input) > 0.0
    ensures |r| == |input| && AllCents(r)
  {
    RoundCol(CumSum(WeightRetained(input)))
  }

  /** Weight mode's passing column: the rounded complement of the cumulative column. */
  function WeightPassing(input: seq<InputRow>): (r: Column)
    requires TotalWeight(input) > 0.0
    ensures |r| == |input|
  {
    RoundCol(Complement(WeightCumulative(input)))
  }

  /** Weight mode, one row: neither rounding of the running sum nor of its complement moves it. */
  lemma WeightCell(input: seq<InputRow>, i: nat)
    requires TotalWeight(input) > 0.0 && i < |input|
    ensures input[i].weight.None? ==>
      WeightRetained(input)[i] == NaN && WeightCumulative(input)[i] == NaN && WeightPassing(input)[i] == NaN
    ensures input[i].weight.Some? ==>
      WeightRetained(input)[i] == Num(Round2(input[i].weight.value / TotalWeight(input) * 100.0))
    ensures input[i].weight.Some? ==>
      && WeightCumulative(input)[i] == Num(Sum(WeightRetained(input)[..i + 1]))
      && WeightPassing(input)[i] == Num(100.0 - WeightCumulative(input)[i].v)
  {
    var retained := WeightRetained(input);
    RoundedCumSumAt(retained, i);
    if input[i].weight.Some? {
      RoundedComplementAt(WeightCumulative(input), i);
    }
  }

  /** `WeightCell` for every row at once, column by column. */
  lemma WeightCells(input: seq<InputRow>)
    requires TotalWeight(input) > 0.0
    ensures forall i :: 0 <= i < |input| && input[i].weight.None? ==>
      WeightRetained(input)[i] == NaN && WeightCumulative(input)[i] == NaN && WeightPassing(input)[i] == NaN
    ensures forall i :: 0 <= i < |input| && input[i].weight.Some? ==>
      WeightRetained(input)[i] == Num(Round2(input[i].weight.value / TotalWeight(input) * 100.0))
    ensures forall i :: 0 <= i < |input| && input[i].weight.Some? ==>
      && WeightCumulative(input)[i] == Num(Sum(WeightRetained(input)[..i + 1]))
      && WeightPassing(input)[i] == Num(100.0 - WeightCumulative(input)[i].v)
  {
    forall i | 0 <= i < |input| {
      WeightCell(input, i);
    }
  }

  /**
    Weight mode: each weight as a percentage of the total, the running sum
    of those already-rounded percentages, and its complement to 100, each
    column rounded. A row's retained percentage is its weight's rounded
    share (NaN without a weight); its cumulative percentage is exactly the
    running sum of the rounded retained percentages, and passing exactly its
    complement to 100; a row without a weight is NaN throughout.
   */
  function ByWeightRows(input: seq<InputRow>): (rows: seq<Row>)
    requires TotalWeight(input) > 0.0
    ensures |rows| == |input|
    ensures forall i :: 0 <= i < |input| ==> rows[i].sieve == input[i].sieve
    ensures forall i :: 0 <= i < |input| && input[i].weight.None? ==>
      rows[i].retained == NaN && rows[i].cumulative == NaN && rows[i].passing == NaN
    ensures forall i :: 0 <= i < |input| && input[i].weight.Some? ==>
      rows[i].retained == Num(Round2(input[i].weight.value / TotalWeight(input) * 100.0))
    ensures forall i {:trigger rows[i].cumulative} :: 0 <= i < |input| && input[i].weight.Some? ==>
      rows[i].cumulative == Num(Sum(RetainedOf(rows)[..i + 1]))
    ensures forall i {:trigger rows[i].passing} :: 0 <= i < |input| && input[i].weight.Some? ==>
      rows[i].passing == Num(100.0 - rows[i].cumulative.v)
  {
    WeightCells(input);
    var rows := Assemble(input, WeightRetained(input), WeightCumulative(input), WeightPassing(input));
    assert RetainedOf(rows) == WeightRetained(input);
    rows
  }

  /**
    The passing column of passing mode: entries rounded, forward-filled, 100
    above the first. A row passes the rounded last numeric entry at or
    above it, or 100 when there is none.
   */
  function FilledPassing(input: seq<InputRow>): (r: Column)
    ensures |r| == |input| && AllNum(r) && AllCents(r)
    ensures forall i :: 0 <= i < |input| && LastNum(Coerce(input), i).None? ==> r[i] == Num(100.0)
    ensures forall i :: 0 <= i < |input| && LastNum(Coerce(input), i).Some? ==>
      r[i] == Num(Round2(input[LastNum(Coerce(input), i).value].entry.x))
  {
    var c := Coerce(input);
    HundredIsCents();
    assert forall i :: 0 <= i < |input| ==>
      RoundCol(FillNa(FFill(RoundCol(c)), 100.0))[i] ==
        match LastNum(c, i) case None => Num(100.0) case Some(j) => Num(Round2(input[j].entry.x)) by {
      forall i | 0 <= i < |input|
        ensures RoundCol(FillNa(FFill(RoundCol(c)), 100.0))[i] ==
          match LastNum(c, i) case None => Num(100.0) case Some(j) => Num(Round2(input[j].entry.x))
      {
        FilledAt(c, 100.0, i);
      }
    }
    RoundCol(FillNa(FFill(RoundCol(c)), 100.0))
  }

  /** Passing mode's retained column: the rounded drop from the row above. */
  function PassingRetained(input: seq<InputRow>): (r: Column)
    ensures |r| == |input|
  {
    var passing := FilledPassing(input);
    RoundCol(Sub(Shift(passing, 100.0), passing))
  }

  /** Passing mode's cumulative column, as written: the rounded running sum of `100 - passing`. */
  function PassingCumulative(input: seq<InputRow>): (r: Column)
    ensures |r| == |input|
  {
    RoundCol(CumSum(Complement(FilledPassing(input))))
  }

  /** Passing mode, one row: no rounding moves the drop or the running sum. */
  lemma PassingCell(input: seq<InputRow>, i: nat)
    requires i < |input|
    ensures var passing := FilledPassing(input);
      && PassingRetained(input)[i] == Num((if i == 0 then 100.0 else passing[i - 1].v) - passing[i].v)
      && PassingCumulative(input)[i] == Num(Sum(Complement(passing)[..i + 1]))
  {
    var passing := FilledPassing(input);
    HundredIsCents();
    ComplementOfCents(passing);
    RoundedDropAt(passing, 100.0, i);
    RoundedCumSumAt(Complement(passing), i);
  }

  /**
    Passing mode, as written: a row passes the filled entry (the rounded
    last numeric entry at or above it, or 100), retained is the drop in
    passing from the row above and cumulative the running sum of
    `100 - passing`, each rounded.
   */
  function ByPassingRows(input: seq<InputRow>): (rows: seq<Row>)
    ensures |rows| == |input|
    ensures forall i :: 0 <= i < |input| ==>
      rows[i].sieve == input[i].sieve && rows[i].passing == FilledPassing(input)[i] && rows[i].passing.Num?
  {
    Assemble(input, PassingRetained(input), PassingCumulative(input), FilledPassing(input))
  }

  /** The gradation table computed from the input table. */
  function Compute(input: seq<InputRow>): (g: Gradation)
    ensures g.Table? && g.mode == ByWeight <==> TotalWeight(input) > 0.0
    ensures g.Table? && g.mode == ByPassing <==> TotalWeight(input) <= 0.0 && AnyEntry(input)
    ensures g.NoData? <==> TotalWeight(input) <= 0.0 && !AnyEntry(input)
    ensures g.Table? ==> |g.rows| == |input|
    ensures g.Table? ==> forall i :: 0 <= i < |input| ==> g.rows[i].sieve == input[i].sieve
  {
    if TotalWeight(input) > 0.0 then Table(ByWeight, ByWeightRows(input))
    else if AnyEntry(input) then Table(ByPassing, ByPassingRows(input))
    else NoData
  }

  // ---------------------------------------------------------------------
  // Weight mode
  // ---------------------------------------------------------------------

  /** Weight mode: passing plus cumulative is exactly 100 on every row that has a weight. */
  lemma ByWeightComplement(input: seq<InputRow>)
    requires TotalWeight(input) > 0.0
    ensures var rows := Compute(input).rows;
      forall i :: 0 <= i < |input| && input[i].weight.Some? ==>
        rows[i].passing.Num? && rows[i].cumulative.Num? &&
        rows[i].passing.v + rows[i].cumulative.v == 100.0
  {
  }

  /** Weight mode: a row passes a number exactly when it has a weight. */
  lemma ByWeightNaNRows(input: seq<InputRow>)
    requires TotalWeight(input) > 0.0
    ensures forall i :: 0 <= i < |input| ==> (ByWeightRows(input)[i].passing.Num? <==> input[i].weight.Some?)
  {
  }

  /** A non-negative weight gives a non-negative retained percentage. */
  lemma ByWeightRetainedNonNegative(input: seq<InputRow>, k: nat)
    requires TotalWeight(input) > 0.0 && k < |input|
    requires input[k].weight.Some? ==> input[k].weight.value >= 0.0
    ensures Val(ByWeightRows(input)[k].retained) >= 0.0
  {
    ByWeightRetainedAt(input, k);
    WeightCellNonNegative(ByWeightRows(input)[k].retained, input[k].weight, TotalWeight(input));
  }

  /** `cell` is the retained percentage weight mode gives a row weighing `weight` out of `total`. */
  predicate IsWeightCell(cell: Pct, weight: Option<real>, total: real)
    requires total > 0.0
  {
    if weight.Some? then cell == Num(Round2(weight.value / total * 100.0)) else cell == NaN
  }

  /** A retained cell built from a non-negative weight (or from none) is non-negative. */
  lemma WeightCellNonNegative(cell: Pct, weight: Option<real>, total: real)
    requires total > 0.0 && IsWeightCell(cell, weight, total)
    requires weight.Some? ==> weight.value >= 0.0
    ensures Val(cell) >= 0.0
  {
    if weight.Some? {
      ShareNonNegative(weight.value, total);
    }
  }

  /** The retained cell of row `k` in weight mode, read off `ByWeightRows`. */
  lemma ByWeightRetainedAt(input: seq<InputRow>, k: nat)
    requires TotalWeight(input) > 0.0 && k < |input|
    ensures IsWeightCell(ByWeightRows(input)[k].retained, input[k].weight, TotalWeight(input))
  {
  }

  /**
    Weight mode with no negative weight: retained is never negative, the
    cumulative percentage never decreases and passing never increases down
    the series (rows without a weight are NaN and are skipped).
   */
  lemma ByWeightMonotone(input: seq<InputRow>, i: nat, j: nat)
    requires TotalWeight(input) > 0.0 && NoNegativeWeight(input)
    requires i <= j < |input| && input[i].weight.Some? && input[j].weight.Some?
    ensures var rows := Compute(input).rows;
      && rows[i].retained.Num? && rows[i].cumulative.Num? && rows[i].passing.Num?
      && rows[j].cumulative.Num? && rows[j].passing.Num?
      && rows[i].retained.v >= 0.0
      && rows[i].cumulative.v <= rows[j].cumulative.v
      && rows[i].passing.v >= rows[j].passing.v
  {
    var rows := ByWeightRows(input);
    var retained := RetainedOf(rows);
    assert Sum(retained[..i + 1]) <= Sum(retained[..j + 1]) by {
      forall k | 0 <= k < |retained|
        ensures Val(retained[k]) >= 0.0
      {
        ByWeightRetainedNonNegative(input, k);
      }
      SumPrefixMonotone(retained, i + 1, j + 1);
    }
    assert rows[i].retained.v >= 0.0 by {
      ByWeightRetainedNonNegative(input, i);
    }
  }

  /**
    Weight mode with the last row weighed: its passing percentage
    is within half a hundredth per row of 0, the whole drift coming from
    rounding each retained percentage.
   */
  lemma ByWeightPanDrift(input: seq<InputRow>)
    requires TotalWeight(input) > 0.0 && |input| > 0
    requires input[|input| - 1].weight.Some?
    ensures var last := Compute(input).rows[|input| - 1];
      last.passing.Num? &&
      -0.005 * |input| as real <= last.passing.v <= 0.005 * |input| as real
  {
    var n := |input|;
    var rows := ByWeightRows(input);
    var total := TotalWeight(input);
    var pct := Percentage(Weights(input), total);
    var retained := RoundCol(pct);
    assert RetainedOf(rows) == retained;
    assert retained[..n] == retained;
    assert rows[n - 1].cumulative == Num(Sum(retained));
    SumPercentage(Weights(input), total);
    WholeIsHundredPercent(total);
    assert Sum(pct) == 100.0;
    SumRoundError(pct);
  }

  /** Three rows weighing 33.336 g, 33.336 g and 33.328 g. */
  const PanExample: seq<InputRow> := [
    InputRow("N 100", Some(33.336), Blank),
    InputRow("N 200", Some(33.336), Blank),
    InputRow("FONDO", Some(33.328), Blank)]

  /** The example weighs 100 g. */
  lemma PanExampleTotal()
    ensures TotalWeight(PanExample) == 100.0
  {
    var ws := Weights(PanExample);
    assert ws == [Num(33.336), Num(33.336), Num(33.328)];
    assert ws[1..] == [Num(33.336), Num(33.328)];
    assert ws[1..][1..] == [Num(33.328)];
    assert ws[1..][1..][1..] == [];
    assert Sum(ws[1..][1..]) == 33.328;
    assert Sum(ws[1..]) == 33.336 + 33.328;
  }

  /** The example's retained percentages round to 33.34, 33.34 and 33.33. */
  lemma PanExampleRetained()
    ensures TotalWeight(PanExample) == 100.0
    ensures RetainedOf(ByWeightRows(PanExample)) == [Num(33.34), Num(33.34), Num(33.33)]
  {
    var input := PanExample;
    PanExampleTotal();
    var rows := ByWeightRows(input);
    assert 33.336 / 100.0 * 100.0 == 33.336 && 33.328 / 100.0 * 100.0 == 33.328;
    assert Round2(33.336) == 33.34 by {
      assert (33.336 * 100.0).Floor == 3333;
    }
    assert Round2(33.328) == 33.33 by {
      assert (33.328 * 100.0).Floor == 3332;
    }
    assert rows[0].retained == Num(33.34) && rows[1].retained == Num(33.34) && rows[2].retained == Num(33.33);
  }

  /**
    On the example each retained percentage rounds away from its exact value
    in the same direction, and the pan row passes -0.01 %, below zero.
   */
  lemma PanCanPassBelowZero()
    ensures Compute(PanExample).rows[2].passing == Num(-0.01)
  {
    PanExampleRetained();
    var rows := ByWeightRows(PanExample);
    var retained := RetainedOf(rows);
    assert Sum(retained[..3]) == 100.01 by {
      assert retained[..3] == retained;
      assert retained[1..] == [Num(33.34), Num(33.33)];
      assert retained[1..][1..] == [Num(33.33)];
      assert retained[1..][1..][1..] == [];
      assert Sum(retained[1..][1..]) == 33.33;
      assert Sum(retained[1..]) == 33.34 + 33.33;
    }
    assert rows[2].cumulative == Num(100.01);
  }

  // ---------------------------------------------------------------------
  // Passing mode
  // ---------------------------------------------------------------------

  /**
    Passing mode: a row's passing percentage is the rounded value of the
    last numeric entry at or above it, and 100 when there is none.
   */
  lemma ByPassingFill(input: seq<InputRow>, i: nat)
    requires i < |input|
    ensures (forall k :: 0 <= k <= i ==> !input[k].entry.Number?) ==>
      ByPassingRows(input)[i].passing == Num(100.0)
    ensures forall j :: 0 <= j <= i && input[j].entry.Number? ==>
      (forall k :: j < k <= i ==> !input[k].entry.Number?) ==>
        ByPassingRows(input)[i].passing == Num(Round2(input[j].entry.x))
  {
    var c := Coerce(input);
    var p := ByPassingRows(input)[i].passing;
    assert p == FilledPassing(input)[i];
    match LastNum(c, i)
    case None =>
      assert p == Num(100.0);
    case Some(j) =>
      assert p == Num(Round2(input[j].entry.x));
      forall j' | 0 <= j' <= i && input[j'].entry.Number? && forall k :: j' < k <= i ==> !input[k].entry.Number?
        ensures j' == j
      {
        assert c[j].Num? && c[j'].Num?;
      }
  }

  /** A row with a numeric entry passes that entry, rounded. */
  lemma ByPassingKeepsEntries(input: seq<InputRow>, i: nat)
    requires i < |input| && input[i].entry.Number?
    ensures ByPassingRows(input)[i].passing == Num(Round2(input[i].entry.x))
  {
    ByPassingFill(input, i);
  }

  /**
    The passing-mode columns, exactly: retained is the drop in passing from
    the row above (100 above the first), and cumulative is the running sum of
    `100 - passing`; no rounding moves either.
   */
  lemma ByPassingRowFacts(input: seq<InputRow>, i: nat)
    requires i < |input|
    ensures var rows := ByPassingRows(input);
      && rows[i].passing.Num?
      && rows[i].retained == Num((if i == 0 then 100.0 else rows[i - 1].passing.v) - rows[i].passing.v)
      && rows[i].cumulative == Num(Sum(Complement(PassingOf(rows))[..i + 1]))
  {
    var rows := ByPassingRows(input);
    var passing := FilledPassing(input);
    assert PassingOf(rows) == passing;
    assert rows[i].retained == PassingRetained(input)[i] && rows[i].cumulative == PassingCumulative(input)[i];
    PassingCell(input, i);
    assert i > 0 ==> rows[i - 1].passing == passing[i - 1];
  }

  /** Passing mode: every row's retained is the drop in passing from the row above (100 above the first). */
  lemma ByPassingDrops(input: seq<InputRow>)
    ensures var rows := ByPassingRows(input);
      AllNum(PassingOf(rows)) && DropsOf(RetainedOf(rows), PassingOf(rows))
  {
    var retained, passing := PassingRetained(input), FilledPassing(input);
    forall k | 0 <= k < |input|
      ensures retained[k] == Num((if k == 0 then 100.0 else passing[k - 1].v) - passing[k].v)
    {
      PassingCell(input, k);
    }
    assert DropsOf(retained, passing);
    var rows := ByPassingRows(input);
    assert RetainedOf(rows) == retained && PassingOf(rows) == passing;
  }

  /**
    Telescoping: the retained percentages of the first k rows add up to
    100 minus the passing percentage of row k-1.
   */
  lemma ByPassingTelescopes(input: seq<InputRow>, k: nat)
    requires 0 < k <= |input|
    ensures var rows := ByPassingRows(input);
      rows[k - 1].passing.Num? && Sum(RetainedOf(rows)[..k]) == 100.0 - rows[k - 1].passing.v
  {
    var rows := ByPassingRows(input);
    ByPassingDrops(input);
    SumOfDrops(RetainedOf(rows), PassingOf(rows), k);
  }

  /** With numeric entries of at most 100, no row passes more than 100. */
  lemma ByPassingAtMostHundred(input: seq<InputRow>, m: nat)
    requires forall k :: 0 <= k < |input| && input[k].entry.Number? ==> input[k].entry.x <= 100.0
    requires m < |input|
    ensures ByPassingRows(input)[m].passing.Num? && ByPassingRows(input)[m].passing.v <= 100.0
  {
    var entered := RoundCol(Coerce(input));
    HundredIsCents();
    ByPassingFill(input, m);
    if LastNum(entered, m).Some? {
      Round2Monotone(input[LastNum(entered, m).value].entry.x, 100.0);
    }
  }

  /**
    Passing mode with numeric entries of at most 100 that never increase
    down the series: passing never increases and retained is never negative.
   */
  lemma ByPassingMonotone(input: seq<InputRow>, i: nat)
    requires forall k :: 0 <= k < |input| && input[k].entry.Number? ==> input[k].entry.x <= 100.0
    requires forall j, k :: 0 <= j < k < |input| && input[j].entry.Number? && input[k].entry.Number? ==>
      input[j].entry.x >= input[k].entry.x
    requires 0 < i < |input|
    ensures var rows := ByPassingRows(input);
      rows[i].passing.v <= rows[i - 1].passing.v && rows[i].retained.v >= 0.0 && rows[0].retained.v >= 0.0
  {
    var rows := ByPassingRows(input);
    assert rows[i].passing.v <= rows[i - 1].passing.v by {
      var entered := RoundCol(Coerce(input));
      ByPassingAtMostHundred(input, i);
      var last := LastNum(entered, i);
      var above := LastNum(entered, i - 1);
      ByPassingFill(input, i);
      ByPassingFill(input, i - 1);
      if last.Some? && above.Some? && last.value != above.value {
        Round2Monotone(input[last.value].entry.x, input[above.value].entry.x);
      }
    }
    assert rows[i].retained.v >= 0.0 by {
      ByPassingRowFacts(input, i);
    }
    assert rows[0].retained.v >= 0.0 by {
      ByPassingAtMostHundred(input, 0);
      ByPassingRowFacts(input, 0);
    }
  }

  /**
    Without the monotone-entries condition passing can increase down the
    series: a blank first row passes 100 and a second row entered as 150
    passes 150.
   */
  lemma PassingCanIncrease()
    ensures var rows := ByPassingRows([InputRow("N 4", None, Blank), InputRow("N 200", None, Number(150.0))]);
      rows[0].passing == Num(100.0) && rows[1].passing == Num(150.0) &&
      rows[1].passing.v > rows[0].passing.v
  {
    var input := [InputRow("N 4", None, Blank), InputRow("N 200", None, Number(150.0))];
    assert Round2(150.0) == 150.0 by { assert IsCents(150.0) by { assert (150.0 * 100.0).Floor == 15000; } }
    ByPassingFill(input, 0);
    ByPassingKeepsEntries(input, 1);
  }

  /**
    Two entries, 90 on the first row and 80 on the second, make the second
    row's cumulative retained 30 % as written, although only 20 % of the
    sample is retained above its sieve.
   */
  lemma CumulativeOvercounts()
    ensures var rows := ByPassingRows([InputRow("N 4", None, Number(90.0)), InputRow("N 200", None, Number(80.0))]);
      rows[1].passing == Num(80.0) && rows[1].cumulative == Num(30.0) &&
      rows[1].passing.v + rows[1].cumulative.v != 100.0
  {
    var input := [InputRow("N 4", None, Number(90.0)), InputRow("N 200", None, Number(80.0))];
    var rows := ByPassingRows(input);
    assert Round2(90.0) == 90.0 by { assert IsCents(90.0) by { assert (90.0 * 100.0).Floor == 9000; } }
    assert Round2(80.0) == 80.0 by { assert IsCents(80.0) by { assert (80.0 * 100.0).Floor == 8000; } }
    ByPassingKeepsEntries(input, 0);
    ByPassingKeepsEntries(input, 1);
    ByPassingRowFacts(input, 1);
    var comp := Complement(PassingOf(rows));
    assert comp == [Num(10.0), Num(20.0)];
    assert comp[..2] == comp;
    assert comp[1..] == [Num(20.0)];
    assert comp[1..][1..] == [];
  }

  lemma ByPassingRetainedCents(input: seq<InputRow>)
    ensures AllCents(RetainedOf(ByPassingRows(input)))
  {
    var passing := FilledPassing(input);
    assert RetainedOf(ByPassingRows(input)) == RoundCol(Sub(Shift(passing, 100.0), passing));
  }

  /** Passing mode's cumulative column recomputed as the running sum of its retained column. */
  function CorrectedCumulative(input: seq<InputRow>): (r: Column)
    ensures |r| == |input|
  {
    RoundCol(CumSum(RetainedOf(ByPassingRows(input))))
  }

  /** The recomputed cumulative column is exactly the complement of passing. */
  lemma CorrectedCumulativeAt(input: seq<InputRow>, i: nat)
    requires i < |input|
    ensures var rows := ByPassingRows(input);
      rows[i].passing.Num? && CorrectedCumulative(input)[i] == Num(100.0 - rows[i].passing.v)
  {
    var rows := ByPassingRows(input);
    ByPassingDrops(input);
    ByPassingRetainedCents(input);
    RoundedCumSumOfDrops(RetainedOf(rows), PassingOf(rows), i);
  }

  /**
    Passing mode with the cumulative column taken as the running sum of the
    retained percentages, as weight mode does: it is then exactly the
    complement of passing on every row.
   */
  function ByPassingRowsCorrected(input: seq<InputRow>): (rows: seq<Row>)
    ensures |rows| == |input|
    ensures forall i :: 0 <= i < |input| ==>
      rows[i].retained == ByPassingRows(input)[i].retained &&
      rows[i].passing == ByPassingRows(input)[i].passing
    ensures forall i :: 0 <= i < |input| ==>
      rows[i].passing.Num? && rows[i].cumulative.Num? && rows[i].passing.v + rows[i].cumulative.v == 100.0
  {
    var asWritten := ByPassingRows(input);
    var rows := Assemble(input, RetainedOf(asWritten), CorrectedCumulative(input), PassingOf(asWritten));
    assert forall i :: 0 <= i < |input| ==>
      rows[i].passing.Num? && rows[i].cumulative.Num? && rows[i].passing.v + rows[i].cumulative.v == 100.0 by {
      forall i | 0 <= i < |input| {
        CorrectedCumulativeAt(input, i);
      }
    }
    rows
  }

  /** The table computed with the corrected passing-mode cumulative column. */
  function ComputeCorrected(input: seq<InputRow>): (g: Gradation)
    ensures g.Table? <==> Compute(input).Table?
    ensures g.Table? ==> g.mode == Compute(input).mode && |g.rows| == |input|
    ensures g.Table? ==> forall i :: 0 <= i < |input| ==>
      g.rows[i].sieve == input[i].sieve && g.rows[i].passing == Compute(input).rows[i].passing
    ensures g.Table? ==> forall i :: 0 <= i < |input| && g.rows[i].passing.Num? ==>
      g.rows[i].cumulative.Num? && g.rows[i].passing.v + g.rows[i].cumulative.v == 100.0
  {
    var g := Compute(input);
    if g.NoData? then g
    else if g.mode == ByWeight then
      ByWeightNaNRows(input);
      ByWeightComplement(input);
      g
    else
      Table(ByPassing, ByPassingRowsCorrected(input))
  }

  // ---------------------------------------------------------------------
  // The two modes against each other
  // ---------------------------------------------------------------------

  /**
    Typing the passing percentages that weight mode computed into the
    passing column of a table with no usable weights reproduces the same
    passing column.
   */
  lemma ModesAgree(a: seq<InputRow>, b: seq<InputRow>)
    requires TotalWeight(a) > 0.0 && forall k :: 0 <= k < |a| ==> a[k].weight.Some?
    requires |b| == |a| && TotalWeight(b) <= 0.0
    requires forall k :: 0 <= k < |b| ==>
      b[k].sieve == a[k].sieve && b[k].entry.Number? && Compute(a).rows[k].passing == Num(b[k].entry.x)
    ensures Compute(b).Table? && Compute(b).mode == ByPassing
    ensures forall k :: 0 <= k < |b| ==> Compute(b).rows[k].passing == Compute(a).rows[k].passing
  {
    if |b| > 0 {
      assert !b[0].entry.Blank?;
    }
    forall k | 0 <= k < |b|
      ensures Compute(b).rows[k].passing == Compute(a).rows[k].passing
    {
      assert IsCents(b[k].entry.x);
      ByPassingKeepsEntries(b, k);
    }
  }

}
