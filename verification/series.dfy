/**
  The column operations the gradation computation is built from, on columns
  of `Pct` cells: a NaN-skipping sum and running sum, forward fill, filling
  with a default, a one-row shift, and the elementwise arithmetic and
  rounding. Each is given by the scan it performs; the lemmas connect the
  scans to closed descriptions (prefix sums, the last numeric cell so far).
 */
module Series {
  import opened Wrappers
  import opened Percent

  type Column = seq<Pct>

  /** Numeric value a cell contributes to a sum that skips NaN. */
  function Val(p: Pct): real {
    if p.Num? then p.v else 0.0
  }

  /** Sum of the numeric cells, NaN skipped. */
  function Sum(xs: Column): real {
    if |xs| == 0 then 0.0 else Val(xs[0]) + Sum(xs[1..])
  }

  /** Every numeric cell of the column. */
  predicate AllNum(xs: Column) {
    forall i :: 0 <= i < |xs| ==> xs[i].Num?
  }

  /** Every numeric cell holds a whole number of hundredths. */
  predicate AllCents(xs: Column) {
    forall i :: 0 <= i < |xs| ==> xs[i].Num? ==> IsCents(xs[i].v)
  }

  lemma {:induction false} SumSnoc(xs: Column, x: Pct)
    ensures Sum(xs + [x]) == Sum(xs) + Val(x)
  {
    if |xs| == 0 {
      assert xs + [x] == [x];
    } else {
      assert (xs + [x])[1..] == xs[1..] + [x];
      SumSnoc(xs[1..], x);
    }
  }

  /** A sum of whole hundredths is a whole number of hundredths. */
  lemma {:induction false} SumOfCents(xs: Column)
    requires AllCents(xs)
    ensures IsCents(Sum(xs))
  {
    if |xs| > 0 {
      SumOfCents(xs[1..]);
      assert IsCents(Val(xs[0])) by {
        if xs[0].NaN? { assert (0.0 * 100.0).Floor == 0; }
      }
      CentsAdd(Val(xs[0]), Sum(xs[1..]));
    }
  }

  /** A column without numbers sums to 0. */
  lemma {:induction false} SumNoNumbers(xs: Column)
    requires forall i :: 0 <= i < |xs| ==> xs[i].NaN?
    ensures Sum(xs) == 0.0
  {
    if |xs| > 0 {
      SumNoNumbers(xs[1..]);
    }
  }

  /** Over a column whose numbers are non-negative, longer prefixes never sum to less. */
  lemma {:induction false} SumPrefixMonotone(xs: Column, i: nat, j: nat)
    requires i <= j <= |xs|
    requires forall k :: 0 <= k < |xs| ==> Val(xs[k]) >= 0.0
    ensures Sum(xs[..i]) <= Sum(xs[..j])
    decreases j - i
  {
    if i < j {
      SumPrefixMonotone(xs, i, j - 1);
      assert xs[..j] == xs[..j - 1] + [xs[j - 1]];
      SumSnoc(xs[..j - 1], xs[j - 1]);
    }
  }

  /**
    Over a column whose numbers are non-negative, the sum is never negative,
    and it is positive exactly when some number is.
   */
  lemma {:induction false} SumPositive(xs: Column)
    requires forall k :: 0 <= k < |xs| ==> Val(xs[k]) >= 0.0
    ensures Sum(xs) >= 0.0
    ensures Sum(xs) > 0.0 <==> exists k :: 0 <= k < |xs| && Val(xs[k]) > 0.0
  {
    if |xs| > 0 {
      var tail := xs[1..];
      assert forall k :: 0 <= k < |tail| ==> tail[k] == xs[k + 1];
      SumPositive(tail);
      if exists k :: 0 <= k < |tail| && Val(tail[k]) > 0.0 {
        var k :| 0 <= k < |tail| && Val(tail[k]) > 0.0;
        assert Val(xs[k + 1]) > 0.0;
      }
      if exists k :: 0 <= k < |xs| && Val(xs[k]) > 0.0 {
        var k :| 0 <= k < |xs| && Val(xs[k]) > 0.0;
        if k > 0 {
          assert Val(tail[k - 1]) > 0.0;
        }
      }
    }
  }

  /** Running sum that starts from `acc` and skips NaN cells, keeping them NaN. */
  function CumSumFrom(xs: Column, acc: real): (r: Column)
    ensures |r| == |xs|
  {
    if |xs| == 0 then []
    else match xs[0]
      case NaN => [NaN] + CumSumFrom(xs[1..], acc)
      case Num(x) => [Num(acc + x)] + CumSumFrom(xs[1..], acc + x)
  }

  /** A `.cumsum()` with NaN skipped: NaN cells stay NaN, every other cell is a number. */
  function CumSum(xs: Column): (r: Column)
    ensures |r| == |xs|
    ensures forall i :: 0 <= i < |xs| ==> (r[i].NaN? <==> xs[i].NaN?)
  {
    CumSumFromKeepsNaN(xs, 0.0);
    CumSumFrom(xs, 0.0)
  }

  /** The running sum is NaN exactly where its input is. */
  lemma {:induction false} CumSumFromKeepsNaN(xs: Column, acc: real)
    ensures forall i :: 0 <= i < |xs| ==> (CumSumFrom(xs, acc)[i].NaN? <==> xs[i].NaN?)
  {
    if |xs| > 0 {
      CumSumFromKeepsNaN(xs[1..], acc + Val(xs[0]));
    }
  }

  /** Cell i of the running sum is NaN where the input is, and otherwise the sum of the prefix through i. */
  lemma {:induction false} CumSumFromIsPrefixSum(xs: Column, acc: real, i: nat)
    requires i < |xs|
    ensures CumSumFrom(xs, acc)[i] == if xs[i].NaN? then NaN else Num(acc + Sum(xs[..i + 1]))
  {
    assert Sum(xs[..i + 1]) == Val(xs[0]) + Sum(xs[..i + 1][1..]);
    if i > 0 {
      assert xs[..i + 1][1..] == xs[1..][..i];
      CumSumFromIsPrefixSum(xs[1..], acc + Val(xs[0]), i - 1);
    } else {
      assert xs[..1][1..] == [];
    }
  }

  /**
    Cell i of `.cumsum()` is NaN where the input is, and otherwise the sum
    of the numeric cells from the top through row i.
   */
  lemma CumSumIsPrefixSum(xs: Column, i: nat)
    requires i < |xs|
    ensures CumSum(xs)[i] == if xs[i].NaN? then NaN else Num(Sum(xs[..i + 1]))
  {
    CumSumFromIsPrefixSum(xs, 0.0, i);
  }

  /** Forward fill: a NaN cell takes the last number seen, `last` before the first. */
  function FFillFrom(xs: Column, last: Pct): (r: Column)
    ensures |r| == |xs|
  {
    if |xs| == 0 then []
    else if xs[0].Num? then [xs[0]] + FFillFrom(xs[1..], xs[0])
    else [last] + FFillFrom(xs[1..], last)
  }

  /**
    A `.fillna(method='ffill')`: each cell holds the last number at or
    before it, and cells before the first number stay NaN.
   */
  function FFill(xs: Column): (r: Column)
    ensures |r| == |xs|
    ensures forall i :: 0 <= i < |xs| && LastNum(xs, i).None? ==> r[i] == NaN
    ensures forall i :: 0 <= i < |xs| && LastNum(xs, i).Some? ==> r[i] == xs[LastNum(xs, i).value]
  {
    assert forall i :: 0 <= i < |xs| ==>
      FFillFrom(xs, NaN)[i] == match LastNum(xs, i) case None => NaN case Some(j) => xs[j] by {
      forall i | 0 <= i < |xs|
        ensures FFillFrom(xs, NaN)[i] == match LastNum(xs, i) case None => NaN case Some(j) => xs[j]
      {
        FFillFromIsLastNum(xs, i);
      }
    }
    FFillFrom(xs, NaN)
  }

  /** Forward fill keeps numbers and copies the cell above into a NaN. */
  lemma {:induction false} FFillFromStep(xs: Column, last: Pct, i: nat)
    requires i < |xs|
    ensures FFillFrom(xs, last)[i] ==
      if xs[i].Num? then xs[i] else if i == 0 then last else FFillFrom(xs, last)[i - 1]
  {
    if i > 0 {
      var next := if xs[0].Num? then xs[0] else last;
      FFillFromStep(xs[1..], next, i - 1);
      if i > 1 {
        assert FFillFrom(xs, last)[i - 1] == FFillFrom(xs[1..], next)[i - 2];
      }
    }
  }

  /** Index of the last numeric cell at or before i, searching backwards. */
  function LastNum(xs: Column, i: nat): (r: Option<nat>)
    requires i < |xs|
    ensures r.Some? ==> r.value <= i && xs[r.value].Num?
    ensures r.Some? ==> forall k :: r.value < k <= i ==> xs[k].NaN?
    ensures r.None? ==> forall k :: 0 <= k <= i ==> xs[k].NaN?
  {
    if xs[i].Num? then Some(i)
    else if i == 0 then None
    else LastNum(xs, i - 1)
  }

  /** Forward fill from NaN puts in each cell the last number at or before it. */
  lemma {:induction false} FFillFromIsLastNum(xs: Column, i: nat)
    requires i < |xs|
    ensures FFillFrom(xs, NaN)[i] == match LastNum(xs, i) case None => NaN case Some(j) => xs[j]
  {
    FFillFromStep(xs, NaN, i);
    if xs[i].NaN? && i > 0 {
      FFillFromIsLastNum(xs, i - 1);
    }
  }

  /** A `.fillna(d)`. */
  function FillNa(xs: Column, d: real): (r: Column)
    ensures |r| == |xs| && AllNum(r)
    ensures forall i :: 0 <= i < |xs| ==> r[i] == if xs[i].Num? then xs[i] else Num(d)
  {
    seq(|xs|, i requires 0 <= i < |xs| => if xs[i].Num? then xs[i] else Num(d))
  }

  /** A `.shift(1, fill_value=d)`: every cell moves one row down, `d` enters at the top. */
  function Shift(xs: Column, d: real): (r: Column)
    ensures |r| == |xs|
    ensures |xs| > 0 ==> r[0] == Num(d)
    ensures forall i :: 0 < i < |xs| ==> r[i] == xs[i - 1]
  {
    if |xs| == 0 then [] else [Num(d)] + xs[..|xs| - 1]
  }

  /** Elementwise difference; NaN if either side is. */
  function Sub(xs: Column, ys: Column): (r: Column)
    requires |xs| == |ys|
    ensures |r| == |xs|
  {
    seq(|xs|, i requires 0 <= i < |xs| =>
      if xs[i].Num? && ys[i].Num? then Num(xs[i].v - ys[i].v) else NaN)
  }

  /** `100 - column`. */
  function Complement(xs: Column): (r: Column)
    ensures |r| == |xs|
  {
    seq(|xs|, i requires 0 <= i < |xs| => if xs[i].Num? then Num(100.0 - xs[i].v) else NaN)
  }

  /** `column / total * 100`. */
  function Percentage(xs: Column, total: real): (r: Column)
    requires total != 0.0
    ensures |r| == |xs|
  {
    seq(|xs|, i requires 0 <= i < |xs| => if xs[i].Num? then Num(xs[i].v / total * 100.0) else NaN)
  }

  /** `column.round(2)`. */
  function RoundCol(xs: Column): (r: Column)
    ensures |r| == |xs| && AllCents(r)
    ensures forall i :: 0 <= i < |xs| ==> r[i].NaN? == xs[i].NaN?
  {
    seq(|xs|, i requires 0 <= i < |xs| => RoundPct(xs[i]))
  }

  /** Taking a percentage commutes with summing: the parts of a total sum to 100. */
  lemma {:induction false} SumPercentage(xs: Column, total: real)
    requires total != 0.0
    ensures Sum(Percentage(xs, total)) == Sum(xs) / total * 100.0
  {
    if |xs| > 0 {
      var a, b := Val(xs[0]), Sum(xs[1..]);
      assert Percentage(xs, total)[1..] == Percentage(xs[1..], total);
      SumPercentage(xs[1..], total);
      assert Val(Percentage(xs, total)[0]) == a / total * 100.0;
      SharesAdd(a, b, total);
    }
  }

  /** Rounding every cell moves the sum by at most half a hundredth per cell. */
  lemma {:induction false} SumRoundError(xs: Column)
    ensures Sum(xs) - 0.005 * |xs| as real <= Sum(RoundCol(xs)) <= Sum(xs) + 0.005 * |xs| as real
  {
    if |xs| > 0 {
      assert RoundCol(xs)[1..] == RoundCol(xs[1..]);
      SumRoundError(xs[1..]);
    }
  }

  // ---------------------------------------------------------------------
  // The columns a gradation is built from, cell by cell
  // ---------------------------------------------------------------------

  lemma HundredIsCents()
    ensures IsCents(100.0) && Round2(100.0) == 100.0
  {
    assert (100.0 * 100.0).Floor == 10000;
  }

  /** Running sum of whole hundredths, rounded: the exact prefix sum. */
  lemma RoundedCumSumAt(xs: Column, i: nat)
    requires AllCents(xs) && i < |xs|
    ensures RoundCol(CumSum(xs))[i] == if xs[i].NaN? then NaN else Num(Sum(xs[..i + 1]))
  {
    CumSumIsPrefixSum(xs, i);
    assert AllCents(xs[..i + 1]);
    SumOfCents(xs[..i + 1]);
  }

  /** Complement to 100 of whole hundredths, rounded: exact. */
  lemma RoundedComplementAt(xs: Column, i: nat)
    requires AllCents(xs) && i < |xs| && xs[i].Num?
    ensures RoundCol(Complement(xs))[i] == Num(100.0 - xs[i].v)
  {
    HundredIsCents();
    CentsAdd(100.0, xs[i].v);
  }

  /** The complement to 100 of a column of whole hundredths is whole hundredths. */
  lemma ComplementOfCents(xs: Column)
    requires AllCents(xs)
    ensures AllCents(Complement(xs))
  {
    HundredIsCents();
    forall k | 0 <= k < |xs| && xs[k].Num? {
      CentsAdd(100.0, xs[k].v);
    }
  }

  /** Drop from the cell above (`d` above the first), rounded: exact on whole hundredths. */
  lemma RoundedDropAt(xs: Column, d: real, i: nat)
    requires AllNum(xs) && AllCents(xs) && IsCents(d) && i < |xs|
    ensures RoundCol(Sub(Shift(xs, d), xs))[i] == Num((if i == 0 then d else xs[i - 1].v) - xs[i].v)
  {
    var above := if i == 0 then d else xs[i - 1].v;
    assert Shift(xs, d)[i] == Num(above);
    CentsAdd(above, xs[i].v);
  }

  /** Every cell of `ds` is the drop of `xs` from the cell above, 100 above the first. */
  predicate DropsOf(ds: Column, xs: Column)
    requires AllNum(xs)
  {
    && |ds| == |xs|
    && forall i {:trigger ds[i]} :: 0 <= i < |ds| ==> ds[i] == Num((if i == 0 then 100.0 else xs[i - 1].v) - xs[i].v)
  }

  /** Telescoping: the first k drops of `xs` add up to 100 minus the k-th value. */
  lemma {:induction false} SumOfDrops(ds: Column, xs: Column, k: nat)
    requires AllNum(xs) && DropsOf(ds, xs) && 0 < k <= |xs|
    ensures Sum(ds[..k]) == 100.0 - xs[k - 1].v
  {
    assert ds[..k] == ds[..k - 1] + [ds[k - 1]];
    SumSnoc(ds[..k - 1], ds[k - 1]);
    if k > 1 {
      SumOfDrops(ds, xs, k - 1);
      assert Val(ds[k - 1]) == xs[k - 2].v - xs[k - 1].v;
    } else {
      assert ds[..0] == [];
      assert Val(ds[0]) == 100.0 - xs[0].v;
    }
  }

  /** The rounded running sum of such drops is exactly the complement of the column. */
  lemma RoundedCumSumOfDrops(ds: Column, xs: Column, i: nat)
    requires AllNum(xs) && DropsOf(ds, xs) && AllCents(ds) && i < |xs|
    ensures RoundCol(CumSum(ds))[i] == Num(100.0 - xs[i].v)
  {
    RoundedCumSumAt(ds, i);
    SumOfDrops(ds, xs, i + 1);
  }

  /** Cells with the same NaN pattern have the same last numeric cell. */
  lemma {:induction false} LastNumSamePattern(xs: Column, ys: Column, i: nat)
    requires |xs| == |ys| && i < |xs|
    requires forall k :: 0 <= k < |xs| ==> (xs[k].Num? <==> ys[k].Num?)
    ensures LastNum(xs, i) == LastNum(ys, i)
  {
    if xs[i].NaN? && i > 0 {
      LastNumSamePattern(xs, ys, i - 1);
    }
  }

  /**
    Rounding, forward fill with `d` above the first number, and rounding
    again: the cell holds the rounded last number at or before it, or `d`
    rounded.
   */
  lemma FilledAt(xs: Column, d: real, i: nat)
    requires i < |xs|
    ensures RoundCol(FillNa(FFill(RoundCol(xs)), d))[i] ==
      match LastNum(xs, i) case None => Num(Round2(d)) case Some(j) => Num(Round2(xs[j].v))
  {
    var rs := RoundCol(xs);
    LastNumSamePattern(rs, xs, i);
  }

}
