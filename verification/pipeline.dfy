/**
  The whole calculation, input table to classification string: the
  gradation table, its No. 4 and No. 200 readings, and the USCS procedure
  over those readings and the four optional coefficients and limits.
 */
module Pipeline {
  import opened Wrappers
  import opened Percent
  import opened Series
  import opened Gradation
  import opened Readings
  import Sieves
  import Uscs

  /**
    The classification string of an input table. It is empty exactly when
    there is no table or the table lacks a No. 4 or a No. 200 row; on the
    standard series that means exactly when the weights do not sum to more
    than 0 and no passing cell is filled in.
   */
  function Sucs(input: seq<InputRow>, cu: Option<real>, cc: Option<real>,
                ll: Option<real>, lp: Option<real>): (r: string)
    ensures r == "" <==>
      || Compute(input).NoData?
      || (forall i :: 0 <= i < |input| ==> input[i].sieve != Sieves.No4)
      || (forall i :: 0 <= i < |input| ==> input[i].sieve != Sieves.No200)
    ensures OnStandardSeries(input) ==> (r == "" <==> TotalWeight(input) <= 0.0 && !AnyEntry(input))
  {
    var g := Compute(input);
    var rd := ReadingsOf(g);
    assert OnStandardSeries(input) && g.Table? ==> rd.passing4.Some? && rd.passing200.Some? by {
      if OnStandardSeries(input) && g.Table? {
        StandardReadings(input);
      }
    }
    Uscs.Classify(rd.passing4, rd.passing200, cu, cc, ll, lp)
  }

  /** The classification with both corrections: the passing-mode cumulative column and the fine-soil branch. */
  function SucsCorrected(input: seq<InputRow>, cu: Option<real>, cc: Option<real>,
                         ll: Option<real>, lp: Option<real>): (r: string)
    ensures r == "" <==> Sucs(input, cu, cc, ll, lp) == ""
  {
    var rd := ReadingsOf(ComputeCorrected(input));
    CorrectionKeepsReadings(input);
    Uscs.ClassifyCorrected(rd.passing4, rd.passing200, cu, cc, ll, lp)
  }

  /** Correcting the cumulative column leaves the readings, hence the classification input, as they were. */
  lemma CorrectionKeepsReadings(input: seq<InputRow>)
    ensures ReadingsOf(ComputeCorrected(input)) == ReadingsOf(Compute(input))
  {
    if Compute(input).Table? {
      ReadingsSamePassing(ComputeCorrected(input), Compute(input));
    }
  }

  /**
    Entering by hand the passing percentages a weighing produced, with no
    usable weights, gives the same readings and so the same classification.
   */
  lemma ModesAgreeOnClassification(a: seq<InputRow>, b: seq<InputRow>,
                                   cu: Option<real>, cc: Option<real>, ll: Option<real>, lp: Option<real>)
    requires TotalWeight(a) > 0.0 && forall k :: 0 <= k < |a| ==> a[k].weight.Some?
    requires |b| == |a| && TotalWeight(b) <= 0.0
    requires forall k :: 0 <= k < |b| ==>
      b[k].sieve == a[k].sieve && b[k].entry.Number? && Compute(a).rows[k].passing == Num(b[k].entry.x)
    ensures ReadingsOf(Compute(b)) == ReadingsOf(Compute(a))
    ensures Sucs(b, cu, cc, ll, lp) == Sucs(a, cu, cc, ll, lp)
  {
    ModesAgree(a, b);
    ReadingsSamePassing(Compute(b), Compute(a));
  }

  /** The standard table with only two entries typed in: 40 % at No. 4 and 3 % at No. 200. */
  function TwoEntryTable(): (input: seq<InputRow>)
    ensures OnStandardSeries(input)
  {
    Sieves.StandardLayout();
    seq(21, i requires 0 <= i < 21 =>
      InputRow(Sieves.Standard[i], None, if i == 9 then Number(40.0) else if i == 19 then Number(3.0) else Blank))
  }

  /**
    End to end in passing mode: with 40 % entered at No. 4, 3 % at No. 200,
    Cu = 5 and Cc = 2 the soil is a well-graded gravel.
   */
  lemma TwoEntryExample()
    ensures Sucs(TwoEntryTable(), Some(5.0), Some(2.0), None, None) == "GRAVA - W"
  {
    var input := TwoEntryTable();
    SumNoNumbers(Weights(input));
    assert !input[9].entry.Blank?;
    var g := Compute(input);
    assert g.mode == ByPassing;
    assert IsCents(40.0) by { assert (40.0 * 100.0).Floor == 4000; }
    assert IsCents(3.0) by { assert (3.0 * 100.0).Floor == 300; }
    ByPassingKeepsEntries(input, 9);
    ByPassingKeepsEntries(input, 19);
    StandardReadings(input);
    Uscs.CleanGravelExample();
  }

}
