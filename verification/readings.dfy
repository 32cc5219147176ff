/**
  The two reference readings the classification needs: the passing
  percentage at the No. 4 and No. 200 sieves, taken from the computed
  table, and the matching retained percentages (100 minus passing).
 */
module Readings {
  import opened Wrappers
  import opened Percent
  import opened Gradation
  import Sieves

  /** Index of the last row carrying `sieve`, or None when no row does. */
  function LastIndexOf(rows: seq<Row>, sieve: string): (r: Option<nat>)
    ensures r.None? <==> forall i :: 0 <= i < |rows| ==> rows[i].sieve != sieve
    ensures r.Some? ==> r.value < |rows| && rows[r.value].sieve == sieve
    ensures r.Some? ==> forall j :: r.value < j < |rows| ==> rows[j].sieve != sieve
  {
    if |rows| == 0 then None
    else if rows[|rows| - 1].sieve == sieve then Some(|rows| - 1)
    else LastIndexOf(rows[..|rows| - 1], sieve)
  }

  /** `p` is the passing percentage of the last row carrying `sieve`. */
  predicate IsLastReading(rows: seq<Row>, sieve: string, p: Pct) {
    exists i :: 0 <= i < |rows| && rows[i].sieve == sieve &&
      (forall j :: i < j < |rows| ==> rows[j].sieve != sieve) && p == rows[i].passing
  }

  /** The passing percentage read at `sieve`: that of the last row carrying it. */
  function Reading(rows: seq<Row>, sieve: string): (r: Option<Pct>)
    ensures r.None? <==> forall i :: 0 <= i < |rows| ==> rows[i].sieve != sieve
    ensures r.Some? ==> IsLastReading(rows, sieve, r.value)
  {
    match LastIndexOf(rows, sieve)
    case None => None
    case Some(i) => Some(rows[i].passing)
  }

  /** The last row carrying a designation is unique, so the reading is exactly the value it passes. */
  lemma ReadingIsLast(rows: seq<Row>, sieve: string, p: Pct)
    ensures Reading(rows, sieve) == Some(p) <==> IsLastReading(rows, sieve, p)
  {
    if IsLastReading(rows, sieve, p) {
      var i :| 0 <= i < |rows| && rows[i].sieve == sieve &&
        (forall j :: i < j < |rows| ==> rows[j].sieve != sieve) && p == rows[i].passing;
      var k := LastIndexOf(rows, sieve).value;
      assert !(i < k) && !(k < i);
    }
  }

  /** Which row is last to carry a designation depends on the designations alone. */
  lemma {:induction false} LastIndexOfSameSieves(a: seq<Row>, b: seq<Row>, sieve: string)
    requires |a| == |b| && forall i :: 0 <= i < |a| ==> a[i].sieve == b[i].sieve
    ensures LastIndexOf(a, sieve) == LastIndexOf(b, sieve)
  {
    if |a| > 0 && a[|a| - 1].sieve != sieve {
      LastIndexOfSameSieves(a[..|a| - 1], b[..|b| - 1], sieve);
    }
  }

  datatype Readings = Readings(passing4: Option<Pct>, passing200: Option<Pct>,
                               retained4: Option<Pct>, retained200: Option<Pct>)

  /** `100 - passing`, when there is a reading. */
  function RetainedFrom(p: Option<Pct>): (r: Option<Pct>)
    ensures r.Some? <==> p.Some?
    ensures p.Some? ==> (r.value.NaN? <==> p.value.NaN?)
    ensures p.Some? && p.value.Num? ==> r.value.v + p.value.v == 100.0
  {
    match p
    case None => None
    case Some(NaN) => Some(NaN)
    case Some(Num(x)) => Some(Num(100.0 - x))
  }

  /**
    The readings of a computed table. With no table there are no readings
    (the program itself would fail looking up the passing column there).
    On a table, a passing reading exists exactly when some row carries the
    designation, and it is the passing percentage of the last such row; the
    retained reading is its complement to 100.
   */
  function ReadingsOf(g: Gradation): (r: Readings)
    ensures g.NoData? ==> r == Readings(None, None, None, None)
    ensures g.Table? ==> (r.passing4.None? <==> forall i :: 0 <= i < |g.rows| ==> g.rows[i].sieve != Sieves.No4)
    ensures g.Table? && r.passing4.Some? ==> IsLastReading(g.rows, Sieves.No4, r.passing4.value)
    ensures g.Table? ==> (r.passing200.None? <==> forall i :: 0 <= i < |g.rows| ==> g.rows[i].sieve != Sieves.No200)
    ensures g.Table? && r.passing200.Some? ==> IsLastReading(g.rows, Sieves.No200, r.passing200.value)
    ensures (r.retained4.Some? <==> r.passing4.Some?) && (r.retained200.Some? <==> r.passing200.Some?)
    ensures r.passing4.Some? ==> (r.retained4.value.NaN? <==> r.passing4.value.NaN?)
    ensures r.passing4.Some? && r.passing4.value.Num? ==> r.retained4.value.v + r.passing4.value.v == 100.0
    ensures r.passing200.Some? ==> (r.retained200.value.NaN? <==> r.passing200.value.NaN?)
    ensures r.passing200.Some? && r.passing200.value.Num? ==> r.retained200.value.v + r.passing200.value.v == 100.0
  {
    match g
    case NoData => Readings(None, None, None, None)
    case Table(_, rows) =>
      var p4, p200 := Reading(rows, Sieves.No4), Reading(rows, Sieves.No200);
      Readings(p4, p200, RetainedFrom(p4), RetainedFrom(p200))
  }

  /** Two tables with the same designations and passing columns give the same readings. */
  lemma ReadingsSamePassing(g: Gradation, h: Gradation)
    requires g.Table? && h.Table? && |g.rows| == |h.rows|
    requires forall i :: 0 <= i < |g.rows| ==>
      g.rows[i].sieve == h.rows[i].sieve && g.rows[i].passing == h.rows[i].passing
    ensures ReadingsOf(g) == ReadingsOf(h)
  {
    LastIndexOfSameSieves(g.rows, h.rows, Sieves.No4);
    LastIndexOfSameSieves(g.rows, h.rows, Sieves.No200);
  }

  /** The input table is laid out on the standard 21-sieve series. */
  predicate OnStandardSeries(input: seq<InputRow>) {
    |input| == |Sieves.Standard| && forall i :: 0 <= i < |input| ==> input[i].sieve == Sieves.Standard[i]
  }

  /** Rows laid out on the standard series read No. 4 at row 9 and No. 200 at row 19. */
  lemma StandardRowReadings(rows: seq<Row>)
    requires |rows| == |Sieves.Standard| && forall i :: 0 <= i < |rows| ==> rows[i].sieve == Sieves.Standard[i]
    ensures Reading(rows, Sieves.No4) == Some(rows[9].passing)
    ensures Reading(rows, Sieves.No200) == Some(rows[19].passing)
  {
    Sieves.StandardLayout();
    ReadingIsLast(rows, Sieves.No4, rows[9].passing);
    ReadingIsLast(rows, Sieves.No200, rows[19].passing);
  }

  /**
    On the standard series every computed table has both readings: the
    No. 4 reading is row 9's passing percentage and the No. 200 reading is
    row 19's.
   */
  lemma StandardReadings(input: seq<InputRow>)
    requires OnStandardSeries(input) && Compute(input).Table?
    ensures var g := Compute(input);
      ReadingsOf(g).passing4 == Some(g.rows[9].passing) &&
      ReadingsOf(g).passing200 == Some(g.rows[19].passing)
  {
    var g := Compute(input);
    StandardRowReadings(g.rows);
  }

}
