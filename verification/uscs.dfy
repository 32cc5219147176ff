/**
  The Unified Soil Classification decision procedure (ASTM D2487, Table 1)
  as the program builds it: a string composed from the passing readings at
  No. 4 and No. 200, the uniformity and curvature coefficients Cu and Cc,
  and the Atterberg limits, with a "Requiere ..." placeholder wherever a
  branch needs a value that was not given.
 */
module Uscs {
  import opened Wrappers
  import opened Percent
  import Plasticity

  const FinePrefix: string := "FINO - "
  const NeedLimits: string := "Requiere LL y LP"
  const NeedCoefficients: string := "Requiere Cu y Cc"

  datatype CoarseKind = Grava | Arena

  function KindName(k: CoarseKind): (s: string)
    ensures |s| == 5 && (s[0] == 'G' || s[0] == 'A')
    ensures s[0] == 'G' <==> k == Grava
  {
    match k
    case Grava => "GRAVA"
    case Arena => "ARENA"
  }

  /** Less than half passes No. 200. A NaN reading fails the test, so it counts as fine soil. */
  predicate IsCoarse(p200: Pct) {
    p200.Num? && p200.v < 50.0
  }

  /**
    Gravel when more than half of the coarse fraction is retained on No. 4,
    that is, when the gravel fraction (retained on No. 4) exceeds the sand
    fraction (between No. 4 and No. 200). A NaN No. 4 reading gives sand.
   */
  function KindOf(p4: Pct, p200: real): (k: CoarseKind)
    ensures k == Grava <==> p4.Num? && 100.0 - p4.v > p4.v - p200
  {
    if p4.Num? && 100.0 - p4.v > (100.0 - p200) / 2.0 then Grava else Arena
  }

  /** The program's well-graded test: strict lower bounds on Cu, 1 <= Cc <= 3. */
  predicate WellGraded(k: CoarseKind, cu: real, cc: real) {
    || (k == Grava && cu > 4.0 && 1.0 <= cc <= 3.0)
    || (k == Arena && cu > 6.0 && 1.0 <= cc <= 3.0)
  }

  /** The well-graded criterion of ASTM D2487: Cu >= 4 for gravel, Cu >= 6 for sand, 1 <= Cc <= 3. */
  predicate StandardWellGraded(k: CoarseKind, cu: real, cc: real) {
    1.0 <= cc <= 3.0 && (if k == Grava then cu >= 4.0 else cu >= 6.0)
  }

  /**
    The program's test agrees with the standard's except on the boundary
    Cu = 4 (gravel) or Cu = 6 (sand), which it calls poorly graded.
   */
  lemma WellGradedAgainstStandard(k: CoarseKind, cu: real, cc: real)
    ensures WellGraded(k, cu, cc) ==> StandardWellGraded(k, cu, cc)
    ensures StandardWellGraded(k, cu, cc) && !WellGraded(k, cu, cc) <==>
      1.0 <= cc <= 3.0 && cu == (if k == Grava then 4.0 else 6.0)
  {
  }

  /** "W", "P", or the Cu/Cc placeholder. */
  function Grading(k: CoarseKind, cu: Option<real>, cc: Option<real>): (s: string)
    ensures s == NeedCoefficients <==> cu.None? || cc.None?
    ensures s == "W" <==> cu.Some? && cc.Some? && WellGraded(k, cu.value, cc.value)
    ensures s == "P" <==> cu.Some? && cc.Some? && !WellGraded(k, cu.value, cc.value)
  {
    if cu.None? || cc.None? then NeedCoefficients
    else if WellGraded(k, cu.value, cc.value) then "W"
    else "P"
  }

  /** The chart symbol of the fines, or the LL/LP placeholder. */
  function FinesPart(c: Option<Plasticity.FinesClass>): (s: string)
    ensures s == NeedLimits <==> c.None?
    ensures c.Some? ==> s == Plasticity.Symbol(c.value)
  {
    if c.Some? then Plasticity.Symbol(c.value) else NeedLimits
  }

  /**
    The fine-soil symbol as the program computes it: clay when IP is at or
    BELOW the A-line, silt above it, and H from LL = 50 up.
   */
  function FineSymbol(ll: Option<real>, lp: Option<real>): (s: string)
    ensures s == NeedLimits <==> ll.None? || lp.None?
    ensures ll.Some? && lp.Some? ==> var l, ip := ll.value, ll.value - lp.value;
      && |s| == 2 && (s[0] == 'C' || s[0] == 'M') && (s[1] == 'H' || s[1] == 'L')
      && (s[0] == 'C' <==> ip <= Plasticity.ALine(l))
      && (s[1] == 'H' <==> l >= 50.0)
  {
    if ll.None? || lp.None? then NeedLimits
    else
      var l := ll.value;
      var ip := Plasticity.PlasticityIndex(l, lp.value);
      var ipr := Plasticity.ALine(l);
      if l >= 50.0 then (if ip <= ipr then "CH" else "MH")
      else (if ip <= ipr then "CL" else "ML")
  }

  /**
    The classification string. Empty when either reading is missing;
    otherwise "FINO - " and the fine-soil symbol when half or more passes
    No. 200, and otherwise the coarse kind followed by the grading (fines
    under 5 %), the chart class of the fines (12 % or more), or both joined
    by "-" in between.
   */
  function Classify(p4: Option<Pct>, p200: Option<Pct>,
                    cu: Option<real>, cc: Option<real>,
                    ll: Option<real>, lp: Option<real>): (r: string)
    ensures r == "" <==> p4.None? || p200.None?
    ensures r != "" ==> (|r| >= 7 && (r[..7] == FinePrefix <==> !IsCoarse(p200.value)))
  {
    if p4.None? || p200.None? then ""
    else if !IsCoarse(p200.value) then FinePrefix + FineSymbol(ll, lp)
    else
      var fc := p200.value.v;
      var k := KindOf(p4.value, fc);
      var fines := FinesPart(Plasticity.Classify(ll, lp));
      var r := KindName(k) + " - " +
        (if fc < 5.0 then Grading(k, cu, cc)
         else if fc >= 12.0 then fines
         else Grading(k, cu, cc) + "-" + fines);
      assert r[..7][0] == r[0] == KindName(k)[0];
      r
  }

  /**
    Fine soil: "FINO - " followed by CH, MH, CL or ML, the first letter C
    exactly when IP is at or below 0.73 (LL - 20) and the second H exactly
    when LL >= 50; or followed by the LL/LP placeholder exactly when a limit
    is missing. Neither Cu, Cc nor the No. 4 value matters.
   */
  lemma FineSoil(p4: Pct, p200: Pct, cu: Option<real>, cc: Option<real>, ll: Option<real>, lp: Option<real>)
    requires !IsCoarse(p200)
    ensures var r := Classify(Some(p4), Some(p200), cu, cc, ll, lp);
      && r[..7] == FinePrefix
      && (r == FinePrefix + NeedLimits <==> ll.None? || lp.None?)
      && (ll.Some? && lp.Some? ==>
            && |r| == 9 && (r[7] == 'C' || r[7] == 'M') && (r[8] == 'H' || r[8] == 'L')
            && (r[7] == 'C' <==> ll.value - lp.value <= Plasticity.ALine(ll.value))
            && (r[8] == 'H' <==> ll.value >= 50.0))
      && forall p4': Pct, cu': Option<real>, cc': Option<real> ::
           Classify(Some(p4'), Some(p200), cu', cc', ll, lp) == r
  {
    var s := FineSymbol(ll, lp);
    var r := FinePrefix + s;
    assert r[7..] == s;
    if ll.Some? && lp.Some? {
      assert r[7] == s[0] && r[8] == s[1];
    }
  }

  /**
    Coarse soil with under 5 % fines: the kind, then "W" exactly when both
    coefficients are given and pass the well-graded test, "P" when they are
    given and fail it, the Cu/Cc placeholder when one is missing. The
    limits do not matter.
   */
  lemma CleanCoarse(p4: Pct, fc: real, cu: Option<real>, cc: Option<real>, ll: Option<real>, lp: Option<real>)
    requires fc < 5.0
    ensures var k := KindOf(p4, fc);
      var r := Classify(Some(p4), Some(Num(fc)), cu, cc, ll, lp);
      && (r == KindName(k) + " - W" <==> cu.Some? && cc.Some? && WellGraded(k, cu.value, cc.value))
      && (r == KindName(k) + " - P" <==> cu.Some? && cc.Some? && !WellGraded(k, cu.value, cc.value))
      && (r == KindName(k) + " - " + NeedCoefficients <==> cu.None? || cc.None?)
      && forall ll': Option<real>, lp': Option<real> :: Classify(Some(p4), Some(Num(fc)), cu, cc, ll', lp') == r
  {
    var k := KindOf(p4, fc);
    var pre := KindName(k) + " - ";
    var g := Grading(k, cu, cc);
    assert Classify(Some(p4), Some(Num(fc)), cu, cc, ll, lp) == pre + g;
    assert pre + "W" == KindName(k) + " - W";
    assert pre + "P" == KindName(k) + " - P";
    forall t: string, u: string | pre + t == pre + u
      ensures t == u
    {
      assert t == (pre + t)[|pre|..];
      assert u == (pre + u)[|pre|..];
    }
  }

  /**
    Coarse soil with 12 % fines or more: the kind, then the chart class of
    the fines, or the LL/LP placeholder when a limit is missing. Cu and Cc do
    not matter.
   */
  lemma DirtyCoarse(p4: Pct, fc: real, cu: Option<real>, cc: Option<real>, ll: Option<real>, lp: Option<real>)
    requires 12.0 <= fc < 50.0
    ensures var k := KindOf(p4, fc);
      var r := Classify(Some(p4), Some(Num(fc)), cu, cc, ll, lp);
      var c := Plasticity.Classify(ll, lp);
      && (c.Some? ==> r == KindName(k) + " - " + Plasticity.Symbol(c.value))
      && (c.None? <==> r == KindName(k) + " - " + NeedLimits)
      && forall cu': Option<real>, cc': Option<real> :: Classify(Some(p4), Some(Num(fc)), cu', cc', ll, lp) == r
  {
    var k := KindOf(p4, fc);
    var pre := KindName(k) + " - ";
    var c := Plasticity.Classify(ll, lp);
    if c.Some? {
      var s := Plasticity.Symbol(c.value);
      assert (pre + s)[|pre|..] == s;
      assert (pre + NeedLimits)[|pre|..] == NeedLimits;
    }
  }

  /**
    Coarse soil with 5 % to 12 % fines takes a dual symbol: the kind, then
    the grading letter (or its placeholder), "-", and the chart class of the
    fines (or its placeholder).
   */
  lemma DualCoarse(p4: Pct, fc: real, cu: Option<real>, cc: Option<real>, ll: Option<real>, lp: Option<real>)
    requires 5.0 <= fc < 12.0
    ensures var k := KindOf(p4, fc);
      var r := Classify(Some(p4), Some(Num(fc)), cu, cc, ll, lp);
      exists g, f ::
        && r == KindName(k) + " - " + g + "-" + f
        && (g == NeedCoefficients <==> cu.None? || cc.None?)
        && (g == "W" <==> cu.Some? && cc.Some? && WellGraded(k, cu.value, cc.value))
        && (g == "P" <==> cu.Some? && cc.Some? && !WellGraded(k, cu.value, cc.value))
        && (f == NeedLimits <==> ll.None? || lp.None?)
        && (ll.Some? && lp.Some? ==> f == Plasticity.Symbol(Plasticity.Classify(ll, lp).value))
  {
    var k := KindOf(p4, fc);
    var g := Grading(k, cu, cc);
    var f := FinesPart(Plasticity.Classify(ll, lp));
    assert Classify(Some(p4), Some(Num(fc)), cu, cc, ll, lp) == KindName(k) + " - " + g + "-" + f;
  }

  /** Worked classification: 60 % passing No. 200 with LL = 40, LP = 15 is "FINO - ML". */
  lemma FineExample()
    ensures Classify(Some(Num(70.0)), Some(Num(60.0)), None, None, Some(40.0), Some(15.0)) == "FINO - ML"
  {
    assert FineSymbol(Some(40.0), Some(15.0)) == "ML";
  }

  /** Worked classification: 40 % passing No. 4, 3 % passing No. 200, Cu = 5, Cc = 2 is "GRAVA - W"; Cu = 4 gives "GRAVA - P". */
  lemma CleanGravelExample()
    ensures Classify(Some(Num(40.0)), Some(Num(3.0)), Some(5.0), Some(2.0), None, None) == "GRAVA - W"
    ensures Classify(Some(Num(40.0)), Some(Num(3.0)), Some(4.0), Some(2.0), None, None) == "GRAVA - P"
  {
    assert KindOf(Num(40.0), 3.0) == Grava;
    assert Grading(Grava, Some(5.0), Some(2.0)) == "W";
    assert Grading(Grava, Some(4.0), Some(2.0)) == "P";
  }

  /** Worked classification: 70 % passing No. 4 and 8 % passing No. 200 with nothing else given. */
  lemma DualSandExample()
    ensures Classify(Some(Num(70.0)), Some(Num(8.0)), None, None, None, None)
      == "ARENA - " + NeedCoefficients + "-" + NeedLimits
  {
    assert KindOf(Num(70.0), 8.0) == Arena;
    assert Grading(Arena, None, None) == NeedCoefficients;
    assert FinesPart(Plasticity.Classify(None, None)) == NeedLimits;
  }

  // ---------------------------------------------------------------------
  // The fine-soil branch against the plasticity chart
  // ---------------------------------------------------------------------

  /**
    Off the A-line the fine-soil branch names the opposite of the chart:
    where the chart says clay (strictly above the line) the branch says silt,
    and where the chart says silt the branch says clay. LL = 40, LP = 15 is
    such a point: the chart class is CL, the classification "FINO - ML".
   */
  lemma FineBranchContradictsChart(ll: real, lp: real)
    requires ll >= 20.0
    ensures var ip, c := ll - lp, Plasticity.Classify(Some(ll), Some(lp)).value;
      var s := FineSymbol(Some(ll), Some(lp));
      && (ip > Plasticity.ALine(ll) ==> c.IsClay() && s[0] == 'M')
      && (ip < Plasticity.ALine(ll) && c != Plasticity.NP ==> c.IsSilt() && s[0] == 'C')
    ensures Plasticity.Classify(Some(40.0), Some(15.0)) == Some(Plasticity.CL)
    ensures Classify(Some(Num(70.0)), Some(Num(60.0)), None, None, Some(40.0), Some(15.0)) == "FINO - ML"
  {
    var ip := ll - lp;
    if ip > Plasticity.ALine(ll) {
      assert ip >= 0.0;
    }
  }

  /**
    The fine-soil symbol with the A-line test the right way round, clay on or
    above the line as the chart has it: wherever the chart class is plastic
    it is exactly that class.
   */
  function FineSymbolCorrected(ll: Option<real>, lp: Option<real>): (s: string)
    ensures s == NeedLimits <==> ll.None? || lp.None?
    ensures ll.Some? && lp.Some? ==>
      && |s| == 2
      && (s[0] == 'C' <==> ll.value - lp.value >= Plasticity.ALine(ll.value))
      && (s[1] == 'H' <==> ll.value >= 50.0)
    ensures var c := Plasticity.Classify(ll, lp);
      c.Some? && c.value != Plasticity.NP ==> s == Plasticity.Symbol(c.value)
  {
    if ll.None? || lp.None? then NeedLimits
    else
      var l := ll.value;
      var ip := Plasticity.PlasticityIndex(l, lp.value);
      var ipr := Plasticity.ALine(l);
      if l >= 50.0 then (if ip >= ipr then "CH" else "MH")
      else (if ip >= ipr then "CL" else "ML")
  }

  /** The classification with the corrected fine-soil branch; coarse soils are unchanged. */
  function ClassifyCorrected(p4: Option<Pct>, p200: Option<Pct>,
                             cu: Option<real>, cc: Option<real>,
                             ll: Option<real>, lp: Option<real>): (r: string)
    ensures r == "" <==> p4.None? || p200.None?
    ensures p4.Some? && p200.Some? && IsCoarse(p200.value) ==> r == Classify(p4, p200, cu, cc, ll, lp)
    ensures p4.Some? && p200.Some? && !IsCoarse(p200.value) ==>
      var c := Plasticity.Classify(ll, lp);
      c.Some? && c.value != Plasticity.NP ==> r == FinePrefix + Plasticity.Symbol(c.value)
  {
    if p4.Some? && p200.Some? && !IsCoarse(p200.value) then FinePrefix + FineSymbolCorrected(ll, lp)
    else Classify(p4, p200, cu, cc, ll, lp)
  }

}
