/**
  Classification of the fines on Casagrande's plasticity chart (ASTM D2487,
  Figure 4) from the liquid limit LL and plastic limit LP: the plasticity
  index IP = LL - LP is compared with the A-line 0.73 (LL - 20), and
  LL = 50 separates low from high plasticity.
 */
module Plasticity {
  import opened Wrappers

  datatype FinesClass = NP | CL | CH | ML | MH {
    /** On or above the A-line. */
    predicate IsClay() { this == CL || this == CH }
    /** Below the A-line but still plastic. */
    predicate IsSilt() { this == ML || this == MH }
    /** High plasticity, LL at least 50. */
    predicate IsHigh() { this == CH || this == MH }
  }

  /** The class as the two-letter symbol the classification string carries. */
  function Symbol(c: FinesClass): (s: string)
    ensures |s| == 2
    ensures c.IsClay() <==> s[0] == 'C'
    ensures c.IsSilt() <==> s[0] == 'M'
    ensures c.IsHigh() <==> s[1] == 'H'
    ensures c != NP && !c.IsHigh() <==> s[1] == 'L'
    ensures c == NP <==> s == "NP"
  {
    match c
    case NP => "NP"
    case CL => "CL"
    case CH => "CH"
    case ML => "ML"
    case MH => "MH"
  }

  function PlasticityIndex(ll: real, lp: real): real {
    ll - lp
  }

  /** Ordinate of the A-line at liquid limit `ll`. */
  function ALine(ll: real): real {
    0.73 * (ll - 20.0)
  }

  /**
    The chart class, defined exactly when both limits are given: non-plastic
    below LL = 20, clay on or above the A-line, silt below it while IP is
    positive, non-plastic otherwise; high plasticity from LL = 50 up.
   */
  function Classify(ll: Option<real>, lp: Option<real>): (c: Option<FinesClass>)
    ensures c.Some? <==> ll.Some? && lp.Some?
    ensures c.Some? ==> var l, ip := ll.value, PlasticityIndex(ll.value, lp.value);
      && (c.value.IsClay() <==> l >= 20.0 && ip >= ALine(l))
      && (c.value.IsSilt() <==> l >= 20.0 && ip < ALine(l) && ip > 0.0)
      && (c.value == NP <==> l < 20.0 || (ip < ALine(l) && ip <= 0.0))
      && (c.value.IsHigh() <==> c.value != NP && l >= 50.0)
  {
    if ll.None? || lp.None? then None
    else
      var l, ip := ll.value, PlasticityIndex(ll.value, lp.value);
      Some(
        if l < 20.0 then NP
        else if ip >= ALine(l) then (if l < 50.0 then CL else CH)
        else if ip > 0.0 then (if l < 50.0 then ML else MH)
        else NP)
  }

  /** Worked points: LL = 30, LP = 10 lies above the A-line (CL); LL = 19 is non-plastic whatever LP. */
  lemma ChartExamples(lp: real)
    ensures Classify(Some(30.0), Some(10.0)) == Some(CL)
    ensures Classify(Some(19.0), Some(lp)) == Some(NP)
    ensures Classify(Some(60.0), Some(50.0)) == Some(MH)
  {
  }

}
