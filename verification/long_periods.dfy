/** Long-period candidates (long_periods.py): a selector that keeps the stars
    whose Lomb-Scargle periodograms agree on a period within a window, and a
    priority cascade that assigns each selected star one "best" period. */
module LongPeriods {
  import opened Seqs
  import opened Spreadsheet

  /** The default period window, in days. */
  const DefaultMinPeriod: real := 50.0
  const DefaultMaxPeriod: real := 200.0

  /** The value `best_period` starts from. */
  const NoPeriod: real := -1.0

  /** Two bands agree: the first band's period is within 5% of the second's
      and inside the window, and both periodogram peaks exceed power 12. */
  predicate PairRule(a: BandStats, b: BandStats, minPeriod: real, maxPeriod: real)
  {
    a.lspPer < b.lspPer * 1.05 && a.lspPer > b.lspPer * 0.95
    && a.lspPer > minPeriod && a.lspPer < maxPeriod
    && a.lspPow > 12.0 && b.lspPow > 12.0
  }

  /** One band alone: a peak above power 15 at a period inside the window. */
  predicate SingleRule(a: BandStats, minPeriod: real, maxPeriod: real)
  {
    a.lspPow > 15.0 && a.lspPer > minPeriod && a.lspPer < maxPeriod
  }

  /** The six disjuncts of `long_periodic_selector`. */
  predicate LongPeriodic(r: Row, minPeriod: real, maxPeriod: real)
  {
    PairRule(r.j, r.h, minPeriod, maxPeriod)
    || PairRule(r.h, r.k, minPeriod, maxPeriod)
    || PairRule(r.j, r.k, minPeriod, maxPeriod)
    || SingleRule(r.j, minPeriod, maxPeriod)
    || SingleRule(r.h, minPeriod, maxPeriod)
    || SingleRule(r.k, minPeriod, maxPeriod)
  }

  function Selects(minPeriod: real, maxPeriod: real): Row -> bool
  {
    (r: Row) => LongPeriodic(r, minPeriod, maxPeriod)
  }

  /** `long_periodic_selector`: the rows meeting any of the six rules, in
      table order. */
  function LongPeriodicSelector(spread: seq<Row>, minPeriod: real, maxPeriod: real): (r: seq<Row>)
    ensures forall x :: x in r <==> x in spread && LongPeriodic(x, minPeriod, maxPeriod)
    ensures IsSubsequence(r, spread)
    ensures forall i :: 0 <= i < |spread| && LongPeriodic(spread[i], minPeriod, maxPeriod) ==>
      multiset(r)[spread[i]] == multiset(spread)[spread[i]]
    ensures |r| <= |spread|
  {
    FilterIsSubsequence(Selects(minPeriod, maxPeriod), spread);
    Filter(Selects(minPeriod, maxPeriod), spread)
  }

  // ---------------------------------------------------------------------
  // best_long_period
  // ---------------------------------------------------------------------

  /** The branch of the cascade a row takes; `Fishy` is the final `else`. */
  datatype Rule = JH | HK | JK | SingleJ | SingleH | SingleK | Fishy

  /** The rules are tried in the order J+H, H+K, J+K, J, H, K; the first that
      holds wins. */
  function FirstRule(r: Row, minPeriod: real, maxPeriod: real): (rule: Rule)
    ensures rule != Fishy <==> LongPeriodic(r, minPeriod, maxPeriod)
    ensures rule == JH <==> PairRule(r.j, r.h, minPeriod, maxPeriod)
    ensures rule == HK <==> !PairRule(r.j, r.h, minPeriod, maxPeriod) && PairRule(r.h, r.k, minPeriod, maxPeriod)
    ensures rule == JK <==>
      !PairRule(r.j, r.h, minPeriod, maxPeriod) && !PairRule(r.h, r.k, minPeriod, maxPeriod)
      && PairRule(r.j, r.k, minPeriod, maxPeriod)
    ensures rule == SingleJ <==>
      !PairRule(r.j, r.h, minPeriod, maxPeriod) && !PairRule(r.h, r.k, minPeriod, maxPeriod)
      && !PairRule(r.j, r.k, minPeriod, maxPeriod) && SingleRule(r.j, minPeriod, maxPeriod)
    ensures rule == SingleH <==>
      !PairRule(r.j, r.h, minPeriod, maxPeriod) && !PairRule(r.h, r.k, minPeriod, maxPeriod)
      && !PairRule(r.j, r.k, minPeriod, maxPeriod) && !SingleRule(r.j, minPeriod, maxPeriod)
      && SingleRule(r.h, minPeriod, maxPeriod)
    ensures rule == SingleK <==>
      !PairRule(r.j, r.h, minPeriod, maxPeriod) && !PairRule(r.h, r.k, minPeriod, maxPeriod)
      && !PairRule(r.j, r.k, minPeriod, maxPeriod) && !SingleRule(r.j, minPeriod, maxPeriod)
      && !SingleRule(r.h, minPeriod, maxPeriod) && SingleRule(r.k, minPeriod, maxPeriod)
  {
    if PairRule(r.j, r.h, minPeriod, maxPeriod) then JH
    else if PairRule(r.h, r.k, minPeriod, maxPeriod) then HK
    else if PairRule(r.j, r.k, minPeriod, maxPeriod) then JK
    else if SingleRule(r.j, minPeriod, maxPeriod) then SingleJ
    else if SingleRule(r.h, minPeriod, maxPeriod) then SingleH
    else if SingleRule(r.k, minPeriod, maxPeriod) then SingleK
    else Fishy
  }

  /** The period a rule assigns: H's for J+H and H+K, K's for J+K, the band's
      own for a single band; the default -1 when no rule holds. */
  function AssignedPeriod(r: Row, rule: Rule): (p: real)
    ensures rule in {JH, HK, SingleH} ==> p == r.h.lspPer
    ensures rule in {JK, SingleK} ==> p == r.k.lspPer
    ensures rule == SingleJ ==> p == r.j.lspPer
    ensures rule == Fishy ==> p == NoPeriod
  {
    match rule
    case JH => r.h.lspPer
    case HK => r.h.lspPer
    case JK => r.k.lspPer
    case SingleJ => r.j.lspPer
    case SingleH => r.h.lspPer
    case SingleK => r.k.lspPer
    case Fishy => NoPeriod
  }

  /** The period the cascade assigns one row, with what its rule
      guarantees: the H+K and single-band rules put it strictly inside the
      window; J+H and J+K only place the J period inside the window, within
      5% of the assigned one. Pair rules saw both powers above 12, single
      bands a power above 15. */
  function BestPeriod(r: Row, minPeriod: real, maxPeriod: real): (p: real)
    ensures !LongPeriodic(r, minPeriod, maxPeriod) ==> p == NoPeriod
    ensures FirstRule(r, minPeriod, maxPeriod) in {HK, SingleJ, SingleH, SingleK} ==> minPeriod < p < maxPeriod
    ensures FirstRule(r, minPeriod, maxPeriod) in {JH, JK} ==>
      minPeriod < r.j.lspPer < maxPeriod && p * 0.95 < r.j.lspPer < p * 1.05
    ensures FirstRule(r, minPeriod, maxPeriod) == JH ==> r.j.lspPow > 12.0 && r.h.lspPow > 12.0
    ensures FirstRule(r, minPeriod, maxPeriod) == HK ==> r.h.lspPow > 12.0 && r.k.lspPow > 12.0
    ensures FirstRule(r, minPeriod, maxPeriod) == JK ==> r.j.lspPow > 12.0 && r.k.lspPow > 12.0
    ensures FirstRule(r, minPeriod, maxPeriod) in {SingleJ, SingleH, SingleK} ==>
      r.Stats(if FirstRule(r, minPeriod, maxPeriod) == SingleJ then J
              else if FirstRule(r, minPeriod, maxPeriod) == SingleH then H else K).lspPow > 15.0
  {
    AssignedPeriod(r, FirstRule(r, minPeriod, maxPeriod))
  }

  /** A row with its new `best_period` column. */
  datatype PeriodRow = PeriodRow(row: Row, bestPeriod: real)

  /** `best_long_period`: every input row, in order, with the period of the
      first rule it meets, or -1 if it meets none. */
  function BestLongPeriod(ps: seq<Row>, minPeriod: real, maxPeriod: real): (r: seq<PeriodRow>)
    ensures |r| == |ps|
    ensures forall i :: 0 <= i < |ps| ==> r[i].row == ps[i]
    ensures forall i :: 0 <= i < |ps| ==> r[i].bestPeriod == BestPeriod(ps[i], minPeriod, maxPeriod)
  {
    seq(|ps|, i requires 0 <= i < |ps| => PeriodRow(ps[i], BestPeriod(ps[i], minPeriod, maxPeriod)))
  }

  // ---------------------------------------------------------------------
  // Properties
  // ---------------------------------------------------------------------

  /** For a non-negative window, an assigned period is positive, so a row
      keeps the default -1 exactly when the selector rejects it. */
  lemma DefaultIffRejected(r: Row, minPeriod: real, maxPeriod: real)
    requires minPeriod >= 0.0
    ensures BestPeriod(r, minPeriod, maxPeriod) == NoPeriod <==> !LongPeriodic(r, minPeriod, maxPeriod)
  {
    var p := BestPeriod(r, minPeriod, maxPeriod);
    if FirstRule(r, minPeriod, maxPeriod) in {JH, JK} {
      assert p * 1.05 > r.j.lspPer > 0.0;
    }
  }

  /** The pipeline the script runs, `best_long_period(long_periodic_selector
      (spread))`, gives every star it returns a real period inside its
      assigning rule's guarantee: no selected row is left at -1. */
  lemma {:induction false} SelectedRowsGetPeriods(spread: seq<Row>, minPeriod: real, maxPeriod: real)
    requires minPeriod >= 0.0
    ensures
      var out := BestLongPeriod(LongPeriodicSelector(spread, minPeriod, maxPeriod), minPeriod, maxPeriod);
      forall i :: 0 <= i < |out| ==> out[i].bestPeriod != NoPeriod && out[i].row in spread
  {
    var sel := LongPeriodicSelector(spread, minPeriod, maxPeriod);
    forall i | 0 <= i < |sel|
      ensures BestPeriod(sel[i], minPeriod, maxPeriod) != NoPeriod
    {
      assert sel[i] in sel;
      DefaultIffRejected(sel[i], minPeriod, maxPeriod);
    }
  }
}
