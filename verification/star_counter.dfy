/** The official star counts (official_star_counter.py): a family of row
    selections from the variability spreadsheet, each `spread.where(...)`
    of a per-row criterion, and the nesting between them.

    The periodic subsets depend on `periodic_selector`, which is not part of
    this model: its two output tables are parameters. */
module StarCounter {
  import opened Seqs
  import opened Spreadsheet

  // ---------------------------------------------------------------------
  // Per-row criteria
  // ---------------------------------------------------------------------

  /** At least 50 detections in some band. */
  predicate Observed(r: Row)
  {
    r.j.n >= MinDetections || r.k.n >= MinDetections || r.h.n >= MinDetections
  }

  predicate MaxVar(r: Row)
  {
    r.stetson > 1.0 && Observed(r)
  }

  predicate AutoVarOld(r: Row)
  {
    r.stetson > 1.0 && AnyQuality(r)
  }

  /** A quality band whose reduced chi-squared exceeds 1. */
  predicate QualityChi(r: Row, b: Band)
  {
    Quality(r, b) && r.Stats(b).rchi2 > 1.0
  }

  /** Case 1: all three bands are quality, and Stetson > 1. */
  predicate Case1(r: Row)
  {
    r.stetson > 1.0 && AllQuality(r)
  }

  /** Case 2: some quality band with reduced chi-squared > 1, and Stetson > 1. */
  predicate Case2(r: Row)
  {
    r.stetson > 1.0 && (QualityChi(r, J) || QualityChi(r, H) || QualityChi(r, K))
  }

  predicate TrueVar(r: Row)
  {
    Case1(r) || Case2(r)
  }

  /** `cand_case1 | cand_case2`: the data quality for automatic
      classification, without the variability conditions. */
  predicate TrueCandidate(r: Row)
  {
    AllQuality(r) || AnyQuality(r)
  }

  // ---------------------------------------------------------------------
  // The samples
  // ---------------------------------------------------------------------

  function Minimum(sp: seq<Row>): (r: seq<Row>)
    ensures forall x :: x in r <==> x in sp && Observed(x)
  {
    Filter(Observed, sp)
  }

  function MaxVars(sp: seq<Row>): (r: seq<Row>)
    ensures forall x :: x in r <==> x in sp && x.stetson > 1.0 && Observed(x)
  {
    Filter(MaxVar, sp)
  }

  function AutovarsOld(sp: seq<Row>): (r: seq<Row>)
    ensures forall x :: x in r <==> x in sp && x.stetson > 1.0 && AnyQuality(x)
  {
    Filter(AutoVarOld, sp)
  }

  function AutocandidatesOld(sp: seq<Row>): (r: seq<Row>)
    ensures forall x :: x in r <==> x in sp && AnyQuality(x)
  {
    Filter(AnyQuality, sp)
  }

  function AutovarsTrue(sp: seq<Row>): (r: seq<Row>)
    ensures forall x :: x in r <==> x in sp && (Case1(x) || Case2(x))
  {
    Filter(TrueVar, sp)
  }

  function AutovarsStrict(sp: seq<Row>): (r: seq<Row>)
    ensures forall x :: x in r <==> x in sp && x.stetson > 1.0 && AllQuality(x)
  {
    Filter(Case1, sp)
  }

  function AutocanTrue(sp: seq<Row>): (r: seq<Row>)
    ensures forall x :: x in r <==> x in sp && (AllQuality(x) || AnyQuality(x))
  {
    Filter(TrueCandidate, sp)
  }

  function AutocanStrict(sp: seq<Row>): (r: seq<Row>)
    ensures forall x :: x in r <==> x in sp && AllQuality(x)
  {
    Filter(AllQuality, sp)
  }

  /** The `maxvars` rows whose SOURCEID is not among the true automatic
      variables. */
  function Subjectives(sp: seq<Row>): (r: seq<Row>)
    ensures forall x :: x in r <==> x in MaxVars(sp) && x.sourceId !in Ids(AutovarsTrue(sp))
  {
    Filter(NotAmong(Ids(AutovarsTrue(sp))), MaxVars(sp))
  }

  /** Rows whose SOURCEID was picked by either run of the periodic selector. */
  function Periodic(p123: seq<Row>, p1: seq<Row>): Row -> bool
  {
    Among(Ids(p123) + Ids(p1))
  }

  function AutovarsTruePeriodics(sp: seq<Row>, p123: seq<Row>, p1: seq<Row>): (r: seq<Row>)
    ensures forall x :: x in r <==>
      x in AutovarsTrue(sp) && (x.sourceId in Ids(p123) || x.sourceId in Ids(p1))
  {
    Filter(Periodic(p123, p1), AutovarsTrue(sp))
  }

  function AutovarsStrictPeriodics(sp: seq<Row>, p123: seq<Row>, p1: seq<Row>): (r: seq<Row>)
    ensures forall x :: x in r <==>
      x in AutovarsStrict(sp) && (x.sourceId in Ids(p123) || x.sourceId in Ids(p1))
  {
    Filter(Periodic(p123, p1), AutovarsStrict(sp))
  }

  // ---------------------------------------------------------------------
  // Nesting of the samples
  // ---------------------------------------------------------------------

  /** `maxvars` is an ordered sub-table of `minimum`. */
  lemma {:induction false} MaxvarsWithinMinimum(sp: seq<Row>)
    ensures Filter(MaxVar, Minimum(sp)) == MaxVars(sp)
    ensures forall x :: x in MaxVars(sp) ==> x in Minimum(sp)
  {
    FilterNested(MaxVar, Observed, sp);
  }

  /** The strict variables are the true variables that meet case 1. */
  lemma {:induction false} StrictWithinTrue(sp: seq<Row>)
    ensures Filter(Case1, AutovarsTrue(sp)) == AutovarsStrict(sp)
    ensures forall x :: x in AutovarsStrict(sp) ==> x in AutovarsTrue(sp)
  {
    FilterNested(Case1, TrueVar, sp);
  }

  /** Every true variable is a true candidate: case 1 implies candidate
      case 1 and case 2 implies candidate case 2. */
  lemma {:induction false} TrueVarsAreCandidates(sp: seq<Row>)
    ensures Filter(TrueVar, AutocanTrue(sp)) == AutovarsTrue(sp)
    ensures forall x :: x in AutovarsTrue(sp) ==> x in AutocanTrue(sp)
  {
    FilterNested(TrueVar, TrueCandidate, sp);
  }

  /** The strict candidates are the true candidates with all three bands of
      quality. */
  lemma {:induction false} StrictCandidatesWithinTrue(sp: seq<Row>)
    ensures Filter(AllQuality, AutocanTrue(sp)) == AutocanStrict(sp)
  {
    FilterNested(AllQuality, TrueCandidate, sp);
  }

  /** `autocan_true` is the same table as `autocandidates_old`: all-three-band
      quality already implies some-band quality. */
  lemma {:induction false} AutocanTrueIsOld(sp: seq<Row>)
    ensures AutocanTrue(sp) == AutocandidatesOld(sp)
  {
    FilterAgree(TrueCandidate, AnyQuality, sp);
  }

  /** The true variables are an ordered sub-table of `maxvars`: a quality
      band has at least 50 detections, and both cases demand Stetson > 1. */
  lemma {:induction false} TrueWithinMaxvars(sp: seq<Row>)
    ensures Filter(TrueVar, MaxVars(sp)) == AutovarsTrue(sp)
  {
    FilterNested(TrueVar, MaxVar, sp);
  }

  /** The true variables are an ordered sub-table of the old automatic
      variables: case 2 only adds a reduced chi-squared condition. */
  lemma {:induction false} TrueWithinOld(sp: seq<Row>)
    ensures Filter(TrueVar, AutovarsOld(sp)) == AutovarsTrue(sp)
  {
    FilterNested(TrueVar, AutoVarOld, sp);
  }

  /** No row is both a subjective and a true automatic variable. */
  lemma SubjectivesDisjoint(sp: seq<Row>, x: Row)
    ensures !(x in Subjectives(sp) && x in AutovarsTrue(sp))
  {
    if x in AutovarsTrue(sp) {
      var i :| 0 <= i < |AutovarsTrue(sp)| && AutovarsTrue(sp)[i] == x;
    }
  }

  /** With SOURCEID a key, `maxvars` splits into the subjectives and the true
      automatic variables, and the counts the script prints add up. */
  lemma {:induction false} SubjectivesPartition(sp: seq<Row>)
    requires UniqueIds(sp)
    ensures forall x :: x in MaxVars(sp) <==> x in Subjectives(sp) || x in AutovarsTrue(sp)
    ensures |Subjectives(sp)| + |AutovarsTrue(sp)| == |MaxVars(sp)|
  {
    var ids := Ids(AutovarsTrue(sp));
    forall x | x in MaxVars(sp)
      ensures Among(ids)(x) <==> TrueVar(x)
    {
      if x.sourceId in ids {
        var i :| 0 <= i < |AutovarsTrue(sp)| && AutovarsTrue(sp)[i].sourceId == x.sourceId;
        var y := AutovarsTrue(sp)[i];
        var a :| 0 <= a < |sp| && sp[a] == x;
        var b :| 0 <= b < |sp| && sp[b] == y;
      }
    }
    FilterAgree(Among(ids), TrueVar, MaxVars(sp));
    TrueWithinMaxvars(sp);
    FilterComplementCount(NotAmong(ids), Among(ids), MaxVars(sp));
  }

  /** The periodic true variables are an ordered sub-table of the true
      variables, and the periodic strict variables are exactly the periodic
      true variables that meet case 1. */
  lemma {:induction false} PeriodicsNested(sp: seq<Row>, p123: seq<Row>, p1: seq<Row>)
    ensures forall x :: x in AutovarsTruePeriodics(sp, p123, p1) ==> x in AutovarsTrue(sp)
    ensures Filter(Case1, AutovarsTruePeriodics(sp, p123, p1)) == AutovarsStrictPeriodics(sp, p123, p1)
  {
    FilterCommute(Case1, Periodic(p123, p1), AutovarsTrue(sp));
    StrictWithinTrue(sp);
  }
}
