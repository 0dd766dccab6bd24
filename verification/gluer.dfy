/** The master variable list (auto_subj_gluer.py): the true automatic
    variables and the confirmed subjective variables, each row carrying
    three flag columns (`autovar`, `strict`, `periodic`, written as the
    floats 1 and 0), concatenated automatic-first.

    The confirmed subjective lists come from the montage script, which is
    not part of this model: they are parameters, as are the outputs of the
    periodic selector the star counts use. */
module Gluer {
  import opened Seqs
  import opened Spreadsheet
  import opened StarCounter

  /** A spreadsheet row with the three flag columns appended. */
  datatype GluedRow = GluedRow(row: Row, autovar: real, strict: real, periodic: real)

  /** `np.in1d` turned into a 0/1 float column. */
  function Flag(b: bool): (f: real)
    ensures f == 1.0 <==> b
    ensures f == 0.0 <==> !b
  {
    if b then 1.0 else 0.0
  }

  function PositiveId(): Row -> bool
  {
    (x: Row) => x.sourceId > 0
  }

  function GluedPositive(): GluedRow -> bool
  {
    (g: GluedRow) => g.row.sourceId > 0
  }

  /** The star-count inputs the automatic half reads: the spreadsheet of
      the star counts and the two periodic-selector outputs. */
  datatype Counts = Counts(spread: seq<Row>, p123: seq<Row>, p1: seq<Row>)

  /** `autovars`: the positive-SOURCEID true variables, in order, flagged
      autovar 1, strict by SOURCEID membership in `autovars_strict` and
      periodic by membership in `autovars_true_periodics`. */
  function Autovars(c: Counts): (r: seq<GluedRow>)
    ensures |r| == |Filter(PositiveId(), AutovarsTrue(c.spread))|
    ensures forall i :: 0 <= i < |r| ==>
      r[i].row == Filter(PositiveId(), AutovarsTrue(c.spread))[i]
      && r[i].row in AutovarsTrue(c.spread) && r[i].row.sourceId > 0
      && r[i].autovar == 1.0
      && (r[i].strict == 1.0 <==> r[i].row.sourceId in Ids(AutovarsStrict(c.spread)))
      && (r[i].strict == 0.0 <==> r[i].row.sourceId !in Ids(AutovarsStrict(c.spread)))
      && (r[i].periodic == 1.0 <==> r[i].row.sourceId in Ids(AutovarsTruePeriodics(c.spread, c.p123, c.p1)))
      && (r[i].periodic == 0.0 <==> r[i].row.sourceId !in Ids(AutovarsTruePeriodics(c.spread, c.p123, c.p1)))
  {
    var base := Filter(PositiveId(), AutovarsTrue(c.spread));
    var strictIds := Ids(AutovarsStrict(c.spread));
    var periodicIds := Ids(AutovarsTruePeriodics(c.spread, c.p123, c.p1));
    assert forall i :: 0 <= i < |base| ==> base[i] in base;
    seq(|base|, i requires 0 <= i < |base| =>
      GluedRow(base[i], 1.0, Flag(base[i].sourceId in strictIds), Flag(base[i].sourceId in periodicIds)))
  }

  /** With SOURCEID a key of the spreadsheet, an automatic variable is
      flagged strict exactly when it meets case 1 itself. */
  lemma StrictFlagIffCase1(c: Counts, i: int)
    requires UniqueIds(c.spread)
    requires 0 <= i < |Autovars(c)|
    ensures Autovars(c)[i].strict == 1.0 <==> Case1(Autovars(c)[i].row)
  {
    var x := Autovars(c)[i].row;
    assert x in AutovarsTrue(c.spread);
    StrictIdIffCase1(c.spread, x);
  }

  /** With SOURCEID a key, a row's SOURCEID is among the strict variables'
      exactly when the row itself meets case 1. */
  lemma StrictIdIffCase1(sp: seq<Row>, x: Row)
    requires UniqueIds(sp) && x in sp
    ensures x.sourceId in Ids(AutovarsStrict(sp)) <==> Case1(x)
  {
    var strict := AutovarsStrict(sp);
    var a :| 0 <= a < |sp| && sp[a] == x;
    if x.sourceId in Ids(strict) {
      var j :| 0 <= j < |strict| && strict[j].sourceId == x.sourceId;
      assert strict[j] in strict;
      var b :| 0 <= b < |sp| && sp[b] == strict[j];
    }
    if Case1(x) {
      assert x in strict;
      var j :| 0 <= j < |strict| && strict[j] == x;
    }
  }

  /** An automatic variable is flagged periodic exactly when either run of
      the periodic selector picked its SOURCEID. */
  lemma PeriodicFlagIffSelected(c: Counts, i: int)
    requires 0 <= i < |Autovars(c)|
    ensures Autovars(c)[i].periodic == 1.0 <==> Autovars(c)[i].row.sourceId in Ids(c.p123) + Ids(c.p1)
  {
    var x := Autovars(c)[i].row;
    var periodics := AutovarsTruePeriodics(c.spread, c.p123, c.p1);
    if x.sourceId in Ids(periodics) {
      var j :| 0 <= j < |periodics| && periodics[j].sourceId == x.sourceId;
      assert periodics[j] in periodics;
    }
    if x.sourceId in Ids(c.p123) + Ids(c.p1) {
      assert x in periodics;
      var j :| 0 <= j < |periodics| && periodics[j] == x;
    }
  }

  /** `subjvars`: the rows of the P* spreadsheet whose SOURCEID is on
      either confirmed subjective list, in spreadsheet order, flagged
      autovar 0, strict 0 and periodic by membership in the confirmed
      periodic list. */
  function Subjvars(pstar: seq<Row>, nonpers: seq<Row>, periodics: seq<Row>): (r: seq<GluedRow>)
    ensures |r| == |Filter(Among(Ids(nonpers) + Ids(periodics)), pstar)|
    ensures forall i :: 0 <= i < |r| ==>
      r[i].row == Filter(Among(Ids(nonpers) + Ids(periodics)), pstar)[i]
      && r[i].row in pstar
      && (r[i].row.sourceId in Ids(nonpers) || r[i].row.sourceId in Ids(periodics))
      && r[i].autovar == 0.0 && r[i].strict == 0.0
      && (r[i].periodic == 1.0 <==> r[i].row.sourceId in Ids(periodics))
      && (r[i].periodic == 0.0 <==> r[i].row.sourceId !in Ids(periodics))
  {
    var base := Filter(Among(Ids(nonpers) + Ids(periodics)), pstar);
    var periodicIds := Ids(periodics);
    assert forall i :: 0 <= i < |base| ==> base[i] in base;
    seq(|base|, i requires 0 <= i < |base| =>
      GluedRow(base[i], 0.0, 0.0, Flag(base[i].sourceId in periodicIds)))
  }

  /** `gluedvars`: the positive-SOURCEID automatic rows, then every
      subjective row. */
  function Glued(c: Counts, pstar: seq<Row>, nonpers: seq<Row>, periodics: seq<Row>): (r: seq<GluedRow>)
    ensures |r| == |Autovars(c)| + |Subjvars(pstar, nonpers, periodics)|
    ensures r[..|Autovars(c)|] == Autovars(c)
    ensures r[|Autovars(c)|..] == Subjvars(pstar, nonpers, periodics)
  {
    var autos := Autovars(c);
    AutovarsAllPositive(c);
    var r := Filter(GluedPositive(), autos) + Subjvars(pstar, nonpers, periodics);
    assert r[..|autos|] == autos;
    r
  }

  /** Re-selecting the positive SOURCEIDs of `autovars` changes nothing:
      every one is already positive. */
  lemma {:induction false} AutovarsAllPositive(c: Counts)
    ensures Filter(GluedPositive(), Autovars(c)) == Autovars(c)
  {
    var autos := Autovars(c);
    assert forall g :: g in autos ==> GluedPositive()(g) by {
      forall g | g in autos ensures GluedPositive()(g) {
        var i :| 0 <= i < |autos| && autos[i] == g;
      }
    }
    FilterKeepsAll(GluedPositive(), autos);
  }

  /** In the glued list the autovar flag tells the two halves apart: it is
      1 exactly on the automatic rows, which come first; strict rows are
      automatic rows, and every row comes from one of the two
      spreadsheets. */
  lemma GluedFlagsSeparateHalves(c: Counts, pstar: seq<Row>, nonpers: seq<Row>, periodics: seq<Row>, i: int)
    requires 0 <= i < |Glued(c, pstar, nonpers, periodics)|
    ensures Glued(c, pstar, nonpers, periodics)[i].autovar == 1.0 <==> i < |Autovars(c)|
    ensures Glued(c, pstar, nonpers, periodics)[i].strict == 1.0 ==> i < |Autovars(c)|
    ensures Glued(c, pstar, nonpers, periodics)[i].row in c.spread || Glued(c, pstar, nonpers, periodics)[i].row in pstar
  {
    var g := Glued(c, pstar, nonpers, periodics);
    var autos := Autovars(c);
    var subs := Subjvars(pstar, nonpers, periodics);
    AtHalves(g, autos, subs, i);
    if i < |autos| {
      assert g[i] == autos[i];
      assert autos[i].row in AutovarsTrue(c.spread);
    } else {
      assert g[i] == subs[i - |autos|];
    }
  }

  /** An index into a concatenation lands in one of its halves. */
  lemma AtHalves<T>(g: seq<T>, a: seq<T>, b: seq<T>, i: int)
    requires |g| == |a| + |b| && g[..|a|] == a && g[|a|..] == b
    requires 0 <= i < |g|
    ensures i < |a| ==> g[i] == a[i]
    ensures i >= |a| ==> g[i] == b[i - |a|]
  {
    if i < |a| {
      assert g[i] == g[..|a|][i];
    } else {
      assert g[i] == g[|a|..][i - |a|];
    }
  }
}
