/** Removal of bad nights (find_bad_timestamps.py). `analyze_nights2` sorts
    the distinct timestamps, deals them round-robin to the four WFCAM
    chipsets and records, for each timestamp, the mean H-K and J-H colour of
    the well-measured detections; `remove_nights2` flags the timestamps
    whose mean colours lie more than three robust standard deviations from
    the chipset's robust centre and drops their detections.

    The averaging (`ndarray.mean`) and the robust statistics (`rb.meanr`,
    `rb.stdr`) are parameters. */
module BadTimestamps {
  import opened Results
  import opened Seqs
  import opened Photometry

  // ---------------------------------------------------------------------
  // Well-measured detections
  // ---------------------------------------------------------------------

  /** Magnitude windows for the "good" detections of a night. */
  datatype GoodBounds = GoodBounds(jBright: real, jDim: real, hBright: real, hDim: real,
                                   kBright: real, kDim: real)

  /** The defaults of `analyze_nights2`, also hard-coded in `simple_analyze`. */
  const DefaultBounds: GoodBounds := GoodBounds(13.0, 18.0, 12.0, 17.0, 11.5, 16.5)

  /** Error-bit values at or above this disqualify a detection. */
  const ErrBitsLimit: int := 5

  /** Strictly inside every magnitude window, with small error bits in all
      three bands. */
  predicate Good(d: Detection, b: GoodBounds)
  {
    b.jBright < d.jAperMag3 < b.jDim
    && b.hBright < d.hAperMag3 < b.hDim
    && b.kBright < d.kAperMag3 < b.kDim
    && d.jppErrBits < ErrBitsLimit && d.hppErrBits < ErrBitsLimit && d.kppErrBits < ErrBitsLimit
  }

  function GoodOnNight(time: real, b: GoodBounds): Detection -> bool
  {
    (d: Detection) => d.meanMjdObs == time && Good(d, b)
  }

  /** `table.where(MEANMJDOBS == time)` followed by the quality cut. */
  function GoodRows(table: seq<Detection>, time: real, b: GoodBounds): (r: seq<Detection>)
    ensures forall d :: d in r <==> d in table && d.meanMjdObs == time && Good(d, b)
  {
    Filter(GoodOnNight(time, b), table)
  }

  /** The mean H-K and J-H colours of a night's good detections, for a given
      averaging function. */
  function NightHmk(table: seq<Detection>, time: real, b: GoodBounds, mean: seq<real> -> real): real
  {
    var g := GoodRows(table, time, b);
    mean(seq(|g|, i requires 0 <= i < |g| => g[i].hmkPnt))
  }

  function NightJmh(table: seq<Detection>, time: real, b: GoodBounds, mean: seq<real> -> real): real
  {
    var g := GoodRows(table, time, b);
    mean(seq(|g|, i requires 0 <= i < |g| => g[i].jmhPnt))
  }

  // ---------------------------------------------------------------------
  // Timestamps
  // ---------------------------------------------------------------------

  function Timestamps(table: seq<Detection>): (ts: seq<real>)
    ensures |ts| == |table| && forall i :: 0 <= i < |table| ==> ts[i] == table[i].meanMjdObs
  {
    seq(|table|, i requires 0 <= i < |table| => table[i].meanMjdObs)
  }

  /** `sorted(list(set(table.MEANMJDOBS)))`. */
  function DistinctTimestamps(table: seq<Detection>): (ts: seq<real>)
    ensures StrictlyIncreasing(ts)
    ensures forall t :: t in ts <==> exists d :: d in table && d.meanMjdObs == t
    ensures |ts| <= |table|
  {
    var all := Timestamps(table);
    forall t | t in all ensures exists d :: d in table && d.meanMjdObs == t {
      var i :| 0 <= i < |all| && all[i] == t;
      assert table[i] in table;
    }
    forall d | d in table ensures d.meanMjdObs in all {
      var i :| 0 <= i < |table| && table[i] == d;
      assert all[i] == d.meanMjdObs;
    }
    SortedDistinct(all)
  }

  /** `sorted(list(set(...)))` is determined by its contents: any strictly
      increasing list of exactly the observed timestamps is this one. */
  lemma DistinctTimestampsUnique(table: seq<Detection>, ts: seq<real>)
    requires StrictlyIncreasing(ts)
    requires forall t :: t in ts <==> exists d :: d in table && d.meanMjdObs == t
    ensures ts == DistinctTimestamps(table)
  {
    StrictlyIncreasingUnique(ts, DistinctTimestamps(table));
  }

  /** The number of distinct timestamps in the intact survey data. */
  const ExpectedTimestamps: nat := 496

  /** The placeholder for chipset 1's missing night. */
  const DummyNight: real := 54920.0

  /** The distinct timestamps, with the dummy night inserted in sorted
      position unless there are exactly 496 of them. A dummy equal to an
      existing timestamp is kept as a duplicate. */
  function PaddedTimestamps(table: seq<Detection>): (ts: seq<real>)
    ensures NonDecreasing(ts)
    ensures |DistinctTimestamps(table)| == ExpectedTimestamps ==> ts == DistinctTimestamps(table)
    ensures |DistinctTimestamps(table)| != ExpectedTimestamps ==>
      |ts| == |DistinctTimestamps(table)| + 1
      && multiset(ts) == multiset(DistinctTimestamps(table)) + multiset{DummyNight}
  {
    var distinct := DistinctTimestamps(table);
    if |distinct| == ExpectedTimestamps then distinct
    else InsertSorted(DummyNight, distinct)
  }

  /** `np.ceil(n / 4.)`: the number of nights per chipset. */
  function NightsPerChipset(n: nat): (m: nat)
    ensures n <= 4 * m < n + 4
  {
    (n + 3) / 4
  }

  // ---------------------------------------------------------------------
  // analyze_nights2
  // ---------------------------------------------------------------------

  /** The divvied timestamps and the two 4 x nights arrays of mean colours. */
  datatype Analysis = Analysis(divvied: seq<seq<real>>, meanHmk: seq<seq<real>>, meanJmh: seq<seq<real>>)

  /** `analyze_nights2`. Chipset `k` receives the padded timestamps at
      positions `4 i + k` for `i` below the nights per chipset; an index past
      the end of the padded list is an IndexError. */
  function AnalyzeNights2(table: seq<Detection>, b: GoodBounds, mean: seq<real> -> real): (r: Result<Analysis>)
    ensures
      var padded := PaddedTimestamps(table);
      var m := NightsPerChipset(|DistinctTimestamps(table)|);
      && (r.Ok? <==> 4 * m <= |padded|)
      && (r.Err? ==> r.error == IndexError)
      && (r.Ok? ==>
            |r.value.divvied| == 4 && |r.value.meanHmk| == 4 && |r.value.meanJmh| == 4
            && (forall k :: 0 <= k < 4 ==>
                  |r.value.divvied[k]| == m && |r.value.meanHmk[k]| == m && |r.value.meanJmh[k]| == m)
            && (forall k, i :: 0 <= k < 4 && 0 <= i < m ==>
                  r.value.divvied[k][i] == padded[4 * i + k]
                  && r.value.meanHmk[k][i] == NightHmk(table, padded[4 * i + k], b, mean)
                  && r.value.meanJmh[k][i] == NightJmh(table, padded[4 * i + k], b, mean)))
  {
    var padded := PaddedTimestamps(table);
    var m := NightsPerChipset(|DistinctTimestamps(table)|);
    if 4 * m <= |padded| then
      var divvied := Divvy(padded, m);
      Ok(Analysis(divvied, NightMeans(table, divvied, b, mean, true), NightMeans(table, divvied, b, mean, false)))
    else Err(IndexError)
  }

  /** `timestamps[np.arange(0, n, 4) + k]` for the four chipsets `k`. */
  function Divvy(padded: seq<real>, m: nat): (d: seq<seq<real>>)
    requires 4 * m <= |padded|
    ensures |d| == 4 && forall k :: 0 <= k < 4 ==> |d[k]| == m
    ensures forall k, i :: 0 <= k < 4 && 0 <= i < m ==> d[k][i] == padded[4 * i + k]
  {
    seq(4, k requires 0 <= k < 4 => seq(m, i requires 0 <= i < m => padded[4 * i + k]))
  }

  /** The mean H-K (`hmk`) or J-H colour of each divvied night. */
  function NightMeans(table: seq<Detection>, d: seq<seq<real>>, b: GoodBounds, mean: seq<real> -> real, hmk: bool)
    : (r: seq<seq<real>>)
    ensures |r| == |d| && forall k :: 0 <= k < |d| ==> |r[k]| == |d[k]|
    ensures forall k, i :: 0 <= k < |d| && 0 <= i < |d[k]| ==>
      r[k][i] == if hmk then NightHmk(table, d[k][i], b, mean) else NightJmh(table, d[k][i], b, mean)
  {
    seq(|d|, k requires 0 <= k < |d| =>
      seq(|d[k]|, i requires 0 <= i < |d[k]| =>
        if hmk then NightHmk(table, d[k][i], b, mean) else NightJmh(table, d[k][i], b, mean)))
  }

  /** The padding fits the round-robin exactly when the number of distinct
      timestamps leaves remainder 0 or 3 modulo 4: remainder 3 is the
      intact survey with chipset 1's night missing, which the dummy
      completes. */
  lemma AnalyzeSucceedsIff(table: seq<Detection>, b: GoodBounds, mean: seq<real> -> real)
    ensures AnalyzeNights2(table, b, mean).Ok? <==>
      |DistinctTimestamps(table)| % 4 == 0 || |DistinctTimestamps(table)| % 4 == 3
  {
    var n := |DistinctTimestamps(table)|;
    var m := NightsPerChipset(n);
    assert n == 4 * (n / 4) + n % 4;
    if n % 4 == 0 {
      assert 4 * m == n;
    } else {
      assert 4 * m == n + 4 - n % 4;
      assert n != ExpectedTimestamps;
    }
  }

  /** The round-robin is the inverse of the position map: position `p` of
      the padded list, below four times the nights per chipset, is night
      `p / 4` of chipset `p % 4`. */
  lemma ChipsetPositions(table: seq<Detection>, b: GoodBounds, mean: seq<real> -> real, p: nat)
    requires AnalyzeNights2(table, b, mean).Ok?
    requires p < 4 * NightsPerChipset(|DistinctTimestamps(table)|)
    ensures p / 4 < NightsPerChipset(|DistinctTimestamps(table)|)
    ensures AnalyzeNights2(table, b, mean).value.divvied[p % 4][p / 4] == PaddedTimestamps(table)[p]
  {
    assert p == 4 * (p / 4) + p % 4;
  }

  /** When the padded list fills the chipsets exactly (496 timestamps, or a
      count of remainder 3), every observed timestamp is dealt to some
      chipset. */
  lemma EveryNightDealt(table: seq<Detection>, b: GoodBounds, mean: seq<real> -> real, t: real)
    requires AnalyzeNights2(table, b, mean).Ok?
    requires |DistinctTimestamps(table)| == ExpectedTimestamps || |DistinctTimestamps(table)| % 4 == 3
    requires exists d :: d in table && d.meanMjdObs == t
    ensures exists k, i :: 0 <= k < 4 && 0 <= i < |AnalyzeNights2(table, b, mean).value.divvied[k]|
              && AnalyzeNights2(table, b, mean).value.divvied[k][i] == t
  {
    var padded := PaddedTimestamps(table);
    ObservedNightPadded(table, t);
    var p :| 0 <= p < |padded| && padded[p] == t;
    PaddingFillsChipsets(table);
    ChipsetPositions(table, b, mean, p);
    assert AnalyzeNights2(table, b, mean).value.divvied[p % 4][p / 4] == t;
  }

  /** Every observed timestamp survives the padding. */
  lemma ObservedNightPadded(table: seq<Detection>, t: real)
    requires exists d :: d in table && d.meanMjdObs == t
    ensures t in PaddedTimestamps(table)
  {
    var distinct := DistinctTimestamps(table);
    assert t in distinct;
    if |distinct| != ExpectedTimestamps {
      assert multiset(PaddedTimestamps(table))[t] >= multiset(distinct)[t] > 0;
    }
  }

  /** For 496 timestamps, or a count of remainder 3, the padded list is
      exactly four times the nights per chipset long. */
  lemma PaddingFillsChipsets(table: seq<Detection>)
    requires |DistinctTimestamps(table)| == ExpectedTimestamps || |DistinctTimestamps(table)| % 4 == 3
    ensures 4 * NightsPerChipset(|DistinctTimestamps(table)|) == |PaddedTimestamps(table)|
  {
    var n := |DistinctTimestamps(table)|;
    if n != ExpectedTimestamps {
      CeilQuarterOfThree(n);
    }
  }

  /** For a count of remainder 3, four nights per chipset cover one more
      than the count. */
  lemma CeilQuarterOfThree(n: nat)
    requires n % 4 == 3
    ensures 4 * NightsPerChipset(n) == n + 1
  {
    var q := n / 4;
    assert n == 4 * q + 3;
    assert n + 3 == 4 * (q + 1) + 2;
    assert (n + 3) / 4 == q + 1;
  }

  // ---------------------------------------------------------------------
  // remove_nights2
  // ---------------------------------------------------------------------

  /** What `remove_nights2` needs of its `analysis` argument, which must be
      the output of `analyze_nights2`: one timestamp list and two mean-colour
      rows per chipset, all of one length per chipset. */
  predicate WellShaped(a: Analysis)
  {
    |a.meanHmk| == |a.divvied| && |a.meanJmh| == |a.divvied|
    && forall k :: 0 <= k < |a.divvied| ==>
         |a.meanHmk[k]| == |a.divvied[k]| && |a.meanJmh[k]| == |a.divvied[k]|
  }

  /** The output of `analyze_nights2` is what `remove_nights2` expects. */
  lemma AnalysisWellShaped(table: seq<Detection>, b: GoodBounds, mean: seq<real> -> real)
    requires AnalyzeNights2(table, b, mean).Ok?
    ensures WellShaped(AnalyzeNights2(table, b, mean).value)
    ensures |AnalyzeNights2(table, b, mean).value.divvied| == 4
  {
  }

  /** `rb.meanr` and `rb.stdr`. */
  datatype RobustStats = RobustStats(meanr: seq<real> -> real, stdr: seq<real> -> real)

  /** One chipset's cut parameters: (mean_hmk, mean_jmh, spread_hmk,
      spread_jmh), the robust centres and spreads. */
  datatype Cut = Cut(middleHmk: real, middleJmh: real, spreadHmk: real, spreadJmh: real)

  function CutOf(hmk: seq<real>, jmh: seq<real>, stats: RobustStats): Cut
  {
    Cut(stats.meanr(hmk), stats.meanr(jmh), stats.stdr(hmk), stats.stdr(jmh))
  }

  /** A floating-point value as far as the ellipse test needs: finite, +inf
      or NaN. */
  datatype ExtReal = Fin(x: real) | Inf | NaN

  /** `((value - middle) / spread) ** 2` in floating point: a zero spread
      gives +inf for a non-zero numerator and NaN for a zero one. */
  function SquaredDeviation(value: real, middle: real, spread: real): (e: ExtReal)
    ensures e.Fin? ==> e.x >= 0.0
    ensures e.Fin? <==> spread != 0.0
  {
    if spread != 0.0 then
      var q := (value - middle) / spread;
      Fin(q * q)
    else if value != middle then Inf
    else NaN
  }

  /** Floating-point addition of two squares: NaN absorbs, then +inf. */
  function AddSquares(a: ExtReal, b: ExtReal): (e: ExtReal)
    ensures e.NaN? <==> a.NaN? || b.NaN?
    ensures e.Inf? <==> !e.NaN? && (a.Inf? || b.Inf?)
    ensures e.Fin? ==> a.Fin? && b.Fin? && e.x == a.x + b.x
  {
    if a.NaN? || b.NaN? then NaN
    else if a.Inf? || b.Inf? then Inf
    else Fin(a.x + b.x)
  }

  /** `np.sqrt(s) > 3` for a sum of squares `s`: +inf passes, NaN fails, and
      for a finite non-negative sum the square root exceeds 3 exactly when
      the sum exceeds 9. */
  predicate SqrtAboveThree(s: ExtReal)
  {
    s.Inf? || (s.Fin? && s.x > 9.0)
  }

  /** The ellipse test of one night. */
  predicate Outlier(hmk: real, jmh: real, c: Cut)
  {
    SqrtAboveThree(AddSquares(SquaredDeviation(hmk, c.middleHmk, c.spreadHmk),
                              SquaredDeviation(jmh, c.middleJmh, c.spreadJmh)))
  }

  /** With non-zero spreads, a night is flagged exactly when its normalised
      distance from the centre exceeds 3, i.e. its squared distance exceeds
      9; a zero spread flags every night off the centre in that colour
      unless the other colour's test is NaN. */
  lemma OutlierMeaning(hmk: real, jmh: real, c: Cut)
    ensures c.spreadHmk != 0.0 && c.spreadJmh != 0.0 ==>
      (Outlier(hmk, jmh, c) <==>
        ((hmk - c.middleHmk) / c.spreadHmk) * ((hmk - c.middleHmk) / c.spreadHmk)
        + ((jmh - c.middleJmh) / c.spreadJmh) * ((jmh - c.middleJmh) / c.spreadJmh) > 9.0)
    ensures c.spreadHmk == 0.0 && hmk == c.middleHmk ==> !Outlier(hmk, jmh, c)
    ensures c.spreadHmk == 0.0 && hmk != c.middleHmk && (c.spreadJmh != 0.0 || jmh != c.middleJmh) ==>
      Outlier(hmk, jmh, c)
  {
  }

  /** `night_set[ellipse > 3]`: the chipset's flagged timestamps, in order. */
  function Flagged(nights: seq<real>, hmk: seq<real>, jmh: seq<real>, c: Cut): (r: seq<real>)
    requires |hmk| == |nights| && |jmh| == |nights|
    ensures |r| <= |nights|
    ensures forall t :: t in r ==> exists i :: 0 <= i < |nights| && nights[i] == t && Outlier(hmk[i], jmh[i], c)
    ensures forall i :: 0 <= i < |nights| && Outlier(hmk[i], jmh[i], c) ==> nights[i] in r
  {
    if |nights| == 0 then []
    else
      var rest := Flagged(nights[1..], hmk[1..], jmh[1..], c);
      assert forall i :: 1 <= i < |nights| ==> nights[i] == nights[1..][i - 1] && hmk[i] == hmk[1..][i - 1] && jmh[i] == jmh[1..][i - 1];
      (if Outlier(hmk[0], jmh[0], c) then [nights[0]] else []) + rest
  }

  /** The flagged nights are the chipset's nights at exactly the positions
      whose ellipse test passes, kept in their order. */
  lemma {:induction false} FlaggedPositions(nights: seq<real>, hmk: seq<real>, jmh: seq<real>, c: Cut)
    returns (idx: seq<int>)
    requires |hmk| == |nights| && |jmh| == |nights|
    ensures SubsequenceAt(Flagged(nights, hmk, jmh, c), nights, idx)
    ensures forall i :: 0 <= i < |nights| ==> (i in idx <==> Outlier(hmk[i], jmh[i], c))
  {
    if |nights| == 0 {
      idx := [];
    } else {
      var restIdx := FlaggedPositions(nights[1..], hmk[1..], jmh[1..], c);
      var rest := Flagged(nights[1..], hmk[1..], jmh[1..], c);
      idx := ConsPositions(nights[0], Outlier(hmk[0], jmh[0], c), nights[1..], rest, restIdx);
      assert nights == [nights[0]] + nights[1..];
      forall i | 1 <= i < |nights|
        ensures i in idx <==> Outlier(hmk[i], jmh[i], c)
      {
        assert hmk[i] == hmk[1..][i - 1] && jmh[i] == jmh[1..][i - 1];
      }
    }
  }

  /** Each chipset's flagged nights, in chipset order. */
  function ChipsetFlags(a: Analysis, stats: RobustStats): (r: seq<seq<real>>)
    requires WellShaped(a)
    ensures |r| == |a.divvied|
    ensures forall k :: 0 <= k < |a.divvied| ==>
      r[k] == Flagged(a.divvied[k], a.meanHmk[k], a.meanJmh[k], CutOf(a.meanHmk[k], a.meanJmh[k], stats))
  {
    seq(|a.divvied|, k requires 0 <= k < |a.divvied| =>
      Flagged(a.divvied[k], a.meanHmk[k], a.meanJmh[k], CutOf(a.meanHmk[k], a.meanJmh[k], stats)))
  }

  /** The loop over chipsets: `master_cloudy` extended by each chipset's
      flagged nights in chipset order, and one cuts tuple per chipset. */
  function Chipsets(a: Analysis, stats: RobustStats): (r: (seq<real>, seq<Cut>))
    requires WellShaped(a)
    ensures |r.1| == |a.divvied|
    ensures forall k :: 0 <= k < |a.divvied| ==> r.1[k] == CutOf(a.meanHmk[k], a.meanJmh[k], stats)
    ensures forall t :: t in r.0 <==>
      (exists k :: 0 <= k < |a.divvied| && t in Flagged(a.divvied[k], a.meanHmk[k], a.meanJmh[k], CutOf(a.meanHmk[k], a.meanJmh[k], stats)))
    ensures |a.divvied| > 0 ==>
      var c := CutOf(a.meanHmk[0], a.meanJmh[0], stats);
      var first := Flagged(a.divvied[0], a.meanHmk[0], a.meanJmh[0], c);
      |first| <= |r.0| && r.0[..|first|] == first
    ensures r.0 == Flatten(ChipsetFlags(a, stats))
    decreases |a.divvied|
  {
    if |a.divvied| == 0 then ([], [])
    else
      var c := CutOf(a.meanHmk[0], a.meanJmh[0], stats);
      var first := Flagged(a.divvied[0], a.meanHmk[0], a.meanJmh[0], c);
      var tail := Analysis(a.divvied[1..], a.meanHmk[1..], a.meanJmh[1..]);
      assert forall k :: 0 <= k < |tail.divvied| ==>
        tail.divvied[k] == a.divvied[k + 1] && tail.meanHmk[k] == a.meanHmk[k + 1] && tail.meanJmh[k] == a.meanJmh[k + 1];
      var rest := Chipsets(tail, stats);
      var cloudy := first + rest.0;
      assert cloudy[..|first|] == first;
      assert ChipsetFlags(a, stats)[1..] == ChipsetFlags(tail, stats);
      (cloudy, [c] + rest.1)
  }

  function NotCloudy(cloudy: seq<real>): Detection -> bool
  {
    (d: Detection) => d.meanMjdObs !in cloudy
  }

  /** `remove_nights2`: the table without the flagged nights' detections,
      the flagged timestamps, and the cuts. */
  function RemoveNights2(table: seq<Detection>, a: Analysis, stats: RobustStats)
    : (r: (seq<Detection>, seq<real>, seq<Cut>))
    requires WellShaped(a)
    ensures (r.1, r.2) == Chipsets(a, stats)
    ensures forall d :: d in r.0 <==> d in table && d.meanMjdObs !in r.1
    ensures IsSubsequence(r.0, table)
    ensures forall i :: 0 <= i < |table| && table[i].meanMjdObs !in r.1 ==>
      multiset(r.0)[table[i]] == multiset(table)[table[i]]
    ensures |r.0| <= |table|
  {
    var (cloudy, cuts) := Chipsets(a, stats);
    FilterIsSubsequence(NotCloudy(cloudy), table);
    (Filter(NotCloudy(cloudy), table), cloudy, cuts)
  }

  /** The kept and the dropped detections split the table: the clean
      table is an ordered sub-table and the two counts add up. */
  lemma {:induction false} RemovalSplitsTable(table: seq<Detection>, a: Analysis, stats: RobustStats)
    requires WellShaped(a)
    ensures
      var (clean, cloudy, _) := RemoveNights2(table, a, stats);
      |clean| + |Filter(DetectionOnNights(cloudy), table)| == |table|
  {
    var cloudy := Chipsets(a, stats).0;
    FilterComplementCount(NotCloudy(cloudy), DetectionOnNights(cloudy), table);
  }

  function DetectionOnNights(nights: seq<real>): Detection -> bool
  {
    (d: Detection) => d.meanMjdObs in nights
  }

  /** Run on the output of `analyze_nights2`, `remove_nights2` emits four
      cuts tuples, and every night it flags is one of the padded
      timestamps. */
  lemma AnalyzeThenRemove(table: seq<Detection>, b: GoodBounds, mean: seq<real> -> real, stats: RobustStats)
    requires AnalyzeNights2(table, b, mean).Ok?
    ensures WellShaped(AnalyzeNights2(table, b, mean).value)
    ensures |RemoveNights2(table, AnalyzeNights2(table, b, mean).value, stats).2| == 4
    ensures forall t :: t in RemoveNights2(table, AnalyzeNights2(table, b, mean).value, stats).1 ==>
      t in PaddedTimestamps(table)
  {
    var a := AnalyzeNights2(table, b, mean).value;
    AnalysisWellShaped(table, b, mean);
    var padded := PaddedTimestamps(table);
    var m := NightsPerChipset(|DistinctTimestamps(table)|);
    forall t | t in RemoveNights2(table, a, stats).1
      ensures t in padded
    {
      var k, i := FlaggedWasDealt(a, stats, t);
      assert 4 * i + k < 4 * m;
      assert a.divvied[k][i] == padded[4 * i + k];
    }
  }

  /** A flagged night is one of the chipsets' nights; returns where. */
  lemma FlaggedWasDealt(a: Analysis, stats: RobustStats, t: real) returns (k: nat, i: nat)
    requires WellShaped(a)
    requires t in Chipsets(a, stats).0
    ensures k < |a.divvied| && i < |a.divvied[k]| && a.divvied[k][i] == t
  {
    var k' :| 0 <= k' < |a.divvied|
      && t in Flagged(a.divvied[k'], a.meanHmk[k'], a.meanJmh[k'], CutOf(a.meanHmk[k'], a.meanJmh[k'], stats));
    var i' :| 0 <= i' < |a.divvied[k']| && a.divvied[k'][i'] == t
      && Outlier(a.meanHmk[k'][i'], a.meanJmh[k'][i'], CutOf(a.meanHmk[k'], a.meanJmh[k'], stats));
    k, i := k', i';
  }

  // ---------------------------------------------------------------------
  // simple_analyze
  // ---------------------------------------------------------------------

  /** `simple_analyze`: the sorted distinct timestamps and, for each, the
      mean colours of its good detections (default windows). */
  function SimpleAnalyze(table: seq<Detection>, mean: seq<real> -> real)
    : (r: (seq<real>, seq<real>, seq<real>))
    ensures r.0 == DistinctTimestamps(table)
    ensures |r.1| == |r.0| && |r.2| == |r.0|
    ensures forall i :: 0 <= i < |r.0| ==>
      r.1[i] == NightHmk(table, r.0[i], DefaultBounds, mean)
      && r.2[i] == NightJmh(table, r.0[i], DefaultBounds, mean)
  {
    var ts := DistinctTimestamps(table);
    (ts,
     seq(|ts|, i requires 0 <= i < |ts| => NightHmk(table, ts[i], DefaultBounds, mean)),
     seq(|ts|, i requires 0 <= i < |ts| => NightJmh(table, ts[i], DefaultBounds, mean)))
  }
}
