/** Colour-slope samples (color_slope_filtering.py): the stars whose colour
    variability stands above the photometric noise ("empty" samples) and,
    among those, the ones whose fitted colour slope is known to better than
    the confidence fraction ("filled" samples), for the J-H vs H-K, J vs J-H
    and K vs H-K diagrams. */
module ColorSlopes {
  import opened Results
  import opened Seqs
  import opened Spreadsheet
  import opened StarCounter

  /** How many times the mean colour error the colour rms must exceed. */
  const NoiseThreshold: real := 1.5

  /** The largest slope error accepted, as a fraction of the slope. */
  const SlopeConfidence: real := 0.2

  function Abs(x: real): (a: real)
    ensures a >= 0.0 && (a == x || a == -x)
  {
    if x < 0.0 then -x else x
  }

  /** The colour rms strictly exceeds `noise` times the mean colour error. */
  predicate AboveNoise(rms: real, errMean: real, noise: real)
  {
    rms > noise * errMean
  }

  /** The slope error is strictly below `|confidence * slope|`. */
  predicate Confident(slope: real, err: real, confidence: real)
  {
    err < Abs(confidence * slope)
  }

  // ---------------------------------------------------------------------
  // Per-row criteria, for given thresholds
  // ---------------------------------------------------------------------

  function JhkVariable(noise: real): Row -> bool
  {
    (r: Row) => AboveNoise(r.hmkRms, r.hmkErrMean, noise) && AboveNoise(r.jmhRms, r.jmhErrMean, noise)
  }

  function JhkConfident(confidence: real): Row -> bool
  {
    (r: Row) => Confident(r.jhkSlope, r.jhkSlopeErr, confidence)
  }

  /** J and H of quality and J-H above the noise. */
  function JhVariable(noise: real): Row -> bool
  {
    (r: Row) => Quality(r, J) && Quality(r, H) && AboveNoise(r.jmhRms, r.jmhErrMean, noise)
  }

  function JhConfident(confidence: real): Row -> bool
  {
    (r: Row) => Confident(r.jjhSlope, r.jjhSlopeErr, confidence)
  }

  /** H and K of quality and H-K above the noise. */
  function HkVariable(noise: real): Row -> bool
  {
    (r: Row) => Quality(r, H) && Quality(r, K) && AboveNoise(r.hmkRms, r.hmkErrMean, noise)
  }

  function HkConfident(confidence: real): Row -> bool
  {
    (r: Row) => Confident(r.khkSlope, r.khkSlopeErr, confidence)
  }

  // ---------------------------------------------------------------------
  // The module-level samples
  // ---------------------------------------------------------------------

  function JhkEmpty(sp: seq<Row>): (r: seq<Row>)
    ensures forall x :: x in r <==>
      x in AutovarsStrict(sp) && x.hmkRms > 1.5 * x.hmkErrMean && x.jmhRms > 1.5 * x.jmhErrMean
  {
    Filter(JhkVariable(NoiseThreshold), AutovarsStrict(sp))
  }

  function JhkFilled(sp: seq<Row>): (r: seq<Row>)
    ensures forall x :: x in r <==> x in JhkEmpty(sp) && x.jhkSlopeErr < Abs(0.2 * x.jhkSlope)
  {
    Filter(JhkConfident(SlopeConfidence), JhkEmpty(sp))
  }

  function JhEmpty(sp: seq<Row>): (r: seq<Row>)
    ensures forall x :: x in r <==>
      x in AutovarsTrue(sp) && Quality(x, J) && Quality(x, H) && x.jmhRms > 1.5 * x.jmhErrMean
  {
    Filter(JhVariable(NoiseThreshold), AutovarsTrue(sp))
  }

  function JhFilled(sp: seq<Row>): (r: seq<Row>)
    ensures forall x :: x in r <==> x in JhEmpty(sp) && x.jjhSlopeErr < Abs(0.2 * x.jjhSlope)
  {
    Filter(JhConfident(SlopeConfidence), JhEmpty(sp))
  }

  function HkEmpty(sp: seq<Row>): (r: seq<Row>)
    ensures forall x :: x in r <==>
      x in AutovarsTrue(sp) && Quality(x, H) && Quality(x, K) && x.hmkRms > 1.5 * x.hmkErrMean
  {
    Filter(HkVariable(NoiseThreshold), AutovarsTrue(sp))
  }

  function HkFilled(sp: seq<Row>): (r: seq<Row>)
    ensures forall x :: x in r <==> x in HkEmpty(sp) && x.khkSlopeErr < Abs(0.2 * x.khkSlope)
  {
    Filter(HkConfident(SlopeConfidence), HkEmpty(sp))
  }

  /** A star in the strict J-H vs H-K sample is also in the J vs J-H
      sample: strict variables are true variables with every band of
      quality, so only the noise conditions remain, and the two-colour
      sample demands both. */
  lemma {:induction false} TwoColourWithinJh(sp: seq<Row>)
    ensures Filter(JhkVariable(NoiseThreshold), Filter(Case1, JhEmpty(sp))) == JhkEmpty(sp)
  {
    var jhk := JhkVariable(NoiseThreshold);
    var jh := JhVariable(NoiseThreshold);
    var strict := AutovarsStrict(sp);
    OneColourOfStrict(sp, jh);
    FilterCommute(jhk, jh, strict);
    assert forall x :: x in Filter(jhk, strict) ==> jh(x) by {
      forall x | x in Filter(jhk, strict) ensures jh(x) {
        assert x in strict && jhk(x);
      }
    }
    FilterKeepsAll(jh, Filter(jhk, strict));
  }

  /** Likewise a star in the strict J-H vs H-K sample is in the K vs H-K
      sample. */
  lemma {:induction false} TwoColourWithinHk(sp: seq<Row>)
    ensures Filter(JhkVariable(NoiseThreshold), Filter(Case1, HkEmpty(sp))) == JhkEmpty(sp)
  {
    var jhk := JhkVariable(NoiseThreshold);
    var hk := HkVariable(NoiseThreshold);
    var strict := AutovarsStrict(sp);
    OneColourOfStrict(sp, hk);
    FilterCommute(jhk, hk, strict);
    assert forall x :: x in Filter(jhk, strict) ==> hk(x) by {
      forall x | x in Filter(jhk, strict) ensures hk(x) {
        assert x in strict && jhk(x);
      }
    }
    FilterKeepsAll(hk, Filter(jhk, strict));
  }

  /** The case-1 rows of a selection from the true variables are that
      selection from the strict variables. */
  lemma {:induction false} OneColourOfStrict(sp: seq<Row>, p: Row -> bool)
    ensures Filter(Case1, Filter(p, AutovarsTrue(sp))) == Filter(p, AutovarsStrict(sp))
  {
    FilterCommute(Case1, p, AutovarsTrue(sp));
    StrictWithinTrue(sp);
  }

  // ---------------------------------------------------------------------
  // filter_color_slopes
  // ---------------------------------------------------------------------

  predicate GoodBand(band: string)
  {
    band == "jh" || band == "hk" || band == "jhk"
  }

  /** `filter_color_slopes` as written: it rejects any band outside
      {'jh', 'hk', 'jhk'} and then falls off the end, returning `None`
      instead of the filtered table its documentation promises. */
  function FilterColorSlopesAsWritten(data: seq<Row>, band: string, noise: real, confidence: real)
    : (r: Result<Option<seq<Row>>>)
    ensures r.Err? <==> !GoodBand(band)
    ensures r.Err? ==> r.error.ValueError?
    ensures r.Ok? ==> r.value == None
  {
    if !GoodBand(band) then Err(ValueError("Invalid band! Use 'jh', 'hk', or 'jhk'."))
    else Ok(None)
  }

  /** The discrepancy: for a valid band and any data, even data whose every
      row passes every criterion, no table comes back. */
  lemma AsWrittenReturnsNoTable(data: seq<Row>)
    ensures FilterColorSlopesAsWritten(data, "jhk", NoiseThreshold, SlopeConfidence) == Ok(None)
    ensures FilterColorSlopesAsWritten(data, "jh", NoiseThreshold, SlopeConfidence) == Ok(None)
    ensures FilterColorSlopesAsWritten(data, "hk", NoiseThreshold, SlopeConfidence) == Ok(None)
  {
  }

  /** The J-H vs H-K branch: all three bands of quality, both colours
      above the noise, a confident slope. */
  function FilterJhk(data: seq<Row>, noise: real, confidence: real): (r: seq<Row>)
    ensures forall x :: x in r <==>
      x in data && AllQuality(x) && AboveNoise(x.hmkRms, x.hmkErrMean, noise) && AboveNoise(x.jmhRms, x.jmhErrMean, noise)
      && Confident(x.jhkSlope, x.jhkSlopeErr, confidence)
  {
    Filter(JhkConfident(confidence), Filter(JhkVariable(noise), Filter(AllQuality, data)))
  }

  /** The J vs J-H branch: J and H of quality, J-H above the noise, a
      confident slope. */
  function FilterJh(data: seq<Row>, noise: real, confidence: real): (r: seq<Row>)
    ensures forall x :: x in r <==>
      x in data && Quality(x, J) && Quality(x, H) && AboveNoise(x.jmhRms, x.jmhErrMean, noise)
      && Confident(x.jjhSlope, x.jjhSlopeErr, confidence)
  {
    Filter(JhConfident(confidence), Filter(JhVariable(noise), data))
  }

  /** The K vs H-K branch: H and K of quality, H-K above the noise, a
      confident slope. */
  function FilterHk(data: seq<Row>, noise: real, confidence: real): (r: seq<Row>)
    ensures forall x :: x in r <==>
      x in data && Quality(x, H) && Quality(x, K) && AboveNoise(x.hmkRms, x.hmkErrMean, noise)
      && Confident(x.khkSlope, x.khkSlopeErr, confidence)
  {
    Filter(HkConfident(confidence), Filter(HkVariable(noise), data))
  }

  /** `filter_color_slopes` as documented: the sub-table of `data` the band's
      criteria select, in data order; any other band is a ValueError. */
  function FilterColorSlopes(data: seq<Row>, band: string, noise: real, confidence: real)
    : (r: Result<seq<Row>>)
    ensures r.Err? <==> !GoodBand(band)
    ensures r.Err? ==> r.error.ValueError?
    ensures r.Ok? ==> forall x :: x in r.value ==> x in data
    ensures band == "jhk" ==> r == Ok(FilterJhk(data, noise, confidence))
    ensures band == "jh" ==> r == Ok(FilterJh(data, noise, confidence))
    ensures band == "hk" ==> r == Ok(FilterHk(data, noise, confidence))
  {
    if band == "jhk" then Ok(FilterJhk(data, noise, confidence))
    else if band == "jh" then Ok(FilterJh(data, noise, confidence))
    else if band == "hk" then Ok(FilterHk(data, noise, confidence))
    else Err(ValueError("Invalid band! Use 'jh', 'hk', or 'jhk'."))
  }

  /** With the module's thresholds, the documented function applied to the
      module's input samples yields exactly the module-level filled samples. */
  lemma {:induction false} FilterColorSlopesAgrees(sp: seq<Row>)
    ensures FilterColorSlopes(AutovarsStrict(sp), "jhk", NoiseThreshold, SlopeConfidence) == Ok(JhkFilled(sp))
    ensures FilterColorSlopes(AutovarsTrue(sp), "jh", NoiseThreshold, SlopeConfidence) == Ok(JhFilled(sp))
    ensures FilterColorSlopes(AutovarsTrue(sp), "hk", NoiseThreshold, SlopeConfidence) == Ok(HkFilled(sp))
  {
    FilterKeepsAll(AllQuality, AutovarsStrict(sp));
  }
}
