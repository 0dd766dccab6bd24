/** The variability spreadsheet: one record per star, with per-band
    statistics (J, H and K) and the colour and periodogram columns the
    selection scripts read. Column names of the source table are noted on
    each field. */
module Spreadsheet {

  datatype Band = J | H | K

  /** Per-band columns: `N_<b>`, `<b>_mean`, `N_<b>_info`, `<b>_rchi2`,
      `<b>_lsp_per`, `<b>_lsp_pow`. */
  datatype BandStats = BandStats(n: int, mean: real, nInfo: int, rchi2: real,
                                 lspPer: real, lspPow: real)

  datatype Row = Row(
    sourceId: int,                    // SOURCEID
    ra: real, dec: real,              // RA, DEC
    stetson: real,                    // Stetson
    j: BandStats, h: BandStats, k: BandStats,
    jmhRms: real, jmhErrMean: real,   // jmh_rmsr, jmh_err_meanr
    hmkRms: real, hmkErrMean: real,   // hmk_rmsr, hmk_err_meanr
    jhkSlope: real, jhkSlopeErr: real,
    jjhSlope: real, jjhSlopeErr: real,
    khkSlope: real, khkSlopeErr: real)
  {
    function Stats(b: Band): BandStats
    {
      match b
      case J => j
      case H => h
      case K => k
    }
  }

  /** The fewest and most detections a quality band may have. */
  const MinDetections: int := 50
  const MaxDetections: int := 125

  /** The bright magnitude limit, common to all bands. */
  const BrightLimit: real := 11.0

  /** The faint magnitude limit: 17 in J, 16 in H and K. */
  function FaintLimit(b: Band): real
  {
    if b == J then 17.0 else 16.0
  }

  /** A "quality" band: 50 to 125 detections, mean magnitude strictly
      between the limits, and no error flags. */
  predicate Quality(r: Row, b: Band)
  {
    var s := r.Stats(b);
    MinDetections <= s.n <= MaxDetections
    && BrightLimit < s.mean < FaintLimit(b)
    && s.nInfo == 0
  }

  predicate AllQuality(r: Row)
  {
    Quality(r, J) && Quality(r, H) && Quality(r, K)
  }

  predicate AnyQuality(r: Row)
  {
    Quality(r, J) || Quality(r, H) || Quality(r, K)
  }

  /** The SOURCEIDs of a table (`np.in1d(x, t.SOURCEID)` tests membership
      in this set). */
  function Ids(t: seq<Row>): (ids: set<int>)
    ensures forall i :: 0 <= i < |t| ==> t[i].sourceId in ids
    ensures forall id :: id in ids ==> exists i :: 0 <= i < |t| && t[i].sourceId == id
  {
    set i | 0 <= i < |t| :: t[i].sourceId
  }

  /** Rows whose SOURCEID is in `ids`, and rows whose SOURCEID is not. */
  function Among(ids: set<int>): Row -> bool
  {
    (x: Row) => x.sourceId in ids
  }

  function NotAmong(ids: set<int>): Row -> bool
  {
    (x: Row) => x.sourceId !in ids
  }

  /** SOURCEID is a key: two rows with the same SOURCEID are the same row. */
  predicate UniqueIds(t: seq<Row>)
  {
    forall i, i' :: 0 <= i < |t| && 0 <= i' < |t| && t[i].sourceId == t[i'].sourceId ==> t[i] == t[i']
  }
}
