/** The time-series photometry table: one record per detection of a star
    on one night, as the tile filter and the night-removal code read it.
    Source column names are noted on each field. */
module Photometry {

  datatype Detection = Detection(
    sourceId: int,                                  // SOURCEID
    ra: real, dec: real,                            // RA, DEC
    meanMjdObs: real,                               // MEANMJDOBS, the timestamp
    jAperMag3: real, hAperMag3: real, kAperMag3: real,
    jppErrBits: int, hppErrBits: int, kppErrBits: int,
    jmhPnt: real, hmkPnt: real)                     // JMHPNT, HMKPNT

  /** Detections whose SOURCEID is in `ids`. */
  function DetectionAmong(ids: set<int>): Detection -> bool
  {
    (d: Detection) => d.sourceId in ids
  }
}
