/** The variables' photometry and its split into sky tiles
    (variables_data_filterer.py). The RA and Dec ranges of `maxvars` are
    each cut into four equal tiles; a tenth of a tile is trimmed from both
    ends of each, so that neighbouring tiles leave an overlap margin that
    belongs to no tile. */
module Tiles {
  import opened Results
  import opened Seqs
  import opened Spreadsheet
  import opened Photometry

  /** `variables_photometry`: the photometry of the stars in the variables
      spreadsheet, in photometry order and each as many times as it occurs. */
  function VariablesPhotometry(source: seq<Detection>, ukvarSpread: seq<Row>): (r: seq<Detection>)
    ensures forall d :: d in r <==> d in source && d.sourceId in Ids(ukvarSpread)
    ensures IsSubsequence(r, source)
    ensures forall i :: 0 <= i < |source| && source[i].sourceId in Ids(ukvarSpread) ==>
      multiset(r)[source[i]] == multiset(source)[source[i]]
    ensures |r| <= |source|
  {
    FilterIsSubsequence(DetectionAmong(Ids(ukvarSpread)), source);
    Filter(DetectionAmong(Ids(ukvarSpread)), source)
  }

  /** An open interval. */
  datatype Interval = Interval(lo: real, hi: real)
  {
    predicate Contains(x: real)
    {
      lo < x < hi
    }
  }

  /** Tile `i` of four along one axis that starts at `min`, each `size`
      wide, trimmed by `size / 10` at both ends. */
  function TileInterval(min: real, size: real, i: int): Interval
  {
    Interval(min + size * (i as real) + size / 10.0, min + size * ((i + 1) as real) - size / 10.0)
  }

  /** The extent of `maxvars` on the sky. */
  datatype Extent = Extent(minRa: real, maxRa: real, minDec: real, maxDec: real)
  {
    function RaSize(): real { (maxRa - minRa) / 4.0 }
    function DecSize(): real { (maxDec - minDec) / 4.0 }
  }

  /** `maxvars.RA.max()` and friends; the maximum of an empty array raises
      a ValueError. */
  function MaxvarsExtent(maxvars: seq<Row>): (r: Result<Extent>)
    ensures r.Err? <==> |maxvars| == 0
    ensures r.Err? ==> r.error.ValueError?
    ensures r.Ok? ==> r.value.minRa <= r.value.maxRa && r.value.minDec <= r.value.maxDec
    ensures r.Ok? ==> forall x :: x in maxvars ==>
      r.value.minRa <= x.ra <= r.value.maxRa && r.value.minDec <= x.dec <= r.value.maxDec
    ensures r.Ok? ==> exists x :: x in maxvars && x.ra == r.value.minRa
    ensures r.Ok? ==> exists x :: x in maxvars && x.ra == r.value.maxRa
    ensures r.Ok? ==> exists x :: x in maxvars && x.dec == r.value.minDec
    ensures r.Ok? ==> exists x :: x in maxvars && x.dec == r.value.maxDec
  {
    if |maxvars| == 0 then Err(ValueError("zero-size array to reduction operation maximum which has no identity"))
    else
      var ras := seq(|maxvars|, i requires 0 <= i < |maxvars| => maxvars[i].ra);
      var decs := seq(|maxvars|, i requires 0 <= i < |maxvars| => maxvars[i].dec);
      forall x | x in maxvars
        ensures x.ra in ras && x.dec in decs
      {
        var i :| 0 <= i < |maxvars| && maxvars[i] == x;
        assert ras[i] == x.ra && decs[i] == x.dec;
      }
      var e := Extent(Min(ras), Max(ras), Min(decs), Max(decs));
      assert e.minRa in ras && e.maxRa in ras;
      assert e.minDec in decs && e.maxDec in decs;
      Ok(e)
  }

  /** The tile at RA index `i` and Dec index `j`. */
  datatype Box = Box(ra: Interval, dec: Interval)
  {
    predicate Contains(x: real, y: real)
    {
      ra.Contains(x) && dec.Contains(y)
    }
  }

  function TileBox(e: Extent, i: int, j: int): Box
  {
    Box(TileInterval(e.minRa, e.RaSize(), i), TileInterval(e.minDec, e.DecSize(), j))
  }

  /** The `t`-th tile in the order the loops produce them: RA index outer,
      Dec index inner. */
  function Tile(e: Extent, t: nat): (b: Box)
    requires t < 16
    ensures b == TileBox(e, t / 4, t % 4)
  {
    TileBox(e, t / 4, t % 4)
  }

  function DetectionIn(b: Box): Detection -> bool
  {
    (d: Detection) => b.Contains(d.ra, d.dec)
  }

  function RowIn(b: Box): Row -> bool
  {
    (x: Row) => b.Contains(x.ra, x.dec)
  }

  /** `filter_by_tile`: sixteen photometry tables and sixteen spreadsheets,
      each keeping, in order, the rows strictly inside its tile. */
  function FilterByTile(maxvars: seq<Row>, vp: seq<Detection>, ukvarSpread: seq<Row>)
    : (r: Result<(seq<seq<Detection>>, seq<seq<Row>>)>)
    ensures r.Err? <==> |maxvars| == 0
    ensures r.Err? ==> r.error.ValueError?
    ensures r.Ok? ==> |r.value.0| == 16 && |r.value.1| == 16
    ensures r.Ok? ==> forall t, d :: 0 <= t < 16 ==>
      (d in r.value.0[t] <==> d in vp && Tile(MaxvarsExtent(maxvars).value, t).Contains(d.ra, d.dec))
    ensures r.Ok? ==> forall t, x :: 0 <= t < 16 ==>
      (x in r.value.1[t] <==> x in ukvarSpread && Tile(MaxvarsExtent(maxvars).value, t).Contains(x.ra, x.dec))
    ensures r.Ok? ==> forall t :: 0 <= t < 16 ==>
      IsSubsequence(r.value.0[t], vp) && IsSubsequence(r.value.1[t], ukvarSpread)
    ensures r.Ok? ==> forall t, i ::
      (0 <= t < 16 && 0 <= i < |vp| && Tile(MaxvarsExtent(maxvars).value, t).Contains(vp[i].ra, vp[i].dec)) ==>
      multiset(r.value.0[t])[vp[i]] == multiset(vp)[vp[i]]
    ensures r.Ok? ==> forall t, i ::
      (0 <= t < 16 && 0 <= i < |ukvarSpread| && Tile(MaxvarsExtent(maxvars).value, t).Contains(ukvarSpread[i].ra, ukvarSpread[i].dec)) ==>
      multiset(r.value.1[t])[ukvarSpread[i]] == multiset(ukvarSpread)[ukvarSpread[i]]
  {
    var e :- MaxvarsExtent(maxvars);
    forall t | 0 <= t < 16
      ensures IsSubsequence(Filter(DetectionIn(Tile(e, t)), vp), vp)
      ensures IsSubsequence(Filter(RowIn(Tile(e, t)), ukvarSpread), ukvarSpread)
    {
      FilterIsSubsequence(DetectionIn(Tile(e, t)), vp);
      FilterIsSubsequence(RowIn(Tile(e, t)), ukvarSpread);
    }
    Ok((seq(16, t requires 0 <= t < 16 => Filter(DetectionIn(Tile(e, t)), vp)),
        seq(16, t requires 0 <= t < 16 => Filter(RowIn(Tile(e, t)), ukvarSpread))))
  }

  /** The enumeration of tiles: tile `4 i + j` is the one at RA index `i`
      and Dec index `j`, and every tile index arises this way once. */
  lemma TileOrder(e: Extent, i: int, j: int)
    requires 0 <= i < 4 && 0 <= j < 4
    ensures 4 * i + j < 16 && Tile(e, 4 * i + j) == TileBox(e, i, j)
  {
    assert (4 * i + j) / 4 == i && (4 * i + j) % 4 == j;
  }

  // ---------------------------------------------------------------------
  // Geometry of the tiles
  // ---------------------------------------------------------------------

  /** `size * a <= size * b` for a non-negative size and `a <= b`. */
  lemma ScaleMonotone(size: real, a: int, b: int)
    requires size >= 0.0 && a <= b
    ensures size * (a as real) <= size * (b as real)
  {
    assert size * (b as real) - size * (a as real) == size * ((b - a) as real);
  }

  /** Along one axis, two different tiles share no point: the trimmed upper
      end of the lower tile lies at or below the trimmed lower end of the
      higher one. */
  lemma IntervalsDisjoint(min: real, size: real, i: int, i': int, x: real)
    requires size >= 0.0 && i < i'
    ensures !(TileInterval(min, size, i).Contains(x) && TileInterval(min, size, i').Contains(x))
  {
    ScaleMonotone(size, i + 1, i');
  }

  /** Tiles are pairwise disjoint. */
  lemma TilesDisjoint(e: Extent, t: nat, t': nat, ra: real, dec: real)
    requires e.minRa <= e.maxRa && e.minDec <= e.maxDec
    requires t < 16 && t' < 16 && t != t'
    ensures !(Tile(e, t).Contains(ra, dec) && Tile(e, t').Contains(ra, dec))
  {
    var i, j, i', j' := t / 4, t % 4, t' / 4, t' % 4;
    assert t == 4 * i + j && t' == 4 * i' + j';
    if i < i' {
      IntervalsDisjoint(e.minRa, e.RaSize(), i, i', ra);
    } else if i' < i {
      IntervalsDisjoint(e.minRa, e.RaSize(), i', i, ra);
    } else if j < j' {
      IntervalsDisjoint(e.minDec, e.DecSize(), j, j', dec);
    } else {
      IntervalsDisjoint(e.minDec, e.DecSize(), j', j, dec);
    }
  }

  /** With a positive extent, each of the four tiles on an axis lies strictly
      inside the range it was cut from. */
  lemma IntervalInsideRange(min: real, max: real, i: int)
    requires min < max && 0 <= i < 4
    ensures min < TileInterval(min, (max - min) / 4.0, i).lo
    ensures TileInterval(min, (max - min) / 4.0, i).hi < max
  {
    var size := (max - min) / 4.0;
    ScaleMonotone(size, 0, i);
    ScaleMonotone(size, i + 1, 4);
  }

  /** With a positive extent on both axes, every tile lies strictly inside
      the bounding box of `maxvars`. */
  lemma TileInsideBox(e: Extent, t: nat)
    requires e.minRa < e.maxRa && e.minDec < e.maxDec && t < 16
    ensures e.minRa < Tile(e, t).ra.lo && Tile(e, t).ra.hi < e.maxRa
    ensures e.minDec < Tile(e, t).dec.lo && Tile(e, t).dec.hi < e.maxDec
  {
    IntervalInsideRange(e.minRa, e.maxRa, t / 4);
    IntervalInsideRange(e.minDec, e.maxDec, t % 4);
  }

  /** A coordinate within a tenth of a tile of one of the five cut lines
      `min + b * size` lies in no tile along that axis. */
  lemma MarginInNoInterval(min: real, size: real, b: int, x: real, i: int)
    requires size >= 0.0
    requires min + size * (b as real) - size / 10.0 <= x <= min + size * (b as real) + size / 10.0
    ensures !TileInterval(min, size, i).Contains(x)
  {
    if b <= i {
      ScaleMonotone(size, b, i);
    } else {
      ScaleMonotone(size, i + 1, b);
    }
  }

  /** A star in the RA margin around a cut line is in no tile at all, and
      likewise for Dec. */
  lemma MarginInNoTile(e: Extent, b: int, ra: real, dec: real, t: nat)
    requires e.minRa <= e.maxRa && e.minDec <= e.maxDec && t < 16
    requires
      (e.minRa + e.RaSize() * (b as real) - e.RaSize() / 10.0 <= ra <= e.minRa + e.RaSize() * (b as real) + e.RaSize() / 10.0)
      || (e.minDec + e.DecSize() * (b as real) - e.DecSize() / 10.0 <= dec <= e.minDec + e.DecSize() * (b as real) + e.DecSize() / 10.0)
    ensures !Tile(e, t).Contains(ra, dec)
  {
    if e.minRa + e.RaSize() * (b as real) - e.RaSize() / 10.0 <= ra <= e.minRa + e.RaSize() * (b as real) + e.RaSize() / 10.0 {
      MarginInNoInterval(e.minRa, e.RaSize(), b, ra, t / 4);
    } else {
      MarginInNoInterval(e.minDec, e.DecSize(), b, dec, t % 4);
    }
  }
}
