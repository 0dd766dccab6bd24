/** Catalog cross-match bookkeeping (orion_tablemate.py).

    A `TableParameters` value describes one catalog: its data, a short
    alias, which columns hold RA and Dec and in what format, and which
    column holds the source names. Construction normalises the coordinate
    columns to decimal degrees. `Tablemater` builds the mated index table
    (one row per primary source, an ID and an index column per secondary
    catalog, -1 meaning "no match") and `IndexSecondaryByPrimary` re-indexes
    a secondary catalog's columns by primary row.

    Three pieces of foreign code are parameters: the nearest-neighbour
    matcher `match.core_match`, the sexagesimal parser `coords.Position`
    (together with the string formatting that feeds it) and `np.degrees`. */
module Tablemate {
  import opened Results
  import opened Catalog

  // ---------------------------------------------------------------------
  // Format strings
  // ---------------------------------------------------------------------

  function LowerChar(c: char): char
  {
    if 'A' <= c <= 'Z' then (c as int + 32) as char else c
  }

  /** `s.lower()` on ASCII text. */
  function Lower(s: string): (r: string)
    ensures |r| == |s|
    ensures forall i :: 0 <= i < |s| ==> r[i] == LowerChar(s[i])
  {
    seq(|s|, i requires 0 <= i < |s| => LowerChar(s[i]))
  }

  /** Text without capital letters is its own lower-case form. */
  lemma LowerKeepsLowercase(s: string)
    requires forall i :: 0 <= i < |s| ==> !('A' <= s[i] <= 'Z')
    ensures Lower(s) == s
  {
  }

  /** `pat` occurs in `s` starting at position `i`. */
  predicate OccursAt(s: string, pat: string, i: int)
  {
    0 <= i && i + |pat| <= |s| && s[i..i + |pat|] == pat
  }

  /** Python's substring test `pat in s`. */
  predicate Contains(s: string, pat: string)
  {
    exists i :: 0 <= i <= |s| && OccursAt(s, pat, i)
  }

  /** The normalisation path `TableParameters.__init__` takes. */
  datatype CoordPath =
    | Hours          // one RA and one Dec column, RA in decimal hours
    | Degrees        // one RA and one Dec column in decimal degrees
    | Radians        // one RA and one Dec column in radians
    | UnknownUnit    // one column each, but no unit the code recognises
    | SexThree       // sexagesimal, three RA and three Dec columns
    | SexSignColumn  // sexagesimal, the Dec sign in a column of its own
    | SexUnknown     // sexagesimal in a shape the code does not handle
    | NoPath         // neither sexagesimal nor one column each
  {
    predicate IsDecimal()
    {
      Hours? || Degrees? || Radians? || UnknownUnit?
    }
  }

  /** The format dispatch: case-insensitive substring tests on the format,
      with "sex" deciding between the decimal and the sexagesimal paths and
      "hours" tried before "deg" before "rad". */
  function Route(fmt: string, nRa: nat, nDec: nat): (p: CoordPath)
    ensures p.IsDecimal() <==> !Contains(Lower(fmt), "sex") && nRa == 1 && nDec == 1
    ensures p == Hours <==> p.IsDecimal() && Contains(Lower(fmt), "hours")
    ensures p == Degrees <==>
      p.IsDecimal() && !Contains(Lower(fmt), "hours") && Contains(Lower(fmt), "deg")
    ensures p == Radians <==>
      p.IsDecimal() && !Contains(Lower(fmt), "hours") && !Contains(Lower(fmt), "deg")
      && Contains(Lower(fmt), "rad")
    ensures p == SexThree <==> Contains(Lower(fmt), "sex") && nRa == 3 && nDec == 3
    ensures p == SexSignColumn <==>
      Contains(Lower(fmt), "sex") && !(nRa == 3 && nDec == 3) && nDec == 4
    ensures p == NoPath <==> !Contains(Lower(fmt), "sex") && !(nRa == 1 && nDec == 1)
  {
    var f := Lower(fmt);
    if !Contains(f, "sex") && nRa == 1 && nDec == 1 then
      if Contains(f, "hours") then Hours
      else if Contains(f, "deg") then Degrees
      else if Contains(f, "rad") then Radians
      else UnknownUnit
    else if Contains(f, "sex") then
      if nRa == 3 && nDec == 3 then SexThree
      else if nDec == 4 then SexSignColumn
      else SexUnknown
    else NoPath
  }

  /** Lower-casing twice is lower-casing once, so a format that is already
      lower-case takes the same path as any capitalisation of it. */
  lemma RouteIgnoresCase(fmt: string, nRa: nat, nDec: nat)
    ensures Route(Lower(fmt), nRa, nDec) == Route(fmt, nRa, nDec)
  {
    assert Lower(Lower(fmt)) == Lower(fmt);
  }

  /** If some character of `pat` never occurs in `s`, `pat` is not a
      substring of `s`. */
  lemma NotContainsByMissingChar(s: string, pat: string, k: nat)
    requires k < |pat| && pat[k] !in s
    ensures !Contains(s, pat)
  {
    forall i | 0 <= i && i + |pat| <= |s|
      ensures !OccursAt(s, pat, i)
    {
      assert s[i..i + |pat|][k] == s[i + k];
      assert s[i + k] in s;
    }
  }

  /** "decimal degrees", as most catalogs of the survey are configured,
      selects degrees whatever its capitalisation or word separator. */
  lemma DegreesFormats()
    ensures Route("decimal degrees", 1, 1) == Degrees
    ensures Route("decimal_degrees", 1, 1) == Degrees
    ensures Route("Decimal_Degrees", 1, 1) == Degrees
  {
    assert Route("decimal degrees", 1, 1) == Degrees by {
      DegreesWithSeparator(' ');
      assert "decimal" + [' '] + "degrees" == "decimal degrees";
    }
    assert Route("decimal_degrees", 1, 1) == Degrees by {
      DegreesWithSeparator('_');
      assert "decimal" + ['_'] + "degrees" == "decimal_degrees";
    }
    CapitalisedDegrees();
    RouteIgnoresCase("Decimal_Degrees", 1, 1);
  }

  /** Lower-casing "Decimal_Degrees" changes only its two capitals. */
  lemma CapitalisedDegrees()
    ensures Lower("Decimal_Degrees") == "decimal_degrees"
  {
    var s, t := "Decimal_Degrees", "decimal_degrees";
    forall i | 0 <= i < |s|
      ensures LowerChar(s[i]) == t[i]
    {
      if i != 0 && i != 8 {
        assert s[i] == t[i] && !('A' <= s[i] <= 'Z');
      }
    }
  }

  /** "decimal", a space or underscore, then "degrees" holds "deg" but
      neither "sex" nor "hours". */
  lemma DegreesWithSeparator(sep: char)
    requires sep == ' ' || sep == '_'
    ensures Route("decimal" + [sep] + "degrees", 1, 1) == Degrees
  {
    var f := "decimal" + [sep] + "degrees";
    LowerKeepsLowercase(f);
    NotContainsByMissingChar(f, "sex", 2);
    NotContainsByMissingChar(f, "hours", 0);
    assert f[8..8 + |"deg"|] == ['d', 'e', 'g'];
    assert OccursAt(f, "deg", 8);
  }

  /** "decimal radians" (the survey's own catalog) selects radians and
      "decimal hours" selects hours. */
  lemma RadiansAndHoursFormats()
    ensures Route("decimal radians", 1, 1) == Radians
    ensures Route("decimal hours", 1, 1) == Hours
  {
    RadiansFormat();
    HoursFormat();
  }

  /** "decimal radians" holds "rad" but none of "sex", "hours" and "deg". */
  lemma RadiansFormat()
    ensures Route("decimal radians", 1, 1) == Radians
  {
    LowerKeepsLowercase("decimal radians");
    NotContainsByMissingChar("decimal radians", "sex", 2);
    NotContainsByMissingChar("decimal radians", "hours", 0);
    NotContainsByMissingChar("decimal radians", "deg", 2);
    assert "decimal radians"[8..8 + |"rad"|] == ['r', 'a', 'd'];
    assert OccursAt("decimal radians", "rad", 8);
  }

  /** "decimal hours" holds "hours" but not "sex". */
  lemma HoursFormat()
    ensures Route("decimal hours", 1, 1) == Hours
  {
    LowerKeepsLowercase("decimal hours");
    NotContainsByMissingChar("decimal hours", "sex", 2);
    assert "decimal hours"[8..8 + |"hours"|] == ['h', 'o', 'u', 'r', 's'];
    assert OccursAt("decimal hours", "hours", 8);
  }

  /** "sex-three" with three RA and three Dec columns and "sex-three-four"
      with a separate sign column select the two sexagesimal paths; any other
      sexagesimal shape, or one-column-each violated without "sex", selects
      nothing. */
  lemma SexagesimalFormats()
    ensures Route("sex-three", 3, 3) == SexThree
    ensures Route("sex-three-four", 3, 4) == SexSignColumn
    ensures Route("sex-three", 2, 2) == SexUnknown
    ensures Route("decimal degrees", 3, 3) == NoPath
  {
    LowerKeepsLowercase("sex-three");
    LowerKeepsLowercase("sex-three-four");
    LowerKeepsLowercase("decimal degrees");
    assert OccursAt("sex-three", "sex", 0);
    assert OccursAt("sex-three-four", "sex", 0);
    NotContainsByMissingChar("decimal degrees", "sex", 2);
  }

  // ---------------------------------------------------------------------
  // Coordinate normalisation
  // ---------------------------------------------------------------------

  /** One row of a sexagesimal catalog: RA hours/minutes/seconds, an
      optional separate Dec sign, Dec degrees/minutes/seconds. */
  datatype SexRow = SexRow(raH: Cell, raM: Cell, raS: Cell, sign: Option<Cell>,
                           decD: Cell, decM: Cell, decS: Cell)

  /** Foreign conversions: `np.degrees` on one value, and the formatting of
      a row into a coordinate string followed by `coords.Position(..).dd()`,
      which yields decimal-degree RA and Dec or fails (`None`). */
  datatype Converters = Converters(degrees: real -> real,
                                   sexagesimal: SexRow -> Option<(real, real)>)

  /** Normalised coordinate columns, in decimal degrees. */
  datatype Coords = Coords(ra: Column, dec: Column)

  /** `x * k` on one float cell; NaN stays NaN. */
  function TimesFloat(f: Float, k: real): Float
  {
    if f.NaN? then NaN else Num(k * f.x)
  }

  /** `column * k` for an integer factor: strings cannot be multiplied. */
  function Scale(c: Column, k: int): (r: Result<Column>)
    ensures r.Err? <==> c.StrCol?
    ensures r.Err? ==> r.error == TypeError
    ensures r.Ok? ==> r.value.SameKind(c) && r.value.Length() == c.Length()
    ensures r.Ok? && c.IntCol? ==>
      forall i :: 0 <= i < c.Length() ==> r.value.ints[i] == k * c.ints[i]
    ensures r.Ok? && c.FloatCol? ==>
      forall i :: 0 <= i < c.Length() ==>
        r.value.floats[i] == TimesFloat(c.floats[i], k as real)
  {
    match c
    case IntCol(v) => Ok(IntCol(seq(|v|, i requires 0 <= i < |v| => k * v[i])))
    case FloatCol(v) =>
      Ok(FloatCol(seq(|v|, i requires 0 <= i < |v| => TimesFloat(v[i], k as real))))
    case StrCol(_) => Err(TypeError)
  }

  /** `np.degrees(column)`: a float column; NaN stays NaN. */
  function ToDegrees(c: Column, degrees: real -> real): (r: Result<Column>)
    ensures r.Err? <==> c.StrCol?
    ensures r.Err? ==> r.error == TypeError
    ensures r.Ok? ==> r.value.FloatCol? && r.value.Length() == c.Length()
    ensures r.Ok? && c.IntCol? ==>
      forall i :: 0 <= i < c.Length() ==> r.value.floats[i] == Num(degrees(c.ints[i] as real))
    ensures r.Ok? && c.FloatCol? ==>
      forall i :: 0 <= i < c.Length() ==>
        r.value.floats[i] == (if c.floats[i].NaN? then NaN else Num(degrees(c.floats[i].x)))
  {
    match c
    case IntCol(v) =>
      Ok(FloatCol(seq(|v|, i requires 0 <= i < |v| => Num(degrees(v[i] as real)))))
    case FloatCol(v) =>
      Ok(FloatCol(seq(|v|, i requires 0 <= i < |v| =>
                        if v[i].NaN? then NaN else Num(degrees(v[i].x)))))
    case StrCol(_) => Err(TypeError)
  }

  /** `zip(...)` of the sexagesimal columns: one row per position, up to
      the shortest column. `sign` is the separate Dec sign column, if any. */
  function SexRows(rh: Column, rm: Column, rs: Column, sign: Option<Column>,
                   dd: Column, dm: Column, ds: Column): (rows: seq<SexRow>)
    ensures |rows| <= rh.Length() && |rows| <= rm.Length() && |rows| <= rs.Length()
    ensures |rows| <= dd.Length() && |rows| <= dm.Length() && |rows| <= ds.Length()
    ensures sign.Some? ==> |rows| <= sign.value.Length()
    ensures |rows| in {rh.Length(), rm.Length(), rs.Length(), dd.Length(), dm.Length(), ds.Length()}
            || (sign.Some? && |rows| == sign.value.Length())
    ensures forall i :: 0 <= i < |rows| ==>
      rows[i] == SexRow(rh.At(i), rm.At(i), rs.At(i),
                        if sign.Some? then Some(sign.value.At(i)) else None,
                        dd.At(i), dm.At(i), ds.At(i))
  {
    var n0 := Shorter(Shorter(Shorter(rh.Length(), rm.Length()), Shorter(rs.Length(), dd.Length())),
                      Shorter(dm.Length(), ds.Length()));
    var n := if sign.Some? then Shorter(n0, sign.value.Length()) else n0;
    seq(n, i requires 0 <= i < n =>
      SexRow(rh.At(i), rm.At(i), rs.At(i),
             if sign.Some? then Some(sign.value.At(i)) else None,
             dd.At(i), dm.At(i), ds.At(i)))
  }

  function Shorter(a: nat, b: nat): nat
  {
    if a <= b then a else b
  }

  /** Parses every row, in order; any row the parser rejects fails the whole
      construction. */
  function ParseRows(rows: seq<SexRow>, parse: SexRow -> Option<(real, real)>): (r: Result<Coords>)
    ensures r.Ok? <==> forall i :: 0 <= i < |rows| ==> parse(rows[i]).Some?
    ensures r.Err? ==> r.error == ParseError
    ensures r.Ok? ==> r.value.ra.FloatCol? && r.value.dec.FloatCol?
    ensures r.Ok? ==> r.value.ra.Length() == |rows| && r.value.dec.Length() == |rows|
    ensures r.Ok? ==> forall i :: 0 <= i < |rows| ==>
      r.value.ra.floats[i] == Num(parse(rows[i]).value.0)
      && r.value.dec.floats[i] == Num(parse(rows[i]).value.1)
  {
    if forall i :: 0 <= i < |rows| ==> parse(rows[i]).Some? then
      Ok(Coords(FloatCol(seq(|rows|, i requires 0 <= i < |rows| => Num(parse(rows[i]).value.0))),
                FloatCol(seq(|rows|, i requires 0 <= i < |rows| => Num(parse(rows[i]).value.1)))))
    else Err(ParseError)
  }

  /** The rows the sexagesimal columns give: RA hours, minutes and seconds
      from `ra`, and from `dec` either degrees, minutes and seconds or the
      sign column followed by them. */
  function SexColumns(ra: seq<Column>, dec: seq<Column>, signColumn: bool): seq<SexRow>
    requires |ra| >= 3 && |dec| == (if signColumn then 4 else 3)
  {
    if signColumn then SexRows(ra[0], ra[1], ra[2], Some(dec[0]), dec[1], dec[2], dec[3])
    else SexRows(ra[0], ra[1], ra[2], None, dec[0], dec[1], dec[2])
  }

  /** The two sexagesimal paths. Without a sign column the RA and Dec lists
      both have three names; with one, the Dec list is (sign, d, m, s). The
      first three RA names are read in order, an RA list shorter than three
      being an IndexError once its names have been read; then the Dec names.
      Each row yields the parser's RA and Dec, in row order. */
  function Sexagesimal(data: Table, raCols: seq<string>, decCols: seq<string>, signColumn: bool,
                       parse: SexRow -> Option<(real, real)>): (r: Result<Coords>)
    requires signColumn ==> |decCols| == 4
    requires !signColumn ==> |raCols| == 3 && |decCols| == 3
    ensures LookupAll(data, raCols[..Shorter(|raCols|, 3)]).Err? ==>
      r == Err(LookupAll(data, raCols[..Shorter(|raCols|, 3)]).error)
    ensures |raCols| < 3 && LookupAll(data, raCols).Ok? ==> r == Err(IndexError)
    ensures |raCols| >= 3 && LookupAll(data, raCols[..3]).Ok? && LookupAll(data, decCols).Err? ==>
      r == Err(LookupAll(data, decCols).error)
    ensures |raCols| >= 3 && LookupAll(data, raCols[..3]).Ok? && LookupAll(data, decCols).Ok? ==>
      r == ParseRows(SexColumns(LookupAll(data, raCols[..3]).value, LookupAll(data, decCols).value, signColumn), parse)
    ensures r.Ok? ==> |raCols| >= 3 && LookupAll(data, raCols[..3]).Ok? && LookupAll(data, decCols).Ok?
  {
    var ra :- LookupAll(data, raCols[..Shorter(|raCols|, 3)]);
    if |raCols| < 3 then Err(IndexError)
    else
      var dec :- LookupAll(data, decCols);
      ParseRows(SexColumns(ra, dec, signColumn), parse)
  }

  /** The decimal paths: hours scales RA by 15 and keeps Dec; degrees keeps
      both; radians converts both with `np.degrees`; any other unit leaves
      RA/DEC unset. Both columns are read before the unit is examined. */
  function Decimal(data: Table, raCol: string, decCol: string, path: CoordPath,
                   degrees: real -> real): (r: Result<Option<Coords>>)
    requires path.IsDecimal()
    ensures Lookup(data, raCol).Err? ==> r == Err(KeyError(raCol))
    ensures Lookup(data, raCol).Ok? && Lookup(data, decCol).Err? ==> r == Err(KeyError(decCol))
    ensures r.Ok? ==> Lookup(data, raCol).Ok? && Lookup(data, decCol).Ok?
    ensures r.Ok? ==> (r.value.Some? <==> !path.UnknownUnit?)
    ensures path.Hours? && r.Ok? ==>
      Scale(Lookup(data, raCol).value, 15) == Ok(r.value.value.ra)
      && r.value.value.dec == Lookup(data, decCol).value
    ensures path.Degrees? && r.Ok? ==>
      r.value.value == Coords(Lookup(data, raCol).value, Lookup(data, decCol).value)
    ensures path.Radians? && r.Ok? ==>
      ToDegrees(Lookup(data, raCol).value, degrees) == Ok(r.value.value.ra)
      && ToDegrees(Lookup(data, decCol).value, degrees) == Ok(r.value.value.dec)
    ensures (path.Degrees? || path.UnknownUnit?) && Lookup(data, raCol).Ok? && Lookup(data, decCol).Ok? ==> r.Ok?
    ensures path.Hours? && Lookup(data, raCol).Ok? && Lookup(data, decCol).Ok? ==>
      (r.Ok? <==> !Lookup(data, raCol).value.StrCol?) && (r.Err? ==> r.error == TypeError)
    ensures path.Radians? && Lookup(data, raCol).Ok? && Lookup(data, decCol).Ok? ==>
      (r.Ok? <==> !Lookup(data, raCol).value.StrCol? && !Lookup(data, decCol).value.StrCol?)
      && (r.Err? ==> r.error == TypeError)
  {
    var raRaw :- Lookup(data, raCol);
    var decRaw :- Lookup(data, decCol);
    match path
    case Hours =>
      var ra :- Scale(raRaw, 15);
      Ok(Some(Coords(ra, decRaw)))
    case Degrees => Ok(Some(Coords(raRaw, decRaw)))
    case Radians =>
      var ra :- ToDegrees(raRaw, degrees);
      var dec :- ToDegrees(decRaw, degrees);
      Ok(Some(Coords(ra, dec)))
    case UnknownUnit => Ok(None)
  }

  /** The coordinate part of `TableParameters.__init__`: `Some(coords)` when
      RA/DEC get set, `None` when the path leaves them unset. */
  function NormalizeCoords(data: Table, raCols: seq<string>, decCols: seq<string>,
                           fmt: string, conv: Converters): (r: Result<Option<Coords>>)
    ensures Route(fmt, |raCols|, |decCols|).IsDecimal() ==>
      r == Decimal(data, raCols[0], decCols[0], Route(fmt, |raCols|, |decCols|), conv.degrees)
    ensures Route(fmt, |raCols|, |decCols|) == SexThree ==>
      r == (var c :- Sexagesimal(data, raCols, decCols, false, conv.sexagesimal); Ok(Some(c)))
    ensures Route(fmt, |raCols|, |decCols|) == SexSignColumn ==>
      r == (var c :- Sexagesimal(data, raCols, decCols, true, conv.sexagesimal); Ok(Some(c)))
    ensures Route(fmt, |raCols|, |decCols|) in {SexUnknown, NoPath} ==> r == Ok(None)
  {
    var path := Route(fmt, |raCols|, |decCols|);
    if path.IsDecimal() then Decimal(data, raCols[0], decCols[0], path, conv.degrees)
    else if path == SexThree || path == SexSignColumn then
      var c :- Sexagesimal(data, raCols, decCols, path == SexSignColumn, conv.sexagesimal);
      Ok(Some(c))
    else Ok(None)
  }

  /** What the decimal paths give, read off the catalog's columns: a
      missing RA column is its KeyError, then a missing Dec column; degrees
      keeps both columns; hours multiplies RA by 15 and keeps Dec; radians
      converts both with `np.degrees`; a string column cannot be converted;
      an unknown unit leaves RA/DEC unset. */
  lemma DecimalCoordinates(data: Table, raCols: seq<string>, decCols: seq<string>, fmt: string, conv: Converters)
    ensures var r := NormalizeCoords(data, raCols, decCols, fmt, conv);
      var p := Route(fmt, |raCols|, |decCols|);
      p.IsDecimal() && Lookup(data, raCols[0]).Err? ==> r == Err(KeyError(raCols[0]))
    ensures var r := NormalizeCoords(data, raCols, decCols, fmt, conv);
      var p := Route(fmt, |raCols|, |decCols|);
      p.IsDecimal() && Lookup(data, raCols[0]).Ok? && Lookup(data, decCols[0]).Err? ==>
      r == Err(KeyError(decCols[0]))
    ensures var r := NormalizeCoords(data, raCols, decCols, fmt, conv);
      var p := Route(fmt, |raCols|, |decCols|);
      p == Degrees && Lookup(data, raCols[0]).Ok? && Lookup(data, decCols[0]).Ok? ==>
      r == Ok(Some(Coords(Lookup(data, raCols[0]).value, Lookup(data, decCols[0]).value)))
    ensures var r := NormalizeCoords(data, raCols, decCols, fmt, conv);
      var p := Route(fmt, |raCols|, |decCols|);
      p == Hours && Lookup(data, raCols[0]).Ok? && Lookup(data, decCols[0]).Ok? ==>
      var ra, dec := Lookup(data, raCols[0]).value, Lookup(data, decCols[0]).value;
      && (r.Ok? <==> !ra.StrCol?)
      && (r.Err? ==> r.error == TypeError)
      && (r.Ok? ==> r.value == Some(Coords(Scale(ra, 15).value, dec)))
    ensures var r := NormalizeCoords(data, raCols, decCols, fmt, conv);
      var p := Route(fmt, |raCols|, |decCols|);
      p == Radians && Lookup(data, raCols[0]).Ok? && Lookup(data, decCols[0]).Ok? ==>
      var ra, dec := Lookup(data, raCols[0]).value, Lookup(data, decCols[0]).value;
      && (r.Ok? <==> !ra.StrCol? && !dec.StrCol?)
      && (r.Err? ==> r.error == TypeError)
      && (r.Ok? ==> r.value == Some(Coords(ToDegrees(ra, conv.degrees).value, ToDegrees(dec, conv.degrees).value)))
    ensures var r := NormalizeCoords(data, raCols, decCols, fmt, conv);
      var p := Route(fmt, |raCols|, |decCols|);
      p == UnknownUnit && Lookup(data, raCols[0]).Ok? && Lookup(data, decCols[0]).Ok? ==> r == Ok(None)
  {
  }

  /** How the sexagesimal paths fail on missing columns: the first missing
      RA column among the first three is its KeyError, an RA list shorter
      than three is then an IndexError, and a missing Dec column comes
      next. */
  lemma SexagesimalMissingColumns(data: Table, raCols: seq<string>, decCols: seq<string>, fmt: string, conv: Converters)
    ensures var r := NormalizeCoords(data, raCols, decCols, fmt, conv);
      var p := Route(fmt, |raCols|, |decCols|);
      (p == SexThree || p == SexSignColumn) && LookupAll(data, raCols[..Shorter(|raCols|, 3)]).Err? ==>
      r == Err(LookupAll(data, raCols[..Shorter(|raCols|, 3)]).error)
    ensures var r := NormalizeCoords(data, raCols, decCols, fmt, conv);
      var p := Route(fmt, |raCols|, |decCols|);
      p == SexSignColumn && |raCols| < 3 && LookupAll(data, raCols).Ok? ==> r == Err(IndexError)
    ensures var r := NormalizeCoords(data, raCols, decCols, fmt, conv);
      var p := Route(fmt, |raCols|, |decCols|);
      (p == SexThree || p == SexSignColumn) && |raCols| >= 3 && LookupAll(data, raCols[..3]).Ok?
      && LookupAll(data, decCols).Err? ==>
      r == Err(LookupAll(data, decCols).error)
  {
    var p := Route(fmt, |raCols|, |decCols|);
    if p == SexThree || p == SexSignColumn {
      var sx := Sexagesimal(data, raCols, decCols, p == SexSignColumn, conv.sexagesimal);
      assert NormalizeCoords(data, raCols, decCols, fmt, conv)
          == if sx.Ok? then Ok(Some(sx.value)) else Err(sx.error);
    }
  }

  /** What the sexagesimal paths give when every column is present: the
      parser's RA and Dec of every row, in row order, failing with a
      ParseError when it rejects any row. */
  lemma SexagesimalCoordinates(data: Table, raCols: seq<string>, decCols: seq<string>, fmt: string, conv: Converters)
    ensures var r := NormalizeCoords(data, raCols, decCols, fmt, conv);
      var p := Route(fmt, |raCols|, |decCols|);
      (p == SexThree || p == SexSignColumn) && |raCols| >= 3 && LookupAll(data, raCols[..3]).Ok?
      && LookupAll(data, decCols).Ok? ==>
      var rows := SexColumns(LookupAll(data, raCols[..3]).value, LookupAll(data, decCols).value, p == SexSignColumn);
      && (r.Ok? <==> forall i :: 0 <= i < |rows| ==> conv.sexagesimal(rows[i]).Some?)
      && (r.Err? ==> r.error == ParseError)
      && (r.Ok? ==> r.value == Some(ParseRows(rows, conv.sexagesimal).value))
  {
    var p := Route(fmt, |raCols|, |decCols|);
    if (p == SexThree || p == SexSignColumn) && |raCols| >= 3 && LookupAll(data, raCols[..3]).Ok?
       && LookupAll(data, decCols).Ok? {
      var rows := SexColumns(LookupAll(data, raCols[..3]).value, LookupAll(data, decCols).value, p == SexSignColumn);
      var parsed := ParseRows(rows, conv.sexagesimal);
      assert NormalizeCoords(data, raCols, decCols, fmt, conv)
          == if parsed.Ok? then Ok(Some(parsed.value)) else Err(parsed.error) by {
        var sx := Sexagesimal(data, raCols, decCols, p == SexSignColumn, conv.sexagesimal);
        assert sx == parsed;
        assert NormalizeCoords(data, raCols, decCols, fmt, conv)
            == if sx.Ok? then Ok(Some(sx.value)) else Err(sx.error);
      }
    }
  }

  // ---------------------------------------------------------------------
  // TableParameters
  // ---------------------------------------------------------------------

  /** The constructor's descriptive arguments. */
  datatype CatalogSpec = CatalogSpec(alias: string, fullName: string,
                                     raCols: seq<string>, decCols: seq<string>,
                                     radecFmt: string, nameCol: string, maxMatch: real)

  /** What `data` may be: a table object, a path to load, or anything else. */
  datatype DataArg = TableData(table: Table) | PathData(path: string) | OtherData

  datatype TableParameters = TableParameters(data: Table, path: Option<string>,
                                             spec: CatalogSpec, coords: Option<Coords>)

  /** `TableParameters.__init__`. File loading is the parameter `load`, which
      yields `None` when the file cannot be read. */
  function NewTableParameters(arg: DataArg, spec: CatalogSpec,
                              load: string -> Option<Table>, conv: Converters)
    : (r: Result<TableParameters>)
    ensures arg.OtherData? ==> r == Err(InvalidData)
    ensures arg.PathData? && load(arg.path).None? ==> r == Err(IOError(arg.path))
    ensures r.Ok? ==> arg.TableData? || (arg.PathData? && load(arg.path).Some?)
    ensures r.Ok? && arg.TableData? ==> r.value.data == arg.table && r.value.path == None
    ensures r.Ok? && arg.PathData? ==>
      r.value.data == load(arg.path).value && r.value.path == Some(arg.path)
    ensures arg.TableData? ==>
      var c := NormalizeCoords(arg.table, spec.raCols, spec.decCols, spec.radecFmt, conv);
      (r.Ok? <==> c.Ok?) && (r.Err? ==> r.error == c.error)
    ensures arg.PathData? && load(arg.path).Some? ==>
      var c := NormalizeCoords(load(arg.path).value, spec.raCols, spec.decCols, spec.radecFmt, conv);
      (r.Ok? <==> c.Ok?) && (r.Err? ==> r.error == c.error)
    ensures r.Ok? ==> r.value.spec == spec
    ensures r.Ok? ==>
      NormalizeCoords(r.value.data, spec.raCols, spec.decCols, spec.radecFmt, conv)
        == Ok(r.value.coords)
  {
    var (data, path) :-
      match arg
      case TableData(t) => Ok((t, None))
      case PathData(p) => if load(p).Some? then Ok((load(p).value, Some(p))) else Err(IOError(p))
      case OtherData => Err(InvalidData);
    var coords :- NormalizeCoords(data, spec.raCols, spec.decCols, spec.radecFmt, conv);
    Ok(TableParameters(data, path, spec, coords))
  }

  // ---------------------------------------------------------------------
  // tablemater
  // ---------------------------------------------------------------------

  /** `match.core_match(ra1, dec1, ra2, dec2, max_match)[0]`. */
  type Matcher = (Column, Column, Column, Column, real) -> seq<int>

  /** What the matcher promises: one index per primary position, each a row
      of the secondary or -1 for "no match". */
  ghost predicate ValidMatcher(m: Matcher)
  {
    forall ra1: Column, dec1: Column, ra2: Column, dec2: Column, tol: real ::
      |m(ra1, dec1, ra2, dec2, tol)| == ra1.Length()
      && forall j :: 0 <= j < |m(ra1, dec1, ra2, dec2, tol)| ==>
           -1 <= m(ra1, dec1, ra2, dec2, tol)[j] < ra2.Length()
  }

  /** Number of rows of a table (`len(table)`). */
  function RowCount(t: Table): nat
  {
    if |t.columns| == 0 then 0 else t.columns[0].column.Length()
  }

  function Range(n: nat): (r: seq<int>)
    ensures |r| == n && forall i :: 0 <= i < n ==> r[i] == i
  {
    seq(n, i requires 0 <= i < n => i)
  }

  /** The value `-1` as numpy writes it into an ID column of each kind. */
  const NoMatchId: Fill := Fill(-1, Num(-1.0), "-1")

  /** The matcher's output for one secondary: its indices into the secondary. */
  function MatchIndices(pt: TableParameters, st: TableParameters, matcher: Matcher): seq<int>
    requires pt.coords.Some? && st.coords.Some?
  {
    matcher(pt.coords.value.ra, pt.coords.value.dec,
            st.coords.value.ra, st.coords.value.dec, st.spec.maxMatch)
  }

  /** The two columns `tablemater` appends for one secondary catalog: its
      names read at the matched indices (numpy indexing, so -1 first reads
      the last row), then overwritten with -1 wherever the index is -1; and
      the indices themselves. Reading RA/DEC of a catalog that never set
      them is an AttributeError. */
  function MateOne(pt: TableParameters, st: TableParameters, matcher: Matcher)
    : (r: Result<(Column, seq<int>)>)
    ensures pt.coords.None? || st.coords.None? ==> r == Err(AttributeError)
    ensures r.Ok? <==>
      pt.coords.Some? && st.coords.Some? && Lookup(st.data, st.spec.nameCol).Ok?
      && forall j :: 0 <= j < |MatchIndices(pt, st, matcher)| ==>
           InBounds(MatchIndices(pt, st, matcher)[j], Lookup(st.data, st.spec.nameCol).value.Length())
    ensures pt.coords.Some? && st.coords.Some? && Lookup(st.data, st.spec.nameCol).Err? ==>
      r == Err(KeyError(st.spec.nameCol))
    ensures pt.coords.Some? && st.coords.Some? && Lookup(st.data, st.spec.nameCol).Ok? && r.Err? ==>
      r.error == IndexError
    ensures r.Ok? ==> r.value.1 == MatchIndices(pt, st, matcher)
  {
    if pt.coords.None? || st.coords.None? then Err(AttributeError)
    else
      var idx := MatchIndices(pt, st, matcher);
      var names :- Lookup(st.data, st.spec.nameCol);
      var taken :- TakeColumn(names, idx);
      Ok((FillColumn(taken, idx, NoMatchId), idx))
  }

  /** The ID column `MateOne` builds holds, at each primary row, the -1
      sentinel in the name column's kind where the index is -1, and the
      secondary's name at the index elsewhere. */
  lemma MateOneContents(pt: TableParameters, st: TableParameters, matcher: Matcher)
    requires MateOne(pt, st, matcher).Ok?
    ensures
      var names := Lookup(st.data, st.spec.nameCol).value;
      var (ids, idx) := MateOne(pt, st, matcher).value;
      ids.SameKind(names) && ids.Length() == |idx|
      && (forall j :: 0 <= j < |idx| && idx[j] == -1 ==> ids.At(j) == FillCell(names, NoMatchId))
      && (forall j :: 0 <= j < |idx| && idx[j] != -1 ==>
            InBounds(idx[j], names.Length()) && ids.At(j) == names.At(Resolve(idx[j], names.Length())))
  {
    var idx := MatchIndices(pt, st, matcher);
    var names := Lookup(st.data, st.spec.nameCol).value;
    var taken := TakeColumn(names, idx).value;
    assert MateOne(pt, st, matcher).value.0 == FillColumn(taken, idx, NoMatchId);
  }

  /** The cell a fill value becomes in a column of `c`'s kind. */
  function FillCell(c: Column, fill: Fill): Cell
  {
    match c
    case IntCol(_) => IntCell(fill.forInt)
    case FloatCol(_) => FloatCell(fill.forFloat)
    case StrCol(_) => StrCell(fill.forStr)
  }

  /** Whether secondary `k`'s alias was already used, by the primary or by
      an earlier secondary: its `_ID` column would then repeat a name the
      mated table has, which atpy's `add_column` refuses. */
  predicate AliasRepeats(primary: string, sts: seq<TableParameters>, k: nat)
    requires k < |sts|
  {
    sts[k].spec.alias == primary || exists j :: 0 <= j < k && sts[j].spec.alias == sts[k].spec.alias
  }

  /** Each secondary catalog paired with whether its alias repeats. */
  function Tagged(primary: string, sts: seq<TableParameters>): (r: seq<(TableParameters, bool)>)
    ensures |r| == |sts|
    ensures forall k :: 0 <= k < |sts| ==> r[k] == (sts[k], AliasRepeats(primary, sts, k))
  {
    seq(|sts|, k requires 0 <= k < |sts| => (sts[k], AliasRepeats(primary, sts, k)))
  }

  /** The loop over secondary catalogs: the two new columns of each catalog,
      in list order, stopping at the first catalog that raises, either while
      matching or when its columns are added under a name already taken. */
  function MatePairs(pt: TableParameters, sts: seq<TableParameters>, matcher: Matcher)
    : (r: Result<seq<(Column, seq<int>)>>)
    ensures r.Ok? <==> forall k :: 0 <= k < |sts| ==>
      MateOne(pt, sts[k], matcher).Ok? && !AliasRepeats(pt.spec.alias, sts, k)
    ensures r.Err? ==> exists k :: 0 <= k < |sts| && FirstMateFailure(pt, sts, matcher, k, r.error)
    ensures r.Ok? ==> |r.value| == |sts|
    ensures r.Ok? ==> forall k :: 0 <= k < |sts| ==> r.value[k] == MateOne(pt, sts[k], matcher).value
  {
    MatedStepsOk(pt, sts, matcher);
    MatedStepsErr(pt, sts, matcher);
    MapResult(Mater(pt, matcher), Tagged(pt.spec.alias, sts))
  }

  /** When every step of the loop succeeds, its values are the matches. */
  lemma MatedStepsOk(pt: TableParameters, sts: seq<TableParameters>, matcher: Matcher)
    ensures var r := MapResult(Mater(pt, matcher), Tagged(pt.spec.alias, sts));
      && (r.Ok? <==> forall k :: 0 <= k < |sts| ==>
            MateOne(pt, sts[k], matcher).Ok? && !AliasRepeats(pt.spec.alias, sts, k))
      && (r.Ok? ==> |r.value| == |sts|)
      && (r.Ok? ==> forall k :: 0 <= k < |sts| ==> r.value[k] == MateOne(pt, sts[k], matcher).value)
  {
    MaterSteps(pt, sts, matcher);
  }

  /** When a step of the loop fails, its error is the first catalog's to raise. */
  lemma MatedStepsErr(pt: TableParameters, sts: seq<TableParameters>, matcher: Matcher)
    ensures var r := MapResult(Mater(pt, matcher), Tagged(pt.spec.alias, sts));
      r.Err? ==> exists k :: 0 <= k < |sts| && FirstMateFailure(pt, sts, matcher, k, r.error)
  {
    var tagged := Tagged(pt.spec.alias, sts);
    var f := Mater(pt, matcher);
    var r := MapResult(f, tagged);
    if r.Err? {
      var k :| 0 <= k < |tagged| && f(tagged[k]).Err? && r.error == f(tagged[k]).error
               && forall k' :: 0 <= k' < k ==> f(tagged[k']).Ok?;
      FirstStepFailure(pt, sts, matcher, k, r.error);
    }
  }

  /** The loop's step function, applied to catalog `k` and its tag. */
  lemma MaterSteps(pt: TableParameters, sts: seq<TableParameters>, matcher: Matcher)
    ensures forall k :: 0 <= k < |sts| ==>
      Mater(pt, matcher)(Tagged(pt.spec.alias, sts)[k]) == MateStep(pt, sts[k], AliasRepeats(pt.spec.alias, sts, k), matcher)
  {
  }

  /** The first failing step of the loop is the first catalog to raise. */
  lemma FirstStepFailure(pt: TableParameters, sts: seq<TableParameters>, matcher: Matcher, k: nat, e: Error)
    requires k < |sts|
    requires forall k' :: 0 <= k' < k ==> Mater(pt, matcher)(Tagged(pt.spec.alias, sts)[k']).Ok?
    requires Mater(pt, matcher)(Tagged(pt.spec.alias, sts)[k]) == Err(e)
    ensures FirstMateFailure(pt, sts, matcher, k, e)
  {
    MaterSteps(pt, sts, matcher);
  }

  /** Secondary `k` is the first catalog of the loop to raise, and `e` is
      what it raises: its match's error, or the repeated column name. */
  predicate FirstMateFailure(pt: TableParameters, sts: seq<TableParameters>, matcher: Matcher, k: nat, e: Error)
    requires k < |sts|
  {
    && (forall k' :: 0 <= k' < k ==> MateOne(pt, sts[k'], matcher).Ok? && !AliasRepeats(pt.spec.alias, sts, k'))
    && (MateOne(pt, sts[k], matcher).Err? ==> e == MateOne(pt, sts[k], matcher).error)
    && (MateOne(pt, sts[k], matcher).Ok? ==>
          AliasRepeats(pt.spec.alias, sts, k) && e == DuplicateColumn(sts[k].spec.alias + "_ID"))
  }

  /** One step of the loop: match, then add the catalog's two columns,
      which fails when its alias repeats. */
  function MateStep(pt: TableParameters, st: TableParameters, repeats: bool, matcher: Matcher)
    : (r: Result<(Column, seq<int>)>)
    ensures r.Ok? <==> MateOne(pt, st, matcher).Ok? && !repeats
    ensures r.Ok? ==> r.value == MateOne(pt, st, matcher).value
    ensures MateOne(pt, st, matcher).Err? ==> r == Err(MateOne(pt, st, matcher).error)
    ensures MateOne(pt, st, matcher).Ok? && repeats ==> r == Err(DuplicateColumn(st.spec.alias + "_ID"))
  {
    var pair :- MateOne(pt, st, matcher);
    if repeats then Err(DuplicateColumn(st.spec.alias + "_ID")) else Ok(pair)
  }

  /** The loop step for a fixed primary catalog and matcher. */
  function Mater(pt: TableParameters, matcher: Matcher): ((TableParameters, bool)) -> Result<(Column, seq<int>)>
  {
    (tagged: (TableParameters, bool)) => MateStep(pt, tagged.0, tagged.1, matcher)
  }

  /** The `secondary_table_list` argument: a list, or a single catalog that
      is treated as a one-element list. */
  datatype Secondaries = Single(table: TableParameters) | List(tables: seq<TableParameters>)
  {
    function AsList(): (l: seq<TableParameters>)
      ensures Single? ==> l == [table]
      ensures List? ==> l == tables
    {
      match this
      case Single(t) => [t]
      case List(ts) => ts
    }
  }

  /** The mated table's columns after the primary's two: `<alias>_ID` and
      `<alias>_index` for each secondary, in list order. */
  function PairColumns(sts: seq<TableParameters>, pairs: seq<(Column, seq<int>)>): (cols: seq<NamedColumn>)
    requires |pairs| == |sts|
    ensures |cols| == 2 * |sts|
    ensures forall k :: 0 <= k < |sts| ==>
      cols[2 * k] == NamedColumn(sts[k].spec.alias + "_ID", pairs[k].0)
      && cols[2 * k + 1] == NamedColumn(sts[k].spec.alias + "_index", IntCol(pairs[k].1))
  {
    if |sts| == 0 then []
    else
      var rest := PairColumns(sts[1..], pairs[1..]);
      var head := [NamedColumn(sts[0].spec.alias + "_ID", pairs[0].0),
                   NamedColumn(sts[0].spec.alias + "_index", IntCol(pairs[0].1))];
      var cols := head + rest;
      forall k | 1 <= k < |sts|
        ensures cols[2 * k] == NamedColumn(sts[k].spec.alias + "_ID", pairs[k].0)
        ensures cols[2 * k + 1] == NamedColumn(sts[k].spec.alias + "_index", IntCol(pairs[k].1))
      {
        assert sts[k] == sts[1..][k - 1] && pairs[k] == pairs[1..][k - 1];
        assert cols[2 * k] == rest[2 * (k - 1)];
        assert cols[2 * k + 1] == rest[2 * (k - 1) + 1];
      }
      cols
  }

  /** The column names `tablemater` lays out: the primary's `_ID` and
      `_index`, then an `_ID` and an `_index` per secondary, in order. */
  predicate MatedNaming(cols: seq<NamedColumn>, primary: string, sts: seq<TableParameters>)
  {
    && |cols| == 2 + 2 * |sts|
    && cols[0].name == primary + "_ID" && cols[1].name == primary + "_index"
    && forall a :: 0 <= a < |sts| ==>
         cols[2 + 2 * a].name == sts[a].spec.alias + "_ID" && cols[3 + 2 * a].name == sts[a].spec.alias + "_index"
  }

  /** With no alias repeated, the names `tablemater` gives its columns are
      pairwise distinct, so every `add_column` of its succeeds. */
  lemma MatedNamesUnique(cols: seq<NamedColumn>, primary: string, sts: seq<TableParameters>)
    requires MatedNaming(cols, primary, sts)
    requires forall k :: 0 <= k < |sts| ==> !AliasRepeats(primary, sts, k)
    ensures UniqueNames(Table(cols))
  {
    forall i, j | 0 <= i < j < |cols|
      ensures cols[i].name != cols[j].name
    {
      if j == 1 {
        IdNeverIndex(primary, primary);
      } else {
        var b := (j - 2) / 2;
        var sj := if j == 2 + 2 * b then "_ID" else "_index";
        assert cols[j].name == sts[b].spec.alias + sj;
        var a := (i - 2) / 2;
        var ai := if i < 2 then primary else sts[a].spec.alias;
        var si := if i == 0 || (i >= 2 && i == 2 + 2 * a) then "_ID" else "_index";
        assert cols[i].name == ai + si;
        if si != sj {
          if si == "_ID" { IdNeverIndex(ai, sts[b].spec.alias); } else { IdNeverIndex(sts[b].spec.alias, ai); }
        } else if cols[i].name == cols[j].name {
          SuffixInjective(ai, sts[b].spec.alias, si);
          if i >= 2 {
            assert a < b && sts[a].spec.alias == sts[b].spec.alias;
          }
          assert AliasRepeats(primary, sts, b);
        }
      }
    }
  }

  /** The two columns the mated table holds for secondary `st`: `indices`
      holds, for each primary row, the index of its nearest match in `st`
      (-1 when there is none), and `ids` holds the name of that match (the
      "no match" fill where there is none). */
  predicate MatedPair(ids: Column, indices: Column, pt: TableParameters, st: TableParameters, matcher: Matcher)
  {
    && pt.coords.Some? && st.coords.Some? && Lookup(st.data, st.spec.nameCol).Ok?
    && indices == IntCol(MatchIndices(pt, st, matcher))
    && var names := Lookup(st.data, st.spec.nameCol).value;
       var idx := MatchIndices(pt, st, matcher);
       && |idx| == pt.coords.value.ra.Length() && ids.Length() == |idx|
       && (forall j :: 0 <= j < |idx| ==> -1 <= idx[j] < st.coords.value.ra.Length())
       && (forall j :: 0 <= j < |idx| && idx[j] == -1 ==> ids.At(j) == FillCell(names, NoMatchId))
       && (forall j :: 0 <= j < |idx| && idx[j] != -1 ==> idx[j] < names.Length() && ids.At(j) == names.At(idx[j]))
  }

  /** The secondaries' columns of the mated table, as `MateOne` built
      them, sit after the primary's two. */
  lemma MatedLayout(pt: TableParameters, sts: seq<TableParameters>, matcher: Matcher,
                    pairs: seq<(Column, seq<int>)>, primary: string, seed: seq<NamedColumn>)
    requires ValidMatcher(matcher)
    requires |pairs| == |sts|
    requires forall k :: 0 <= k < |sts| ==>
      MateOne(pt, sts[k], matcher).Ok? && pairs[k] == MateOne(pt, sts[k], matcher).value
    requires |seed| == 2 && seed[0].name == primary + "_ID" && seed[1].name == primary + "_index"
    ensures MatedNaming(seed + PairColumns(sts, pairs), primary, sts)
    ensures
      var cols := seed + PairColumns(sts, pairs);
      forall k :: 0 <= k < |sts| ==> MatedPair(cols[2 + 2 * k].column, cols[3 + 2 * k].column, pt, sts[k], matcher)
  {
    var rest := PairColumns(sts, pairs);
    var cols := seed + rest;
    forall k | 0 <= k < |sts|
      ensures cols[2 + 2 * k] == NamedColumn(sts[k].spec.alias + "_ID", pairs[k].0)
      ensures cols[3 + 2 * k] == NamedColumn(sts[k].spec.alias + "_index", IntCol(pairs[k].1))
    {
      assert cols[2 + 2 * k] == rest[2 * k];
      assert cols[3 + 2 * k] == rest[2 * k + 1];
    }
    forall k | 0 <= k < |sts|
      ensures MatedPair(cols[2 + 2 * k].column, cols[3 + 2 * k].column, pt, sts[k], matcher)
    {
      MateOneContents(pt, sts[k], matcher);
    }
  }

  /** `tablemater`: the mated index table. Its first two columns are the
      primary's names and row numbers; then, for every secondary in order,
      the secondary's name of each primary row's nearest match (-1 when
      there is none) and the index of that match (-1 likewise). */
  function Tablemater(pt: TableParameters, secondaries: Secondaries, matcher: Matcher)
    : (r: Result<Table>)
    requires ValidMatcher(matcher)
    ensures Lookup(pt.data, pt.spec.nameCol).Err? ==> r == Err(KeyError(pt.spec.nameCol))
    ensures r.Ok? <==>
      Lookup(pt.data, pt.spec.nameCol).Ok?
      && forall k :: 0 <= k < |secondaries.AsList()| ==>
           MateOne(pt, secondaries.AsList()[k], matcher).Ok? && !AliasRepeats(pt.spec.alias, secondaries.AsList(), k)
    ensures Lookup(pt.data, pt.spec.nameCol).Ok? && r.Err? ==>
      exists k :: 0 <= k < |secondaries.AsList()| && FirstMateFailure(pt, secondaries.AsList(), matcher, k, r.error)
    ensures r.Ok? ==> MatedNaming(r.value.columns, pt.spec.alias, secondaries.AsList())
    ensures r.Ok? ==> UniqueNames(r.value)
    ensures r.Ok? ==>
      r.value.columns[0] == NamedColumn(pt.spec.alias + "_ID", Lookup(pt.data, pt.spec.nameCol).value)
      && r.value.columns[1] == NamedColumn(pt.spec.alias + "_index", IntCol(Range(RowCount(pt.data))))
    ensures r.Ok? ==> forall k :: 0 <= k < |secondaries.AsList()| ==>
      MatedPair(r.value.columns[2 + 2 * k].column, r.value.columns[3 + 2 * k].column,
                pt, secondaries.AsList()[k], matcher)
  {
    var idCol :- Lookup(pt.data, pt.spec.nameCol);
    var sts := secondaries.AsList();
    var pairs :- MatePairs(pt, sts, matcher);
    var seed := [NamedColumn(pt.spec.alias + "_ID", idCol),
                 NamedColumn(pt.spec.alias + "_index", IntCol(Range(RowCount(pt.data))))];
    var t := Table(seed + PairColumns(sts, pairs));
    MatedLayout(pt, sts, matcher, pairs, pt.spec.alias, seed);
    MatedNamesUnique(t.columns, pt.spec.alias, sts);
    Ok(t)
  }

  // ---------------------------------------------------------------------
  // index_secondary_by_primary
  // ---------------------------------------------------------------------

  /** What an unmatched row holds: -9999 in integer columns, NaN otherwise
      (a string column receives the text numpy makes of NaN). */
  const Unmatched: Fill := Fill(-9999, NaN, "nan")

  /** Whether column `k` of the secondary catalog would be added under a
      name the re-indexed table already has: one of the two seed names in
      `present`, or the name of an earlier column. */
  predicate NameRepeats(present: seq<string>, cols: seq<NamedColumn>, k: nat)
    requires k < |cols|
  {
    cols[k].name in present || exists j :: 0 <= j < k && cols[j].name == cols[k].name
  }

  /** Each column paired with whether its name repeats. */
  function TaggedColumns(present: seq<string>, cols: seq<NamedColumn>): (r: seq<(NamedColumn, bool)>)
    ensures |r| == |cols|
    ensures forall k :: 0 <= k < |cols| ==> r[k] == (cols[k], NameRepeats(present, cols, k))
  {
    seq(|cols|, k requires 0 <= k < |cols| => (cols[k], NameRepeats(present, cols, k)))
  }

  /** One column: index it by primary row (an index out of bounds raises),
      put the missing value where the primary row has no match, then add
      it, which fails when its name repeats. */
  function ReindexStep(col: NamedColumn, repeats: bool, idx: seq<int>): (r: Result<NamedColumn>)
    ensures r.Ok? <==> TakeColumn(col.column, idx).Ok? && !repeats
    ensures TakeColumn(col.column, idx).Err? ==> r == Err(IndexError)
    ensures TakeColumn(col.column, idx).Ok? && repeats ==> r == Err(DuplicateColumn(col.name))
    ensures r.Ok? ==> r.value == NamedColumn(col.name, FillColumn(TakeColumn(col.column, idx).value, idx, Unmatched))
  {
    var taken :- TakeColumn(col.column, idx);
    if repeats then Err(DuplicateColumn(col.name))
    else Ok(NamedColumn(col.name, FillColumn(taken, idx, Unmatched)))
  }

  /** The loop step for fixed primary row indices. */
  function Reindexer(idx: seq<int>): ((NamedColumn, bool)) -> Result<NamedColumn>
  {
    (tagged: (NamedColumn, bool)) => ReindexStep(tagged.0, tagged.1, idx)
  }

  /** Column `k` is the first of the loop to raise, and `e` is what it
      raises: an IndexError from indexing, or the repeated name. */
  predicate FirstReindexFailure(present: seq<string>, cols: seq<NamedColumn>, idx: seq<int>, k: nat, e: Error)
    requires k < |cols|
  {
    && (forall k' :: 0 <= k' < k ==> TakeColumn(cols[k'].column, idx).Ok? && !NameRepeats(present, cols, k'))
    && (TakeColumn(cols[k].column, idx).Err? ==> e == IndexError)
    && (TakeColumn(cols[k].column, idx).Ok? ==> NameRepeats(present, cols, k) && e == DuplicateColumn(cols[k].name))
  }

  /** Re-indexes each column of the secondary catalog by primary row, in
      order, into a table that already holds the columns named `present`. */
  function ReindexColumns(cols: seq<NamedColumn>, idx: seq<int>, present: seq<string>): (r: Result<seq<NamedColumn>>)
    ensures r.Ok? <==> forall k :: 0 <= k < |cols| ==>
      TakeColumn(cols[k].column, idx).Ok? && !NameRepeats(present, cols, k)
    ensures r.Err? ==> exists k :: 0 <= k < |cols| && FirstReindexFailure(present, cols, idx, k, r.error)
    ensures r.Ok? ==> |r.value| == |cols|
    ensures r.Ok? ==> forall k :: 0 <= k < |cols| ==>
      r.value[k] == NamedColumn(cols[k].name, FillColumn(TakeColumn(cols[k].column, idx).value, idx, Unmatched))
  {
    ReindexStepsOk(cols, idx, present);
    ReindexStepsErr(cols, idx, present);
    MapResult(Reindexer(idx), TaggedColumns(present, cols))
  }

  /** The loop's step function, applied to column `k` and its tag. */
  lemma ReindexerSteps(cols: seq<NamedColumn>, idx: seq<int>, present: seq<string>)
    ensures forall k :: 0 <= k < |cols| ==>
      Reindexer(idx)(TaggedColumns(present, cols)[k]) == ReindexStep(cols[k], NameRepeats(present, cols, k), idx)
  {
  }

  /** When every step of the loop succeeds, its values are the re-indexed columns. */
  lemma ReindexStepsOk(cols: seq<NamedColumn>, idx: seq<int>, present: seq<string>)
    ensures var r := MapResult(Reindexer(idx), TaggedColumns(present, cols));
      && (r.Ok? <==> forall k :: 0 <= k < |cols| ==>
            TakeColumn(cols[k].column, idx).Ok? && !NameRepeats(present, cols, k))
      && (r.Ok? ==> |r.value| == |cols|)
      && (r.Ok? ==> forall k :: 0 <= k < |cols| ==>
            r.value[k] == NamedColumn(cols[k].name, FillColumn(TakeColumn(cols[k].column, idx).value, idx, Unmatched)))
  {
    ReindexerSteps(cols, idx, present);
  }

  /** When a step of the loop fails, its error is the first column's to raise. */
  lemma ReindexStepsErr(cols: seq<NamedColumn>, idx: seq<int>, present: seq<string>)
    ensures var r := MapResult(Reindexer(idx), TaggedColumns(present, cols));
      r.Err? ==> exists k :: 0 <= k < |cols| && FirstReindexFailure(present, cols, idx, k, r.error)
  {
    var tagged := TaggedColumns(present, cols);
    var f := Reindexer(idx);
    var r := MapResult(f, tagged);
    if r.Err? {
      var k :| 0 <= k < |tagged| && f(tagged[k]).Err? && r.error == f(tagged[k]).error
               && forall k' :: 0 <= k' < k ==> f(tagged[k']).Ok?;
      FirstColumnFailure(cols, idx, present, k, r.error);
    }
  }

  /** The first failing step of the loop is the first column to raise. */
  lemma FirstColumnFailure(cols: seq<NamedColumn>, idx: seq<int>, present: seq<string>, k: nat, e: Error)
    requires k < |cols|
    requires forall k' :: 0 <= k' < k ==> Reindexer(idx)(TaggedColumns(present, cols)[k']).Ok?
    requires Reindexer(idx)(TaggedColumns(present, cols)[k]) == Err(e)
    ensures FirstReindexFailure(present, cols, idx, k, e)
  {
    ReindexerSteps(cols, idx, present);
  }

  /** The mated table's first two columns, read back by their names: with
      the two names distinct, each read finds its own column. */
  function LeadingColumns(mated: Table): (seed: seq<NamedColumn>)
    requires |mated.columns| >= 2 && mated.columns[0].name != mated.columns[1].name
    ensures seed == mated.columns[..2]
  {
    var first := mated.columns[0].name;
    var second := mated.columns[1].name;
    assert first == mated.Keys()[0] && second == mated.Keys()[1];
    assert Lookup(mated, first) == Ok(mated.columns[0].column);
    assert Lookup(mated, second) == Lookup(Table(mated.columns[1..]), second);
    assert Lookup(Table(mated.columns[1..]), second) == Ok(mated.columns[1].column);
    [NamedColumn(first, Get(mated, first)), NamedColumn(second, Get(mated, second))]
  }

  /** `index_secondary_by_primary`: the mated table's first two columns,
      then every column of the secondary catalog re-indexed by primary row
      through the mated table's `<alias>_index` column. */
  function IndexSecondaryByPrimary(mated: Table, st: TableParameters): (r: Result<Table>)
    ensures |mated.columns| < 2 ==> r == Err(IndexError)
    ensures |mated.columns| >= 2 && mated.columns[0].name == mated.columns[1].name ==>
      r == Err(DuplicateColumn(mated.columns[1].name))
    ensures |mated.columns| >= 2 && mated.columns[0].name != mated.columns[1].name
            && Lookup(mated, st.spec.alias + "_index").Err? ==>
      r == Err(ValueError("no field of name " + st.spec.alias + "_index"))
    ensures |mated.columns| >= 2 && mated.columns[0].name != mated.columns[1].name
            && Lookup(mated, st.spec.alias + "_index").Ok?
            && !Lookup(mated, st.spec.alias + "_index").value.IntCol? ==>
      r == (if |st.data.columns| == 0 then Ok(Table(mated.columns[..2])) else Err(IndexError))
    ensures r.Ok? <==>
      && |mated.columns| >= 2 && mated.columns[0].name != mated.columns[1].name
      && Lookup(mated, st.spec.alias + "_index").Ok?
      && (Lookup(mated, st.spec.alias + "_index").value.IntCol? || |st.data.columns| == 0)
      && forall k :: 0 <= k < |st.data.columns| ==>
           && TakeColumn(st.data.columns[k].column, Lookup(mated, st.spec.alias + "_index").value.ints).Ok?
           && !NameRepeats([mated.columns[0].name, mated.columns[1].name], st.data.columns, k)
    ensures r.Err? && |mated.columns| >= 2 && mated.columns[0].name != mated.columns[1].name
            && Lookup(mated, st.spec.alias + "_index").Ok?
            && Lookup(mated, st.spec.alias + "_index").value.IntCol? ==>
      exists k :: 0 <= k < |st.data.columns|
        && FirstReindexFailure([mated.columns[0].name, mated.columns[1].name], st.data.columns,
                               Lookup(mated, st.spec.alias + "_index").value.ints, k, r.error)
    ensures r.Ok? ==> |r.value.columns| == 2 + |st.data.columns|
    ensures r.Ok? ==> r.value.columns[..2] == mated.columns[..2]
    ensures r.Ok? ==> UniqueNames(r.value)
    ensures r.Ok? ==> forall k :: 0 <= k < |st.data.columns| ==>
      var idx := Lookup(mated, st.spec.alias + "_index").value.ints;
      var target := st.data.columns[k].column;
      TakeColumn(target, idx).Ok?
      && r.value.columns[2 + k] == NamedColumn(st.data.columns[k].name, FillColumn(TakeColumn(target, idx).value, idx, Unmatched))
  {
    if |mated.columns| < 2 then Err(IndexError)
    else
      var first := mated.columns[0].name;
      var second := mated.columns[1].name;
      if first == second then Err(DuplicateColumn(second))
      else
        var seed := LeadingColumns(mated);
        var idxCol :- Field(mated, st.spec.alias + "_index");
        ReindexBy(seed, idxCol, st.data.columns)
  }

  /** The loop of `index_secondary_by_primary` once the index field is
      read: each column of `cols` re-indexed through `idxCol` and added
      after the two `seed` columns. numpy refuses a non-integer index array
      only when a column is indexed with it. */
  function ReindexBy(seed: seq<NamedColumn>, idxCol: Column, cols: seq<NamedColumn>): (r: Result<Table>)
    requires |seed| == 2 && seed[0].name != seed[1].name
    ensures !idxCol.IntCol? ==> r == (if |cols| == 0 then Ok(Table(seed)) else Err(IndexError))
    ensures r.Ok? <==>
      && (idxCol.IntCol? || |cols| == 0)
      && forall k :: 0 <= k < |cols| ==>
           TakeColumn(cols[k].column, idxCol.ints).Ok? && !NameRepeats([seed[0].name, seed[1].name], cols, k)
    ensures r.Err? && idxCol.IntCol? ==>
      exists k :: 0 <= k < |cols| && FirstReindexFailure([seed[0].name, seed[1].name], cols, idxCol.ints, k, r.error)
    ensures r.Ok? ==> |r.value.columns| == 2 + |cols| && r.value.columns[..2] == seed && UniqueNames(r.value)
    ensures r.Ok? ==> forall k :: 0 <= k < |cols| ==>
      r.value.columns[2 + k] == NamedColumn(cols[k].name, FillColumn(TakeColumn(cols[k].column, idxCol.ints).value, idxCol.ints, Unmatched))
  {
    if !idxCol.IntCol? then
      if |cols| == 0 then Ok(Table(seed)) else Err(IndexError)
    else
      var reindexed :- ReindexColumns(cols, idxCol.ints, [seed[0].name, seed[1].name]);
      ReindexedUnique(seed, cols, reindexed);
      Ok(Table(seed + reindexed))
  }

  /** The re-indexed table keeps the secondary's names, so with none of them
      repeating no two of its columns share a name. */
  lemma ReindexedUnique(seed: seq<NamedColumn>, src: seq<NamedColumn>, cols: seq<NamedColumn>)
    requires |seed| == 2 && seed[0].name != seed[1].name && |cols| == |src|
    requires forall k :: 0 <= k < |src| ==>
      cols[k].name == src[k].name && !NameRepeats([seed[0].name, seed[1].name], src, k)
    ensures UniqueNames(Table(seed + cols))
  {
    var t := seed + cols;
    forall i, j | 0 <= i < j < |t|
      ensures t[i].name != t[j].name
    {
      if j >= 2 {
        assert t[j] == cols[j - 2] && !NameRepeats([seed[0].name, seed[1].name], src, j - 2);
        if i < 2 {
          assert t[i].name in [seed[0].name, seed[1].name];
        } else {
          assert t[i] == cols[i - 2];
        }
      }
    }
  }

  /** Reading the re-indexed table: an unmatched primary row holds the
      "missing" value of each column's kind (-9999 for integers, NaN
      otherwise); a matched row holds the secondary's value at the index. */
  lemma IndexSecondaryContents(mated: Table, st: TableParameters, k: nat, j: nat)
    requires IndexSecondaryByPrimary(mated, st).Ok?
    requires k < |st.data.columns|
    requires j < |Lookup(mated, st.spec.alias + "_index").value.ints|
    ensures
      var idx := Lookup(mated, st.spec.alias + "_index").value.ints;
      var target := st.data.columns[k].column;
      var out := IndexSecondaryByPrimary(mated, st).value.columns[2 + k];
      && out.name == st.data.columns[k].name
      && out.column.SameKind(target) && out.column.Length() == |idx|
      && (idx[j] == -1 ==> out.column.At(j) == FillCell(target, Unmatched))
      && (idx[j] != -1 ==> InBounds(idx[j], target.Length())
                           && out.column.At(j) == target.At(Resolve(idx[j], target.Length())))
  {
  }

  // ---------------------------------------------------------------------
  // tablemater, then index_secondary_by_primary
  // ---------------------------------------------------------------------

  /** Appending the same suffix to two different aliases gives two
      different column names. */
  lemma SuffixInjective(a: string, b: string, suffix: string)
    requires a + suffix == b + suffix
    ensures a == b
  {
    assert a == (a + suffix)[..|a|];
    assert b == (b + suffix)[..|b|];
  }

  /** An `_ID` column name never equals an `_index` column name. */
  lemma IdNeverIndex(a: string, b: string)
    ensures a + "_ID" != b + "_index"
  {
    var x, y := a + "_ID", b + "_index";
    assert x[|x| - 1] == 'D' && y[|y| - 1] == 'x';
  }

  /** In a table named as `tablemater` names it, looking up secondary `k`'s
      `_index` name finds its own column when its alias differs from the
      primary's and the earlier ones'. */
  lemma {:induction false} IndexNameFinds(cols: seq<NamedColumn>, primary: string, sts: seq<TableParameters>, k: nat)
    requires MatedNaming(cols, primary, sts) && k < |sts|
    requires !AliasRepeats(primary, sts, k)
    ensures Lookup(Table(cols), sts[k].spec.alias + "_index") == Ok(cols[3 + 2 * k].column)
  {
    var name := sts[k].spec.alias + "_index";
    forall j | 0 <= j < 3 + 2 * k
      ensures cols[j].name != name
    {
      if j == 0 {
        IdNeverIndex(primary, sts[k].spec.alias);
      } else if j == 1 {
        if primary + "_index" == name {
          SuffixInjective(primary, sts[k].spec.alias, "_index");
        }
      } else {
        var a := (j - 2) / 2;
        if j == 2 + 2 * a {
          IdNeverIndex(sts[a].spec.alias, sts[k].spec.alias);
        } else {
          assert j == 3 + 2 * a && a < k;
          if sts[a].spec.alias + "_index" == name {
            SuffixInjective(sts[a].spec.alias, sts[k].spec.alias, "_index");
          }
        }
      }
    }
    LookupFirst(Table(cols), name, 3 + 2 * k);
  }

  /** Re-indexing one of the catalogs a table named as `tablemater` names
      it was built from (its alias distinct from the primary's and from
      every earlier secondary's) reads that catalog's own `_index` column:
      it succeeds exactly when those indices are valid for every column of
      the catalog and no column of the catalog repeats the primary's two
      names or an earlier column's name, keeps the primary ID and
      row-number columns, and fills
      column `2 + c` from the catalog's column `c` taken at those indices,
      with the missing value where a primary row has no match. */
  lemma IndexAfterMate(mated: Table, primary: string, sts: seq<TableParameters>, k: nat)
    requires MatedNaming(mated.columns, primary, sts) && k < |sts|
    requires mated.columns[3 + 2 * k].column.IntCol?
    requires !AliasRepeats(primary, sts, k)
    ensures
      var st := sts[k];
      var idx := mated.columns[3 + 2 * k].column.ints;
      var r := IndexSecondaryByPrimary(mated, st);
      && (r.Ok? <==> forall c :: 0 <= c < |st.data.columns| ==>
            TakeColumn(st.data.columns[c].column, idx).Ok?
            && !NameRepeats([primary + "_ID", primary + "_index"], st.data.columns, c))
      && (r.Ok? ==> r.value.columns[..2] == mated.columns[..2])
      && (r.Ok? ==> forall c :: 0 <= c < |st.data.columns| ==>
            r.value.columns[2 + c]
              == NamedColumn(st.data.columns[c].name,
                             FillColumn(TakeColumn(st.data.columns[c].column, idx).value, idx, Unmatched)))
  {
    IndexNameFinds(mated.columns, primary, sts, k);
    assert mated == Table(mated.columns);
    IdNeverIndex(primary, primary);
    assert [mated.columns[0].name, mated.columns[1].name] == [primary + "_ID", primary + "_index"];
  }
}
