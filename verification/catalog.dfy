/** Catalog tables with heterogeneous schemas, as the cross-matching code
    and the column-renaming script see them: an ordered list of named
    columns, each an integer, floating-point or string array.

    Only the table operations those scripts use are modelled: column lookup
    by name, appending a column, numpy fancy indexing `a[idx]` and masked
    assignment `a[mask] = v`. */
module Catalog {
  import opened Results

  /** A floating-point cell; `NaN` is the fill value numpy writes. */
  datatype Float = Num(x: real) | NaN

  /** One cell of any column, used where a row is read across columns. */
  datatype Cell = IntCell(i: int) | FloatCell(f: Float) | StrCell(s: string)

  datatype Column =
    | IntCol(ints: seq<int>)
    | FloatCol(floats: seq<Float>)
    | StrCol(strs: seq<string>)
  {
    function Length(): nat
    {
      match this
      case IntCol(v) => |v|
      case FloatCol(v) => |v|
      case StrCol(v) => |v|
    }

    function At(i: nat): Cell
      requires i < Length()
    {
      match this
      case IntCol(v) => IntCell(v[i])
      case FloatCol(v) => FloatCell(v[i])
      case StrCol(v) => StrCell(v[i])
    }

    /** The same kind of array (numpy dtype family). */
    predicate SameKind(other: Column)
    {
      (IntCol? && other.IntCol?) || (FloatCol? && other.FloatCol?) || (StrCol? && other.StrCol?)
    }
  }

  datatype NamedColumn = NamedColumn(name: string, column: Column)

  /** `columns.keys` is the list of names in order. */
  datatype Table = Table(columns: seq<NamedColumn>)
  {
    function Keys(): seq<string>
    {
      seq(|columns|, i requires 0 <= i < |columns| => columns[i].name)
    }
  }

  /** `table[name]`: the first column called `name`, or a KeyError. */
  function Lookup(t: Table, name: string): (r: Result<Column>)
    ensures r.Ok? <==> name in t.Keys()
    ensures r.Ok? ==> exists i :: 0 <= i < |t.columns| && t.columns[i] == NamedColumn(name, r.value)
    ensures r.Err? ==> r.error == KeyError(name)
    decreases |t.columns|
  {
    if |t.columns| == 0 then Err(KeyError(name))
    else if t.columns[0].name == name then
      assert t.Keys()[0] == name;
      Ok(t.columns[0].column)
    else
      var rest := Lookup(Table(t.columns[1..]), name);
      assert Table(t.columns[1..]).Keys() == t.Keys()[1..];
      assert t.Keys() == [t.columns[0].name] + t.Keys()[1..];
      if rest.Ok? then
        var i :| 0 <= i < |t.columns| - 1 && t.columns[1..][i] == NamedColumn(name, rest.value);
        assert t.columns[i + 1] == NamedColumn(name, rest.value);
        rest
      else rest
  }

  /** `table.data[name]`: a field of the numpy record array behind an
      atpy table. It finds what `table[name]` finds, but numpy reports a
      missing field as a ValueError rather than a KeyError. */
  function Field(t: Table, name: string): (r: Result<Column>)
    ensures r.Ok? <==> name in t.Keys()
    ensures r.Ok? ==> r == Lookup(t, name)
    ensures r.Err? ==> r.error == ValueError("no field of name " + name)
  {
    match Lookup(t, name)
    case Ok(c) => Ok(c)
    case Err(_) => Err(ValueError("no field of name " + name))
  }

  /** `table[name]` for a name the table is known to have. */
  function Get(t: Table, name: string): (c: Column)
    requires name in t.Keys()
    ensures Lookup(t, name) == Ok(c)
  {
    Lookup(t, name).value
  }

  /** `table[name]` finds the first column carrying the name. */
  lemma {:induction false} LookupFirst(t: Table, name: string, i: nat)
    requires i < |t.columns| && t.columns[i].name == name
    requires forall j :: 0 <= j < i ==> t.columns[j].name != name
    ensures Lookup(t, name) == Ok(t.columns[i].column)
    decreases i
  {
    if i > 0 {
      var tail := Table(t.columns[1..]);
      LookupFirst(tail, name, i - 1);
    }
  }

  /** `table[n]` for each name in turn; the first missing name raises. */
  function LookupAll(t: Table, names: seq<string>): (r: Result<seq<Column>>)
    ensures r.Ok? <==> forall k :: 0 <= k < |names| ==> names[k] in t.Keys()
    ensures r.Err? ==> exists k :: 0 <= k < |names| && names[k] !in t.Keys() && r.error == KeyError(names[k])
                        && forall k' :: 0 <= k' < k ==> names[k'] in t.Keys()
    ensures r.Ok? ==> |r.value| == |names|
    ensures r.Ok? ==> forall k :: 0 <= k < |names| ==> Lookup(t, names[k]) == Ok(r.value[k])
  {
    if |names| == 0 then Ok([])
    else
      var c :- Lookup(t, names[0]);
      var rest := LookupAll(t, names[1..]);
      if rest.Err? then
        var k :| 0 <= k < |names[1..]| && names[1..][k] !in t.Keys() && rest.error == KeyError(names[1..][k])
                 && forall k' :: 0 <= k' < k ==> names[1..][k'] in t.Keys();
        assert names[k + 1] == names[1..][k];
        assert forall k' :: 1 <= k' < k + 1 ==> names[k'] == names[1..][k' - 1];
        Err(rest.error)
      else
        assert forall k :: 1 <= k < |names| ==> names[k] == names[1..][k - 1];
        Ok([c] + rest.value)
  }

  /** No two columns of the table share a name, as atpy keeps it. */
  predicate UniqueNames(t: Table)
  {
    forall i, j :: 0 <= i < j < |t.columns| ==> t.columns[i].name != t.columns[j].name
  }

  /** `table.add_column(name, column)`: appended after the existing
      columns; atpy refuses a name the table already has. */
  function AddColumn(t: Table, name: string, c: Column): (r: Result<Table>)
    ensures r.Err? <==> name in t.Keys()
    ensures r.Err? ==> r.error == DuplicateColumn(name)
    ensures r.Ok? ==> r.value.Keys() == t.Keys() + [name]
    ensures r.Ok? ==> r.value.columns[..|t.columns|] == t.columns
    ensures r.Ok? ==> r.value.columns[|t.columns|] == NamedColumn(name, c)
    ensures r.Ok? && UniqueNames(t) ==> UniqueNames(r.value)
  {
    if name in t.Keys() then Err(DuplicateColumn(name))
    else
      var r := Table(t.columns + [NamedColumn(name, c)]);
      assert r.columns[..|t.columns|] == t.columns;
      assert forall i :: 0 <= i < |t.columns| ==> t.columns[i].name == t.Keys()[i];
      Ok(r)
  }

  /** After `add_column`, `table[name]` is the new column and every other
      name reads what it read before. */
  lemma {:induction false} AddedLookup(t: Table, name: string, c: Column, other: string)
    requires AddColumn(t, name, c).Ok?
    ensures Lookup(AddColumn(t, name, c).value, name) == Ok(c)
    ensures other != name ==> Lookup(AddColumn(t, name, c).value, other) == Lookup(t, other)
    decreases |t.columns|
  {
    var r := AddColumn(t, name, c).value;
    if |t.columns| > 0 {
      var tail := Table(t.columns[1..]);
      assert tail.Keys() == t.Keys()[1..];
      assert t.Keys() == [t.columns[0].name] + tail.Keys();
      assert AddColumn(tail, name, c).value.columns == r.columns[1..];
      AddedLookup(tail, name, c, other);
      assert Table(r.columns[1..]) == AddColumn(tail, name, c).value;
    }
  }

  // ---------------------------------------------------------------------
  // numpy indexing
  // ---------------------------------------------------------------------

  /** Whether `i` is a valid numpy index into an array of length `n`:
      negative indices count from the end. */
  predicate InBounds(i: int, n: nat)
  {
    -(n as int) <= i < n
  }

  /** The position numpy reads for a valid index. */
  function Resolve(i: int, n: nat): (p: nat)
    requires InBounds(i, n)
    ensures p < n
    ensures 0 <= i ==> p == i
    ensures i < 0 ==> p + (-i) == n
  {
    if i >= 0 then i else n + i
  }

  /** `a[idx]` on one array: IndexError if any index is out of bounds. */
  function Take<C>(a: seq<C>, idx: seq<int>): (r: Result<seq<C>>)
    ensures r.Ok? <==> forall j :: 0 <= j < |idx| ==> InBounds(idx[j], |a|)
    ensures r.Err? ==> r.error == IndexError
    ensures r.Ok? ==> |r.value| == |idx|
    ensures r.Ok? ==> forall j :: 0 <= j < |idx| ==> r.value[j] == a[Resolve(idx[j], |a|)]
  {
    if forall j :: 0 <= j < |idx| ==> InBounds(idx[j], |a|) then
      Ok(seq(|idx|, j requires 0 <= j < |idx| => a[Resolve(idx[j], |a|)]))
    else Err(IndexError)
  }

  /** `column[idx]`, keeping the column's kind. */
  function TakeColumn(c: Column, idx: seq<int>): (r: Result<Column>)
    ensures r.Ok? <==> forall j :: 0 <= j < |idx| ==> InBounds(idx[j], c.Length())
    ensures r.Err? ==> r.error == IndexError
    ensures r.Ok? ==> r.value.SameKind(c) && r.value.Length() == |idx|
    ensures r.Ok? ==> forall j :: 0 <= j < |idx| ==> r.value.At(j) == c.At(Resolve(idx[j], c.Length()))
  {
    match c
    case IntCol(v) => var t :- Take(v, idx); Ok(IntCol(t))
    case FloatCol(v) => var t :- Take(v, idx); Ok(FloatCol(t))
    case StrCol(v) => var t :- Take(v, idx); Ok(StrCol(t))
  }

  /** `a[idx == -1] = v` on one array of the same length as `idx`. */
  function FillUnmatched<C>(a: seq<C>, idx: seq<int>, v: C): (r: seq<C>)
    requires |a| == |idx|
    ensures |r| == |a|
    ensures forall j :: 0 <= j < |a| ==> r[j] == (if idx[j] == -1 then v else a[j])
  {
    seq(|a|, j requires 0 <= j < |a| => if idx[j] == -1 then v else a[j])
  }

  /** Per-kind fill values for the rows whose index is -1. */
  datatype Fill = Fill(forInt: int, forFloat: Float, forStr: string)

  /** `column[idx == -1] = value`, where `value` is converted to the column's
      kind as numpy does on assignment. */
  function FillColumn(c: Column, idx: seq<int>, fill: Fill): (r: Column)
    requires c.Length() == |idx|
    ensures r.SameKind(c) && r.Length() == c.Length()
    ensures forall j :: 0 <= j < |idx| && idx[j] != -1 ==> r.At(j) == c.At(j)
    ensures forall j :: 0 <= j < |idx| && idx[j] == -1 ==>
      r.At(j) == (match c
                  case IntCol(_) => IntCell(fill.forInt)
                  case FloatCol(_) => FloatCell(fill.forFloat)
                  case StrCol(_) => StrCell(fill.forStr))
  {
    match c
    case IntCol(v) => IntCol(FillUnmatched(v, idx, fill.forInt))
    case FloatCol(v) => FloatCol(FillUnmatched(v, idx, fill.forFloat))
    case StrCol(v) => StrCol(FillUnmatched(v, idx, fill.forStr))
  }
}
