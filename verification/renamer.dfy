/** The ONCvar_ID renaming one-off (old_oncvar_id_renamer_oneoff.py): a
    table that has both an `ONCvar_ID` and a `UKvar_ID` column gets its
    `ONCvar_ID` column renamed `old_ONCvar_ID` in place; any other table is
    rejected. */
module Renamer {
  import opened Results
  import opened Catalog

  const OldName: string := "ONCvar_ID"
  const NewName: string := "old_ONCvar_ID"
  const UkvarName: string := "UKvar_ID"

  const MissingColumnsMessage: string := "Input table needs both an ONCvar_ID column and a UKvar_ID column!"

  /** `rename_column(from, to)` on the column list: the column keeps its
      place and its data, only its name changes. */
  function RenameColumns(cols: seq<NamedColumn>, from: string, to: string): (r: seq<NamedColumn>)
    ensures |r| == |cols|
    ensures forall i :: 0 <= i < |cols| ==>
      r[i].column == cols[i].column
      && r[i].name == (if cols[i].name == from then to else cols[i].name)
  {
    seq(|cols|, i requires 0 <= i < |cols| =>
      if cols[i].name == from then NamedColumn(to, cols[i].column) else cols[i])
  }

  /** `renamer`: a ValueError unless both ID columns are present. */
  function Rename(t: Table): (r: Result<Table>)
    ensures r.Err? <==> OldName !in t.Keys() || UkvarName !in t.Keys()
    ensures r.Err? ==> r.error == ValueError(MissingColumnsMessage)
    ensures r.Ok? ==> |r.value.columns| == |t.columns|
    ensures r.Ok? ==> forall i :: 0 <= i < |t.columns| ==>
      r.value.columns[i].column == t.columns[i].column
      && r.value.Keys()[i] == (if t.Keys()[i] == OldName then NewName else t.Keys()[i])
  {
    if OldName in t.Keys() && UkvarName in t.Keys() then
      Ok(Table(RenameColumns(t.columns, OldName, NewName)))
    else Err(ValueError(MissingColumnsMessage))
  }

  /** Looking a column up after the rename: the renamed column is found
      under its new name (as long as no column had that name already), the
      old name is gone, and every other name finds what it found before. */
  lemma {:induction false} RenamedLookup(cols: seq<NamedColumn>, from: string, to: string, name: string)
    requires from != to
    ensures var before := Table(cols); var after := Table(RenameColumns(cols, from, to));
      && (name != from && name != to ==> Lookup(after, name) == Lookup(before, name))
      && (to !in before.Keys() ==> (Lookup(after, to).Ok? <==> Lookup(before, from).Ok?))
      && (to !in before.Keys() && Lookup(before, from).Ok? ==> Lookup(after, to) == Lookup(before, from))
      && from !in after.Keys()
    decreases |cols|
  {
    var before := Table(cols);
    var after := Table(RenameColumns(cols, from, to));
    if |cols| > 0 {
      var tail := RenameColumns(cols[1..], from, to);
      assert RenameColumns(cols, from, to)[1..] == tail;
      RenamedLookup(cols[1..], from, to, name);
      assert before.Keys() == [cols[0].name] + Table(cols[1..]).Keys();
      assert after.Keys() == [after.columns[0].name] + Table(tail).Keys();
      assert after.columns[1..] == tail;
      assert before.columns[1..] == cols[1..];
    }
  }

  /** The column keys in order: `ONCvar_ID` replaced by `old_ONCvar_ID`
      where it stood. */
  lemma KeysAfterRename(t: Table)
    requires Rename(t).Ok?
    ensures Rename(t).value.Keys() ==
      seq(|t.Keys()|, i requires 0 <= i < |t.Keys()| => if t.Keys()[i] == OldName then NewName else t.Keys()[i])
  {
  }

  /** The script's test case: a two-column table of IDs 0..19 and 5..24
      becomes a table keyed `old_ONCvar_ID`, `UKvar_ID` with the same
      data. */
  lemma TestSimpleCase()
    ensures
      var ids := IntCol(seq(20, i => i));
      var newIds := IntCol(seq(20, i => i + 5));
      var input := Table([NamedColumn(OldName, ids), NamedColumn(UkvarName, newIds)]);
      var expected := Table([NamedColumn(NewName, ids), NamedColumn(UkvarName, newIds)]);
      input.Keys() != expected.Keys() && Rename(input) == Ok(expected)
  {
    var ids := IntCol(seq(20, i => i));
    var newIds := IntCol(seq(20, i => i + 5));
    var input := Table([NamedColumn(OldName, ids), NamedColumn(UkvarName, newIds)]);
    var expected := Table([NamedColumn(NewName, ids), NamedColumn(UkvarName, newIds)]);
    assert input.Keys() == [OldName, UkvarName];
    assert UkvarName[0] != OldName[0];
    assert expected.Keys()[0] == NewName && NewName[0] != OldName[0];
    assert RenameColumns(input.columns, OldName, NewName) == expected.columns;
  }
}
