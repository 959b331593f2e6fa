/** The older single-module version: its Table, whose `_append` splits a
    2-tuple element into value and label, whose options are a plain
    attribute, and whose dictionary form emits the options under the key
    `rows`; and its encoder. */
module DataTable {
  import opened Python
  import opened Cells
  import opened Columns
  import opened TableCore
  import opened Wire

  /** The keys `Table.__iter__` zips with the columns, the rows and the
      options. */
  const Keys: seq<string> := ["cols", "rows", "rows"]

  /** One element of `_append`: a tuple is unpacked into value and label
      (any other length raises ValueError), anything else is the value; the
      cell declares the column's type.  The caller's element is left as it
      was. */
  function CellFor(col: ColumnState, v: Value): (r: (Result<CellState>, Value))
    ensures r.1 == v
    ensures r.0.Ok? <==>
      if v.TupleV? then |v.items| == 2 && Validate(ClassV(col.kind), v.items[0]).Pass?
      else Validate(ClassV(col.kind), v).Pass?
    ensures r.0.Ok? ==>
      && r.0.value.typ == ClassV(col.kind) && r.0.value.options == NoneV
      && (v.TupleV? ==> r.0.value.value == v.items[0] && r.0.value.caption == v.items[1])
      && (!v.TupleV? ==> r.0.value.value == v && r.0.value.caption == NoneV)
    ensures v.TupleV? && |v.items| != 2 ==> r.0 == Err(ValueError(Unpack))
    ensures r.0.Err? && !(v.TupleV? && |v.items| != 2) ==>
      r.0.error == ValueError(TypeMismatch(col.kind, TypeName(if v.TupleV? then v.items[0] else v)))
  {
    if v.TupleV? then
      if |v.items| != 2 then (Err(ValueError(Unpack)), v)
      else (NewCell(v.items[0], ClassV(col.kind), v.items[1], NoneV), v)
    else (NewCell(v, ClassV(col.kind), NoneV, NoneV), v)
  }

  /** Every cell the monolith builds declares its column's type and holds a
      valid value. */
  lemma CellForTyped()
    ensures TypedConversion(CellFor)
  {
    forall col, v | CellFor(col, v).0.Ok?
      ensures CellFor(col, v).0.value.typ == ClassV(col.kind)
      ensures Validate(ClassV(col.kind), CellFor(col, v).0.value.value).Pass?
    {
    }
  }

  /** A Table object: the schema, the rows and the options. */
  class Table {
    var schema: seq<ColumnState>
    var rows: seq<Row>
    var options: Value

    function State(): TableState
      reads this
    {
      TableState(schema, rows, options)
    }

    /** Column ids are distinct and every row fits the schema. */
    ghost predicate Valid()
      reads this
    {
      Wellformed(State())
    }

    /** The first two assignments of `__init__`. */
    constructor Empty()
      ensures State() == TableState([], [], NoneV) && Valid()
    {
      schema := [];
      rows := [];
      options := NoneV;
    }

    /** `add_column(description)`: the new state and outcome are those of
        `TableCore.AddColumn`. */
    method AddColumn(description: Value) returns (o: Outcome)
      requires Valid()
      modifies this
      ensures Valid()
      ensures Effect(State(), o) == TableCore.AddColumn(old(State()), description)
    {
      AddColumnKeepsWellformed(State(), description);
      var column := ColumnFromKwargs(description);
      if column.Err? {
        return Fail(column.error);
      }
      var c := column.value;
      if c.id in Ids(schema) {
        return Fail(ValueError(DuplicateColumnId(c.id)));
      }
      schema := schema + [c];
      if |rows| > 0 {
        return Fail(ValueError(ColumnsFrozen));
      }
      o := Pass;
    }

    /** `Table(schema, options)`: `add_column` for each description in
        order, then the options.  A description that raises aborts the
        construction with its error. */
    static method New(schema: Option<seq<Value>>, options: Value) returns (r: Result<Table>)
      ensures r.Ok? <==> BuildSchema(schema).outcome.Pass?
      ensures r.Ok? ==> fresh(r.value) && r.value.Valid() && r.value.State() == BuildSchema(schema).state.(options := options)
      ensures r.Err? ==> r.error == BuildSchema(schema).outcome.error
    {
      var t := new Table.Empty();
      if schema.Some? {
        var descriptions := schema.value;
        var i := 0;
        assert descriptions[0..] == descriptions;
        while i < |descriptions|
          invariant 0 <= i <= |descriptions|
          invariant fresh(t) && t.Valid() && t.rows == [] && t.options == NoneV
          invariant BuildSchema(schema) == AddColumns(t.State(), descriptions[i..])
        {
          AddColumnsUnfold(t.State(), descriptions, i);
          var o := t.AddColumn(descriptions[i]);
          if o.Fail? {
            return Err(o.error);
          }
          i := i + 1;
        }
        assert descriptions[i..] == [];
      }
      t.options := options;
      r := Ok(t);
    }

    /** `append(row)`: the new state and outcome are those of
        `TableCore.AppendRow` with the monolith's conversion. */
    method Append(row: seq<Value>) returns (o: Outcome)
      requires Valid()
      modifies this
      ensures Valid()
      ensures State() == AppendRow(CellFor, old(State()), row).state
      ensures o == AppendRow(CellFor, old(State()), row).outcome
    {
      CellForTyped();
      AppendKeepsWellformed(CellFor, State(), row);
      if |row| != |schema| {
        return Fail(AssertionError(RowLengthMismatch));
      }
      var cells, _ := BuildRow(CellFor, schema, row);
      if cells.Err? {
        return Fail(cells.error);
      }
      rows := rows + [cells.value];
      o := Pass;
    }

    /** `extend(rows)`: `append` for each row in order, stopping at the
        first that raises. */
    method Extend(newRows: seq<seq<Value>>) returns (o: Outcome)
      requires Valid()
      modifies this
      ensures Valid()
      ensures State() == ExtendRows(CellFor, old(State()), newRows).state
      ensures o == ExtendRows(CellFor, old(State()), newRows).outcome
    {
      ghost var spec := ExtendRows(CellFor, State(), newRows);
      assert newRows[0..] == newRows;
      var i := 0;
      o := Pass;
      while i < |newRows|
        invariant 0 <= i <= |newRows| && Valid() && o == Pass
        invariant spec.state == ExtendRows(CellFor, State(), newRows[i..]).state
        invariant spec.outcome == ExtendRows(CellFor, State(), newRows[i..]).outcome
      {
        ExtendRowsUnfold(CellFor, State(), newRows, i);
        o := Append(newRows[i]);
        if o.Fail? {
          return;
        }
        i := i + 1;
      }
      assert newRows[i..] == [];
    }
  }

  /** `dict(table)` for the monolith. */
  function WireDict(t: TableState): map<string, Obj> {
    TableDict(Keys, t)
  }

  /** Without options the dictionary form is `{"cols": ..., "rows": ...}`
      with the columns in schema order and the rows in append order; an
      empty table gives `{"cols": [], "rows": []}`. */
  lemma WireWithoutOptions(t: TableState)
    requires t.options.NoneV?
    ensures WireDict(t) == map["cols" := ColsObj(t), "rows" := RowsObj(t)]
    ensures t.schema == [] && t.rows == [] ==> WireDict(t) == map["cols" := ListObj([]), "rows" := ListObj([])]
  {
    TableDictUpdates(Keys, t);
    if t.schema == [] && t.rows == [] {
      assert ColsObj(t) == ListObj([]) && RowsObj(t) == ListObj([]);
    }
  }

  /** The options overwrite the rows: with options set, `dict(table)` has
      only the keys `cols` and `rows`, and `rows` holds the options, so the
      data rows are not in the dictionary form at all. */
  lemma OptionsShadowRows(t: TableState)
    requires !t.options.NoneV?
    ensures WireDict(t) == map["cols" := ColsObj(t), "rows" := Plain(t.options)]
    ensures |t.rows| > 0 ==> forall k :: k in WireDict(t) ==> WireDict(t)[k] != RowsObj(t)
  {
    TableDictUpdates(Keys, t);
    if |t.rows| > 0 {
      assert RowsObj(t).items[0].DictObj?;
      assert |ColsObj(t).items| == 0 || ColsObj(t).items[0].ColumnObj?;
    }
  }

  /** `DataTableEncoder.default`. */
  function Default(obj: Encodable): (r: Result<Obj>)
    ensures obj.CellArg? ==> r == Ok(DictObj(CellDict(obj.cell)))
    ensures obj.ColumnArg? ==> r == Ok(DictObj(ColumnDict(obj.column)))
    ensures obj.TableArg? ==> r == Ok(DictObj(WireDict(obj.table)))
    ensures obj.ValueArg? ==> r == DefaultValue(obj.v)
    ensures obj.TableArg? ==>
      && r.value.entries.Keys == {"cols", "rows"}
      && r.value.entries["cols"] == ColsObj(obj.table)
      && r.value.entries["rows"] == if obj.table.options.NoneV? then RowsObj(obj.table) else Plain(obj.table.options)
  {
    if obj.TableArg? && obj.table.options.NoneV? then
      WireWithoutOptions(obj.table);
      Wire.Default(Keys, obj)
    else if obj.TableArg? then
      OptionsShadowRows(obj.table);
      Wire.Default(Keys, obj)
    else
      Wire.Default(Keys, obj)
  }

  /** The schema of the test suite: `age` of type int labelled `Age`,
      `name` of type str labelled `Name`. */
  function AgeName(): seq<Value> {
    [DictV(map["id" := StrV("age"), "type" := ClassV(Int), "label" := StrV("Age")]),
     DictV(map["id" := StrV("name"), "type" := ClassV(Str), "label" := StrV("Name")])]
  }

  /** `Table(schema)` with that schema has the two columns in order and no
      rows. */
  lemma AgeNameColumns()
    ensures BuildSchema(Some(AgeName())) == Effect(AgeNameTable(), Pass)
  {
    var ds := AgeName();
    var t0 := TableState([], [], NoneV);
    var age := ColumnState("age", Int, StrV("Age"), NoneV);
    assert ColumnFromKwargs(ds[0]) == Ok(age);
    assert ColumnFromKwargs(ds[1]) == Ok(ColumnState("name", Str, StrV("Name"), NoneV));
    assert Ids([age]) == ["age"];
    assert ds[1..][1..] == [];
  }

  /** `append((18, 'Bob'))` appends one row holding 18 and "Bob", neither
      labelled. */
  lemma AppendBobExample()
    ensures var e := AppendRow(CellFor, AgeNameTable(), [IntV(18), StrV("Bob")]);
      && e.outcome == Pass
      && e.state.rows == [[("age", CellState(ClassV(Int), IntV(18), NoneV, NoneV)),
                           ("name", CellState(ClassV(Str), StrV("Bob"), NoneV, NoneV))]]
  {
    var t := AgeNameTable();
    var row := [IntV(18), StrV("Bob")];
    AppendOneRow(CellFor, t, row);
    assert CellFor(t.schema[0], row[0]).0 == Ok(CellState(ClassV(Int), IntV(18), NoneV, NoneV));
    assert CellFor(t.schema[1], row[1]).0 == Ok(CellState(ClassV(Str), StrV("Bob"), NoneV, NoneV));
    var r := AppendRow(CellFor, t, row).state.rows[0];
    assert r == [r[0], r[1]];
  }

  /** `append((17, ('Harry', 'Big Man')))`: the name cell holds "Harry"
      labelled "Big Man". */
  lemma AppendHarryExample()
    ensures var e := AppendRow(CellFor, AgeNameTable(), [IntV(17), TupleV([StrV("Harry"), StrV("Big Man")])]);
      && e.outcome == Pass
      && e.state.rows == [[("age", CellState(ClassV(Int), IntV(17), NoneV, NoneV)),
                           ("name", CellState(ClassV(Str), StrV("Harry"), StrV("Big Man"), NoneV))]]
  {
    var t := AgeNameTable();
    var row := [IntV(17), TupleV([StrV("Harry"), StrV("Big Man")])];
    AppendOneRow(CellFor, t, row);
    assert CellFor(t.schema[0], row[0]).0 == Ok(CellState(ClassV(Int), IntV(17), NoneV, NoneV));
    assert CellFor(t.schema[1], row[1]).0 == Ok(CellState(ClassV(Str), StrV("Harry"), StrV("Big Man"), NoneV));
    var r := AppendRow(CellFor, t, row).state.rows[0];
    assert r == [r[0], r[1]];
  }

  /** A 3-tuple element cannot be unpacked into value and label. */
  lemma AppendTripleRefused()
    ensures AppendRow(CellFor, AgeNameTable(), [IntV(17), TupleV([StrV("Jack"), StrV("Beanstalk"), DictV(map[])])]).outcome
         == Fail(ValueError(Unpack))
  {
    var t := AgeNameTable();
    var row := [IntV(17), TupleV([StrV("Jack"), StrV("Beanstalk"), DictV(map[])])];
    ConvertRowSpec(CellFor, t.schema, row);
    assert CellFor(t.schema[0], row[0]).0.Ok?;
    var k: nat :| Reached(CellFor, t.schema, row, k) && CellFor(t.schema[k], row[k]).0 == Err(ConvertRow(CellFor, t.schema, row).0.error);
  }
}
