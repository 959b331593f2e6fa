/** The split `table.py`: a Table whose `_append` accepts tuples consumed
    as value, label, options, cell dictionaries given by keyword, and bare
    values; whose options setter checks its value; and whose dictionary
    form emits the options under `p`.
    As written, `_append` passes the column type as the FIRST positional
    argument of `Cell`, whose signature starts with the value
    (`CellForAsWritten`); the Table class here uses the intended order
    (`CellFor`). */
module Tables {
  import opened Python
  import opened Cells
  import opened Columns
  import opened TableCore
  import opened Wire

  const Keys: seq<string> := ["cols", "rows", "p"]

  /** A cell dictionary element: the column's type is written into the
      caller's dictionary under `typ`, overriding any given, and the cell is
      built by keyword from it. */
  function DictElement(col: ColumnState, v: Value): (r: (Result<CellState>, Value))
    requires v.DictV?
    ensures r.1 == DictV(v.entries["typ" := ClassV(col.kind)])
    ensures r.0.Ok? <==>
      v.entries.Keys <= CellParams && "value" in v.entries && Validate(ClassV(col.kind), v.entries["value"]).Pass?
    ensures r.0.Ok? ==>
      r.0.value == CellState(ClassV(col.kind), v.entries["value"], Get(v.entries, "label"), Get(v.entries, "options"))
    ensures r.0.Err? && !(v.entries.Keys <= CellParams && "value" in v.entries) ==> r.0.error == TypeError(BadArguments)
    ensures r.0.Err? && v.entries.Keys <= CellParams && "value" in v.entries ==>
      r.0.error == Validate(ClassV(col.kind), v.entries["value"]).error
  {
    var kw := v.entries["typ" := ClassV(col.kind)];
    assert Get(kw, "label") == Get(v.entries, "label") && Get(kw, "options") == Get(v.entries, "options");
    (CellFromKwargs(kw), DictV(kw))
  }

  /** `_append`'s element step as written: `Cell(col.type, *value)` for a
      tuple and `Cell(col.type, value)` for a bare value, which bind the
      column's type to the `value` parameter. */
  function CellForAsWritten(col: ColumnState, v: Value): (r: (Result<CellState>, Value))
    ensures !v.DictV? ==> r.1 == v
    ensures v.DictV? ==> r == DictElement(col, v)
  {
    if v.TupleV? then (CellFromArgs([ClassV(col.kind)] + v.items), v)
    else if v.DictV? then DictElement(col, v)
    else (CellFromArgs([ClassV(col.kind), v]), v)
  }

  /** As written, every element that is not a dictionary raises: the column
      type arrives as the value, and a class object is an instance of none
      of the seven kinds, whatever arrives as the type.  This holds for the
      values modelled here; an element that makes `typ` a class outside the
      seven, such as `object`, is outside the model (see `Cells.Validate`
      under "Left out"). */
  lemma AsWrittenRefusesNonDicts(col: ColumnState, v: Value)
    requires !v.DictV?
    ensures CellForAsWritten(col, v).0.Err?
  {
    if v.TupleV? && 1 <= |v.items| <= 3 {
      var args := [ClassV(col.kind)] + v.items;
      assert args[1] == v.items[0];
      if args[1].ClassV? {
        assert !IsInstance(ClassV(col.kind), args[1].kind);
      }
    }
  }

  /** As written, `append` succeeds only on rows made entirely of cell
      dictionaries. */
  lemma AsWrittenNeedsDicts(t: TableState, row: seq<Value>)
    requires AppendRow(CellForAsWritten, t, row).outcome.Pass?
    ensures forall i :: 0 <= i < |row| ==> row[i].DictV?
  {
    ConvertRowSpec(CellForAsWritten, t.schema, row);
    forall i | 0 <= i < |row| ensures row[i].DictV? {
      if !row[i].DictV? {
        AsWrittenRefusesNonDicts(t.schema[i], row[i]);
      }
    }
  }

  /** As written, the row `(18, 'Bob')` of the documented usage raises
      TypeError: `isinstance(int, 18)` has no class as its second
      argument. */
  lemma AsWrittenBobRefused()
    ensures AppendRow(CellForAsWritten, AgeNameTable(), [IntV(18), StrV("Bob")]).outcome == Fail(TypeError(NotAClass))
  {
    var t := AgeNameTable();
    var row := [IntV(18), StrV("Bob")];
    assert CellForAsWritten(t.schema[0], row[0]).0 == Err(TypeError(NotAClass));
    assert t.schema[1..] == [t.schema[1]] && row[1..] == [row[1]];
  }

  /** A tuple element, in the intended order: its items are consumed as
      value, label and options; the empty tuple and one of more than three
      items raise TypeError. */
  function TupleCell(col: ColumnState, items: seq<Value>): (r: Result<CellState>)
    ensures !(1 <= |items| <= 3) ==> r == Err(TypeError(BadArguments))
    ensures r.Ok? <==> 1 <= |items| <= 3 && Validate(ClassV(col.kind), items[0]).Pass?
    ensures r.Ok? ==> r.value == CellState(ClassV(col.kind), items[0],
                                           if |items| > 1 then items[1] else NoneV,
                                           if |items| > 2 then items[2] else NoneV)
    ensures r.Err? && 1 <= |items| <= 3 ==> r.error == ValueError(TypeMismatch(col.kind, TypeName(items[0])))
  {
    if |items| == 0 then Err(TypeError(BadArguments))
    else
      var args := [items[0], ClassV(col.kind)] + items[1..];
      assert |items| > 1 ==> args[2] == items[1];
      assert |items| > 2 ==> args[3] == items[2];
      CellFromArgs(args)
  }

  /** `_append`'s element step in the intended order: a tuple through
      `TupleCell`, a dictionary through `DictElement`, a bare value as the
      value alone.  Only a dictionary element is changed for the caller. */
  function CellFor(col: ColumnState, v: Value): (r: (Result<CellState>, Value))
    ensures v.TupleV? ==> r == (TupleCell(col, v.items), v)
    ensures v.DictV? ==> r == DictElement(col, v)
    ensures !v.TupleV? && !v.DictV? ==>
      && r.1 == v
      && (r.0.Ok? <==> Validate(ClassV(col.kind), v).Pass?)
      && (r.0.Ok? ==> r.0.value == CellState(ClassV(col.kind), v, NoneV, NoneV))
  {
    if v.TupleV? then (TupleCell(col, v.items), v)
    else if v.DictV? then DictElement(col, v)
    else (CellFromArgs([v, ClassV(col.kind)]), v)
  }

  /** Every cell built in the intended order declares its column's type and
      holds a valid value. */
  lemma CellForTyped()
    ensures TypedConversion(CellFor)
  {
    forall col, v | CellFor(col, v).0.Ok?
      ensures CellFor(col, v).0.value.typ == ClassV(col.kind)
      ensures Validate(ClassV(col.kind), CellFor(col, v).0.value.value).Pass?
    {
    }
  }

  /** With the intended order `(18, 'Bob')` is appended, the 3-tuple
      `('Jack', 'Beanstalk', {'key': 'value'})` gives a labelled cell with
      options, and a value cannot be skipped in a tuple. */
  lemma TupleExamples()
    ensures CellFor(AgeNameTable().schema[1], TupleV([StrV("Jack"), StrV("Beanstalk"), DictV(map["key" := StrV("value")])])).0
         == Ok(CellState(ClassV(Str), StrV("Jack"), StrV("Beanstalk"), DictV(map["key" := StrV("value")])))
    ensures CellFor(AgeNameTable().schema[0], IntV(18)).0 == Ok(CellState(ClassV(Int), IntV(18), NoneV, NoneV))
    ensures CellFor(AgeNameTable().schema[1], TupleV([StrV("Big Man"), StrV("Harry")])).0
         == Ok(CellState(ClassV(Str), StrV("Big Man"), StrV("Harry"), NoneV))
  {
  }

  /** `dict(value='Kate', options={'hair': 'long'})` gives a cell with that
      value and options and no label, and the caller's dictionary now holds
      `typ`; the as-written step agrees on dictionaries. */
  lemma DictExample()
    ensures var kate := DictV(map["value" := StrV("Kate"), "options" := DictV(map["hair" := StrV("long")])]);
      && CellFor(AgeNameTable().schema[1], kate).0
         == Ok(CellState(ClassV(Str), StrV("Kate"), NoneV, DictV(map["hair" := StrV("long")])))
      && CellFor(AgeNameTable().schema[1], kate).1.entries["typ"] == ClassV(Str)
      && CellForAsWritten(AgeNameTable().schema[1], kate) == CellFor(AgeNameTable().schema[1], kate)
  {
    var kate := DictV(map["value" := StrV("Kate"), "options" := DictV(map["hair" := StrV("long")])]);
    assert kate.entries.Keys <= CellParams;
  }

  /** `Table(schema, options)`: the schema is built first, and only then
      are the options checked, so a bad description wins over bad options. */
  function Construct(schema: Option<seq<Value>>, options: Value): (r: Result<TableState>)
    ensures BuildSchema(schema).outcome.Fail? ==> r == Err(BuildSchema(schema).outcome.error)
    ensures BuildSchema(schema).outcome.Pass? && !(options.NoneV? || options.DictV?) ==>
      r == Err(AssertionError(OptionsNotDict))
    ensures r.Ok? <==> BuildSchema(schema).outcome.Pass? && (options.NoneV? || options.DictV?)
    ensures r.Ok? ==> r.value == BuildSchema(schema).state.(options := options)
  {
    var b := BuildSchema(schema);
    if b.outcome.Fail? then Err(b.outcome.error)
    else if !(options.NoneV? || options.DictV?) then Err(AssertionError(OptionsNotDict))
    else Ok(b.state.(options := options))
  }

  /** A Table object of the split module. */
  class Table {
    var schema: seq<ColumnState>
    var rows: seq<Row>
    var options: DictOrNone

    function State(): TableState
      reads this
    {
      TableState(schema, rows, options)
    }

    ghost predicate Valid()
      reads this
    {
      Wellformed(State())
    }

    constructor Empty()
      ensures State() == TableState([], [], NoneV) && Valid()
    {
      schema := [];
      rows := [];
      options := NoneV;
    }

    /** The `options` setter: a dict or None, else AssertionError with the
        options unchanged. */
    method SetOptions(v: Value) returns (o: Outcome)
      modifies this
      ensures o.Pass? <==> v.NoneV? || v.DictV?
      ensures o.Pass? ==> State() == old(State()).(options := v)
      ensures o.Fail? ==> o == Fail(AssertionError(OptionsNotDict)) && State() == old(State())
    {
      if !(v.NoneV? || v.DictV?) {
        return Fail(AssertionError(OptionsNotDict));
      }
      options := v;
      o := Pass;
    }

    /** `add_column(description)`, as `TableCore.AddColumn`. */
    method AddColumn(description: Value) returns (o: Outcome)
      requires Valid()
      modifies this
      ensures Valid()
      ensures Effect(State(), o) == TableCore.AddColumn(old(State()), description)
    {
      AddColumnKeepsWellformed(State(), description);
      var column := ColumnFromKwargs(description);
      if column.Err? {
        return Fail(column.error);
      }
      var c := column.value;
      if c.id in Ids(schema) {
        return Fail(ValueError(DuplicateColumnId(c.id)));
      }
      schema := schema + [c];
      if |rows| > 0 {
        return Fail(ValueError(ColumnsFrozen));
      }
      o := Pass;
    }

    /** `Table(schema, options)`, as `Construct`. */
    static method New(schema: Option<seq<Value>>, options: Value) returns (r: Result<Table>)
      ensures r.Ok? <==> Construct(schema, options).Ok?
      ensures r.Ok? ==> fresh(r.value) && r.value.Valid() && r.value.State() == Construct(schema, options).value
      ensures r.Err? ==> r.error == Construct(schema, options).error
    {
      var t := new Table.Empty();
      if schema.Some? {
        var descriptions := schema.value;
        var i := 0;
        assert descriptions[0..] == descriptions;
        while i < |descriptions|
          invariant 0 <= i <= |descriptions|
          invariant fresh(t) && t.Valid() && t.rows == [] && t.options == NoneV
          invariant BuildSchema(schema) == AddColumns(t.State(), descriptions[i..])
        {
          AddColumnsUnfold(t.State(), descriptions, i);
          var o := t.AddColumn(descriptions[i]);
          if o.Fail? {
            return Err(o.error);
          }
          i := i + 1;
        }
        assert descriptions[i..] == [];
      }
      var o := t.SetOptions(options);
      if o.Fail? {
        return Err(o.error);
      }
      r := Ok(t);
    }

    /** `append(row)`, as `TableCore.AppendRow` with the intended element
        step; also the caller's row as the call leaves it. */
    method Append(row: seq<Value>) returns (o: Outcome, after: seq<Value>)
      requires Valid()
      modifies this
      ensures Valid()
      ensures AppendEffect(State(), o, after) == AppendRow(CellFor, old(State()), row)
    {
      CellForTyped();
      AppendKeepsWellformed(CellFor, State(), row);
      if |row| != |schema| {
        return Fail(AssertionError(RowLengthMismatch)), row;
      }
      var cells;
      cells, after := BuildRow(CellFor, schema, row);
      if cells.Err? {
        return Fail(cells.error), after;
      }
      rows := rows + [cells.value];
      o := Pass;
    }

    /** `extend(rows)`: `append` for each row in order, stopping at the
        first that raises; also the caller's rows as the call leaves them. */
    method Extend(newRows: seq<seq<Value>>) returns (o: Outcome, rowsAfter: seq<seq<Value>>)
      requires Valid()
      modifies this
      ensures Valid()
      ensures ExtendEffect(State(), o, rowsAfter) == ExtendRows(CellFor, old(State()), newRows)
    {
      ghost var spec := ExtendRows(CellFor, State(), newRows);
      assert newRows[0..] == newRows;
      var i := 0;
      o := Pass;
      rowsAfter := [];
      while i < |newRows|
        invariant 0 <= i <= |newRows| && Valid() && o == Pass && |rowsAfter| == i
        invariant var rest := ExtendRows(CellFor, State(), newRows[i..]);
          spec == ExtendEffect(rest.state, rest.outcome, rowsAfter + rest.rowsAfter)
      {
        ghost var s := State();
        var after;
        o, after := Append(newRows[i]);
        ExtendLoopStep(CellFor, spec, s, newRows, i, rowsAfter, AppendEffect(State(), o, after));
        if o.Fail? {
          rowsAfter := rowsAfter + [after] + newRows[i + 1..];
          return;
        }
        rowsAfter := rowsAfter + [after];
        i := i + 1;
      }
      assert newRows[i..] == [];
      assert rowsAfter + [] == rowsAfter;
    }
  }

  /** `dict(table)` for the split module. */
  function WireDict(t: TableState): map<string, Obj> {
    TableDict(Keys, t)
  }

  /** The dictionary form holds the columns under `cols` and the rows under
      `rows`, always, even when empty, and the options under `p` exactly
      when they are not None. */
  lemma WireForm(t: TableState)
    ensures WireDict(t).Keys == if t.options.NoneV? then {"cols", "rows"} else {"cols", "rows", "p"}
    ensures WireDict(t)["cols"] == ColsObj(t) && WireDict(t)["rows"] == RowsObj(t)
    ensures !t.options.NoneV? ==> WireDict(t)["p"] == Plain(t.options)
  {
    TableDictUpdates(Keys, t);
  }

  /** `Table()` gives `{"cols": [], "rows": []}`. */
  lemma EmptyTableWire()
    ensures WireDict(TableState([], [], NoneV)) == map["cols" := ListObj([]), "rows" := ListObj([])]
  {
    var t := TableState([], [], NoneV);
    WireForm(t);
    assert ColsObj(t) == ListObj([]) && RowsObj(t) == ListObj([]);
  }
}
