/** What the two Table versions share: the schema as an ordered list of
    columns keyed by id, rows as ordered id-to-cell mappings, `add_column`,
    the zip of columns with row elements that `_append` performs, `append`
    and `extend`.  The two versions differ only in how one row element
    becomes a cell (a `CellConversion`) and in their dictionary forms. */
module TableCore {
  import opened Python
  import opened Cells
  import opened Columns

  /** One row: an OrderedDict from column id to cell, in schema order. */
  type Row = seq<(string, CellState)>

  datatype TableState = TableState(schema: seq<ColumnState>, rows: seq<Row>, options: Value)

  /** The result of a call that changes a table: the new state and whether
      it raised. */
  datatype Effect = Effect(state: TableState, outcome: Outcome)

  /** An `append`: also the caller's row as it stands after the call (the
      split version writes into dict elements). */
  datatype AppendEffect = AppendEffect(state: TableState, outcome: Outcome, rowAfter: seq<Value>)

  datatype ExtendEffect = ExtendEffect(state: TableState, outcome: Outcome, rowsAfter: seq<seq<Value>>)

  function Ids(cols: seq<ColumnState>): (r: seq<string>)
    ensures |r| == |cols| && forall i :: 0 <= i < |cols| ==> r[i] == cols[i].id
  {
    seq(|cols|, i requires 0 <= i < |cols| => cols[i].id)
  }

  ghost predicate UniqueIds(cols: seq<ColumnState>) {
    forall i, j :: 0 <= i < j < |cols| ==> cols[i].id != cols[j].id
  }

  /** A row as it was built from the schema at the time it was appended:
      one cell per column of a prefix of the schema, keyed by that column's
      id, declaring that column's type and holding a valid value.  (A column
      added after rows exist is not in the earlier rows.) */
  ghost predicate RowFits(r: Row, cols: seq<ColumnState>) {
    && |r| <= |cols|
    && forall i :: 0 <= i < |r| ==>
         r[i].0 == cols[i].id && r[i].1.typ == ClassV(cols[i].kind) && Validate(r[i].1.typ, r[i].1.value).Pass?
  }

  /** The table invariant both versions keep. */
  ghost predicate Wellformed(t: TableState) {
    UniqueIds(t.schema) && forall r :: r in t.rows ==> RowFits(r, t.schema)
  }

  /** `add_column(description)`: build the Column (which may raise), refuse
      a duplicate id, insert the column, and only then refuse if the table
      already holds rows, so that failure leaves the schema grown. */
  function AddColumn(t: TableState, description: Value): (e: Effect)
    ensures e.outcome.Pass? <==>
      ColumnFromKwargs(description).Ok? && ColumnFromKwargs(description).value.id !in Ids(t.schema) && |t.rows| == 0
    ensures e.state.rows == t.rows && e.state.options == t.options
    ensures ColumnFromKwargs(description).Err? ==> e == Effect(t, Fail(ColumnFromKwargs(description).error))
    ensures ColumnFromKwargs(description).Ok? && ColumnFromKwargs(description).value.id in Ids(t.schema) ==>
      e == Effect(t, Fail(ValueError(DuplicateColumnId(ColumnFromKwargs(description).value.id))))
    ensures ColumnFromKwargs(description).Ok? && ColumnFromKwargs(description).value.id !in Ids(t.schema) ==>
      && e.state.schema == t.schema + [ColumnFromKwargs(description).value]
      && (|t.rows| > 0 ==> e.outcome == Fail(ValueError(ColumnsFrozen)))
  {
    match ColumnFromKwargs(description)
    case Err(err) => Effect(t, Fail(err))
    case Ok(c) =>
      if c.id in Ids(t.schema) then Effect(t, Fail(ValueError(DuplicateColumnId(c.id))))
      else
        var t' := t.(schema := t.schema + [c]);
        if |t.rows| > 0 then Effect(t', Fail(ValueError(ColumnsFrozen))) else Effect(t', Pass)
  }

  /** A duplicate id raises ValueError and leaves the table unchanged,
      whether or not rows exist. */
  lemma AddColumnDuplicate(t: TableState, description: Value)
    requires ColumnFromKwargs(description).Ok?
    requires ColumnFromKwargs(description).value.id in Ids(t.schema)
    ensures AddColumn(t, description)
         == Effect(t, Fail(ValueError(DuplicateColumnId(ColumnFromKwargs(description).value.id))))
  {
  }

  /** A new column added to a table holding rows raises ValueError, yet the
      schema has been extended by that column when the error is raised. */
  lemma AddColumnAfterRows(t: TableState, description: Value)
    requires ColumnFromKwargs(description).Ok?
    requires ColumnFromKwargs(description).value.id !in Ids(t.schema)
    requires |t.rows| > 0
    ensures AddColumn(t, description).outcome == Fail(ValueError(ColumnsFrozen))
    ensures AddColumn(t, description).state.schema == t.schema + [ColumnFromKwargs(description).value]
  {
  }

  lemma {:induction false} AddColumnKeepsWellformed(t: TableState, description: Value)
    requires Wellformed(t)
    ensures Wellformed(AddColumn(t, description).state)
  {
    var e := AddColumn(t, description);
    if e.state.schema != t.schema {
      var c := ColumnFromKwargs(description).value;
      assert e.state.schema == t.schema + [c];
      assert c.id !in Ids(t.schema);
      forall i, j | 0 <= i < j < |e.state.schema| ensures e.state.schema[i].id != e.state.schema[j].id {
        if j == |t.schema| {
          assert Ids(t.schema)[i] == t.schema[i].id;
        }
      }
      forall r | r in e.state.rows ensures RowFits(r, e.state.schema) {
        assert RowFits(r, t.schema);
      }
    }
  }

  /** The table built by `__init__` from a schema: `add_column` for each
      description in turn, stopping at the first that raises. */
  function AddColumns(t: TableState, descriptions: seq<Value>): (e: Effect)
    decreases |descriptions|
  {
    if descriptions == [] then Effect(t, Pass)
    else
      var a := AddColumn(t, descriptions[0]);
      if a.outcome.Fail? then a else AddColumns(a.state, descriptions[1..])
  }

  lemma {:induction false} AddColumnsKeepsWellformed(t: TableState, descriptions: seq<Value>)
    requires Wellformed(t)
    ensures Wellformed(AddColumns(t, descriptions).state)
    ensures AddColumns(t, descriptions).state.rows == t.rows
    decreases |descriptions|
  {
    if descriptions != [] {
      AddColumnKeepsWellformed(t, descriptions[0]);
      var a := AddColumn(t, descriptions[0]);
      if a.outcome.Pass? {
        AddColumnsKeepsWellformed(a.state, descriptions[1..]);
      }
    }
  }

  /** The table that `__init__` builds before it sets the options: no
      columns when no schema is given. */
  function BuildSchema(schema: Option<seq<Value>>): Effect {
    if schema.None? then Effect(TableState([], [], NoneV), Pass)
    else AddColumns(TableState([], [], NoneV), schema.value)
  }

  /** A table with the columns `age` (int, labelled "Age") and `name` (str,
      labelled "Name") and no rows. */
  function AgeNameTable(): TableState {
    TableState([ColumnState("age", Int, StrV("Age"), NoneV), ColumnState("name", Str, StrV("Name"), NoneV)], [], NoneV)
  }

  /** One step of `AddColumns`, from description `i` on. */
  lemma AddColumnsUnfold(t: TableState, descriptions: seq<Value>, i: nat)
    requires i < |descriptions|
    ensures var a := AddColumn(t, descriptions[i]);
      AddColumns(t, descriptions[i..]) == if a.outcome.Fail? then a else AddColumns(a.state, descriptions[i + 1..])
  {
    assert descriptions[i..][0] == descriptions[i] && descriptions[i..][1..] == descriptions[i + 1..];
  }

  /** How one row element becomes a cell for its column, raising or not;
      also the element as the caller sees it afterwards. */
  type CellConversion = (ColumnState, Value) -> (Result<CellState>, Value)

  /** The conversion gives every cell its column's type and a valid value. */
  ghost predicate TypedConversion(conv: CellConversion) {
    forall col, v :: conv(col, v).0.Ok? ==>
      conv(col, v).0.value.typ == ClassV(col.kind) && Validate(ClassV(col.kind), conv(col, v).0.value.value).Pass?
  }

  /** `_append(row)`: zip the schema's columns with the row's elements and
      build an ordered mapping from column id to cell; the first element
      that raises ends the conversion. */
  function ConvertRow(conv: CellConversion, cols: seq<ColumnState>, row: seq<Value>): (r: (Result<Row>, seq<Value>))
    ensures |r.1| == |row|
    decreases |row|
  {
    if cols == [] || row == [] then (Ok([]), row)
    else
      var (c, v) := conv(cols[0], row[0]);
      if c.Err? then (Err(c.error), [v] + row[1..])
      else
        var (rest, after) := ConvertRow(conv, cols[1..], row[1..]);
        (if rest.Err? then Err(rest.error) else Ok([(cols[0].id, c.value)] + rest.value), [v] + after)
  }

  /** Element `i` of the row is reached by the conversion: every element
      before it was converted without raising. */
  ghost predicate Reached(conv: CellConversion, cols: seq<ColumnState>, row: seq<Value>, i: nat) {
    i < Min(|cols|, |row|) && forall j :: 0 <= j < i ==> conv(cols[j], row[j]).0.Ok?
  }

  /** What `_append` computes: the conversion succeeds exactly when every
      zipped element converts; then the row holds one cell per column, keyed
      by the column id, in schema order; otherwise it raises the error of the
      first element that fails.  Elements that were reached are left as the
      conversion left them, the later ones untouched. */
  lemma ConvertRowSpec(conv: CellConversion, cols: seq<ColumnState>, row: seq<Value>)
    ensures var r := ConvertRow(conv, cols, row);
      && (r.0.Ok? <==> forall i :: 0 <= i < Min(|cols|, |row|) ==> conv(cols[i], row[i]).0.Ok?)
      && (r.0.Ok? ==> |r.0.value| == Min(|cols|, |row|)
                      && forall i :: 0 <= i < |r.0.value| ==> r.0.value[i] == (cols[i].id, conv(cols[i], row[i]).0.value))
      && (r.0.Err? ==> exists i: nat :: Reached(conv, cols, row, i) && conv(cols[i], row[i]).0 == Err(r.0.error))
      && (forall i :: 0 <= i < |row| ==>
            r.1[i] == if Reached(conv, cols, row, i) then conv(cols[i], row[i]).1 else row[i])
  {
    ConvertRowCells(conv, cols, row);
    ConvertRowFirstError(conv, cols, row);
    ConvertRowWriteBack(conv, cols, row);
  }

  /** The element pairs past the first, shifted by one. */
  lemma ConvertTail(conv: CellConversion, cols: seq<ColumnState>, row: seq<Value>)
    requires cols != [] && row != []
    ensures Min(|cols[1..]|, |row[1..]|) == Min(|cols|, |row|) - 1
    ensures forall i :: 1 <= i < Min(|cols|, |row|) ==> conv(cols[i], row[i]) == conv(cols[1..][i - 1], row[1..][i - 1])
  {
  }

  /** The conversion succeeds exactly when every zipped element converts,
      and then holds their cells keyed by the column ids in order. */
  lemma {:induction false} ConvertRowCells(conv: CellConversion, cols: seq<ColumnState>, row: seq<Value>)
    ensures var r := ConvertRow(conv, cols, row);
      && (r.0.Ok? <==> forall i :: 0 <= i < Min(|cols|, |row|) ==> conv(cols[i], row[i]).0.Ok?)
      && (r.0.Ok? ==> |r.0.value| == Min(|cols|, |row|)
                      && forall i :: 0 <= i < |r.0.value| ==> r.0.value[i] == (cols[i].id, conv(cols[i], row[i]).0.value))
    decreases |row|
  {
    if cols != [] && row != [] {
      ConvertRowCells(conv, cols[1..], row[1..]);
      ConvertTail(conv, cols, row);
      var r := ConvertRow(conv, cols, row);
      var sub := ConvertRow(conv, cols[1..], row[1..]);
      if r.0.Ok? {
        assert r.0.value == [(cols[0].id, conv(cols[0], row[0]).0.value)] + sub.0.value;
      }
      if forall i :: 0 <= i < Min(|cols|, |row|) ==> conv(cols[i], row[i]).0.Ok? {
        assert conv(cols[0], row[0]).0.Ok?;
        forall i | 0 <= i < Min(|cols[1..]|, |row[1..]|) ensures conv(cols[1..][i], row[1..][i]).0.Ok? {
          assert conv(cols[i + 1], row[i + 1]).0.Ok?;
        }
      }
    }
  }

  /** A conversion that raises raises the error of an element it reached. */
  lemma {:induction false} ConvertRowFirstError(conv: CellConversion, cols: seq<ColumnState>, row: seq<Value>)
    ensures var r := ConvertRow(conv, cols, row);
      r.0.Err? ==> exists i: nat :: Reached(conv, cols, row, i) && conv(cols[i], row[i]).0 == Err(r.0.error)
    decreases |row|
  {
    var r := ConvertRow(conv, cols, row);
    if cols != [] && row != [] && r.0.Err? {
      if conv(cols[0], row[0]).0.Err? {
        assert Reached(conv, cols, row, 0);
      } else {
        ConvertRowFirstError(conv, cols[1..], row[1..]);
        var sub := ConvertRow(conv, cols[1..], row[1..]);
        assert r.0 == Err(sub.0.error);
        var k: nat :| Reached(conv, cols[1..], row[1..], k) && conv(cols[1..][k], row[1..][k]).0 == Err(sub.0.error);
        ReachedShift(conv, cols, row, k + 1);
        assert conv(cols[k + 1], row[k + 1]) == conv(cols[1..][k], row[1..][k]);
      }
    }
  }

  /** The caller's elements are left as the conversion left those it
      reached, and untouched from the first element past them. */
  lemma {:induction false} ConvertRowWriteBack(conv: CellConversion, cols: seq<ColumnState>, row: seq<Value>)
    ensures var r := ConvertRow(conv, cols, row);
      forall i :: 0 <= i < |row| ==>
        r.1[i] == if Reached(conv, cols, row, i) then conv(cols[i], row[i]).1 else row[i]
    decreases |row|
  {
    if cols != [] && row != [] {
      ConvertRowWriteBack(conv, cols[1..], row[1..]);
      var r := ConvertRow(conv, cols, row);
      var (c, v) := conv(cols[0], row[0]);
      assert Reached(conv, cols, row, 0);
      forall i | 1 <= i < |row|
        ensures r.1[i] == if Reached(conv, cols, row, i) then conv(cols[i], row[i]).1 else row[i]
      {
        ReachedShift(conv, cols, row, i);
        if c.Ok? && Reached(conv, cols[1..], row[1..], i - 1) {
          assert conv(cols[i], row[i]) == conv(cols[1..][i - 1], row[1..][i - 1]);
        }
      }
    }
  }

  /** Element `i > 0` is reached when the first element converts and
      element `i - 1` of the rest is reached. */
  lemma ReachedShift(conv: CellConversion, cols: seq<ColumnState>, row: seq<Value>, i: nat)
    requires cols != [] && 1 <= i < |row|
    ensures Reached(conv, cols, row, i) <==> conv(cols[0], row[0]).0.Ok? && Reached(conv, cols[1..], row[1..], i - 1)
  {
    if conv(cols[0], row[0]).0.Ok? && Reached(conv, cols[1..], row[1..], i - 1) {
      forall j | 0 <= j < i ensures conv(cols[j], row[j]).0.Ok? {
        if j > 0 {
          assert conv(cols[1..][j - 1], row[1..][j - 1]).0.Ok?;
        }
      }
    }
    if Reached(conv, cols, row, i) {
      assert conv(cols[0], row[0]).0.Ok?;
      forall j | 0 <= j < i - 1 ensures conv(cols[1..][j], row[1..][j]).0.Ok? {
        assert conv(cols[j + 1], row[j + 1]).0.Ok?;
      }
    }
  }

  /** A converted row, when it succeeds on a full-length row, fits the
      schema. */
  lemma ConvertedRowFits(conv: CellConversion, cols: seq<ColumnState>, row: seq<Value>)
    requires TypedConversion(conv)
    requires ConvertRow(conv, cols, row).0.Ok?
    ensures RowFits(ConvertRow(conv, cols, row).0.value, cols)
  {
    ConvertRowSpec(conv, cols, row);
    var r := ConvertRow(conv, cols, row).0.value;
    forall i | 0 <= i < |r|
      ensures r[i].0 == cols[i].id && r[i].1.typ == ClassV(cols[i].kind) && Validate(r[i].1.typ, r[i].1.value).Pass?
    {
      assert conv(cols[i], row[i]).0.Ok?;
    }
  }

  /** One step of the conversion, from element `i` on. */
  lemma ConvertRowUnfold(conv: CellConversion, cols: seq<ColumnState>, row: seq<Value>, i: nat)
    requires i < |cols| && i < |row|
    ensures var rest, rest' := ConvertRow(conv, cols[i..], row[i..]), ConvertRow(conv, cols[i + 1..], row[i + 1..]);
      var (c, v) := conv(cols[i], row[i]);
      rest == if c.Err? then (Err(c.error), [v] + row[i + 1..])
              else (if rest'.0.Err? then Err(rest'.0.error) else Ok([(cols[i].id, c.value)] + rest'.0.value), [v] + rest'.1)
  {
    assert cols[i..][0] == cols[i] && row[i..][0] == row[i];
    assert cols[i..][1..] == cols[i + 1..] && row[i..][1..] == row[i + 1..];
  }

  /** The state of the `_append` loop before element `i`: the cells built so
      far and the caller's row so far, against the conversion of the rest. */
  ghost predicate BuildInvariant(conv: CellConversion, cols: seq<ColumnState>, row: seq<Value>,
                                 i: nat, acc: Row, after: seq<Value>)
  {
    && i <= Min(|cols|, |row|) && |after| == |row| && after[i..] == row[i..]
    && var whole, rest := ConvertRow(conv, cols, row), ConvertRow(conv, cols[i..], row[i..]);
       && whole.1 == after[..i] + rest.1
       && whole.0.Err? == rest.0.Err?
       && (whole.0.Err? ==> whole.0.error == rest.0.error)
       && (whole.0.Ok? ==> whole.0.value == acc + rest.0.value)
  }

  /** Equal from `i` on means equal from `i + 1` on. */
  lemma TailAfter(after: seq<Value>, row: seq<Value>, i: nat)
    requires i < |after| == |row| && after[i..] == row[i..]
    ensures after[i + 1..] == row[i + 1..]
  {
    assert after[i + 1..] == after[i..][1..] && row[i + 1..] == row[i..][1..];
  }

  lemma BuildInvariantInit(conv: CellConversion, cols: seq<ColumnState>, row: seq<Value>)
    ensures BuildInvariant(conv, cols, row, 0, [], row)
  {
    assert cols[0..] == cols && row[0..] == row;
  }

  /** An element that converts extends the cells and writes the element back. */
  lemma BuildInvariantStep(conv: CellConversion, cols: seq<ColumnState>, row: seq<Value>,
                           i: nat, acc: Row, after: seq<Value>)
    requires BuildInvariant(conv, cols, row, i, acc, after)
    requires i < Min(|cols|, |row|) && conv(cols[i], row[i]).0.Ok?
    ensures var (c, v) := conv(cols[i], row[i]);
      BuildInvariant(conv, cols, row, i + 1, acc + [(cols[i].id, c.value)], after[i := v])
  {
    ConvertRowUnfold(conv, cols, row, i);
    var (c, v) := conv(cols[i], row[i]);
    var after' := after[i := v];
    TailAfter(after, row, i);
    assert after'[i + 1..] == after[i + 1..];
    assert after'[..i + 1] == after[..i] + [v];
  }

  /** An element that raises ends the conversion with its error. */
  lemma BuildInvariantFail(conv: CellConversion, cols: seq<ColumnState>, row: seq<Value>,
                           i: nat, acc: Row, after: seq<Value>)
    requires BuildInvariant(conv, cols, row, i, acc, after)
    requires i < Min(|cols|, |row|) && conv(cols[i], row[i]).0.Err?
    ensures var (c, v) := conv(cols[i], row[i]);
      ConvertRow(conv, cols, row) == (Err(c.error), after[i := v])
  {
    ConvertRowUnfold(conv, cols, row, i);
    var (c, v) := conv(cols[i], row[i]);
    var after' := after[i := v];
    TailAfter(after, row, i);
    assert after' == after[..i] + ([v] + row[i + 1..]);
  }

  /** Past the last zipped element the cells are the whole conversion. */
  lemma BuildInvariantDone(conv: CellConversion, cols: seq<ColumnState>, row: seq<Value>,
                           i: nat, acc: Row, after: seq<Value>)
    requires BuildInvariant(conv, cols, row, i, acc, after)
    requires i == Min(|cols|, |row|)
    ensures ConvertRow(conv, cols, row) == (Ok(acc), after)
  {
    assert cols[i..] == [] || row[i..] == [];
    assert after == after[..i] + after[i..];
    assert acc + [] == acc;
  }

  /** The `_append` loop: one column at a time, writing back each element
      the conversion touched, returning at the first element that raises. */
  method BuildRow(conv: CellConversion, cols: seq<ColumnState>, row: seq<Value>) returns (cells: Result<Row>, after: seq<Value>)
    ensures (cells, after) == ConvertRow(conv, cols, row)
  {
    var n := Min(|cols|, |row|);
    var acc: Row := [];
    after := row;
    var i := 0;
    BuildInvariantInit(conv, cols, row);
    while i < n
      invariant BuildInvariant(conv, cols, row, i, acc, after)
      invariant i <= n
    {
      var (c, v) := conv(cols[i], row[i]);
      if c.Err? {
        BuildInvariantFail(conv, cols, row, i, acc, after);
        return Err(c.error), after[i := v];
      }
      BuildInvariantStep(conv, cols, row, i, acc, after);
      acc := acc + [(cols[i].id, c.value)];
      after := after[i := v];
      i := i + 1;
    }
    BuildInvariantDone(conv, cols, row, i, acc, after);
    cells := Ok(acc);
  }

  /** `append(row)`: the row length must equal the number of columns, else
      AssertionError; otherwise the converted row is appended, and a row
      whose conversion raises is not. */
  function AppendRow(conv: CellConversion, t: TableState, row: seq<Value>): (e: AppendEffect)
    ensures |e.rowAfter| == |row|
  {
    if |row| != |t.schema| then AppendEffect(t, Fail(AssertionError(RowLengthMismatch)), row)
    else
      Converted(t, ConvertRow(conv, t.schema, row))
  }

  /** The table and row after `_append` has converted the row. */
  function Converted(t: TableState, r: (Result<Row>, seq<Value>)): (e: AppendEffect)
    ensures e.rowAfter == r.1
  {
    if r.0.Err? then AppendEffect(t, Fail(r.0.error), r.1)
    else AppendEffect(t.(rows := t.rows + [r.0.value]), Pass, r.1)
  }

  /** A row of the wrong length raises AssertionError and changes nothing,
      not even the caller's row. */
  lemma AppendWrongLength(conv: CellConversion, t: TableState, row: seq<Value>)
    requires |row| != |t.schema|
    ensures AppendRow(conv, t, row) == AppendEffect(t, Fail(AssertionError(RowLengthMismatch)), row)
  {
  }

  /** `append` is all-or-nothing for the table: on success exactly one row
      is appended, earlier rows untouched, holding one cell per column keyed
      by the column ids in schema order; on failure the table is unchanged. */
  lemma AppendOneRow(conv: CellConversion, t: TableState, row: seq<Value>)
    ensures var e := AppendRow(conv, t, row);
      && (e.outcome.Pass? <==> |row| == |t.schema| && forall i :: 0 <= i < |row| ==> conv(t.schema[i], row[i]).0.Ok?)
      && (e.outcome.Fail? ==> e.state == t)
      && (e.outcome.Pass? ==>
            && e.state.schema == t.schema && e.state.options == t.options
            && |e.state.rows| == |t.rows| + 1 && e.state.rows[..|t.rows|] == t.rows
            && var r := e.state.rows[|t.rows|];
               |r| == |t.schema|
               && forall i :: 0 <= i < |r| ==> r[i] == (t.schema[i].id, conv(t.schema[i], row[i]).0.value))
  {
    ConvertRowSpec(conv, t.schema, row);
    var e := AppendRow(conv, t, row);
    if e.outcome.Pass? {
      assert e.state.rows[..|t.rows|] == t.rows;
    }
  }

  lemma AppendKeepsWellformed(conv: CellConversion, t: TableState, row: seq<Value>)
    requires TypedConversion(conv)
    requires Wellformed(t)
    ensures Wellformed(AppendRow(conv, t, row).state)
  {
    var e := AppendRow(conv, t, row);
    if e.outcome.Pass? {
      ConvertedRowFits(conv, t.schema, row);
      assert e.state.rows == t.rows + [ConvertRow(conv, t.schema, row).0.value];
    }
  }

  /** `extend(rows)`: `append` for each row in order; the first row that
      raises ends the call and the rows appended before it stay. */
  function ExtendRows(conv: CellConversion, t: TableState, rows: seq<seq<Value>>): (e: ExtendEffect)
    ensures |e.rowsAfter| == |rows|
    decreases |rows|
  {
    if rows == [] then ExtendEffect(t, Pass, [])
    else
      var a := AppendRow(conv, t, rows[0]);
      if a.outcome.Fail? then ExtendEffect(a.state, a.outcome, [a.rowAfter] + rows[1..])
      else
        var rest := ExtendRows(conv, a.state, rows[1..]);
        ExtendEffect(rest.state, rest.outcome, [a.rowAfter] + rest.rowsAfter)
  }

  /** `s` is `t` with a prefix of `rows` appended, in order, each row
      converted as `append` converts it; the outcome `o` passes exactly when
      that prefix is all of them, and otherwise the first row left out is
      the one whose `append` raised the error. */
  ghost predicate AppendsPrefix(conv: CellConversion, t: TableState, rows: seq<seq<Value>>, s: TableState, o: Outcome) {
    var k := |s.rows| - |t.rows|;
    && s.schema == t.schema && s.options == t.options
    && 0 <= k <= |rows| && s.rows[..|t.rows|] == t.rows
    && (forall i :: 0 <= i < k ==>
          |rows[i]| == |t.schema| && ConvertRow(conv, t.schema, rows[i]).0 == Ok(s.rows[|t.rows| + i]))
    && (o.Pass? <==> k == |rows|)
    && (o.Fail? ==> AppendRow(conv, s, rows[k]).outcome == o)
  }

  /** `extend` appends a prefix of the given rows, in order, each converted
      as `append` converts it; it succeeds exactly when that prefix is all of
      them, and otherwise the first row left out is the one whose `append`
      raised the error. */
  lemma {:induction false} ExtendInOrder(conv: CellConversion, t: TableState, rows: seq<seq<Value>>)
    ensures var e := ExtendRows(conv, t, rows); AppendsPrefix(conv, t, rows, e.state, e.outcome)
    decreases |rows|
  {
    if rows == [] {
      assert t.rows[..|t.rows|] == t.rows;
    } else {
      var a := AppendRow(conv, t, rows[0]);
      var e := ExtendRows(conv, t, rows);
      if a.outcome.Pass? {
        AppendPass(conv, t, rows[0]);
        var sub := ExtendRows(conv, a.state, rows[1..]);
        ExtendInOrder(conv, a.state, rows[1..]);
        assert e.state == sub.state && e.outcome == sub.outcome;
        PrefixShift(conv, t, ConvertRow(conv, t.schema, rows[0]).0.value, rows, e.state, e.outcome);
      } else {
        AppendFail(conv, t, rows[0]);
        assert t.rows[..|t.rows|] == t.rows;
      }
    }
  }

  /** A row that is appended is the row its conversion built, added last. */
  lemma AppendPass(conv: CellConversion, t: TableState, row: seq<Value>)
    requires AppendRow(conv, t, row).outcome.Pass?
    ensures var a := AppendRow(conv, t, row);
      && |row| == |t.schema| && ConvertRow(conv, t.schema, row).0.Ok?
      && a.state == t.(rows := t.rows + [ConvertRow(conv, t.schema, row).0.value])
  {
  }

  /** A row whose `append` raises leaves the table as it was. */
  lemma AppendFail(conv: CellConversion, t: TableState, row: seq<Value>)
    requires AppendRow(conv, t, row).outcome.Fail?
    ensures AppendRow(conv, t, row).state == t
  {
  }

  /** A first row converted to `x`, followed by a prefix of the rest
      appended to `t` with `x`, is a prefix of the whole list appended to `t`. */
  lemma PrefixShift(conv: CellConversion, t: TableState, x: Row, rows: seq<seq<Value>>, s: TableState, o: Outcome)
    requires rows != [] && |rows[0]| == |t.schema| && ConvertRow(conv, t.schema, rows[0]).0 == Ok(x)
    requires AppendsPrefix(conv, t.(rows := t.rows + [x]), rows[1..], s, o)
    ensures AppendsPrefix(conv, t, rows, s, o)
  {
    var a := t.(rows := t.rows + [x]);
    var k := |s.rows| - |t.rows|;
    assert s.rows[..|t.rows|] == t.rows by {
      assert s.rows[..|a.rows|] == a.rows;
      assert s.rows[..|t.rows|] == a.rows[..|t.rows|];
    }
    forall i | 0 <= i < k
      ensures |rows[i]| == |t.schema| && ConvertRow(conv, t.schema, rows[i]).0 == Ok(s.rows[|t.rows| + i])
    {
      if i == 0 {
        assert s.rows[|t.rows|] == a.rows[|t.rows|];
      } else {
        assert rows[1..][i - 1] == rows[i];
        assert |a.rows| + (i - 1) == |t.rows| + i;
      }
    }
    if o.Fail? {
      assert rows[1..][k - 1] == rows[k];
    }
  }

  /** One step of `ExtendRows`, from row `i` on. */
  lemma ExtendRowsUnfold(conv: CellConversion, t: TableState, rows: seq<seq<Value>>, i: nat)
    requires i < |rows|
    ensures var a, e := AppendRow(conv, t, rows[i]), ExtendRows(conv, t, rows[i..]);
      if a.outcome.Fail? then e == ExtendEffect(a.state, a.outcome, [a.rowAfter] + rows[i + 1..])
      else
        var rest := ExtendRows(conv, a.state, rows[i + 1..]);
        e == ExtendEffect(rest.state, rest.outcome, [a.rowAfter] + rest.rowsAfter)
  {
    assert rows[i..][0] == rows[i] && rows[i..][1..] == rows[i + 1..];
  }

  /** One turn of a loop that appends the rows in order, collecting the rows
      as the calls leave them: the effect still to come after row `i` is
      the effect of the whole list. */
  lemma ExtendLoopStep(conv: CellConversion, spec: ExtendEffect, s: TableState, rows: seq<seq<Value>>, i: nat,
                       rowsAfter: seq<seq<Value>>, a: AppendEffect)
    requires i < |rows| && a == AppendRow(conv, s, rows[i])
    requires var rest := ExtendRows(conv, s, rows[i..]);
      spec == ExtendEffect(rest.state, rest.outcome, rowsAfter + rest.rowsAfter)
    ensures a.outcome.Fail? ==> spec == ExtendEffect(a.state, a.outcome, rowsAfter + [a.rowAfter] + rows[i + 1..])
    ensures a.outcome.Pass? ==> var rest := ExtendRows(conv, a.state, rows[i + 1..]);
      spec == ExtendEffect(rest.state, rest.outcome, (rowsAfter + [a.rowAfter]) + rest.rowsAfter)
  {
    ExtendRowsUnfold(conv, s, rows, i);
    if a.outcome.Fail? {
      assert rowsAfter + ([a.rowAfter] + rows[i + 1..]) == rowsAfter + [a.rowAfter] + rows[i + 1..];
    } else {
      var rest := ExtendRows(conv, a.state, rows[i + 1..]);
      assert rowsAfter + ([a.rowAfter] + rest.rowsAfter) == (rowsAfter + [a.rowAfter]) + rest.rowsAfter;
    }
  }

  lemma {:induction false} ExtendKeepsWellformed(conv: CellConversion, t: TableState, rows: seq<seq<Value>>)
    requires TypedConversion(conv)
    requires Wellformed(t)
    ensures Wellformed(ExtendRows(conv, t, rows).state)
    decreases |rows|
  {
    if rows != [] {
      AppendKeepsWellformed(conv, t, rows[0]);
      var a := AppendRow(conv, t, rows[0]);
      if a.outcome.Pass? {
        ExtendKeepsWellformed(conv, a.state, rows[1..]);
      }
    }
  }
}
