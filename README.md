# gviz-data-table in Dafny

A model of the core of `gviz_data_table`, a small Python 2 library that builds
the data-table value read by the Google Visualization charting library. It
covers both versions of the library's code:

- the older single module `gviz_data_table/data_table.py` (its encoder, `Cell`,
  `valid_types`, `Column` and `Table`);
- the split modules `cell.py`, `table.py` and `encoder.py`. They import a
  `column` module whose source is not part of this model, so the monolith's
  `Column` stands in for it.

The model, file by file:

- `python.dfy` (module `Python`): the Python values the library handles, as a
  closed datatype. It holds None, bool, int, Python 2 `long`, float, str, date,
  datetime, time, tuple, list, dict, the class objects of the seven supported kinds, and other
  objects. It also defines Python 2 truthiness and `isinstance` over the seven
  kinds (a `bool` is an `int` and a `datetime` is a `date`), plus the three
  exceptions the library raises (`ValueError`, `AssertionError`, `TypeError`)
  and `Result`/`Outcome` types that carry them.
- `cells.dfy` (module `Cells`): `Cell.validate`, the constructor and its
  positional and keyword call forms, the guarded `value` setter, and the
  `v`/`f`/`p` wire pairs of `__iter__`. The split `cell.py` and the
  monolith's `Cell` (data_table.py:46-89) are the same code.
- `columns.dfy` (module `Columns`): `valid_types` as a function from kind to
  wire tag, the four `Column` setters and their assertions, the `label`
  fallback to the id, and `__iter__`.
- `dates.dfy` (module `DateFormat`): the `Date(y, m, d)` and
  `Date(y, m, d, H, M, S)` texts with the month shifted down by one. A parser
  for that text proves that nothing is lost.
- `table_core.dfy` (module `TableCore`): what the two `Table` classes share.
  This is `add_column` (including the schema that grows even though the call
  raises), the row conversion loop of `_append` over a pluggable element step,
  and `append` and `extend`. The invariant both keep is distinct column ids,
  with every row keyed by the schema's ids and holding values of the column
  types.
- `wire.dfy` (module `Wire`): `dict(obj)` as a last-key-wins map over the
  `__iter__` pairs, the dictionary forms of Cell, Column and Table, and the
  value half of the encoder's `default` hook.
- `data_table.dfy` (module `DataTable`): the monolith's `Table` class (a
  2-tuple element splits into value and label), its dictionary form with the
  options under the key `rows`, and `DataTableEncoder.default`.
- `tables.dfy` (module `Tables`): the split `Table` class. Its elements may be
  tuples (value, label, options), cell dictionaries or bare values, its
  options setter checks its argument, and its dictionary form puts the options
  under `p`.
- `encoder.dfy` (module `Encoder`): the split `Encoder.default`.

The encoder is modelled up to the tree of values that `default` returns (a
`Wire.Obj`). The JSON text is not modelled. Entities nested in a dictionary
form (the Column objects under `cols`, the Cell objects of each row) stay as
entity nodes, because the JSON library hands them back to `default` one at a
time.

Three facts about the code shape the whole model:

- errors are the Python exceptions the code raises (`ValueError` for a type
  mismatch, a duplicate id or a frozen schema; `AssertionError` for a bad
  column, bad options or a wrong row length; `TypeError` for bad call
  arguments and unserializable values);
- optional Cell and Column keys are omitted when their field is falsy (0, "",
  False, {});
- `add_column` inserts the column before it refuses a table that already
  holds rows.

## Model

| member | source | states |
|---|---|---|
| Python.IsInstanceBySubclass | gviz_data_table/cell.py:35 | `isinstance(v, k)` over the seven kinds holds exactly when the exact class of `v` is `k` or a subclass of it: bool under int, datetime under date; a Python 2 `long` has no exact class among the seven, so it is an instance of none of them |
| Python.NonScalarsAreNoInstance | gviz_data_table/cell.py:35 | None, containers, class objects and other objects are instances of none of the seven kinds |
| Cells.Validate | gviz_data_table/cell.py:29-37 | passes iff the value is None or is an instance of the declared class; otherwise ValueError naming the expected kind and received type, or TypeError when the declared type is not a class |
| Cells.NoneAlwaysValid | gviz_data_table/cell.py:33-34 | None is accepted whatever kind is declared |
| Cells.LongRefused | gviz_data_table/cell.py:35-37 | a Python 2 `long` (such as `5L` or `2**63`) is refused by an `int` column, and by every other kind, with ValueError naming `long` |
| Cells.MatchingKindValid | gviz_data_table/data_table.py:76-80 | a value whose class is the declared kind or a subclass of it is accepted |
| Cells.OtherKindRefused | gviz_data_table/data_table.py:78-80 | a value of another supported kind is refused with ValueError naming the expected kind and the received type |
| Cells.NewCell | gviz_data_table/cell.py:14-18 | construction succeeds iff the value validates; then type, value, label and options are stored exactly as given; otherwise the validation error is raised |
| Cells.CellFromArgs | gviz_data_table/cell.py:14-18 | positional call: any count other than two to four is a TypeError; otherwise the cell builds iff the first argument validates against the second, and then holds value, type, label and options in argument order, missing ones None; else the validation error |
| Cells.CellFromKwargs | gviz_data_table/cell.py:14-18 | keyword call: a missing `value` or `typ` or an unknown keyword is a TypeError; otherwise the cell builds iff `value` validates against `typ`, and then holds each keyword's value, `label` and `options` defaulting to None; else the validation error |
| Cells.WireItems | gviz_data_table/cell.py:39-46 | the wire pairs are at most `v`, `f`, `p`, in that order; each carries its own field and is present iff that field is truthy |
| Cells.WireOfPlainInt | gviz_data_table/data_table.py:82-89 | `Cell(1, int)` yields exactly the pair `v: 1` |
| Cells.FalsyValuesOmitted | gviz_data_table/data_table.py:86-89 | a cell holding 0, "", False, 0.0 or None with an empty label and `{}` options yields no pairs at all |
| Cells.Cell.Init | gviz_data_table/cell.py:15-16 | the first two assignments of `__init__` store the type and the label as given |
| Cells.Cell.SetValue | gviz_data_table/cell.py:24-27 | the setter validates first; on success only the value changes and the cell stays valid; on failure nothing changes |
| Cells.Cell.New | gviz_data_table/data_table.py:57-61 | the constructor's assignments in order, the value through the setter, give a fresh valid cell whose state is `NewCell`'s, or `NewCell`'s error |
| Columns.TagTable | gviz_data_table/data_table.py:92-94 | every kind maps to one of the six wire tags, and only int and float share a tag (`number`) |
| Columns.NewColumn | gviz_data_table/data_table.py:102-141 | construction succeeds iff the id is a string, the type is one of the seven classes and the options are a dict or None; the first failing setter's AssertionError is raised, in the order id, type, options |
| Columns.ColumnFromKwargs | gviz_data_table/data_table.py:183 | `Column(**description)`: a non-dict, a missing `id` or `type`, or an unknown key is a TypeError; otherwise it builds iff the id is a string, the type is one of the seven classes and the options are a dict or None, holding the given fields; else the AssertionError of the first failing setter, in the order id, type, options |
| Columns.LabelFallback | gviz_data_table/data_table.py:126-128 | the label reads as the stored label when truthy and as the id otherwise; it is truthy unless both are empty |
| Columns.WireItemsRanked | gviz_data_table/data_table.py:143-149 | the wire pairs come in the order `id`, `type`, `label`, `options`, each a column key with its truthy value, so no key repeats |
| Columns.WireItemsComplete | gviz_data_table/data_table.py:143-149 | `type` is always present as its `valid_types` tag, and every other key is present whenever its value is truthy |
| Columns.WireOfMinimalColumn | gviz_data_table/data_table.py:143-149 | `Column(id='age', type=int)` yields `id: age`, `type: number`, `label: age` |
| Columns.WireWithEmptyOptions | gviz_data_table/data_table.py:146-149 | `{}` options are dropped and a given label replaces the id |
| Columns.Column.LabelProperty | gviz_data_table/data_table.py:126-128 | the `label` getter reads the fallback label of the object's state |
| Columns.Column.SetId | gviz_data_table/data_table.py:121-124 | accepts exactly strings; on failure raises AssertionError and changes nothing |
| Columns.Column.SetType | gviz_data_table/data_table.py:112-115 | accepts exactly the keys of `valid_types`; on failure raises AssertionError and changes nothing |
| Columns.Column.SetLabel | gviz_data_table/data_table.py:130-132 | stores any label and changes nothing else |
| Columns.Column.SetOptions | gviz_data_table/data_table.py:138-141 | accepts exactly a dict or None; on failure raises AssertionError and changes nothing |
| Columns.Column.New | gviz_data_table/data_table.py:102-106 | the four setters in order give a fresh column whose state is `NewColumn`'s, or `NewColumn`'s error |
| DateFormat.DecimalValue | gviz_data_table/encoder.py:32 | reading back the decimal text that `str.format` writes for a non-negative int gives that int |
| DateFormat.CallRoundTrip | gviz_data_table/encoder.py:17-19 | the parser reads `Date(a, b, ...)` back as its argument list |
| DateFormat.DecimalCanonical | gviz_data_table/encoder.py:32 | the decimal text `str.format` writes for an int is one digit or has no leading zero |
| DateFormat.CanonicalIsDecimal | gviz_data_table/encoder.py:32 | every digit text without a leading zero (or of one digit) is the decimal text of the number it denotes |
| DateFormat.ParseArgsInverse | gviz_data_table/encoder.py:17-19 | the only texts the argument parser accepts are the joined argument lists it reads back |
| DateFormat.ParseCallExact | gviz_data_table/encoder.py:17-19 | a text reads as `Date(...)` of a list exactly when it is the call text written for that non-empty list, so a read-back determines the text |
| DateFormat.DateRoundTrip | gviz_data_table/encoder.py:29-32 | a date's text reads back as year, month minus one, day |
| DateFormat.DateTimeRoundTrip | gviz_data_table/encoder.py:29-32 | a datetime's text reads back as its six fields, of which only the month changes (minus one) |
| DateFormat.FormatsInjective | gviz_data_table/encoder.py:17-18 | distinct dates get distinct texts, distinct datetimes too, and no date text equals a datetime text |
| DateFormat.DateExample | gviz_data_table/data_table.py:24 | `date(2012, 1, 31)` is written `Date(2012, 0, 31)` |
| DateFormat.DateTimeExample | gviz_data_table/data_table.py:25 | `datetime(2012, 1, 31, 12, 30, 45)` is written `Date(2012, 0, 31, 12, 30, 45)` |
| Wire.ToDictLastWins | gviz_data_table/data_table.py:30 | `dict(pairs)` holds every key given, each with the value of its last pair |
| Wire.CellDictEntries | gviz_data_table/encoder.py:22-23 | `dict(cell)` holds exactly the keys `v`, `f`, `p` whose field is truthy, each with that field |
| Wire.ColumnDictEntries | gviz_data_table/encoder.py:24-25 | `dict(column)` always holds the `type` tag, and holds `id`, `label`, `options` exactly when truthy, each with its field |
| Wire.TableItems | gviz_data_table/data_table.py:217-225 | `Table.__iter__` yields the columns and the rows always and the options only when not None, under the given keys |
| Wire.TableDictUpdates | gviz_data_table/table.py:92-99 | `dict(table)` enters cols, then rows, then the options if not None, a later key overwriting an earlier equal one |
| Wire.DefaultValue | gviz_data_table/encoder.py:28-36 | succeeds iff the value is a date, datetime or time: a date gives a text reading back as year, month-1, day; a datetime a six-field text; a time `[h, m, s]`; anything else TypeError. With `DateFormat.ParseCallExact` these read-backs fix the text exactly: the one text that reads back as those fields |
| Wire.Default | gviz_data_table/data_table.py:28-43 | fails exactly on values that are not a date, datetime or time; a Cell becomes a dict of exactly its truthy `v`/`f`/`p` keys, a Column a dict of its truthy keys that always holds the `type` tag, a Table its dictionary form |
| Wire.DateTimeNeverDateFormat | gviz_data_table/encoder.py:28-29 | a datetime is an instance of date yet always gets the six-argument text |
| Wire.TimeExample | gviz_data_table/encoder.py:33-34 | `time(10, 30, 45)` becomes `[10, 30, 45]` |
| Wire.DateDefaultExample | gviz_data_table/data_table.py:36-39 | `date(2012, 1, 31)` becomes the string `Date(2012, 0, 31)` |
| Wire.UnknownRefused | gviz_data_table/data_table.py:43 | an arbitrary object, a class object and an int are refused, the first with TypeError |
| Encoder.Default | gviz_data_table/encoder.py:21-36 | entities become their dictionary forms; a Table's has the keys `cols` and `rows` always and `p` exactly when options are set; it fails exactly on values that are not a date, datetime or time |
| Encoder.CellExample | gviz_data_table/encoder.py:22-23 | a cell holding int 1 encodes to `{"v": 1}` |
| Encoder.ColumnExample | gviz_data_table/encoder.py:24-25 | `Column(id='age', type=int)` encodes to `{"id": "age", "type": "number", "label": "age"}` |
| Encoder.TableExample | gviz_data_table/encoder.py:26-27 | an empty table encodes to `{"cols": [], "rows": []}` |
| Encoder.ValueExamples | gviz_data_table/encoder.py:28-34 | the time, date and datetime of the test suite encode to `[10, 30, 45]`, `Date(2012, 0, 31)` and `Date(2012, 0, 31, 12, 30, 45)` |
| Encoder.UnknownExample | gviz_data_table/encoder.py:36 | the class object `object`, handed to `default`, raises TypeError |
| TableCore.AddColumn | gviz_data_table/table.py:30-41 | succeeds iff the column builds, its id is new and there are no rows; rows and options never change; a column that fails to build leaves the table unchanged with its error; a duplicate id leaves it unchanged with ValueError; a new id grows the schema by exactly that column, and with rows present the call still raises ValueError |
| TableCore.AddColumnDuplicate | gviz_data_table/data_table.py:184-185 | a duplicate id raises ValueError and leaves the table unchanged, with or without rows |
| TableCore.AddColumnAfterRows | gviz_data_table/data_table.py:186-188 | a new column on a table with rows raises ValueError, yet the schema has grown by that column |
| TableCore.AddColumnKeepsWellformed | gviz_data_table/data_table.py:177-188 | `add_column` keeps ids distinct and every row fitting the schema, even when it raises |
| TableCore.AddColumnsKeepsWellformed | gviz_data_table/data_table.py:170-174 | building the schema column by column keeps the table well formed and adds no rows |
| TableCore.ConvertRowSpec | gviz_data_table/table.py:55-70 | the conversion succeeds iff every zipped element converts; then it holds one cell per column keyed by the column id in schema order; otherwise it raises the error of the first failing element; the caller's elements are changed only where the conversion reached them |
| TableCore.ConvertedRowFits | gviz_data_table/data_table.py:194-202 | with an element step that types its cells, a converted row is keyed by the schema's ids with cells of the column types holding valid values |
| TableCore.BuildRow | gviz_data_table/table.py:59-70 | the `_append` loop computes exactly the conversion, cells and caller's row alike |
| TableCore.AppendWrongLength | gviz_data_table/data_table.py:209 | a row whose length differs from the schema raises AssertionError and changes neither the table nor the row |
| TableCore.AppendOneRow | gviz_data_table/data_table.py:204-210 | append succeeds iff the length matches and every element converts; on success exactly one row is added after the untouched earlier rows, one cell per column keyed by id in schema order; on failure the table is unchanged |
| TableCore.AppendKeepsWellformed | gviz_data_table/table.py:72-85 | `append` keeps the table well formed |
| TableCore.ExtendInOrder | gviz_data_table/table.py:87-90 | extend appends a prefix of the rows in order, each converted as append converts it; it succeeds iff that prefix is all of them, and otherwise the first row left out is the one that raised; earlier rows stay |
| TableCore.ExtendKeepsWellformed | gviz_data_table/data_table.py:212-215 | `extend` keeps the table well formed |
| DataTable.CellFor | gviz_data_table/data_table.py:196-201 | a 2-tuple gives value and label, a tuple of another length raises ValueError, any other element is the value; the cell declares the column type; the caller's element is untouched |
| DataTable.CellForTyped | gviz_data_table/data_table.py:198-201 | every cell the monolith builds declares its column's type and holds a valid value |
| DataTable.Table.Empty | gviz_data_table/data_table.py:170-171 | a new table has no columns, no rows and no options |
| DataTable.Table.AddColumn | gviz_data_table/data_table.py:177-188 | new state and outcome are those of `TableCore.AddColumn`, and the table stays well formed |
| DataTable.Table.New | gviz_data_table/data_table.py:163-175 | the columns are added in order, the first failure aborting with its error; the options are then stored unchecked |
| DataTable.Table.Append | gviz_data_table/data_table.py:204-210 | new state and outcome are those of `TableCore.AppendRow` with the monolith's element step |
| DataTable.Table.Extend | gviz_data_table/data_table.py:212-215 | new state and outcome are those of `TableCore.ExtendRows` |
| DataTable.WireWithoutOptions | gviz_data_table/data_table.py:217-225 | without options the dictionary form is exactly `cols` and `rows`; an empty table gives `{"cols": [], "rows": []}` |
| DataTable.OptionsShadowRows | gviz_data_table/data_table.py:221-225 | with options set, the dictionary form has only `cols` and `rows`, and `rows` holds the options, so the data rows are lost |
| DataTable.Default | gviz_data_table/data_table.py:28-43 | `DataTableEncoder.default`: a Table's dictionary has only the keys `cols` and `rows`, and `rows` holds the options instead of the rows whenever options are set |
| DataTable.AgeNameColumns | gviz_data_table/data_table.py:170-174 | the two-column schema `age`/`name` builds those two columns in order and no rows |
| DataTable.AppendBobExample | gviz_data_table/data_table.py:190-202 | the row `(18, 'Bob')` is appended as two unlabelled cells |
| DataTable.AppendHarryExample | gviz_data_table/data_table.py:199-200 | the element `('Harry', 'Big Man')` gives a cell holding Harry labelled Big Man |
| DataTable.AppendTripleRefused | gviz_data_table/data_table.py:200 | a 3-tuple element raises ValueError in the monolith |
| Tables.DictElement | gviz_data_table/table.py:64-66 | a dict element gets `typ` written into the caller's dict, and builds a cell iff its keys fit Cell's parameters, it has `value` and that value validates; otherwise TypeError when the keys do not bind, and the validation error when they do |
| Tables.CellForAsWritten | gviz_data_table/table.py:61-69 | the element step as written: the column type is passed first; dictionaries go through `DictElement` |
| Tables.AsWrittenRefusesNonDicts | gviz_data_table/table.py:62-68 | as written, every tuple or bare element raises |
| Tables.AsWrittenNeedsDicts | gviz_data_table/table.py:72-85 | as written, `append` succeeds only on rows made entirely of cell dictionaries |
| Tables.AsWrittenBobRefused | gviz_data_table/table.py:67-68 | as written, the row `(18, 'Bob')` raises TypeError |
| Tables.TupleCell | gviz_data_table/table.py:62-63 | tuple items are consumed as value, label, options; an empty or over-long tuple is a TypeError; the cell builds iff the first item validates |
| Tables.CellFor | gviz_data_table/table.py:61-69 | the element step in the intended argument order: tuples by `TupleCell`, dicts by `DictElement`, a bare value as the value alone, valid iff it validates |
| Tables.CellForTyped | gviz_data_table/table.py:61-69 | every cell the split table builds declares its column's type and holds a valid value |
| Tables.TupleExamples | gviz_data_table/table.py:76-81 | `('Jack', 'Beanstalk', {...})` gives value, label and options; a bare 18 gives a plain cell; a 2-tuple cannot skip the value |
| Tables.DictExample | gviz_data_table/table.py:64-66 | `dict(value='Kate', options=...)` gives that value and options with no label, and the caller's dict now holds `typ` |
| Tables.Construct | gviz_data_table/table.py:16-28 | the schema is built first and its error wins; then options that are neither dict nor None raise AssertionError; otherwise the table holds the built schema and the options |
| Tables.Table.Empty | gviz_data_table/table.py:23-24 | a new table has no columns, no rows and no options |
| Tables.Table.SetOptions | gviz_data_table/table.py:47-53 | accepts exactly a dict or None; on failure raises AssertionError and changes nothing |
| Tables.Table.AddColumn | gviz_data_table/table.py:30-41 | new state and outcome are those of `TableCore.AddColumn`, and the table stays well formed |
| Tables.Table.New | gviz_data_table/table.py:16-28 | the constructor's result is `Construct`'s: a fresh well-formed table or its error |
| Tables.Table.Append | gviz_data_table/table.py:72-85 | new state, outcome and the caller's row afterwards are those of `TableCore.AppendRow` with the split element step |
| Tables.Table.Extend | gviz_data_table/table.py:87-90 | new state, outcome and the caller's rows afterwards are those of `TableCore.ExtendRows` |
| Tables.WireForm | gviz_data_table/table.py:92-99 | the dictionary form holds `cols` and `rows` always, even when empty, and `p` exactly when the options are not None |
| Tables.EmptyTableWire | gviz_data_table/table.py:96-99 | an empty table gives `{"cols": [], "rows": []}` |

## Findings

| source | as written | input that shows it | evidently intended | confidence | as-written member | corrected member |
|---|---|---|---|---|---|---|
| gviz_data_table/table.py:63-68 | `Cell(*(col.type,) + value)` and `Cell(col.type, value)` pass the column type first, but `cell.py:14` declares `(value, typ, ...)` | schema `age: int, name: str`, row `(18, 'Bob')`: `isinstance(int, 18)` raises TypeError, so every tuple or bare element of the modelled values fails | the value first, then the column type | not executed; medium: `tests/test_encoder.py:31` calls `Cell(int, 1)`, so the parameter order of `cell.py` may be the side that is wrong | Tables.AsWrittenBobRefused | Tables.CellFor |
| gviz_data_table/data_table.py:221 | the keys zipped with cols, rows and options are `['cols', 'rows', 'rows']` | any table with options set and at least one row: `dict(table)` keeps the options under `rows` and the data rows disappear | options under `p`, as `table.py:96` has it | not executed; high | DataTable.OptionsShadowRows | Tables.WireForm |

The monolith's `Table` keeps the as-written `rows` key (`DataTable.WireDict`).
The split `Table` class (`Tables.Table`) uses the corrected element step
`Tables.CellFor`. The as-written step `Tables.CellForAsWritten` is kept beside
it, with the lemmas that show its failures.

## Left out

- JSON text generation: escaping, number formatting, and the JSON library's
  recursion into lists, dicts and nested entities. The model stops at the
  value tree that `default` returns.
- Aliasing: a Table holds its Columns and Cells by value. The Cell and Column
  objects that the Python table shares with callers (such as a row popped from
  `table.rows`) are not modelled as shared objects.
- Float semantics: a float is an opaque real with no arithmetic. It only
  matters for truthiness and the `number` tag.
- `timetuple()` fields beyond year, month, day, hour, minute and second. Dates,
  datetimes and times are records of integers within their ranges, and days
  are bounded by 31 whatever the month.
- The shared encoder instances (`Table.encoder`, the module-level `encoder`).
  They hold no state.
- Width of `int`: Python 2 `int` is taken as 64 bits wide (`sys.maxint` on a
  64-bit build); a 32-bit build, where `int` ends at 2**31 - 1, is not modelled.
- Cells.Validate: Python 2 `str` and `unicode` are modelled as one string kind,
  so a `unicode` value (as sqlite3 returns text) is accepted in a `str` column,
  where `isinstance(u'x', str)` is False and the source raises ValueError.
- Cells.Validate: a declared type that is a tuple of classes, or a class
  outside the seven (both of which `isinstance` accepts), is treated as not a
  class and raises TypeError.
- Columns.NewColumn: an unhashable type argument (a list or a dict) raises
  TypeError in the membership test `value in valid_types`; the model raises
  AssertionError for every type that is not a key of `valid_types`.
- Wire.DefaultValue: the TypeError's message, `repr(o)` followed by
  " is not JSON serializable", is not modelled; an object's repr holds its
  address.
- Wire.DefaultValue: the JSON library only hands `default` the values it cannot
  encode itself. The model gives the result of calling `default` directly, so
  ints, strings and other primitives are refused there.
- The `column` module imported by `table.py` and `encoder.py` is not part of
  this model; the monolith's `Column` stands in for it.
- `setup.py`, `examples/example.py` and `__init__.py`: packaging, database I/O
  and re-exports.
