/** The dictionary forms that `dict(obj)` builds from the `__iter__` pairs
    of a Cell, a Column and a Table, and the encoder's `default` hook, which
    returns such a dictionary, a date text or a time list, or raises.  The
    result is a tree of values; entities nested inside it (the Column objects
    of `cols`, the Cell objects of each row) stay entity nodes, as the JSON
    library hands them back to `default` one by one. */
module Wire {
  import opened Python
  import opened Cells
  import opened Columns
  import opened TableCore
  import opened DateFormat

  /** What `default` returns and what the dictionaries hold. */
  datatype Obj =
    | Plain(v: Value)
    | CellObj(cell: CellState)
    | ColumnObj(column: ColumnState)
    | ListObj(items: seq<Obj>)
    | DictObj(entries: map<string, Obj>)

  /** `m` is what `dict(pairs)` builds: every key given is present, and it
      maps to the value of its last pair, a later pair overwriting an
      earlier one. */
  ghost predicate LastWins<V>(pairs: seq<(string, V)>, m: map<string, V>) {
    && (forall k :: k in m <==> exists i :: 0 <= i < |pairs| && pairs[i].0 == k)
    && (forall i :: 0 <= i < |pairs| && (forall j :: i < j < |pairs| ==> pairs[j].0 != pairs[i].0) ==>
          pairs[i].0 in m && m[pairs[i].0] == pairs[i].1)
  }

  /** Adding one more pair updates its key. */
  lemma LastWinsStep<V>(init: seq<(string, V)>, last: (string, V), m: map<string, V>)
    requires LastWins(init, m)
    ensures LastWins(init + [last], m[last.0 := last.1])
  {
    var pairs := init + [last];
    var m' := m[last.0 := last.1];
    forall k ensures k in m' <==> exists i :: 0 <= i < |pairs| && pairs[i].0 == k {
      if k in m' {
        if k == last.0 {
          assert pairs[|init|].0 == k;
        } else {
          var i :| 0 <= i < |init| && init[i].0 == k;
          assert pairs[i] == init[i];
        }
      } else {
        forall i | 0 <= i < |pairs| ensures pairs[i].0 != k {
          if i < |init| {
            assert pairs[i] == init[i];
          }
        }
      }
    }
    forall i | 0 <= i < |pairs| && (forall j :: i < j < |pairs| ==> pairs[j].0 != pairs[i].0)
      ensures pairs[i].0 in m' && m'[pairs[i].0] == pairs[i].1
    {
      if i < |init| {
        assert pairs[i] == init[i];
        assert pairs[|init|].0 != pairs[i].0;
        forall j | i < j < |init| ensures init[j].0 != init[i].0 {
          assert pairs[j] == init[j];
        }
      }
    }
  }

  /** `dict(pairs)`. */
  function ToDict<V>(pairs: seq<(string, V)>): map<string, V>
    decreases |pairs|
  {
    if pairs == [] then map[]
    else ToDict(pairs[..|pairs| - 1])[pairs[|pairs| - 1].0 := pairs[|pairs| - 1].1]
  }

  /** `ToDict` builds what `dict` builds: the last pair of each key wins. */
  lemma {:induction false} ToDictLastWins<V>(pairs: seq<(string, V)>)
    ensures LastWins(pairs, ToDict(pairs))
    decreases |pairs|
  {
    if pairs != [] {
      var init := pairs[..|pairs| - 1];
      var last := pairs[|pairs| - 1];
      ToDictLastWins(init);
      LastWinsStep(init, last, ToDict(init));
      assert init + [last] == pairs;
    }
  }

  function Lift(items: seq<(string, Value)>): (r: seq<(string, Obj)>)
    ensures |r| == |items| && forall i :: 0 <= i < |items| ==> r[i] == (items[i].0, Plain(items[i].1))
  {
    seq(|items|, i requires 0 <= i < |items| => (items[i].0, Plain(items[i].1)))
  }

  /** Keys listed in strictly increasing rank are distinct. */
  lemma RankedKeysDistinct(items: seq<(string, Value)>, rank: string -> nat)
    requires forall i, j :: 0 <= i < j < |items| ==> rank(items[i].0) < rank(items[j].0)
    ensures forall i, j :: 0 <= i < j < |Lift(items)| ==> Lift(items)[j].0 != Lift(items)[i].0
  {
  }

  /** The keys of a field filter: `items` lists, in key rank order, pairs
      of a key and its field, and holds every key whose field passes. */
  ghost predicate FieldFilter(items: seq<(string, Value)>, isKey: string -> bool,
                              field: string -> Value, rank: string -> nat)
  {
    && (forall i :: 0 <= i < |items| ==> isKey(items[i].0) && items[i].1 == field(items[i].0) && Truthy(items[i].1))
    && (forall i, j :: 0 <= i < j < |items| ==> rank(items[i].0) < rank(items[j].0))
    && (forall k :: isKey(k) && Truthy(field(k)) ==> (k, field(k)) in items)
  }

  /** The dictionary of a field filter holds exactly the keys whose field
      passes, each with its field. */
  lemma FilterDict(items: seq<(string, Value)>, isKey: string -> bool,
                   field: string -> Value, rank: string -> nat)
    requires FieldFilter(items, isKey, field, rank)
    ensures var m := ToDict(Lift(items));
      && (forall k :: k in m <==> isKey(k) && Truthy(field(k)))
      && (forall k :: k in m ==> m[k] == Plain(field(k)))
  {
    RankedKeysDistinct(items, rank);
    ToDictLastWins(Lift(items));
    FilterKeys(items, isKey, field, rank, ToDict(Lift(items)));
    FilterValues(items, field, ToDict(Lift(items)));
  }

  /** The keys of the dictionary are the keys whose field passes. */
  lemma FilterKeys(items: seq<(string, Value)>, isKey: string -> bool,
                   field: string -> Value, rank: string -> nat, m: map<string, Obj>)
    requires FieldFilter(items, isKey, field, rank)
    requires LastWins(Lift(items), m)
    ensures forall k :: k in m <==> isKey(k) && Truthy(field(k))
  {
    forall k ensures k in m <==> isKey(k) && Truthy(field(k)) {
      if isKey(k) && Truthy(field(k)) {
        var i :| 0 <= i < |items| && items[i] == (k, field(k));
        assert Lift(items)[i].0 == k;
      }
      if k in m {
        var i :| 0 <= i < |Lift(items)| && Lift(items)[i].0 == k;
        assert items[i].0 == k;
      }
    }
  }

  /** With distinct keys, each key maps to its own field. */
  lemma FilterValues(items: seq<(string, Value)>, field: string -> Value, m: map<string, Obj>)
    requires forall i :: 0 <= i < |items| ==> items[i].1 == field(items[i].0)
    requires forall i, j :: 0 <= i < j < |Lift(items)| ==> Lift(items)[j].0 != Lift(items)[i].0
    requires LastWins(Lift(items), m)
    ensures forall k :: k in m ==> m[k] == Plain(field(k))
  {
    forall k | k in m ensures m[k] == Plain(field(k)) {
      var i :| 0 <= i < |Lift(items)| && Lift(items)[i].0 == k;
      assert m[Lift(items)[i].0] == Lift(items)[i].1;
    }
  }

  /** `dict(cell)`. */
  function CellDict(c: CellState): map<string, Obj> {
    ToDict(Lift(Cells.WireItems(c)))
  }

  /** `dict(cell)` holds exactly the keys `v`, `f`, `p` whose field is
      truthy, each with that field. */
  lemma CellDictEntries(c: CellState)
    ensures var m := CellDict(c);
      && (forall k :: k in m <==> IsCellKey(k) && Truthy(Cells.Field(c, k)))
      && (forall k :: k in m ==> m[k] == Plain(Cells.Field(c, k)))
  {
    var items := Cells.WireItems(c);
    assert forall k :: IsCellKey(k) && Truthy(Cells.Field(c, k)) ==> (k, Cells.Field(c, k)) in items;
    FilterDict(items, IsCellKey, k => Cells.Field(c, k), Cells.KeyRank);
  }

  /** `dict(column)`. */
  function ColumnDict(c: ColumnState): map<string, Obj> {
    ToDict(Lift(Columns.WireItems(c)))
  }

  /** `dict(column)` holds the `type` tag always, and `id`, `label` and
      `options` exactly when truthy, each with its field. */
  lemma ColumnDictEntries(c: ColumnState)
    ensures var m := ColumnDict(c);
      && (forall k :: k in m <==> IsColumnKey(k) && Truthy(Columns.Field(c, k)))
      && (forall k :: k in m ==> m[k] == Plain(Columns.Field(c, k)))
      && "type" in m && m["type"] == Plain(StrV(Tag(c.kind)))
  {
    var items := Columns.WireItems(c);
    Columns.WireItemsRanked(c);
    Columns.WireItemsComplete(c);
    FilterDict(items, IsColumnKey, k => Columns.Field(c, k), Columns.KeyRank);
  }

  /** `self.schema.values()`: the Column objects in schema order. */
  function ColsObj(t: TableState): Obj {
    ListObj(seq(|t.schema|, i requires 0 <= i < |t.schema| => ColumnObj(t.schema[i])))
  }

  /** `{"c": r.values()}`: a row's Cell objects in schema order. */
  function RowObj(r: Row): Obj {
    DictObj(map["c" := ListObj(seq(|r|, j requires 0 <= j < |r| => CellObj(r[j].1)))])
  }

  /** The list of row dictionaries, in append order. */
  function RowsObj(t: TableState): Obj {
    ListObj(seq(|t.rows|, i requires 0 <= i < |t.rows| => RowObj(t.rows[i])))
  }

  /** `Table.__iter__`: the keys `js` zipped with the columns, the rows and
      the options, a pair yielded when its value is not None.  The two lists
      are never None, so only the options can be left out. */
  function TableItems(js: seq<string>, t: TableState): (r: seq<(string, Obj)>)
    requires |js| == 3
    ensures |r| == (if t.options.NoneV? then 2 else 3)
    ensures r[0] == (js[0], ColsObj(t)) && r[1] == (js[1], RowsObj(t))
    ensures !t.options.NoneV? ==> r[2] == (js[2], Plain(t.options))
  {
    [(js[0], ColsObj(t)), (js[1], RowsObj(t))] + (if t.options.NoneV? then [] else [(js[2], Plain(t.options))])
  }

  /** `dict(table)`. */
  function TableDict(js: seq<string>, t: TableState): map<string, Obj>
    requires |js| == 3
  {
    ToDict(TableItems(js, t))
  }

  /** `dict(table)` enters the columns, then the rows, then the options when
      they are not None, each under its key, a later one overwriting an
      earlier one under the same key. */
  lemma TableDictUpdates(js: seq<string>, t: TableState)
    requires |js| == 3
    ensures TableDict(js, t)
         == if t.options.NoneV? then map[][js[0] := ColsObj(t)][js[1] := RowsObj(t)]
            else map[][js[0] := ColsObj(t)][js[1] := RowsObj(t)][js[2] := Plain(t.options)]
  {
    var items := TableItems(js, t);
    var two := [(js[0], ColsObj(t)), (js[1], RowsObj(t))];
    assert two[..1] == [(js[0], ColsObj(t))] && two[..1][..0] == [];
    assert ToDict(two[..1]) == map[][js[0] := ColsObj(t)];
    assert ToDict(two) == map[][js[0] := ColsObj(t)][js[1] := RowsObj(t)];
    if t.options.NoneV? {
      assert items == two;
    } else {
      assert items[..2] == two;
    }
  }

  /** What `default` may be handed: a library entity or a plain value. */
  datatype Encodable = CellArg(cell: CellState) | ColumnArg(column: ColumnState) | TableArg(table: TableState) | ValueArg(v: Value)

  /** The value half of `default`.  The format is chosen by exact type: a
      `date` becomes the three-argument text and a `datetime` the
      six-argument text, each reading back as its fields with the month less
      one; a `time` becomes `[hour, minute, second]`; anything else is
      refused by the base encoder with a TypeError naming its type. */
  function DefaultValue(v: Value): (r: Result<Obj>)
    ensures r.Ok? <==> v.DateV? || v.DateTimeV? || v.TimeV?
    ensures v.DateV? ==>
      && r.value.Plain? && r.value.v.StrV?
      && ParseCall(r.value.v.s) == Some([v.date.year as nat, (v.date.month - 1) as nat, v.date.day as nat])
    ensures v.DateTimeV? ==>
      && r.value.Plain? && r.value.v.StrV?
      && ParseCall(r.value.v.s) == Some([v.dt.year as nat, (v.dt.month - 1) as nat, v.dt.day as nat,
                                         v.dt.hour as nat, v.dt.minute as nat, v.dt.second as nat])
    ensures v.TimeV? ==> r == Ok(Plain(ListV([IntV(v.time.hour), IntV(v.time.minute), IntV(v.time.second)])))
    ensures r.Err? ==> r.error == TypeError(NotSerializable)
  {
    if v.DateV? then
      DateRoundTrip(v.date);
      Ok(Plain(StrV(FormatDate(v.date))))
    else if v.DateTimeV? then
      DateTimeRoundTrip(v.dt);
      Ok(Plain(StrV(FormatDateTime(v.dt))))
    else if v.TimeV? then
      Ok(Plain(ListV([IntV(v.time.hour), IntV(v.time.minute), IntV(v.time.second)])))
    else
      Err(TypeError(NotSerializable))
  }

  /** `default(obj)` for a Table class whose `__iter__` uses the keys `js`:
      an entity becomes its dictionary form, any other value goes through
      `DefaultValue`. */
  function Default(js: seq<string>, obj: Encodable): (r: Result<Obj>)
    requires |js| == 3
    ensures obj.CellArg? ==> r == Ok(DictObj(CellDict(obj.cell)))
    ensures obj.ColumnArg? ==> r == Ok(DictObj(ColumnDict(obj.column)))
    ensures obj.TableArg? ==> r == Ok(DictObj(TableDict(js, obj.table)))
    ensures obj.ValueArg? ==> r == DefaultValue(obj.v)
    ensures r.Err? <==> obj.ValueArg? && !(obj.v.DateV? || obj.v.DateTimeV? || obj.v.TimeV?)
    ensures obj.CellArg? ==>
      forall k :: k in r.value.entries <==> IsCellKey(k) && Truthy(Cells.Field(obj.cell, k))
    ensures obj.ColumnArg? ==>
      && (forall k :: k in r.value.entries <==> IsColumnKey(k) && Truthy(Columns.Field(obj.column, k)))
      && "type" in r.value.entries && r.value.entries["type"] == Plain(StrV(Tag(obj.column.kind)))
  {
    match obj
    case CellArg(c) => CellDictEntries(c); Ok(DictObj(CellDict(c)))
    case ColumnArg(c) => ColumnDictEntries(c); Ok(DictObj(ColumnDict(c)))
    case TableArg(t) => Ok(DictObj(TableDict(js, t)))
    case ValueArg(v) => DefaultValue(v)
  }

  /** A datetime, although an instance of `date`, never gets the date
      format: its text has six arguments. */
  lemma DateTimeNeverDateFormat(t: DateTimeRec)
    ensures DefaultValue(DateTimeV(t)).Ok?
    ensures |ParseCall(DefaultValue(DateTimeV(t)).value.v.s).value| == 6
    ensures IsInstance(DateTimeV(t), Date)
  {
  }

  /** `time(10, 30, 45)` becomes `[10, 30, 45]`. */
  lemma TimeExample()
    ensures DefaultValue(TimeV(TimeRec(10, 30, 45))) == Ok(Plain(ListV([IntV(10), IntV(30), IntV(45)])))
  {
  }

  /** `date(2012, 1, 31)` becomes `"Date(2012, 0, 31)"`. */
  lemma DateDefaultExample()
    ensures DefaultValue(DateV(DateRec(2012, 1, 31))) == Ok(Plain(StrV("Date(2012, 0, 31)")))
  {
    DateExample();
  }

  /** An instance of `object` is refused with TypeError; so are the class
      object `int` and a plain int when handed to `default` directly. */
  lemma UnknownRefused()
    ensures DefaultValue(ObjectV("object")).Err? && DefaultValue(ObjectV("object")).error.TypeError?
    ensures DefaultValue(ClassV(Int)).Err? && DefaultValue(IntV(1)).Err?
  {
  }
}
