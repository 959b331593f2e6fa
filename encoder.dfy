/** The split `encoder.py`: the `default` hook for the split Table, and the
    cases its test suite names. */
module Encoder {
  import opened Python
  import opened Cells
  import opened Columns
  import opened TableCore
  import opened DateFormat
  import opened Wire
  import Tables

  /** `Encoder.default`: Cells and Columns as their dictionary forms, the
      split Table as its dictionary form with `cols`, `rows` and, when set,
      `p`; dates, datetimes and times as `DefaultValue` writes them; any
      other value raises TypeError. */
  function Default(obj: Encodable): (r: Result<Obj>)
    ensures obj.CellArg? ==> r == Ok(DictObj(CellDict(obj.cell)))
    ensures obj.ColumnArg? ==> r == Ok(DictObj(ColumnDict(obj.column)))
    ensures obj.TableArg? ==> r == Ok(DictObj(Tables.WireDict(obj.table)))
    ensures obj.ValueArg? ==> r == DefaultValue(obj.v)
    ensures r.Err? <==> obj.ValueArg? && !(obj.v.DateV? || obj.v.DateTimeV? || obj.v.TimeV?)
    ensures obj.TableArg? ==>
      && r.value.entries.Keys == (if obj.table.options.NoneV? then {"cols", "rows"} else {"cols", "rows", "p"})
      && r.value.entries["cols"] == ColsObj(obj.table) && r.value.entries["rows"] == RowsObj(obj.table)
  {
    if obj.TableArg? then
      Tables.WireForm(obj.table);
      Wire.Default(Tables.Keys, obj)
    else
      Wire.Default(Tables.Keys, obj)
  }

  /** `Cell(1, int)` encodes to `{"v": 1}`. */
  lemma CellExample()
    ensures NewCell(IntV(1), ClassV(Int), NoneV, NoneV).Ok?
    ensures Default(CellArg(NewCell(IntV(1), ClassV(Int), NoneV, NoneV).value)) == Ok(DictObj(map["v" := Plain(IntV(1))]))
  {
    var c := NewCell(IntV(1), ClassV(Int), NoneV, NoneV).value;
    var m := CellDict(c);
    assert m.Keys == {"v"} by {
      forall k ensures k in m <==> k == "v" {
        assert IsCellKey(k) && Truthy(Cells.Field(c, k)) <==> k == "v";
      }
    }
  }

  /** `Column(id='age', type=int)` encodes to
      `{"id": "age", "type": "number", "label": "age"}`. */
  lemma ColumnExample()
    ensures NewColumn(StrV("age"), ClassV(Int), NoneV, NoneV) == Ok(ColumnState("age", Int, NoneV, NoneV))
    ensures Default(ColumnArg(ColumnState("age", Int, NoneV, NoneV)))
         == Ok(DictObj(map["id" := Plain(StrV("age")), "type" := Plain(StrV("number")), "label" := Plain(StrV("age"))]))
  {
    MinimalColumnDict();
  }

  lemma MinimalColumnDict()
    ensures ColumnDict(ColumnState("age", Int, NoneV, NoneV))
         == map["id" := Plain(StrV("age")), "type" := Plain(StrV("number")), "label" := Plain(StrV("age"))]
  {
    var c := ColumnState("age", Int, NoneV, NoneV);
    Columns.WireOfMinimalColumn();
    var id, typ, lab := ("id", Plain(StrV("age"))), ("type", Plain(StrV("number"))), ("label", Plain(StrV("age")));
    var l := Lift(Columns.WireItems(c));
    assert l == [id, typ, lab];
    ThreePairs(id, typ, lab);
  }

  /** `dict` of three pairs enters them in turn. */
  lemma ThreePairs<V>(p: (string, V), q: (string, V), s: (string, V))
    ensures ToDict([p, q, s]) == map[][p.0 := p.1][q.0 := q.1][s.0 := s.1]
  {
    var l := [p, q, s];
    assert l[..2] == [p, q] && l[..2][..1] == [p] && l[..2][..1][..0] == [];
    assert ToDict([p]) == map[][p.0 := p.1];
    assert ToDict([p, q]) == map[][p.0 := p.1][q.0 := q.1];
  }

  /** `Table()` encodes to `{"cols": [], "rows": []}`. */
  lemma TableExample()
    ensures Default(TableArg(TableState([], [], NoneV))) == Ok(DictObj(map["cols" := ListObj([]), "rows" := ListObj([])]))
  {
    Tables.EmptyTableWire();
  }

  /** The test suite's three values: a time, a date and a datetime. */
  lemma ValueExamples()
    ensures Default(ValueArg(TimeV(TimeRec(10, 30, 45)))) == Ok(Plain(ListV([IntV(10), IntV(30), IntV(45)])))
    ensures Default(ValueArg(DateV(DateRec(2012, 1, 31)))) == Ok(Plain(StrV("Date(2012, 0, 31)")))
    ensures Default(ValueArg(DateTimeV(DateTimeRec(2012, 1, 31, 12, 30, 45))))
         == Ok(Plain(StrV("Date(2012, 0, 31, 12, 30, 45)")))
  {
    DateExample();
    DateTimeExample();
  }

  /** The class object `object` is not serializable. */
  lemma UnknownExample()
    ensures Default(ValueArg(ObjectV("type"))) == Err(TypeError(NotSerializable))
  {
  }
}
