/** A Column: an id, a declared type drawn from `valid_types`, an optional
    label and optional options (the monolith's Column class, which the split
    modules import from a `column` module). */
module Columns {
  import opened Python

  /** `valid_types`: the wire tag of each supported class. */
  function Tag(k: Kind): string {
    match k
    case Str => "string"
    case Int => "number"
    case Float => "number"
    case Bool => "boolean"
    case Date => "date"
    case DateTime => "datetime"
    case Time => "timeofday"
  }

  /** The tags are the six type names of the wire format, and only `int`
      and `float` share one. */
  lemma TagTable(k: Kind, k': Kind)
    ensures Tag(k) in {"string", "number", "boolean", "date", "datetime", "timeofday"}
    ensures Tag(k) == Tag(k') <==> k == k' || (k in {Int, Float} && k' in {Int, Float})
  {
  }

  /** A column after its setters accepted every field. */
  datatype ColumnState = ColumnState(id: string, kind: Kind, caption: Value, options: DictOrNone)

  /** `Column(id, type, label, options)`: the setters run in the order id,
      type, label, options, and the first failing assertion is raised. */
  function NewColumn(id: Value, typ: Value, caption: Value, options: Value): (r: Result<ColumnState>)
    ensures r.Ok? <==> id.StrV? && typ.ClassV? && (options.NoneV? || options.DictV?)
    ensures r.Ok? ==> r.value == ColumnState(id.s, typ.kind, caption, options)
    ensures !id.StrV? ==> r == Err(AssertionError(IdNotString))
    ensures id.StrV? && !typ.ClassV? ==> r == Err(AssertionError(TypeNotSupported))
    ensures id.StrV? && typ.ClassV? && !(options.NoneV? || options.DictV?) ==>
      r == Err(AssertionError(OptionsNotDict))
  {
    if !id.StrV? then Err(AssertionError(IdNotString))
    else if !typ.ClassV? then Err(AssertionError(TypeNotSupported))
    else if !(options.NoneV? || options.DictV?) then Err(AssertionError(OptionsNotDict))
    else Ok(ColumnState(id.s, typ.kind, caption, options))
  }

  const ColumnParams: set<string> := {"id", "type", "label", "options"}

  /** `Column(**description)`: the description must be a dict whose keys
      are parameters of Column and include `id` and `type`. */
  function ColumnFromKwargs(description: Value): (r: Result<ColumnState>)
    ensures !(description.DictV? && Binds(description.entries, ColumnParams, {"id", "type"})) ==>
      r == Err(TypeError(BadArguments))
    ensures r.Ok? <==>
      && description.DictV? && Binds(description.entries, ColumnParams, {"id", "type"})
      && description.entries["id"].StrV? && description.entries["type"].ClassV?
      && (Get(description.entries, "options").NoneV? || Get(description.entries, "options").DictV?)
    ensures r.Ok? ==>
      var kw := description.entries;
      && r.value.id == kw["id"].s && r.value.kind == kw["type"].kind
      && r.value.caption == Get(kw, "label") && r.value.options == Get(kw, "options")
    ensures description.DictV? && Binds(description.entries, ColumnParams, {"id", "type"}) ==>
      var kw := description.entries;
      && (!kw["id"].StrV? ==> r == Err(AssertionError(IdNotString)))
      && (kw["id"].StrV? && !kw["type"].ClassV? ==> r == Err(AssertionError(TypeNotSupported)))
      && (kw["id"].StrV? && kw["type"].ClassV? && !(Get(kw, "options").NoneV? || Get(kw, "options").DictV?) ==>
            r == Err(AssertionError(OptionsNotDict)))
  {
    if !(description.DictV? && Binds(description.entries, ColumnParams, {"id", "type"})) then
      Err(TypeError(BadArguments))
    else
      var kw := description.entries;
      NewColumn(kw["id"], kw["type"], Get(kw, "label"), Get(kw, "options"))
  }

  /** The `label` getter: the stored label when truthy, else the id. */
  function Label(c: ColumnState): Value {
    if Truthy(c.caption) then c.caption else StrV(c.id)
  }

  /** The label fallback: a falsy stored label reads as the id, and the
      label is truthy unless both the stored label and the id are empty. */
  lemma LabelFallback(c: ColumnState)
    ensures !Truthy(c.caption) ==> Label(c) == StrV(c.id)
    ensures Truthy(c.caption) ==> Label(c) == c.caption
    ensures Truthy(Label(c)) <==> Truthy(c.caption) || |c.id| > 0
  {
  }

  function KeyRank(key: string): nat {
    if key == "id" then 0 else if key == "type" then 1 else if key == "label" then 2 else 3
  }

  predicate IsColumnKey(key: string) {
    key == "id" || key == "type" || key == "label" || key == "options"
  }

  /** The value each wire key carries: the type goes through `valid_types`. */
  function Field(c: ColumnState, key: string): Value {
    if key == "id" then StrV(c.id)
    else if key == "type" then StrV(Tag(c.kind))
    else if key == "label" then Label(c)
    else c.options
  }

  /** One turn of `Column.__iter__`'s loop: the key is yielded with its
      value when that value is truthy.  For `type` the check is on the class,
      which is always truthy, and the value yielded is its tag. */
  function Turn(c: ColumnState, key: string): seq<(string, Value)> {
    if key == "type" then [(key, Field(c, key))]
    else if Truthy(Field(c, key)) then [(key, Field(c, key))] else []
  }

  /** The loop over `keys`. */
  function Loop(c: ColumnState, keys: seq<string>): seq<(string, Value)>
    decreases |keys|
  {
    if keys == [] then [] else Turn(c, keys[0]) + Loop(c, keys[1..])
  }

  const WireKeys: seq<string> := ["id", "type", "label", "options"]

  /** `Column.__iter__`: the pairs yielded for the dictionary form, one
      turn of the loop per key in the order `id`, `type`, `label`,
      `options`. */
  function WireItems(c: ColumnState): seq<(string, Value)> {
    Loop(c, WireKeys)
  }

  /** The four turns in rank order, the second always yielding: whatever
      the other turns yield, each pair comes from its own turn and the ranks
      increase. */
  lemma Slots(a: bool, b: bool, d: bool, x0: (string, Value), x1: (string, Value), x2: (string, Value), x3: (string, Value))
    requires KeyRank(x0.0) < KeyRank(x1.0) < KeyRank(x2.0) < KeyRank(x3.0)
    ensures var r := (if a then [x0] else []) + [x1] + (if b then [x2] else []) + (if d then [x3] else []);
      && 1 <= |r| <= 4
      && (forall i :: 0 <= i < |r| ==> r[i] == x1 || (a && r[i] == x0) || (b && r[i] == x2) || (d && r[i] == x3))
      && (forall i, j :: 0 <= i < j < |r| ==> KeyRank(r[i].0) < KeyRank(r[j].0))
      && x1 in r && (a ==> x0 in r) && (b ==> x2 in r) && (d ==> x3 in r)
  {
    var r := (if a then [x0] else []) + [x1] + (if b then [x2] else []) + (if d then [x3] else []);
    if a {
      if b {
        if d { assert r == [x0, x1, x2, x3]; } else { assert r == [x0, x1, x2]; }
      } else {
        if d { assert r == [x0, x1, x3]; } else { assert r == [x0, x1]; }
      }
    } else {
      if b {
        if d { assert r == [x1, x2, x3]; } else { assert r == [x1, x2]; }
      } else {
        if d { assert r == [x1, x3]; } else { assert r == [x1]; }
      }
    }
  }

  /** Every pair is a column key with its truthy value, and the keys come in
      increasing rank, so none repeats. */
  lemma WireItemsRanked(c: ColumnState)
    ensures var r := WireItems(c);
      && 1 <= |r| <= 4
      && (forall i :: 0 <= i < |r| ==> Yielded(c, r[i]))
      && (forall i, j :: 0 <= i < j < |r| ==> KeyRank(r[i].0) < KeyRank(r[j].0))
  {
    var id, typ, lab, opt := ("id", StrV(c.id)), ("type", StrV(Tag(c.kind))), ("label", Label(c)), ("options", c.options);
    WireItemsParts(c);
    assert KeyRank("id") == 0 && KeyRank("type") == 1 && KeyRank("label") == 2 && KeyRank("options") == 3;
    Slots(|c.id| > 0, Truthy(Label(c)), Truthy(c.options), id, typ, lab, opt);
    TurnsYield(c);
    var r := WireItems(c);
    forall i | 0 <= i < |r| ensures Yielded(c, r[i]) {
      var p := r[i];
      assert p == typ || (|c.id| > 0 && p == id) || (Truthy(Label(c)) && p == lab) || (Truthy(c.options) && p == opt);
    }
  }

  /** Each turn that yields gives a key with its truthy value. */
  lemma TurnsYield(c: ColumnState)
    ensures |c.id| > 0 ==> Yielded(c, ("id", StrV(c.id)))
    ensures Yielded(c, ("type", StrV(Tag(c.kind))))
    ensures Truthy(Label(c)) ==> Yielded(c, ("label", Label(c)))
    ensures Truthy(c.options) ==> Yielded(c, ("options", c.options))
  {
    TagNonEmpty(c.kind);
  }

  lemma TagNonEmpty(k: Kind)
    ensures |Tag(k)| > 0
  {
  }

  /** A pair the loop yields: a column key with its value, truthy. */
  predicate Yielded(c: ColumnState, p: (string, Value)) {
    IsColumnKey(p.0) && p.1 == Field(c, p.0) && Truthy(p.1)
  }

  /** The type is always present, as its wire tag; each other key is present
      when its value is truthy, so only an empty id, an empty label and `{}`
      or None options are dropped. */
  lemma WireItemsComplete(c: ColumnState)
    ensures var r := WireItems(c);
      && ("type", StrV(Tag(c.kind))) in r
      && (|c.id| > 0 ==> ("id", StrV(c.id)) in r)
      && (Truthy(Label(c)) ==> ("label", Label(c)) in r)
      && (Truthy(c.options) ==> ("options", c.options) in r)
      && (forall k :: IsColumnKey(k) && Truthy(Field(c, k)) ==> (k, Field(c, k)) in r)
  {
    var id, typ, lab, opt := ("id", StrV(c.id)), ("type", StrV(Tag(c.kind))), ("label", Label(c)), ("options", c.options);
    WireItemsParts(c);
    assert KeyRank("id") == 0 && KeyRank("type") == 1 && KeyRank("label") == 2 && KeyRank("options") == 3;
    Slots(|c.id| > 0, Truthy(Label(c)), Truthy(c.options), id, typ, lab, opt);
    forall k | IsColumnKey(k) && Truthy(Field(c, k)) ensures (k, Field(c, k)) in WireItems(c) {
      if k == "id" {
        assert Field(c, k) == id.1;
      } else if k == "type" {
        assert Field(c, k) == typ.1;
      } else if k == "label" {
        assert Field(c, k) == lab.1;
      } else {
        assert Field(c, k) == opt.1;
      }
    }
  }

  /** The loop's four turns, each yielding its key or not. */
  lemma WireItemsParts(c: ColumnState)
    ensures WireItems(c)
         == (if |c.id| > 0 then [("id", StrV(c.id))] else [])
          + [("type", StrV(Tag(c.kind)))]
          + (if Truthy(Label(c)) then [("label", Label(c))] else [])
          + (if Truthy(c.options) then [("options", c.options)] else [])
  {
    var ks := WireKeys;
    assert ks[1..] == ["type", "label", "options"] && ks[1..][1..] == ["label", "options"];
    assert ks[1..][1..][1..] == ["options"] && ks[1..][1..][1..][1..] == [];
    assert Loop(c, ["options"]) == Turn(c, "options");
    assert Loop(c, ["label", "options"]) == Turn(c, "label") + Turn(c, "options");
    assert Loop(c, ["type", "label", "options"]) == Turn(c, "type") + Turn(c, "label") + Turn(c, "options");
    assert Loop(c, ks) == Turn(c, "id") + Turn(c, "type") + Turn(c, "label") + Turn(c, "options");
  }

  /** `Column(id='age', type=int)` has the dictionary form
      `{"id": "age", "type": "number", "label": "age"}`. */
  lemma WireOfMinimalColumn()
    ensures NewColumn(StrV("age"), ClassV(Int), NoneV, NoneV).Ok?
    ensures WireItems(NewColumn(StrV("age"), ClassV(Int), NoneV, NoneV).value)
         == [("id", StrV("age")), ("type", StrV("number")), ("label", StrV("age"))]
  {
  }

  /** Empty options are omitted, a given label replaces the id. */
  lemma WireWithEmptyOptions()
    ensures NewColumn(StrV("age"), ClassV(Int), StrV("Age"), DictV(map[])).Ok?
    ensures WireItems(NewColumn(StrV("age"), ClassV(Int), StrV("Age"), DictV(map[])).value)
         == [("id", StrV("age")), ("type", StrV("number")), ("label", StrV("Age"))]
  {
  }

  /** A Column object: four properties whose setters check their value. */
  class Column {
    var id: string
    var kind: Kind
    var caption: Value
    var options: DictOrNone

    function State(): ColumnState
      reads this
    {
      ColumnState(id, kind, caption, options)
    }

    /** The `label` property. */
    function LabelProperty(): (r: Value)
      reads this
      ensures r == Label(State())
    {
      if Truthy(caption) then caption else StrV(id)
    }

    /** A fresh object before `__init__` has run any setter. */
    constructor Blank()
      ensures State() == ColumnState("", Str, NoneV, NoneV)
    {
      id := "";
      kind := Str;
      caption := NoneV;
      options := NoneV;
    }

    /** The `id` setter: only strings are accepted. */
    method SetId(v: Value) returns (o: Outcome)
      modifies this
      ensures o.Pass? <==> v.StrV?
      ensures o.Pass? ==> State() == old(State()).(id := v.s)
      ensures o.Fail? ==> o == Fail(AssertionError(IdNotString)) && State() == old(State())
    {
      if !v.StrV? {
        return Fail(AssertionError(IdNotString));
      }
      id := v.s;
      o := Pass;
    }

    /** The `type` setter: only keys of `valid_types` are accepted. */
    method SetType(v: Value) returns (o: Outcome)
      modifies this
      ensures o.Pass? <==> v.ClassV?
      ensures o.Pass? ==> State() == old(State()).(kind := v.kind)
      ensures o.Fail? ==> o == Fail(AssertionError(TypeNotSupported)) && State() == old(State())
    {
      if !v.ClassV? {
        return Fail(AssertionError(TypeNotSupported));
      }
      kind := v.kind;
      o := Pass;
    }

    /** The `label` setter stores anything. */
    method SetLabel(v: Value)
      modifies this
      ensures State() == old(State()).(caption := v)
    {
      caption := v;
    }

    /** The `options` setter: a dict or None. */
    method SetOptions(v: Value) returns (o: Outcome)
      modifies this
      ensures o.Pass? <==> v.NoneV? || v.DictV?
      ensures o.Pass? ==> State() == old(State()).(options := v)
      ensures o.Fail? ==> o == Fail(AssertionError(OptionsNotDict)) && State() == old(State())
    {
      if !(v.NoneV? || v.DictV?) {
        return Fail(AssertionError(OptionsNotDict));
      }
      options := v;
      o := Pass;
    }

    /** `Column(id, type, label, options)`: the four setters in order; the
        first that fails ends construction. */
    static method New(id: Value, typ: Value, caption: Value, options: Value) returns (r: Result<Column>)
      ensures r.Ok? <==> NewColumn(id, typ, caption, options).Ok?
      ensures r.Ok? ==> fresh(r.value) && r.value.State() == NewColumn(id, typ, caption, options).value
      ensures r.Err? ==> r.error == NewColumn(id, typ, caption, options).error
    {
      ghost var spec := NewColumn(id, typ, caption, options);
      var c := new Column.Blank();
      var o := c.SetId(id);
      if o.Fail? {
        assert spec == Err(o.error);
        return Err(o.error);
      }
      o := c.SetType(typ);
      if o.Fail? {
        assert spec == Err(o.error);
        return Err(o.error);
      }
      c.SetLabel(caption);
      o := c.SetOptions(options);
      if o.Fail? {
        assert spec == Err(o.error);
        return Err(o.error);
      }
      assert spec == Ok(c.State());
      r := Ok(c);
    }
  }
}
