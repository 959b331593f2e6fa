/** A Cell: a value checked against a declared type, with an optional label
    and options.  The monolith and the split `cell.py` hold the same code. */
module Cells {
  import opened Python

  /** What a Cell holds: the declared type as it was passed, the value,
      the label and the options. */
  datatype CellState = CellState(typ: Value, value: Value, caption: Value, options: Value)

  /** `Cell.validate`: None passes for every declared type; any other value
      must be an instance of the declared class. */
  function Validate(typ: Value, v: Value): (o: Outcome)
    ensures o.Pass? <==> v.NoneV? || (typ.ClassV? && IsInstance(v, typ.kind))
    ensures o.Fail? && typ.ClassV? ==> o.error == ValueError(TypeMismatch(typ.kind, TypeName(v)))
    ensures o.Fail? && !typ.ClassV? ==> o.error == TypeError(NotAClass)
  {
    if v.NoneV? then Pass
    else if !typ.ClassV? then Fail(TypeError(NotAClass))
    else if IsInstance(v, typ.kind) then Pass
    else Fail(ValueError(TypeMismatch(typ.kind, TypeName(v))))
  }

  /** None is a valid value of every declared kind. */
  lemma NoneAlwaysValid(k: Kind)
    ensures Validate(ClassV(k), NoneV) == Pass
  {
  }

  /** A value of the declared kind, or of a subclass of it, is accepted. */
  lemma MatchingKindValid(v: Value, k: Kind)
    requires ExactKind(v).Some? && IsSubclass(ExactKind(v).value, k)
    ensures Validate(ClassV(k), v) == Pass
  {
    IsInstanceBySubclass(v, k);
  }

  /** A value of a different supported kind is refused with a ValueError
      that names the expected kind and the received type. */
  lemma OtherKindRefused(v: Value, k: Kind)
    requires ExactKind(v).Some? && !IsSubclass(ExactKind(v).value, k)
    ensures Validate(ClassV(k), v) == Fail(ValueError(TypeMismatch(k, TypeName(v))))
  {
    IsInstanceBySubclass(v, k);
  }

  /** A Python 2 `long`, such as `5L` or `2**63`, is refused by an `int`
      column (and by every other kind) with a ValueError naming `long`. */
  lemma LongRefused(l: int, k: Kind)
    ensures Validate(ClassV(k), LongV(l)) == Fail(ValueError(TypeMismatch(k, "long")))
  {
    NonScalarsAreNoInstance(LongV(l), k);
  }

  /** `Cell(value, typ, label, options)`: the type and label are stored as
      given, the value goes through the guarded setter, then the options are
      stored.  The cell is only returned when validation passes. */
  function NewCell(value: Value, typ: Value, caption: Value, options: Value): (r: Result<CellState>)
    ensures r.Ok? <==> Validate(typ, value).Pass?
    ensures r.Ok? ==> r.value == CellState(typ, value, caption, options)
    ensures r.Err? ==> r.error == Validate(typ, value).error
  {
    match Validate(typ, value)
    case Pass => Ok(CellState(typ, value, caption, options))
    case Fail(e) => Err(e)
  }

  /** `Cell(*args)`: two to four positional arguments bind, in order, to
      value, typ, label and options; any other number raises TypeError. */
  function CellFromArgs(args: seq<Value>): (r: Result<CellState>)
    ensures !(2 <= |args| <= 4) ==> r == Err(TypeError(BadArguments))
    ensures r.Ok? <==> 2 <= |args| <= 4 && Validate(args[1], args[0]).Pass?
    ensures r.Ok? ==>
      && r.value.value == args[0] && r.value.typ == args[1]
      && r.value.caption == (if |args| > 2 then args[2] else NoneV)
      && r.value.options == (if |args| > 3 then args[3] else NoneV)
    ensures r.Err? && 2 <= |args| <= 4 ==> r.error == Validate(args[1], args[0]).error
  {
    if !(2 <= |args| <= 4) then Err(TypeError(BadArguments))
    else NewCell(args[0], args[1], if |args| > 2 then args[2] else NoneV, if |args| > 3 then args[3] else NoneV)
  }

  const CellParams: set<string> := {"value", "typ", "label", "options"}

  /** `Cell(**kwargs)`: the keyword form; `value` and `typ` are required and
      no other keyword than the four parameters is accepted. */
  function CellFromKwargs(kwargs: map<string, Value>): (r: Result<CellState>)
    ensures !Binds(kwargs, CellParams, {"value", "typ"}) ==> r == Err(TypeError(BadArguments))
    ensures r.Ok? <==> Binds(kwargs, CellParams, {"value", "typ"}) && Validate(kwargs["typ"], kwargs["value"]).Pass?
    ensures r.Ok? ==>
      && r.value.value == kwargs["value"] && r.value.typ == kwargs["typ"]
      && r.value.caption == Get(kwargs, "label") && r.value.options == Get(kwargs, "options")
    ensures r.Err? && Binds(kwargs, CellParams, {"value", "typ"}) ==>
      r.error == Validate(kwargs["typ"], kwargs["value"]).error
  {
    if !Binds(kwargs, CellParams, {"value", "typ"}) then Err(TypeError(BadArguments))
    else NewCell(kwargs["value"], kwargs["typ"], Get(kwargs, "label"), Get(kwargs, "options"))
  }

  /** The field behind each wire key. */
  function Field(c: CellState, key: string): Value {
    if key == "v" then c.value else if key == "f" then c.caption else c.options
  }

  /** The position of a wire key in the fixed list `v`, `f`, `p`. */
  function KeyRank(key: string): nat {
    if key == "v" then 0 else if key == "f" then 1 else 2
  }

  predicate IsCellKey(key: string) { key == "v" || key == "f" || key == "p" }

  /** `Cell.__iter__`: the pairs yielded for the dictionary form.  A key of
      `v`, `f`, `p` is present exactly when its field is truthy, carries that
      field, and the keys come in that order. */
  function WireItems(c: CellState): (r: seq<(string, Value)>)
    ensures |r| <= 3
    ensures forall i :: 0 <= i < |r| ==> IsCellKey(r[i].0) && r[i].1 == Field(c, r[i].0) && Truthy(r[i].1)
    ensures forall i, j :: 0 <= i < j < |r| ==> KeyRank(r[i].0) < KeyRank(r[j].0)
    ensures Truthy(c.value) ==> ("v", c.value) in r
    ensures Truthy(c.caption) ==> ("f", c.caption) in r
    ensures Truthy(c.options) ==> ("p", c.options) in r
  {
    (if Truthy(c.value) then [("v", c.value)] else [])
    + (if Truthy(c.caption) then [("f", c.caption)] else [])
    + (if Truthy(c.options) then [("p", c.options)] else [])
  }

  /** `Cell(1, int)` has the dictionary form `{"v": 1}`. */
  lemma WireOfPlainInt()
    ensures NewCell(IntV(1), ClassV(Int), NoneV, NoneV).Ok?
    ensures WireItems(NewCell(IntV(1), ClassV(Int), NoneV, NoneV).value) == [("v", IntV(1))]
  {
  }

  /** Falsy fields are dropped: a cell holding 0, "" or False, with an empty
      label and empty options, has an empty dictionary form. */
  lemma FalsyValuesOmitted(c: CellState)
    requires c.value in {IntV(0), StrV(""), BoolV(false), NoneV, FloatV(0.0)}
    requires c.caption in {NoneV, StrV("")}
    requires c.options in {NoneV, DictV(map[])}
    ensures WireItems(c) == []
  {
  }

  /** A Cell object.  `typ`, `label` and `options` are plain attributes;
      `value` is a property whose setter validates. */
  class Cell {
    var typ: Value
    var value: Value
    var caption: Value
    var options: Value

    function State(): CellState
      reads this
    {
      CellState(typ, value, caption, options)
    }

    /** The value conforms to the declared type, as every guarded write
      keeps it. */
    ghost predicate Valid()
      reads this
    {
      Validate(typ, value).Pass?
    }

    /** The first two assignments of `__init__`: the type, then the label.
        The value slot is not yet written (None stands in for it). */
    constructor Init(typ: Value, caption: Value)
      ensures this.typ == typ && this.caption == caption
      ensures this.value == NoneV && this.options == NoneV
    {
      this.typ := typ;
      this.caption := caption;
      this.value := NoneV;
      this.options := NoneV;
    }

    /** The `value` setter: validate first, assign only if that passed. */
    method SetValue(v: Value) returns (o: Outcome)
      modifies this
      ensures o == Validate(typ, v)
      ensures o.Pass? ==> State() == old(State()).(value := v) && Valid()
      ensures o.Fail? ==> State() == old(State())
    {
      o := Validate(typ, v);
      if o.Pass? {
        value := v;
      }
    }

    /** `Cell(value, typ, label, options)`: the assignments of `__init__` in
        order, the value through its setter. */
    static method New(value: Value, typ: Value, caption: Value, options: Value) returns (r: Result<Cell>)
      ensures r.Ok? <==> NewCell(value, typ, caption, options).Ok?
      ensures r.Ok? ==> fresh(r.value) && r.value.Valid()
                        && r.value.State() == NewCell(value, typ, caption, options).value
      ensures r.Err? ==> r.error == NewCell(value, typ, caption, options).error
    {
      ghost var spec := NewCell(value, typ, caption, options);
      var c := new Cell.Init(typ, caption);
      var o := c.SetValue(value);
      if o.Fail? {
        assert spec == Err(o.error);
        return Err(o.error);
      }
      c.options := options;
      assert spec == Ok(c.State());
      r := Ok(c);
    }
  }
}
