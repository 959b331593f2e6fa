/** The Python values, truthiness, isinstance and exceptions that the table
    library works with, as a closed set.  The library is Python 2 code (it
    uses `basestring`), so truthiness follows Python 2: a naive `time` is
    false exactly at midnight. */
module Python {

  /** The seven classes a column may declare: the keys of `valid_types`. */
  datatype Kind = Str | Int | Float | Bool | Date | DateTime | Time

  /** The ranges of the fields of `datetime.date`, `datetime.datetime` and
      `datetime.time` (days are bounded by 31 whatever the month). */
  type Year = y: int | 1 <= y <= 9999 witness 1
  type Month = m: int | 1 <= m <= 12 witness 1
  type Day = d: int | 1 <= d <= 31 witness 1
  type Hour = h: int | 0 <= h <= 23
  type Minute = m: int | 0 <= m <= 59
  type Second = s: int | 0 <= s <= 59

  /** Python 2 `int` is a machine word (`sys.maxint` is 2**63 - 1 on a
      64-bit build); a whole number outside it is a `long`. */
  type MachineInt = i: int | -0x8000_0000_0000_0000 <= i < 0x8000_0000_0000_0000

  datatype DateRec = DateRec(year: Year, month: Month, day: Day)
  datatype DateTimeRec = DateTimeRec(year: Year, month: Month, day: Day,
                                     hour: Hour, minute: Minute, second: Second)
  datatype TimeRec = TimeRec(hour: Hour, minute: Minute, second: Second)

  /** A Python value.  `ClassV(k)` is the class object of one of the seven
      kinds (`int`, `str`, ...); `ObjectV(name)` stands for any other object,
      named by its class, including classes outside the seven.  `LongV` is a
      Python 2 `long`, which is not an instance of `int`. */
  datatype Value =
    | NoneV
    | BoolV(b: bool)
    | IntV(i: MachineInt)
    | LongV(l: int)
    | FloatV(f: real)
    | StrV(s: string)
    | DateV(date: DateRec)
    | DateTimeV(dt: DateTimeRec)
    | TimeV(time: TimeRec)
    | TupleV(items: seq<Value>)
    | ListV(items: seq<Value>)
    | DictV(entries: map<string, Value>)
    | ClassV(kind: Kind)
    | ObjectV(className: string)

  /** A value the options setters accept: a dict or None. */
  type DictOrNone = v: Value | v.NoneV? || v.DictV? witness NoneV

  /** Python 2 truthiness (`if value:`). */
  predicate Truthy(v: Value) {
    match v
    case NoneV => false
    case BoolV(b) => b
    case IntV(i) => i != 0
    case LongV(l) => l != 0
    case FloatV(f) => f != 0.0
    case StrV(s) => |s| > 0
    case DateV(_) => true
    case DateTimeV(_) => true
    case TimeV(t) => t.hour != 0 || t.minute != 0 || t.second != 0
    case TupleV(items) => |items| > 0
    case ListV(items) => |items| > 0
    case DictV(m) => |m| > 0
    case ClassV(_) => true
    case ObjectV(_) => true
  }

  /** `type(v)` when it is one of the seven kinds. */
  function ExactKind(v: Value): Option<Kind> {
    match v
    case StrV(_) => Some(Str)
    case IntV(_) => Some(Int)
    case FloatV(_) => Some(Float)
    case BoolV(_) => Some(Bool)
    case DateV(_) => Some(Date)
    case DateTimeV(_) => Some(DateTime)
    case TimeV(_) => Some(Time)
    case _ => None
  }

  /** The subclass relation among the seven kinds: `bool` derives from
      `int` and `datetime` from `date`. */
  predicate IsSubclass(sub: Kind, sup: Kind) {
    sub == sup || (sub == Bool && sup == Int) || (sub == DateTime && sup == Date)
  }

  /** `isinstance(v, k)` for a class `k` among the seven. */
  predicate IsInstance(v: Value, k: Kind) {
    match k
    case Str => v.StrV?
    case Int => v.IntV? || v.BoolV?
    case Float => v.FloatV?
    case Bool => v.BoolV?
    case Date => v.DateV? || v.DateTimeV?
    case DateTime => v.DateTimeV?
    case Time => v.TimeV?
  }

  /** isinstance agrees with "the exact class of v is a subclass of k". */
  lemma IsInstanceBySubclass(v: Value, k: Kind)
    ensures IsInstance(v, k) <==> ExactKind(v).Some? && IsSubclass(ExactKind(v).value, k)
  {
  }

  /** A class object, None, a `long`, a container or another object is an
      instance of none of the seven kinds. */
  lemma NonScalarsAreNoInstance(v: Value, k: Kind)
    requires ExactKind(v).None?
    ensures !IsInstance(v, k)
  {
  }

  /** The name of `type(v)`, as the error messages quote it. */
  function TypeName(v: Value): string {
    match v
    case NoneV => "NoneType"
    case BoolV(_) => "bool"
    case IntV(_) => "int"
    case LongV(_) => "long"
    case FloatV(_) => "float"
    case StrV(_) => "str"
    case DateV(_) => "datetime.date"
    case DateTimeV(_) => "datetime.datetime"
    case TimeV(_) => "datetime.time"
    case TupleV(_) => "tuple"
    case ListV(_) => "list"
    case DictV(_) => "dict"
    case ClassV(_) => "type"
    case ObjectV(name) => name
  }

  /** Why an exception was raised. */
  datatype Reason =
    | TypeMismatch(expected: Kind, received: string) // "{0} expected, {1} received"
    | NotAClass                  // isinstance() arg 2 is not a class
    | DuplicateColumnId(id: string)
    | ColumnsFrozen              // columns added to a table that holds data
    | RowLengthMismatch
    | TypeNotSupported
    | IdNotString
    | OptionsNotDict
    | Unpack                     // a tuple of the wrong length was unpacked
    | BadArguments               // a call whose arguments do not fit the signature
    | NotSerializable            // "... is not JSON serializable"; the repr it quotes is not kept

  /** The Python exception classes the library raises. */
  datatype Error =
    | ValueError(reason: Reason)
    | AssertionError(reason: Reason)
    | TypeError(reason: Reason)

  /** A call that returns a value or raises. */
  datatype Result<+T> = Ok(value: T) | Err(error: Error)

  /** A call that returns nothing or raises. */
  datatype Outcome = Pass | Fail(error: Error)

  datatype Option<+T> = None | Some(value: T)

  /** A keyword argument left out takes its default, None. */
  function Get(kwargs: map<string, Value>, key: string): Value {
    if key in kwargs then kwargs[key] else NoneV
  }

  /** `f(**kwargs)` binds: every key is a parameter and every required
      parameter is given. */
  predicate Binds(kwargs: map<string, Value>, params: set<string>, required: set<string>) {
    kwargs.Keys <= params && required <= kwargs.Keys
  }

  function Min(a: nat, b: nat): nat { if a <= b then a else b }
}
