/**
 * The Python values the backend handles (decoded JSON, request bodies and
 * MongoDB documents), Python truthiness, and the library calls the core
 * makes but does not implement: `json.loads`, `float(str)`,
 * `datetime.fromisoformat`, `datetime.isoformat` and `str()`.
 */
module PyRuntime {
  import opened Wrappers
  import opened PyText
  import opened DateTimes

  /** Numbers are reals: the int/float distinction and NaN are not modelled. */
  datatype Value =
    | Null
    | Bool(b: bool)
    | Num(n: real)
    | Str(s: string)
    | List(items: seq<Value>)
    | Dict(entries: map<string, Value>)
    | Time(t: DateTime)
    | ObjectId(hex: string)

  /** A dict with string keys: a JSON object, a request body or a stored document. */
  type Row = map<string, Value>

  /** Python's `bool(v)`. */
  predicate Truthy(v: Value) {
    match v
    case Null => false
    case Bool(b) => b
    case Num(n) => n != 0.0
    case Str(s) => s != []
    case List(items) => items != []
    case Dict(entries) => entries != map[]
    case Time(_) => true
    case ObjectId(_) => true
  }

  /**
   * Python's `key in v` for a string key: dict membership, list membership,
   * or the substring test; `None` where Python raises `TypeError`.
   */
  function KeyIn(key: string, v: Value): (r: Option<bool>)
    ensures r.None? <==> !(v.Dict? || v.List? || v.Str?)
    ensures v.Dict? ==> r == Some(key in v.entries)
    ensures v.List? ==> r == Some(Str(key) in v.items)
    ensures v.Str? ==> (r == Some(true) <==> exists i :: OccursAt(v.s, key, i))
  {
    match v
    case Dict(entries) => Some(key in entries)
    case List(items) => Some(Str(key) in items)
    case Str(s) => ContainsIffOccurs(s, key); Some(Contains(s, key))
    case _ => None
  }

  /** The library parsers and formatters, each `None` where the call raises `ValueError`. */
  datatype Library = Library(
    jsonLoads: string -> Option<Value>,
    parseFloat: string -> Option<real>,
    fromIsoFormat: string -> Option<DateTime>,
    isoFormat: DateTime -> string,
    show: Value -> string)

  /**
   * What a call to the generative model yields: the answer text, an exception
   * from `generate_content` (`handled` when its type is one the caller's
   * `except` clause names), or a response whose `.text` accessor raises
   * `ValueError` (a reply with no valid part, such as a blocked one).
   */
  datatype Reply =
    | Answered(text: string)
    | CallRaised(handled: bool)
    | TextRaised

  /** Python's `float(v)`; `None` where it raises. */
  function ToFloat(v: Value, lib: Library): (r: Option<real>)
    ensures r.None? <==> !(v.Num? || v.Bool? || v.Str?) || (v.Str? && lib.parseFloat(v.s).None?)
    ensures v.Num? ==> r == Some(v.n)
    ensures v.Bool? ==> r == Some(if v.b then 1.0 else 0.0)
    ensures v.Str? && r.Some? ==> lib.parseFloat(v.s) == r
  {
    match v
    case Num(n) => Some(n)
    case Bool(b) => Some(if b then 1.0 else 0.0)
    case Str(s) => lib.parseFloat(s)
    case _ => None
  }

  /** The falsy values are exactly `None`, `False`, zero and the empty string, list and dict. */
  lemma FalsyValues(v: Value)
    ensures !Truthy(v) <==> v in {Null, Bool(false), Num(0.0), Str(""), List([]), Dict(map[])}
  {
  }
}
