/**
 * JSON values as `json.load` hands them to the Python code, and the few
 * pieces of the Python runtime the exam pipeline leans on.
 */
module JsonValues {
  import opened Wrappers

  /** A decoded JSON value. Objects keep their members in document order. */
  datatype Json =
    | JNull
    | JBool(b: bool)
    | JInt(i: int)
    | JFloat(f: real)
    | JStr(s: string)
    | JArr(elems: seq<Json>)
    | JObj(fields: seq<(string, Json)>)

  /**
   * Runtime behaviour the model does not re-implement, passed in as oracles:
   * `float(s)` on a string, `json.loads`, `round(x, 2)` and `math.sqrt`.
   * Every path that uses one of them receives the same record, so two paths
   * that apply them to the same argument agree.
   */
  datatype Python = Python(
    floatOfStr: string -> Option<real>,
    loads: string -> Option<Json>,
    round2: real -> real,
    sqrt: real -> real)

  /** The three ways `float(v)` can end. */
  datatype FloatResult = Converted(r: real) | ValueErr | TypeErr

  /** Python's `float(v)` on a decoded JSON value (`bool` is an `int` there). */
  function PyFloat(py: Python, v: Json): (res: FloatResult)
    ensures v.JInt? ==> res == Converted(v.i as real)
    ensures v.JFloat? ==> res == Converted(v.f)
    ensures res.TypeErr? <==> (v.JNull? || v.JArr? || v.JObj?)
    ensures res.ValueErr? ==> v.JStr? && py.floatOfStr(v.s).None?
  {
    match v
    case JInt(i) => Converted(i as real)
    case JFloat(f) => Converted(f)
    case JBool(b) => Converted(if b then 1.0 else 0.0)
    case JStr(s) => (match py.floatOfStr(s) case Some(r) => Converted(r) case None => ValueErr)
    case _ => TypeErr
  }

  /** `float(v)` inside `try: ... except (ValueError, TypeError): pass`. */
  function ToFloat(py: Python, v: Json): Option<real>
  {
    match PyFloat(py, v)
    case Converted(r) => Some(r)
    case _ => None
  }

  /** `isinstance(v, (int, float))`, which Python also answers yes for booleans. */
  predicate IsNumeric(v: Json) {
    v.JInt? || v.JFloat? || v.JBool?
  }

  /** The number a numeric value stands for. */
  function NumValue(v: Json): real
    requires IsNumeric(v)
  {
    match v
    case JInt(i) => i as real
    case JFloat(f) => f
    case JBool(b) => if b then 1.0 else 0.0
  }

  /** `obj.get(key)` on a decoded object: `json.loads` keeps the last duplicate member. */
  function Member(fields: seq<(string, Json)>, key: string): (r: Option<Json>)
    ensures r.None? <==> forall i :: 0 <= i < |fields| ==> fields[i].0 != key
    ensures r.Some? ==> exists i :: 0 <= i < |fields| && fields[i] == (key, r.value) &&
                          forall j :: i < j < |fields| ==> fields[j].0 != key
  {
    if fields == [] then None
    else if fields[|fields| - 1].0 == key then Some(fields[|fields| - 1].1)
    else Member(fields[..|fields| - 1], key)
  }

  /** Numeric values convert under `float()` to the number they stand for. */
  lemma NumericConverts(py: Python, v: Json)
    requires IsNumeric(v)
    ensures ToFloat(py, v) == Some(NumValue(v))
  {
  }
}
