/**
 * JSON values as JSON.parse produces them. Every stored record is a JSON object,
 * i.e. a map from field names to values; a field that is absent reads as `undefined`.
 */
module Json {
  import opened Wrappers

  /** A JSON value. Numbers are modelled as integers (floating point is not modelled). */
  datatype Value =
    | Null
    | Bool(b: bool)
    | Num(n: int)
    | Str(s: string)
    | Arr(items: seq<Value>)
    | Obj(fields: map<string, Value>)

  /** A JSON object: the shape of every record in a collection and of request bodies. */
  type Record = map<string, Value>

  /** Property access `r.key`: None stands for `undefined`. */
  function Get(r: Record, key: string): (v: Option<Value>)
    ensures v.Some? <==> key in r
    ensures v.Some? ==> v.value == r[key]
  {
    if key in r then Some(r[key]) else None
  }

  /** JavaScript truthiness of a property value (`!v` is false). */
  predicate Truthy(v: Option<Value>)
  {
    match v
    case None => false
    case Some(Null) => false
    case Some(Bool(b)) => b
    case Some(Num(n)) => n != 0
    case Some(Str(s)) => s != ""
    case Some(Arr(_)) => true
    case Some(Obj(_)) => true
  }

  /**
   * `stored === sent` between values from separate JSON.parse calls: arrays and objects
   * are distinct references and never strictly equal; other values compare by value.
   */
  predicate StrictlyEqual(stored: Value, sent: Value)
    ensures StrictlyEqual(stored, sent) ==> stored == sent
    ensures sent.Arr? || sent.Obj? ==> !StrictlyEqual(stored, sent)
  {
    !sent.Arr? && !sent.Obj? && stored == sent
  }

  /** `a === b` between two property values, where None is `undefined`. */
  predicate SameProperty(a: Option<Value>, b: Option<Value>)
  {
    match (a, b)
    case (None, None) => true
    case (Some(x), Some(y)) => StrictlyEqual(x, y)
    case _ => false
  }

  /**
   * An object literal `{ k: v, ... }` where some values may be `undefined`:
   * JSON serialisation drops the undefined ones, so only present values become fields.
   */
  function WithOptional(r: Record, key: string, v: Option<Value>): (r': Record)
    ensures Get(r', key) == if v.Some? then v else Get(r, key)
    ensures forall k | k != key :: Get(r', k) == Get(r, k)
    ensures forall k | k in r' :: k == key || k in r
  {
    match v
    case None => r
    case Some(x) => r[key := x]
  }
}
