/**
 * PHP values as far as the global-state code inspects them: it asks whether a
 * value is scalar, null, an array or a Closure, and otherwise hands it to
 * serialize/unserialize unseen.
 */
module PhpValues {

  /** An array key: PHP arrays are keyed by integers or by strings. */
  datatype Key = IntKey(n: int) | StrKey(s: string)

  datatype Value =
    | Null
    | Bool(b: bool)
    | Int(i: int)
    | Float(f: real)
    | Str(s: string)
    /** An ordered PHP array. */
    | Arr(entries: seq<(Key, Value)>)
    /** An object; a Closure is an object of the final class `Closure`. */
    | Object(className: string, handle: nat)
    | Resource(handle: nat)

  /** PHP's is_scalar: booleans, integers, floats and strings. */
  predicate IsScalar(v: Value) {
    v.Bool? || v.Int? || v.Float? || v.Str?
  }

  /** `$v instanceof Closure`; Closure is final, so the class name decides. */
  predicate IsClosure(v: Value) {
    v.Object? && v.className == "Closure"
  }

  /** PHP's isset on an existing array entry: set unless it holds null. */
  predicate IsSet(v: Value) {
    !v.Null?
  }

  /**
   * The string serialize() produces. Only what the snapshot relies on is
   * modelled: it is never null (so isset holds of it) and unserialize recovers
   * the value. The textual format and its failures are not modelled.
   */
  datatype Serialized = Serialized(payload: Value)

  function Serialize(v: Value): (r: Serialized) {
    Serialized(v)
  }

  function Unserialize(s: Serialized): (r: Value) {
    s.payload
  }
}
