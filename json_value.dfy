/** A value `JSON.parse` can produce. Objects are maps from key to value:
    `JSON.parse` keeps the last of repeated keys, and nothing in the model
    depends on key order. */
module Json {
  import opened Wrappers

  datatype JValue =
    | JNull
    | JBool(b: bool)
    | JNum(n: real)
    | JStr(s: string)
    | JArr(items: seq<JValue>)
    | JObj(fields: map<string, JValue>)

  /** `typeof v === 'object' && v !== null`: true of arrays as well as objects. */
  predicate IsObjectLike(v: JValue) {
    v.JArr? || v.JObj?
  }

  /** `v[key]` for one of the property names the CV format uses. None is
      `undefined`. An array has none of these names as a property (they are
      neither indices nor members of Array.prototype), nor does a primitive. */
  function Prop(v: JValue, key: string): (r: Option<JValue>)
    ensures r.Some? <==> v.JObj? && key in v.fields
  {
    if v.JObj? && key in v.fields then Some(v.fields[key]) else None
  }

  predicate IsStr(o: Option<JValue>) { o.Some? && o.value.JStr? }

  predicate IsArr(o: Option<JValue>) { o.Some? && o.value.JArr? }

  predicate IsObj(o: Option<JValue>) { o.Some? && IsObjectLike(o.value) }

  predicate HasStr(v: JValue, key: string) { IsStr(Prop(v, key)) }

  predicate HasArr(v: JValue, key: string) { IsArr(Prop(v, key)) }

  predicate HasObj(v: JValue, key: string) { IsObj(Prop(v, key)) }

  /** `Object.is`-like identity used by `new Set(...)` (SameValueZero) on values
      fresh from `JSON.parse`: primitives are the same when equal, while every
      array or object is its own reference and equals no other element. */
  predicate SameValueZero(a: JValue, b: JValue) {
    !IsObjectLike(a) && a == b
  }
}
