/** The untyped values the resource store manipulates (parsed JSON plus the
    `undefined` that JavaScript keeps distinct from `null`), the runtime type
    tests the merger and the resolvers perform on them, and `String(value)`. */
module Json {
  import Strings

  datatype Option<+T> = None | Some(value: T)

  /** A lookup either yields a value or raises the `TypeError` that reading
      a property of `null` or `undefined` raises. */
  datatype Result<+T> = Ok(value: T) | TypeError

  /** Objects are own-key maps; numbers are integers. */
  datatype Json =
    | Undef
    | Null
    | Bool(b: bool)
    | Num(n: int)
    | Str(s: string)
    | Arr(elems: seq<Json>)
    | Obj(fields: map<string, Json>)

  const EmptyObject: Json := Obj(map[])

  /** `v === null || v === undefined` (also `v == null`). */
  predicate Nullish(v: Json)
  {
    v.Null? || v.Undef?
  }

  /** `typeof v === 'object'`, which holds for `null` as well. */
  predicate TypeofObject(v: Json)
  {
    v.Null? || v.Arr? || v.Obj?
  }

  /** `Array.isArray(v)`. */
  predicate IsArray(v: Json)
  {
    v.Arr?
  }

  /** `String(v)`. An object renders as `[object Object]`; an array joins
      its elements with commas, `null` and `undefined` elements rendering
      as the empty string. */
  function ToJsString(v: Json): string
  {
    match v
    case Undef => "undefined"
    case Null => "null"
    case Bool(b) => if b then "true" else "false"
    case Num(n) => Strings.IntToString(n)
    case Str(s) => s
    case Obj(_) => "[object Object]"
    case Arr(es) =>
      Strings.Join(seq(|es|, i requires 0 <= i < |es| => if Nullish(es[i]) then "" else ToJsString(es[i])), ',')
  }
}
