/** JSON-compatible values as the page scripts see them after `JSON.parse`,
    plus JavaScript's `undefined`. */
module Json {
  import opened Wrappers
  import opened Text

  /** A JavaScript value reachable from parsed JSON. `Obj` keeps its own
      properties in JavaScript's enumeration order (the order `Object.entries`
      reports); its keys are distinct, as in any JavaScript object. Numbers are
      the integers among JavaScript numbers. */
  datatype Value =
    | Undefined
    | Null
    | Bool(b: bool)
    | Num(n: int)
    | Str(s: string)
    | Arr(items: seq<Value>)
    | Obj(fields: seq<(string, Value)>)

  /** JavaScript's ToBoolean: exactly five values are falsy here. */
  predicate Truthy(v: Value)
    ensures !Truthy(v) <==> v in {Undefined, Null, Bool(false), Num(0), Str("")}
  {
    match v
    case Undefined => false
    case Null => false
    case Bool(b) => b
    case Num(n) => n != 0
    case Str(s) => s != ""
    case Arr(_) => true
    case Obj(_) => true
  }

  /** `v == null` in JavaScript (loose equality): null or undefined. */
  predicate IsNullish(v: Value) { v == Null || v == Undefined }

  /** `a ?? b`. */
  function Coalesce(a: Value, b: Value): (r: Value)
    ensures !IsNullish(a) ==> r == a
    ensures IsNullish(a) ==> r == b
  {
    if IsNullish(a) then b else a
  }

  /** The value stored under `key` among an object's own properties. */
  function Lookup(fields: seq<(string, Value)>, key: string): (r: Option<Value>)
    ensures r.Some? <==> exists i :: 0 <= i < |fields| && fields[i].0 == key
    ensures r.Some? ==> (key, r.value) in fields
  {
    if |fields| == 0 then None
    else if fields[0].0 == key then Some(fields[0].1)
    else Lookup(fields[1..], key)
  }

  /** Assigns `key := val` on a property list: an existing key keeps its
      place, a new key is appended (as `{...o, key: val}` does). */
  function SetField(fields: seq<(string, Value)>, key: string, val: Value): (r: seq<(string, Value)>)
    ensures Lookup(r, key) == Some(val)
    ensures forall k :: k != key ==> Lookup(r, k) == Lookup(fields, k)
  {
    if |fields| == 0 then [(key, val)]
    else if fields[0].0 == key then [(key, val)] + fields[1..]
    else [fields[0]] + SetField(fields[1..], key, val)
  }

  /** The property read `v.key` where `key` is a plain name: it throws on
      null and undefined, reads an own property of an object, and yields
      undefined on the other values (none of the names read by the modelled
      code is a property of a string, number, boolean or array). */
  function Member(v: Value, key: string): (r: Result<Value>)
    ensures r == TypeError <==> IsNullish(v)
    ensures v.Obj? && Lookup(v.fields, key).None? ==> r == Ok(Undefined)
    ensures v.Obj? && Lookup(v.fields, key).Some? ==> r == Ok(Lookup(v.fields, key).value)
  {
    match v
    case Undefined => TypeError
    case Null => TypeError
    case Obj(fields) => Ok(match Lookup(fields, key) case Some(x) => x case None => Undefined)
    case _ => Ok(Undefined)
  }

  /** JavaScript's `String(v)`. An array is joined with commas, with null and
      undefined elements written as empty text. */
  function StringOf(v: Value): string
    decreases v
  {
    match v
    case Undefined => "undefined"
    case Null => "null"
    case Bool(b) => if b then "true" else "false"
    case Num(n) => IntToDecimal(n)
    case Str(s) => s
    case Arr(items) =>
      JoinWith(seq(|items|, i requires 0 <= i < |items| =>
        if IsNullish(items[i]) then "" else StringOf(items[i])), ',')
    case Obj(_) => "[object Object]"
  }
}
