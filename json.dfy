/**
 * Python values as they arrive from `json.loads` or from a document store:
 * JSON's own kinds plus `Opaque`, an object JSON cannot encode (its `str()`
 * text is kept). A Python dict is an association list in insertion order.
 */
module Json {
  import opened Common

  datatype Value =
    | Null
    | Bool(b: bool)
    | Int(n: int)
    | Str(s: string)
    | Arr(items: seq<Value>)
    | Obj(fields: seq<Field>)
    | Opaque(text: string)

  datatype Field = Field(key: string, val: Value)

  /** Python's truth value of `v` (`bool(v)`); a foreign object is truthy. */
  predicate Truthy(v: Value) {
    match v
    case Null => false
    case Bool(b) => b
    case Int(n) => n != 0
    case Str(s) => s != ""
    case Arr(items) => items != []
    case Obj(fields) => fields != []
    case Opaque(_) => true
  }

  /** Lists and dicts cannot be dictionary keys in Python. */
  predicate Hashable(v: Value) {
    !v.Arr? && !v.Obj?
  }

  /**
   * The value stored under `key`, if the dict has that key. When a key is
   * repeated (a JSON text may repeat one) the last field wins, as with
   * `json.loads`; in a dict built by assignment the keys never repeat.
   */
  function Lookup(fields: seq<Field>, key: string): (r: Option<Value>)
    ensures r.Some? <==> exists i | 0 <= i < |fields| :: fields[i].key == key
    ensures r.Some? ==> exists i | 0 <= i < |fields| :: fields[i].key == key && fields[i].val == r.value &&
                          forall j | i < j < |fields| :: fields[j].key != key
  {
    if fields == [] then None
    else if fields[|fields| - 1].key == key then Some(fields[|fields| - 1].val)
    else Lookup(fields[..|fields| - 1], key)
  }

  /** Python `d.get(key, default)`. */
  function Get(fields: seq<Field>, key: string, default: Value): Value {
    match Lookup(fields, key)
    case Some(v) => v
    case None => default
  }
}
