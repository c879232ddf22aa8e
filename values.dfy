/**
 * Tag values and tag records. The ID3 library returns untyped values; the
 * ones that occur are null, strings, arrays and plain objects (the comment
 * `{language, text}`, user-defined text entries `{description, value}`, the
 * `raw` frame table). An absent field is a missing key, never a value.
 */
module Values {
  import opened Wrappers
  import opened Text
  import opened Assoc

  datatype Value =
    | Null
    | Str(s: string)
    | Arr(items: seq<Value>)
    | Obj(fields: Table<string, Value>)

  /** JavaScript truthiness: null and "" are falsy, every array and object is truthy. */
  predicate Truthy(v: Value) {
    match v
    case Null => false
    case Str(s) => s != ""
    case _ => true
  }

  /** `String(v)`; an array shows as its elements joined with ",". */
  function Stringify(v: Value): string
    decreases v, 1
  {
    match v
    case Null => "null"
    case Str(s) => s
    case Arr(_) => JoinItems(v, ",")
    case Obj(_) => "[object Object]"
  }

  /** `array.join(sep)`: each element as `String`, a null element as "". */
  function JoinItems(arr: Value, sep: string): string
    requires arr.Arr?
    decreases arr, 0
  {
    Join(seq(|arr.items|, i requires 0 <= i < |arr.items| =>
      if arr.items[i].Null? then "" else Stringify(arr.items[i])), sep)
  }

  /**
   * `a === b` for two values that come from different reads (two library
   * calls, or a library call and a stored string): primitives compare by
   * value, while arrays and objects are distinct references and never equal.
   */
  predicate StrictEq(a: Value, b: Value) {
    (a.Null? && b.Null?) || (a.Str? && b.Str? && a.s == b.s)
  }

  /** `record[key] ?? null`: the value of a key, null when it is absent. */
  function OrNull(o: Option<Value>): Value {
    match o
    case Some(v) => v
    case None => Null
  }

  /** A JavaScript object used as a tag record (`Record<string, any>`), mutated in place. */
  class TagRecord {
    var entries: Table<string, Value>

    ghost predicate Valid()
      reads this
    {
      Unique(entries)
    }

    constructor ()
      ensures Valid() && entries == []
    {
      entries := [];
    }

    function Get(key: string): Option<Value>
      reads this
    {
      Find(entries, key)
    }

    /** `record[key] = v`. */
    method Set(key: string, v: Value)
      requires Valid()
      modifies this
      ensures Valid()
      ensures entries == Put(old(entries), key, v)
    {
      PutKeepsUnique(entries, key, v);
      entries := Put(entries, key, v);
    }
  }
}
