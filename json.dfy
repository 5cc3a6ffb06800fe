/** JSON values as the backend's json module and the browser's JSON.parse
    produce them. An object keeps the order of its keys beside the map from
    key to value, because Python dicts and JavaScript objects iterate in
    insertion order and the backend's results depend on that order. */
module Json {

  datatype Option<T> = None | Some(value: T)

  /** JSON numbers are carried, never computed with, so an integer stands in
      for them. */
  datatype Value =
    | Null
    | Bool(b: bool)
    | Num(n: int)
    | Str(s: string)
    | Arr(items: seq<Value>)
    | Obj(keys: seq<string>, fields: map<string, Value>)

  /** Every key once, and exactly the keys of the map. Parsed objects and
      Python dicts always have this shape. */
  ghost predicate WellFormedObject(keys: seq<string>, fields: map<string, Value>)
  {
    && (forall i, j :: 0 <= i < j < |keys| ==> keys[i] != keys[j])
    && (forall k :: k in fields <==> k in keys)
  }

  ghost predicate IsObject(v: Value)
  {
    v.Obj? && WellFormedObject(v.keys, v.fields)
  }

  /** The strings of an array whose elements are all strings, or None for
      any other value. */
  function StringList(v: Value): (r: Option<seq<string>>)
    ensures r.Some? <==> v.Arr? && forall i :: 0 <= i < |v.items| ==> v.items[i].Str?
    ensures r.Some? ==> |r.value| == |v.items|
    ensures r.Some? ==> forall i :: 0 <= i < |v.items| ==> v.items[i] == Str(r.value[i])
  {
    if v.Arr? && forall i :: 0 <= i < |v.items| ==> v.items[i].Str? then
      Some(seq(|v.items|, i requires 0 <= i < |v.items| => v.items[i].s))
    else None
  }
}
