/** JSON values as Python's `json.loads` hands them to the scraper, and the
    handful of Python operations the scraper applies to them: truthiness,
    `dict.get(k, default)`, `d[k]`, `x or y`, iteration and `k in x`.
    An operation that raises in Python yields `None`. Floats are not
    modelled; every number is an integer. */
module PyJson {
  import opened Maybe

  datatype Json =
    | JNull
    | JBool(b: bool)
    | JInt(i: int)
    | JStr(s: string)
    | JArr(items: seq<Json>)
    | JObj(fields: seq<(string, Json)>)

  /** The empty dict `{}` */
  const EmptyObj: Json := JObj([])

  /** The empty list `[]` */
  const EmptyArr: Json := JArr([])

  /** Python's `bool(x)`: `None`, `False`, `0`, `''`, `[]` and `{}` are false */
  predicate Truthy(j: Json) {
    match j
    case JNull => false
    case JBool(b) => b
    case JInt(i) => i != 0
    case JStr(s) => s != []
    case JArr(items) => items != []
    case JObj(fields) => fields != []
  }

  /** The keys of a dict, in insertion order */
  function Keys(fields: seq<(string, Json)>): (ks: seq<string>)
    ensures |ks| == |fields|
    ensures forall i :: 0 <= i < |fields| ==> ks[i] == fields[i].0
  {
    if fields == [] then [] else [fields[0].0] + Keys(fields[1..])
  }

  /** The value stored under `k`, if any */
  function Lookup(fields: seq<(string, Json)>, k: string): (r: Option<Json>)
    ensures r.Some? <==> k in Keys(fields)
    ensures r.Some? ==> (k, r.value) in fields
  {
    if fields == [] then None
    else if fields[0].0 == k then Some(fields[0].1)
    else Lookup(fields[1..], k)
  }

  /** The dict `fields` holds `v` under `k` */
  predicate Stores(fields: seq<(string, Json)>, k: string, v: Json) {
    Lookup(fields, k) == Some(v)
  }

  /** `v` is what `d.get(k, default)` answers on the dict `fields`: the
      value stored under `k` when there is one, `default` otherwise */
  predicate GetsAs(fields: seq<(string, Json)>, k: string, default: Json, v: Json) {
    match Lookup(fields, k)
    case Some(stored) => v == stored
    case None => v == default
  }

  /** `d.get(k, default)` on a dict's fields, which never raises */
  function Field(fields: seq<(string, Json)>, k: string, default: Json): (v: Json)
    ensures k !in Keys(fields) ==> v == default
    ensures k in Keys(fields) ==> (k, v) in fields
    ensures GetsAs(fields, k, default, v)
  {
    Lookup(fields, k).GetOr(default)
  }

  /** `x.get(k, default)`: the stored value or `default` on a dict, an
      AttributeError on anything else */
  function Get(j: Json, k: string, default: Json): (r: Option<Json>)
    ensures r.Some? <==> j.JObj?
    ensures j.JObj? && k !in Keys(j.fields) ==> r == Some(default)
    ensures j.JObj? && k in Keys(j.fields) ==> (k, r.value) in j.fields
  {
    match j
    case JObj(fields) => Some(Field(fields, k, default))
    case _ => None
  }

  /** `x[k]` with a string key: a KeyError when a dict lacks `k`, a
      TypeError on anything that is not a dict */
  function Index(j: Json, k: string): (r: Option<Json>)
    ensures r.Some? <==> j.JObj? && k in Keys(j.fields)
  {
    match j
    case JObj(fields) => Lookup(fields, k)
    case _ => None
  }

  /** `a or b` */
  function Or(a: Json, b: Json): Json {
    if Truthy(a) then a else b
  }

  /** The one-character strings of `s`, as iterating a Python string yields them */
  function Chars(s: string): (r: seq<Json>)
    ensures |r| == |s|
    ensures forall i :: 0 <= i < |s| ==> r[i] == JStr([s[i]])
  {
    if s == [] then [] else [JStr([s[0]])] + Chars(s[1..])
  }

  /** The keys of a dict as string values, as iterating a Python dict yields them */
  function KeyValues(fields: seq<(string, Json)>): (r: seq<Json>)
    ensures |r| == |fields|
    ensures forall i :: 0 <= i < |fields| ==> r[i] == JStr(fields[i].0)
  {
    if fields == [] then [] else [JStr(fields[0].0)] + KeyValues(fields[1..])
  }

  /** `for x in j`: list elements, string characters or dict keys; a
      TypeError for `None`, booleans and numbers */
  function Iter(j: Json): (r: Option<seq<Json>>)
    ensures r.Some? <==> (j.JArr? || j.JStr? || j.JObj?)
    ensures j.JArr? ==> r == Some(j.items)
  {
    match j
    case JArr(items) => Some(items)
    case JStr(s) => Some(Chars(s))
    case JObj(fields) => Some(KeyValues(fields))
    case _ => None
  }

  /** `sub` occurs in `s` as a contiguous run */
  predicate IsSubstring(sub: string, s: string)
    decreases |s|
  {
    sub <= s || (s != [] && IsSubstring(sub, s[1..]))
  }

  /** `k in j`: key membership for a dict, element membership for a list,
      substring for a string, a TypeError otherwise */
  function Contains(j: Json, k: string): (r: Option<bool>)
    ensures r.Some? <==> (j.JArr? || j.JStr? || j.JObj?)
    ensures j.JObj? ==> r == Some(k in Keys(j.fields))
  {
    match j
    case JObj(fields) => Some(k in Keys(fields))
    case JArr(items) => Some(JStr(k) in items)
    case JStr(s) => Some(IsSubstring(k, s))
    case _ => None
  }

  /** Values Python can put in a `set`: lists and dicts are unhashable */
  predicate Hashable(j: Json) {
    !j.JArr? && !j.JObj?
  }
}
