/** JSON values as Python holds them after `json.load`, together with the
    Python operations the repository applies to them without checking their
    type first. Each of those operations returns a `Result`, so the
    `TypeError`/`KeyError`/`AttributeError` a wrong shape raises is part of
    the model. */
module JsonValues {
  import opened Wrappers
  import opened Strings
  import opened Dicts

  datatype Json =
    | Null
    | Bool(b: bool)
    | Num(n: int)
    | Str(s: string)
    | Arr(items: seq<Json>)
    | Obj(fields: Dict<string, Json>)

  /** The entries of a JSON object, in insertion order. */
  type Fields = Dict<string, Json>

  /** Lists and dicts are unhashable: they cannot be looked up as keys. */
  predicate Hashable(j: Json) {
    !j.Arr? && !j.Obj?
  }

  /** Python `x in c`: key test on a dict, element test on a list,
      substring test on a string, and `TypeError` otherwise. */
  function PyIn(x: Json, c: Json): (r: Result<bool>)
    ensures c.Obj? && x.Str? ==> r == Ok(x.s in Keys(c.fields))
    ensures c.Arr? ==> r == Ok(x in c.items)
    ensures c.Str? ==> (r.Ok? <==> x.Str?)
    ensures r.Ok? ==> c.Obj? || c.Arr? || c.Str?
  {
    match c
    case Obj(fields) => if Hashable(x) then Ok(x.Str? && x.s in Keys(fields)) else Err("TypeError")
    case Arr(items) => Ok(x in items)
    case Str(s) => if x.Str? then Ok(Contains(s, x.s)) else Err("TypeError")
    case _ => Err("TypeError")
  }

  /** Python `key in c` for a string key. */
  function PyHas(c: Json, key: string): Result<bool> {
    PyIn(Str(key), c)
  }

  /** Python `c[key]` for a string key. */
  function PyIndex(c: Json, key: string): (r: Result<Json>)
    ensures r.Ok? <==> c.Obj? && key in Keys(c.fields)
    ensures r.Ok? ==> Get(c.fields, key) == Some(r.value)
  {
    if c.Obj? then
      match Get(c.fields, key)
      case Some(v) => Ok(v)
      case None => Err("KeyError")
    else Err("TypeError")
  }

  /** Python `c.get(key, default)`: only dicts have `get`. A key that is
      present with a JSON null yields null, not the default. */
  function PyGet(c: Json, key: string, default: Json): (r: Result<Json>)
    ensures r.Ok? <==> c.Obj?
    ensures c.Obj? && key !in Keys(c.fields) ==> r == Ok(default)
    ensures c.Obj? && key in Keys(c.fields) ==> Ok(r.value) == PyIndex(c, key)
  {
    if c.Obj? then Ok(Get(c.fields, key).GetOr(default)) else Err("AttributeError")
  }

  /** Python `c[key] = v` for a string key. */
  function PySet(c: Json, key: string, v: Json): (r: Result<Json>)
    ensures r.Ok? <==> c.Obj?
    ensures r.Ok? ==> r.value.Obj? && Get(r.value.fields, key) == Some(v)
    ensures r.Ok? ==> forall k :: k != key ==> Get(r.value.fields, k) == Get(c.fields, k)
  {
    if c.Obj? then Ok(Obj(Set(c.fields, key, v))) else Err("TypeError")
  }

  /** Python truthiness. */
  predicate Truthy(j: Json) {
    match j
    case Null => false
    case Bool(b) => b
    case Num(n) => n != 0
    case Str(s) => |s| > 0
    case Arr(items) => |items| > 0
    case Obj(fields) => |fields| > 0
  }

  function KeysAsJson(ks: seq<string>): (r: seq<Json>)
    ensures |r| == |ks| && forall i :: 0 <= i < |ks| ==> r[i] == Str(ks[i])
  {
    seq(|ks|, i requires 0 <= i < |ks| => Str(ks[i]))
  }

  /** What a Python `for` loop over `c` visits: list items, dict keys, or
      the one-character strings of a string. */
  function PyIter(c: Json): (r: Result<seq<Json>>)
    ensures c.Arr? ==> r == Ok(c.items)
    ensures r.Ok? <==> c.Arr? || c.Obj? || c.Str?
    ensures c.Obj? || c.Str? ==> r.Ok? && forall i :: 0 <= i < |r.value| ==> r.value[i].Str?
  {
    match c
    case Arr(items) => Ok(items)
    case Obj(fields) => Ok(KeysAsJson(Keys(fields)))
    case Str(s) => Ok(seq(|s|, i requires 0 <= i < |s| => Str([s[i]])))
    case _ => Err("TypeError")
  }

  /** Python `len(c)`. */
  function PyLen(c: Json): (r: Result<nat>)
    ensures r.Ok? <==> c.Arr? || c.Obj? || c.Str?
    ensures c.Arr? ==> r == Ok(|c.items|)
    ensures c.Str? ==> r == Ok(|c.s|)
  {
    match c
    case Arr(items) => Ok(|items|)
    case Obj(fields) => Ok(|Keys(fields)|)
    case Str(s) => Ok(|s|)
    case _ => Err("TypeError")
  }

  /** Python `c[i]` for an integer index, negative indices counting from
      the end. */
  function PyAt(c: Json, i: int): (r: Result<Json>)
    ensures c.Arr? && 0 <= i < |c.items| ==> r == Ok(c.items[i])
    ensures r.Ok? ==> c.Arr? || c.Str?
  {
    match c
    case Arr(items) =>
      var k := if i < 0 then i + |items| else i;
      if 0 <= k < |items| then Ok(items[k]) else Err("IndexError")
    case Str(s) =>
      var k := if i < 0 then i + |s| else i;
      if 0 <= k < |s| then Ok(Str([s[k]])) else Err("IndexError")
    case Obj(_) => Err("KeyError")
    case _ => Err("TypeError")
  }

  /** `f"{j}"` for the scalar shapes; containers are not formatted here. */
  function Display(j: Json): (r: Result<string>)
    ensures j.Str? ==> r == Ok(j.s)
    ensures r.Ok? <==> !j.Arr? && !j.Obj?
  {
    match j
    case Str(s) => Ok(s)
    case Num(n) => Ok(IntToString(n))
    case Bool(b) => Ok(if b then "True" else "False")
    case Null => Ok("None")
    case _ => Err("NotModelled")
  }
}
