/** The decoded JSON value of an API response, and subscripting into it. */
module Json {
  import opened Wrappers

  /** What `response.json()` yields: Python's dict, list, str, int, float, bool and None. */
  datatype Json =
    | JNull
    | JBool(b: bool)
    | JInt(i: int)
    | JFloat(f: real)
    | JString(s: string)
    | JArray(items: seq<Json>)
    | JObject(members: map<string, Json>)

  /** One subscript: `v["key"]` on an object or `v[n]` on an array. */
  datatype Step = Key(key: string) | Index(index: nat)

  function Select(v: Json, step: Step): (r: Option<Json>)
    ensures r.Some? <==>
      (step.Key? && v.JObject? && step.key in v.members)
      || (step.Index? && v.JArray? && step.index < |v.items|)
  {
    match step
    case Key(k) => if v.JObject? && k in v.members then Some(v.members[k]) else None
    case Index(n) => if v.JArray? && n < |v.items| then Some(v.items[n]) else None
  }

  /** Applies the subscripts of `path` left to right; None at the first that does not apply. */
  function Lookup(v: Json, path: seq<Step>): Option<Json>
    decreases |path|
  {
    if path == [] then Some(v)
    else match Select(v, path[0])
      case None => None
      case Some(w) => Lookup(w, path[1..])
  }

  /** A one-step lookup is that subscript. */
  lemma LookupOne(v: Json, s: Step)
    ensures Lookup(v, [s]) == Select(v, s)
  {
    assert [s][1..] == [];
  }

  /** A two-step lookup is the two subscripts written out. */
  lemma LookupTwo(v: Json, s1: Step, s2: Step)
    ensures Lookup(v, [s1, s2]) ==
      match Select(v, s1) case None => None case Some(w) => Select(w, s2)
  {
    assert [s1, s2][1..] == [s2];
    match Select(v, s1)
    case None =>
    case Some(w) => LookupOne(w, s2);
  }
}
