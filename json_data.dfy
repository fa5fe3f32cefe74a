/** Values as Python's json module decodes them from the Article Search API's
    response: null, booleans, numbers (integers only here), strings, objects
    (Python dicts, in insertion order) and arrays (Python lists). */
module JsonData {
  import opened Wrappers

  datatype Json =
    | JNull
    | JBool(b: bool)
    | JInt(i: int)
    | JStr(s: string)
    | JObj(members: seq<(string, Json)>)
    | JArr(items: seq<Json>)

  /** The members of one JSON object, such as one raw article. */
  type Members = seq<(string, Json)>

  /** `k` is the position of the first member whose key is `key`. */
  predicate FirstKeyAt(members: Members, key: string, k: int)
  {
    0 <= k < |members| && members[k].0 == key &&
    forall m :: 0 <= m < k ==> members[m].0 != key
  }

  /** Python's `key in d` followed by `d[key]`.  Keys of a decoded dict are
      distinct, so the first member with the key is the only one. */
  function Lookup(members: Members, key: string): (r: Option<Json>)
    ensures r.None? <==> forall k :: 0 <= k < |members| ==> members[k].0 != key
    ensures r.Some? ==> exists k :: FirstKeyAt(members, key, k) && members[k].1 == r.value
  {
    if members == [] then None
    else if members[0].0 == key then
      assert FirstKeyAt(members, key, 0);
      Some(members[0].1)
    else
      var r := Lookup(members[1..], key);
      if r.None? then
        assert forall k :: 1 <= k < |members| ==> members[k] == members[1..][k - 1];
        r
      else
        var k :| FirstKeyAt(members[1..], key, k) && members[1..][k].1 == r.value;
        assert FirstKeyAt(members, key, k + 1) by {
          forall m | 0 <= m < k + 1 ensures members[m].0 != key {
            if m > 0 { assert members[m] == members[1..][m - 1]; }
          }
        }
        r
  }

  /** Python's truth value of a decoded JSON value (`if x:`). */
  predicate Truthy(j: Json)
  {
    match j
    case JNull => false
    case JBool(b) => b
    case JInt(i) => i != 0
    case JStr(s) => s != []
    case JObj(ms) => ms != []
    case JArr(items) => items != []
  }

  /** Python's `isinstance(x, (dict, list))`. */
  predicate IsContainer(j: Json)
  {
    j.JObj? || j.JArr?
  }
}
