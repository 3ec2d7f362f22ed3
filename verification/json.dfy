/**
 A parsed JSON document, as Python's json.load returns it: null, booleans,
 numbers, strings, arrays and objects. Objects keep their members in document
 order (Python dicts preserve insertion order). json.load collapses a repeated
 key into one entry, at the key's first position with its last value; a JObj
 here keeps every occurrence, so walks over its members describe Python's
 behaviour only for objects whose keys are distinct (Lookup alone follows the
 collapsing rule).
 */
module JsonTree {
  import opened Text

  datatype Json =
    | JNull
    | JBool(b: bool)
    | JNum(n: real)
    | JStr(s: string)
    | JArr(items: seq<Json>)
    | JObj(members: seq<Member>)

  datatype Member = Member(key: string, value: Json)

  /** Python's isinstance(v, (dict, list)). */
  predicate IsContainer(j: Json) {
    j.JArr? || j.JObj?
  }

  /** Python's `v == "" or v is None`. */
  predicate IsBlank(j: Json) {
    j == JStr("") || j == JNull
  }

  /** Python truthiness of a JSON value. */
  predicate PyTruthy(j: Json) {
    match j
    case JNull => false
    case JBool(b) => b
    case JNum(n) => n != 0.0
    case JStr(s) => s != ""
    case JArr(items) => |items| > 0
    case JObj(members) => |members| > 0
  }

  predicate HasKey(ms: seq<Member>, k: string) {
    exists i :: 0 <= i < |ms| && ms[i].key == k
  }

  /** i is the position of the last member whose key is k. */
  predicate LastWithKey(ms: seq<Member>, k: string, i: int) {
    0 <= i < |ms| && ms[i].key == k && forall j :: i < j < |ms| ==> ms[j].key != k
  }

  /** Python's d.get(k) on the dict json.load builds from ms: for a repeated
      key the last occurrence wins. */
  function Lookup(ms: seq<Member>, k: string): (r: Option<Json>)
    ensures r.Some? <==> HasKey(ms, k)
    ensures r.Some? ==> exists i :: LastWithKey(ms, k, i) && ms[i].value == r.value
  {
    if |ms| == 0 then None
    else if ms[|ms| - 1].key == k then Some(ms[|ms| - 1].value)
    else
      var r := Lookup(ms[..|ms| - 1], k);
      assert HasKey(ms, k) <==> HasKey(ms[..|ms| - 1], k) by {
        if HasKey(ms, k) {
          var i :| 0 <= i < |ms| && ms[i].key == k;
          assert i < |ms| - 1 && ms[..|ms| - 1][i].key == k;
        }
        if HasKey(ms[..|ms| - 1], k) {
          var i :| 0 <= i < |ms| - 1 && ms[..|ms| - 1][i].key == k;
          assert ms[i].key == k;
        }
      }
      if r.Some? then
        var i :| LastWithKey(ms[..|ms| - 1], k, i) && ms[..|ms| - 1][i].value == r.value;
        assert LastWithKey(ms, k, i) by {
          forall j | i < j < |ms| ensures ms[j].key != k {
            if j < |ms| - 1 { assert ms[..|ms| - 1][j] == ms[j]; }
          }
        }
        r
      else r
  }
}
