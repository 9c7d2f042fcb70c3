/** The dynamically typed values that flow through the pipeline: what the
    JSON decoder produces and what the command-line layer hands over, with
    Python's notion of truthiness. */
module Values {

  /** A decoded value. An object is kept as the (key, value) pairs of the
      Python dict in insertion order; numbers are integers. */
  datatype Value =
    | Null
    | Bool(b: bool)
    | Int(i: int)
    | Str(s: string)
    | List(elems: seq<Value>)
    | Obj(fields: seq<(string, Value)>)

  /** Python truthiness: `None`, `False`, `0`, `""`, `[]` and `{}` are falsy. */
  predicate Truthy(v: Value) {
    match v
    case Null => false
    case Bool(b) => b
    case Int(i) => i != 0
    case Str(s) => s != ""
    case List(xs) => xs != []
    case Obj(fs) => fs != []
  }

  /** `d.get(k)`: the value stored under `k`, or `None` when `k` is absent. */
  function Get(d: map<string, Value>, k: string): Value {
    if k in d then d[k] else Null
  }

  /** The dict built from ordered pairs, a later pair overriding an earlier
      one with the same key (`dict(pairs)`, `{k: v for k, v in pairs}`). */
  function ToMap<V>(pairs: seq<(string, V)>): map<string, V>
  {
    if pairs == [] then map[]
    else ToMap(pairs[..|pairs| - 1])[pairs[|pairs| - 1].0 := pairs[|pairs| - 1].1]
  }

  /** The keys appearing in a sequence of pairs. */
  function KeysOf<V>(pairs: seq<(string, V)>): set<string> {
    set i | 0 <= i < |pairs| :: pairs[i].0
  }

  /** `dict(pairs)` has exactly the keys of the pairs. */
  lemma {:induction false} ToMapKeys<V>(pairs: seq<(string, V)>)
    ensures ToMap(pairs).Keys == KeysOf(pairs)
  {
    if pairs != [] {
      var n := |pairs| - 1;
      ToMapKeys(pairs[..n]);
      assert KeysOf(pairs) == KeysOf(pairs[..n]) + {pairs[n].0} by {
        forall k | k in KeysOf(pairs) ensures k in KeysOf(pairs[..n]) + {pairs[n].0} {
          var i :| 0 <= i < |pairs| && pairs[i].0 == k;
          if i < n {
            assert pairs[..n][i].0 == k;
          }
        }
        forall k | k in KeysOf(pairs[..n]) ensures k in KeysOf(pairs) {
          var i :| 0 <= i < n && pairs[..n][i].0 == k;
          assert pairs[i].0 == k;
        }
      }
    }
  }

  /** Under `dict(pairs)` a key holds the value of its last pair. */
  lemma {:induction false} ToMapLast<V>(pairs: seq<(string, V)>, i: int)
    requires 0 <= i < |pairs| && LastWithKey(pairs, i)
    ensures pairs[i].0 in ToMap(pairs) && ToMap(pairs)[pairs[i].0] == pairs[i].1
  {
    var n := |pairs| - 1;
    if i < n {
      var init := pairs[..n];
      assert init[i] == pairs[i];
      assert LastWithKey(init, i);
      ToMapLast(init, i);
    }
  }

  /** No pair after position `i` has the same key as pair `i`. */
  predicate LastWithKey<V>(pairs: seq<(string, V)>, i: int)
    requires 0 <= i < |pairs|
  {
    forall j :: i < j < |pairs| ==> pairs[j].0 != pairs[i].0
  }
}
