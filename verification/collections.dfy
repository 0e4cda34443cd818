/** Small facts about sequences and maps shared by the aggregations. */
module Collections {

  /** The sum of a sequence of counts. */
  function Sum(xs: seq<nat>): nat
  {
    if |xs| == 0 then 0 else Sum(xs[..|xs| - 1]) + xs[|xs| - 1]
  }

  predicate NoDuplicates<T(==)>(xs: seq<T>)
  {
    forall i, j :: 0 <= i < j < |xs| ==> xs[i] != xs[j]
  }

  /** Inserts `k` with value 0 when it is missing, then adds `d` to its value:
      the `points.get(k, 0) + d` idiom. */
  function Bump<K>(m: map<K, nat>, k: K, d: nat): (r: map<K, nat>)
    ensures r.Keys == m.Keys + {k}
    ensures r[k] == (if k in m then m[k] else 0) + d
    ensures forall j :: j in m && j != k ==> r[j] == m[j]
  {
    m[k := (if k in m then m[k] else 0) + d]
  }

  /** The value stored under `k`, or 0 when `k` is absent. */
  function GetOrZero<K>(m: map<K, nat>, k: K): nat
  {
    if k in m then m[k] else 0
  }

  /** The sum of all values of a map. */
  ghost function MapSum<K>(m: map<K, nat>): nat
    decreases m.Keys
  {
    if m.Keys == {} then 0
    else
      var k :| k in m.Keys;
      m[k] + MapSum(m - {k})
  }

  /** Removing any one key takes exactly its value out of the sum. */
  lemma {:induction false} MapSumRemove<K>(m: map<K, nat>, k: K)
    requires k in m
    ensures MapSum(m) == m[k] + MapSum(m - {k})
    decreases m.Keys
  {
    var j :| j in m.Keys && MapSum(m) == m[j] + MapSum(m - {j});
    if j != k {
      MapSumRemove(m - {j}, k);
      MapSumRemove(m - {k}, j);
      assert (m - {j}) - {k} == (m - {k}) - {j};
    }
  }

  /** Bumping one key by `d` raises the sum by exactly `d`. */
  lemma MapSumBump<K>(m: map<K, nat>, k: K, d: nat)
    ensures MapSum(Bump(m, k, d)) == MapSum(m) + d
  {
    var r := Bump(m, k, d);
    MapSumRemove(r, k);
    assert r - {k} == m - {k};
    if k in m {
      MapSumRemove(m, k);
    } else {
      assert m - {k} == m;
    }
  }

  /** A non-empty map has a key whose value no other value exceeds. */
  lemma {:induction false} MaxKeyExists<K>(m: map<K, nat>)
    requires m.Keys != {}
    ensures exists k :: k in m && forall j :: j in m ==> m[j] <= m[k]
    decreases m.Keys
  {
    var k :| k in m.Keys;
    var rest := m - {k};
    assert m.Keys == rest.Keys + {k};
    if rest.Keys == {} {
      assert forall j :: j in m ==> m[j] <= m[k];
    } else {
      MaxKeyExists(rest);
      var b :| b in rest && forall j :: j in rest ==> rest[j] <= rest[b];
      var top := if m[b] < m[k] then k else b;
      forall j | j in m
        ensures m[j] <= m[top]
      {
        if j != k {
          assert j in rest;
        }
      }
      assert top in m;
    }
  }
}
