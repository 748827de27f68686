/**
 * Point maps: a point-type key mapped to an integer total. A key that is absent
 * reads as 0, as the store's `points[key] || 0` does.
 */
module Points {

  type PointMap = map<string, int>

  /** The value of `key`, or 0 when the key is absent. */
  function Lookup(m: PointMap, key: string): int {
    if key in m then m[key] else 0
  }

  /**
   * The map obtained by adding every delta of `deltas` to the matching key of
   * `base`, a missing key starting from 0; every other key is kept.
   */
  function Added(base: PointMap, deltas: PointMap): (r: PointMap)
    ensures r.Keys == base.Keys + deltas.Keys
  {
    map k | k in base.Keys + deltas.Keys :: Lookup(base, k) + Lookup(deltas, k)
  }

  /** Every key of the result holds the old value plus its delta, absent keys reading as 0. */
  lemma AddedAt(base: PointMap, deltas: PointMap, key: string)
    ensures Lookup(Added(base, deltas), key) == Lookup(base, key) + Lookup(deltas, key)
  {
  }

  /**
   * The accumulation loop of `addUniversalPoints`, `addRoutePoints` and
   * `addProloguePoints`: copy `base`, then for each entry of `deltas` set
   * `r[key] := (r[key] || 0) + delta`.
   */
  method Accumulate(base: PointMap, deltas: PointMap) returns (r: PointMap)
    ensures r == Added(base, deltas)
  {
    r := base;
    var todo := deltas.Keys;
    while todo != {}
      invariant todo <= deltas.Keys
      invariant r.Keys == base.Keys + (deltas.Keys - todo)
      invariant forall k | k in r :: r[k] == Lookup(base, k) + (if k in todo then 0 else Lookup(deltas, k))
      decreases todo
    {
      var key :| key in todo;
      r := r[key := Lookup(r, key) + deltas[key]];
      todo := todo - {key};
    }
  }

  /** Awards with no negative delta never lower a total. */
  lemma AddedMonotone(base: PointMap, deltas: PointMap, key: string)
    requires forall k | k in deltas :: deltas[k] >= 0
    ensures Lookup(Added(base, deltas), key) >= Lookup(base, key)
  {
  }
}
