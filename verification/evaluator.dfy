/**
 * The requirement evaluator, `checkPointRequirements`: it compares each listed
 * threshold with the current total of its namespace, records the deficit of
 * every key that falls short, and is satisfied when no deficit was recorded.
 */
module Evaluator {
  import opened Wrappers
  import opened Points
  import opened Content
  import opened SessionState

  /** The deficits of one namespace, keyed like the thresholds. */
  datatype MissingPoints = MissingPoints(universal: PointMap, route: PointMap, prologue: PointMap)

  /** The store's `PointCheck` result. */
  datatype PointCheck = PointCheck(
    hasRequirements: bool,
    missingPoints: MissingPoints,
    totalPointsNeeded: int)

  /** Every listed threshold is met by `current`, an absent key reading as 0. */
  predicate MeetsAll(needed: PointMap, current: PointMap) {
    forall k | k in needed :: Lookup(current, k) >= needed[k]
  }

  /** The keys of `needed` among `keys` that fall short, each with `needed - current`. */
  function DeficitsOver(needed: PointMap, current: PointMap, keys: set<string>): PointMap {
    map k | k in keys && k in needed && Lookup(current, k) < needed[k] :: needed[k] - Lookup(current, k)
  }

  function Deficits(needed: PointMap, current: PointMap): PointMap {
    DeficitsOver(needed, current, needed.Keys)
  }

  /** How far `current` falls short of the threshold of `key`, or 0 when it is met. */
  function Shortfall(needed: PointMap, current: PointMap, key: string): int
    requires key in needed
  {
    if Lookup(current, key) < needed[key] then needed[key] - Lookup(current, key) else 0
  }

  /** The sum of the shortfalls over `keys`, in no particular order. */
  ghost function TotalShortfall(needed: PointMap, current: PointMap, keys: set<string>): int
    requires keys <= needed.Keys
    decreases keys
  {
    if keys == {} then 0
    else
      var k :| k in keys;
      Shortfall(needed, current, k) + TotalShortfall(needed, current, keys - {k})
  }

  /** The sum does not depend on which key is taken first. */
  lemma {:induction false} TotalShortfallRemove(needed: PointMap, current: PointMap, keys: set<string>, key: string)
    requires keys <= needed.Keys && key in keys
    ensures TotalShortfall(needed, current, keys) ==
            Shortfall(needed, current, key) + TotalShortfall(needed, current, keys - {key})
    decreases keys
  {
    var k :| k in keys && TotalShortfall(needed, current, keys) ==
      Shortfall(needed, current, k) + TotalShortfall(needed, current, keys - {k});
    if k != key {
      TotalShortfallRemove(needed, current, keys - {k}, key);
      TotalShortfallRemove(needed, current, keys - {key}, k);
      assert keys - {k} - {key} == keys - {key} - {k};
    }
  }

  /** The sum of shortfalls is never negative, and it is 0 exactly when every threshold over `keys` is met. */
  lemma {:induction false} TotalShortfallZero(needed: PointMap, current: PointMap, keys: set<string>)
    requires keys <= needed.Keys
    ensures TotalShortfall(needed, current, keys) >= 0
    ensures TotalShortfall(needed, current, keys) == 0 <==>
            forall k | k in keys :: Lookup(current, k) >= needed[k]
    decreases keys
  {
    if keys != {} {
      var k :| k in keys;
      TotalShortfallRemove(needed, current, keys, k);
      TotalShortfallZero(needed, current, keys - {k});
    }
  }

  /**
   * One namespace of `checkPointRequirements`: the `forEach` over the
   * thresholds, recording each deficit and adding it to the running total.
   */
  method CheckNamespace(needed: PointMap, current: PointMap) returns (met: bool, missing: PointMap, shortfall: int)
    ensures met == MeetsAll(needed, current)
    ensures missing == Deficits(needed, current)
    ensures shortfall == TotalShortfall(needed, current, needed.Keys)
  {
    met, missing, shortfall := true, map[], 0;
    var todo := needed.Keys;
    while todo != {}
      invariant todo <= needed.Keys
      invariant met == forall k | k in needed.Keys - todo :: Lookup(current, k) >= needed[k]
      invariant missing == DeficitsOver(needed, current, needed.Keys - todo)
      invariant shortfall == TotalShortfall(needed, current, needed.Keys - todo)
      decreases todo
    {
      var key :| key in todo;
      ghost var done := needed.Keys - todo;
      TotalShortfallRemove(needed, current, done + {key}, key);
      assert done + {key} - {key} == done;
      var cur := Lookup(current, key);
      if cur < needed[key] {
        missing := missing[key := needed[key] - cur];
        met := false;
        shortfall := shortfall + (needed[key] - cur);
      }
      todo := todo - {key};
      assert needed.Keys - todo == done + {key};
    }
    assert needed.Keys - todo == needed.Keys;
  }

  /**
   * Whether `req` is met in state `s`. Route thresholds are compared with the
   * active route's points only when a route is active; with none they are skipped.
   */
  predicate Meets(req: PointRequirements, s: Session) {
    && MeetsAll(req.universal, s.universalPoints)
    && (Active(s.currentRouteId) ==> MeetsAll(req.route, CurrentRoutePoints(s)))
    && MeetsAll(req.prologue, s.prologuePoints)
  }

  /** An optional `requires`: absent means always open. */
  predicate IsOpen(requirements: Option<PointRequirements>, s: Session) {
    requirements.None? || Meets(requirements.value, s)
  }

  /** The deficits `checkPointRequirements` reports, per namespace. */
  function Missing(req: PointRequirements, s: Session): MissingPoints {
    MissingPoints(
      Deficits(req.universal, s.universalPoints),
      if Active(s.currentRouteId) then Deficits(req.route, CurrentRoutePoints(s)) else map[],
      Deficits(req.prologue, s.prologuePoints))
  }

  /** The `totalPointsNeeded` it reports: the sum of every recorded deficit. */
  ghost function TotalNeeded(req: PointRequirements, s: Session): int {
    TotalShortfall(req.universal, s.universalPoints, req.universal.Keys)
    + (if Active(s.currentRouteId) then TotalShortfall(req.route, CurrentRoutePoints(s), req.route.Keys) else 0)
    + TotalShortfall(req.prologue, s.prologuePoints, req.prologue.Keys)
  }

  /** `checkPointRequirements` over the point state of `s`. */
  method CheckPointRequirements(req: PointRequirements, s: Session) returns (check: PointCheck)
    ensures check.hasRequirements == Meets(req, s)
    ensures check.missingPoints == Missing(req, s)
    ensures check.totalPointsNeeded == TotalNeeded(req, s)
  {
    var uMet, uMissing, uTotal := CheckNamespace(req.universal, s.universalPoints);
    var rMet, rMissing, rTotal := true, map[], 0;
    if Active(s.currentRouteId) {
      rMet, rMissing, rTotal := CheckNamespace(req.route, CurrentRoutePoints(s));
    }
    var pMet, pMissing, pTotal := CheckNamespace(req.prologue, s.prologuePoints);
    check := PointCheck(uMet && rMet && pMet, MissingPoints(uMissing, rMissing, pMissing), uTotal + rTotal + pTotal);
  }

  /**
   * What a check reports, read back: a key is missing exactly when it is listed
   * and its current total (0 when absent) is below the threshold, with the
   * difference as its value.
   */
  lemma DeficitsAt(needed: PointMap, current: PointMap, key: string)
    ensures key in Deficits(needed, current) <==> key in needed && Lookup(current, key) < needed[key]
    ensures key in Deficits(needed, current) ==>
              Deficits(needed, current)[key] == needed[key] - Lookup(current, key) > 0
  {
  }

  /**
   * The three results agree: the requirements are met exactly when no deficit
   * was recorded, exactly when the total needed is 0; the total is never negative.
   */
  lemma CheckConsistent(req: PointRequirements, s: Session)
    ensures TotalNeeded(req, s) >= 0
    ensures Meets(req, s) <==> TotalNeeded(req, s) == 0
    ensures Meets(req, s) <==> Missing(req, s) == MissingPoints(map[], map[], map[])
  {
    TotalShortfallZero(req.universal, s.universalPoints, req.universal.Keys);
    TotalShortfallZero(req.route, CurrentRoutePoints(s), req.route.Keys);
    TotalShortfallZero(req.prologue, s.prologuePoints, req.prologue.Keys);
    EmptyDeficits(req.universal, s.universalPoints);
    EmptyDeficits(req.route, CurrentRoutePoints(s));
    EmptyDeficits(req.prologue, s.prologuePoints);
  }

  lemma EmptyDeficits(needed: PointMap, current: PointMap)
    ensures Deficits(needed, current) == map[] <==> MeetsAll(needed, current)
  {
    if !MeetsAll(needed, current) {
      var k :| k in needed && Lookup(current, k) < needed[k];
      assert k in Deficits(needed, current);
    }
  }

  /** With no active route, route thresholds are ignored rather than failed. */
  lemma RouteThresholdsIgnoredWithoutRoute(req: PointRequirements, s: Session)
    requires !Active(s.currentRouteId)
    ensures Meets(req, s) == Meets(req.(route := map[]), s)
    ensures Missing(req, s).route == map[]
  {
  }

  /** A threshold of 0 or less is met by a key that was never awarded. */
  lemma NonPositiveThresholdMetWhenAbsent(needed: PointMap, current: PointMap, key: string)
    requires key in needed && key !in current && needed[key] <= 0
    ensures key !in Deficits(needed, current)
  {
  }

  /** Only the listed keys matter: raising a total can only help. */
  lemma MeetsAllMonotone(needed: PointMap, current: PointMap, more: PointMap)
    requires forall k | k in needed :: Lookup(more, k) >= Lookup(current, k)
    requires MeetsAll(needed, current)
    ensures MeetsAll(needed, more)
  {
  }
}
