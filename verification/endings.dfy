/**
 * `findBestEnding`: among the endings whose `requires` is met, one of highest
 * priority, the earliest in authoring order among equals (the source sorts the
 * eligible endings by descending priority with a stable sort and takes the
 * head); with none eligible, the first ending; with no endings, none.
 */
module Endings {
  import opened Wrappers
  import opened Content
  import opened SessionState
  import opened Evaluator

  /** `ending.priority || 0`. */
  function Priority(e: RouteEnding): int {
    e.priority.GetOr(0)
  }

  predicate Eligible(e: RouteEnding, s: Session) {
    IsOpen(e.requirements, s)
  }

  /**
   * The index of the earliest eligible ending of greatest priority among the
   * first `n` endings, or -1 when none of them is eligible.
   */
  function BestIndex(endings: seq<RouteEnding>, n: nat, s: Session): (k: int)
    requires n <= |endings|
    ensures -1 <= k < n
    ensures k == -1 <==> forall j :: 0 <= j < n ==> !Eligible(endings[j], s)
    ensures k >= 0 ==> Eligible(endings[k], s)
    ensures k >= 0 ==> forall j :: 0 <= j < n && Eligible(endings[j], s) ==> Priority(endings[j]) <= Priority(endings[k])
    ensures k >= 0 ==> forall j :: 0 <= j < k && Eligible(endings[j], s) ==> Priority(endings[j]) < Priority(endings[k])
  {
    if n == 0 then -1
    else
      var k := BestIndex(endings, n - 1, s);
      var last := endings[n - 1];
      if Eligible(last, s) && (k == -1 || Priority(last) > Priority(endings[k])) then n - 1 else k
  }

  /** `findBestEnding(endings)` in state `s`. */
  function FindBestEnding(endings: seq<RouteEnding>, s: Session): (r: Option<RouteEnding>)
    ensures r.None? <==> endings == []
    ensures r.Some? ==> r.value in endings
    ensures (forall e | e in endings :: !Eligible(e, s)) && endings != [] ==> r == Some(endings[0])
    ensures (exists e | e in endings :: Eligible(e, s)) ==>
              r.Some? && Eligible(r.value, s) &&
              forall e | e in endings && Eligible(e, s) :: Priority(e) <= Priority(r.value)
  {
    var k := BestIndex(endings, |endings|, s);
    if k >= 0 then Some(endings[k])
    else if |endings| > 0 then Some(endings[0])
    else None
  }

  /**
   * The tie-break: the ending chosen sits at an index `k` such that every
   * eligible ending before it has strictly lower priority, as the head of a
   * stable descending sort does.
   */
  lemma FindBestEndingEarliest(endings: seq<RouteEnding>, s: Session)
    requires exists e | e in endings :: Eligible(e, s)
    ensures exists k :: 0 <= k < |endings| && FindBestEnding(endings, s) == Some(endings[k]) &&
              forall j :: 0 <= j < k && Eligible(endings[j], s) ==> Priority(endings[j]) < Priority(endings[k])
  {
    var k := BestIndex(endings, |endings|, s);
    assert k >= 0;
    assert FindBestEnding(endings, s) == Some(endings[k]);
  }

  /** Appending endings that are not eligible never changes the choice, unless the list was empty. */
  lemma FindBestEndingIgnoresIneligible(endings: seq<RouteEnding>, extra: seq<RouteEnding>, s: Session)
    requires endings != []
    requires forall e | e in extra :: !Eligible(e, s)
    ensures FindBestEnding(endings + extra, s) == FindBestEnding(endings, s)
  {
    BestIndexIgnoresIneligible(endings, extra, s, |extra|);
  }

  lemma {:induction false} BestIndexIgnoresIneligible(endings: seq<RouteEnding>, extra: seq<RouteEnding>, s: Session, m: nat)
    requires m <= |extra|
    requires forall e | e in extra :: !Eligible(e, s)
    ensures BestIndex(endings + extra, |endings| + m, s) == BestIndex(endings, |endings|, s)
  {
    if m == 0 {
      BestIndexPrefix(endings, extra, s, |endings|);
    } else {
      BestIndexIgnoresIneligible(endings, extra, s, m - 1);
      assert (endings + extra)[|endings| + m - 1] == extra[m - 1];
    }
  }

  /** `BestIndex` over the first `n` entries only looks at those entries. */
  lemma {:induction false} BestIndexPrefix(endings: seq<RouteEnding>, extra: seq<RouteEnding>, s: Session, n: nat)
    requires n <= |endings|
    ensures BestIndex(endings + extra, n, s) == BestIndex(endings, n, s)
  {
    if n > 0 {
      BestIndexPrefix(endings, extra, s, n - 1);
      assert (endings + extra)[n - 1] == endings[n - 1];
    }
  }
}
