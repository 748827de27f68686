/**
 * The session state the store holds for one playthrough, as one value. The
 * store class keeps the same data in separate fields; its `State()` function
 * gathers them into a `Session`.
 */
module SessionState {
  import opened Wrappers
  import opened Points
  import opened Content

  datatype Phase = Prologue | RoutePhase | EndingPhase | Complete

  datatype Session = Session(
    story: Option<GameStory>,
    currentPhase: Phase,
    currentRouteId: Option<string>,
    currentEndingId: Option<string>,
    currentSceneIndex: nat,
    currentSlideIndex: nat,
    universalPoints: PointMap,
    routePoints: map<string, PointMap>,
    prologuePoints: PointMap,
    choicesMade: nat,
    endingUnlocked: seq<string>)

  /**
   * JavaScript truthiness of an optional id: `undefined` and the empty string
   * are both falsy, so `if (!currentRouteId)` also rejects "".
   */
  predicate Active(id: Option<string>) {
    id.Some? && id.value != ""
  }

  predicate NoDuplicates(ids: seq<string>) {
    forall i, j :: 0 <= i < j < |ids| ==> ids[i] != ids[j]
  }

  /**
   * What the store keeps true between calls: a route id is only ever set to a
   * route of the loaded story (otherwise `story.routes[currentRouteId].scenes`
   * would throw), and the ledger of unlocked endings has no duplicates.
   */
  predicate Valid(s: Session) {
    && (s.currentRouteId.Some? ==> s.story.Some? && s.currentRouteId.value in s.story.value.routes)
    && NoDuplicates(s.endingUnlocked)
  }

  /** The state `loadStory` and `reset` install: prologue, indices 0, no ids, empty points and ledger. */
  function Fresh(story: Option<GameStory>): (s: Session)
    ensures Valid(s)
  {
    Session(story, Prologue, None, None, 0, 0, map[], map[], map[], 0, [])
  }

  /** The route's own point map for the active route, or the empty map (`routePoints[id] || {}`). */
  function CurrentRoutePoints(s: Session): PointMap {
    if Active(s.currentRouteId) && s.currentRouteId.value in s.routePoints
    then s.routePoints[s.currentRouteId.value]
    else map[]
  }
}
