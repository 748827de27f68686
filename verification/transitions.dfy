/**
 * Every state-changing action of the store as a pure function from the state
 * before the call to the state after it. The store class implements each one by
 * updating its fields and is proved equal to it; the lemmas here state what the
 * actions promise.
 */
module Transitions {
  import opened Wrappers
  import opened Points
  import opened Content
  import opened SessionState
  import opened Evaluator
  import opened Navigation
  import opened Endings

  /**
   * What navigation never touches: the story, the three point namespaces and the
   * choice counter stay as they were, and the ledger of unlocked endings only grows.
   */
  predicate KeepsProgress(s: Session, r: Session) {
    && r.story == s.story
    && r.universalPoints == s.universalPoints
    && r.routePoints == s.routePoints
    && r.prologuePoints == s.prologuePoints
    && r.choicesMade == s.choicesMade
    && s.endingUnlocked <= r.endingUnlocked
  }

  /** `loadStory`: a fresh session over `story`, whatever the state was. */
  function LoadStory(story: GameStory): (r: Session)
    ensures Valid(r)
  {
    Fresh(Some(story))
  }

  /** `reset`: a fresh session over the story already loaded. */
  function Reset(s: Session): (r: Session)
    ensures Valid(r)
  {
    Fresh(s.story)
  }

  /** `addUniversalPoints`. */
  function AddUniversalPoints(s: Session, points: PointMap): (r: Session)
    ensures Valid(s) ==> Valid(r)
  {
    s.(universalPoints := Added(s.universalPoints, points))
  }

  /** `addRoutePoints`: into the active route's own map; nothing without an active route. */
  function AddRoutePoints(s: Session, points: PointMap): (r: Session)
    ensures Valid(s) ==> Valid(r)
  {
    if !Active(s.currentRouteId) then s
    else s.(routePoints := s.routePoints[s.currentRouteId.value := Added(CurrentRoutePoints(s), points)])
  }

  /** `addProloguePoints`. */
  function AddProloguePoints(s: Session, points: PointMap): (r: Session)
    ensures Valid(s) ==> Valid(r)
  {
    s.(prologuePoints := Added(s.prologuePoints, points))
  }

  /**
   * `selectRoute`: enter a known route whose `requires` is met (checked against
   * the points of the route active before the call); otherwise nothing changes.
   */
  function SelectRoute(s: Session, routeId: string): (r: Session)
    requires Valid(s)
    ensures Valid(r) && KeepsProgress(s, r)
  {
    if s.story.None? || routeId !in s.story.value.routes then s
    else if !IsOpen(s.story.value.routes[routeId].requirements, s) then s
    else s.(currentPhase := RoutePhase, currentRouteId := Some(routeId),
            currentSceneIndex := 0, currentSlideIndex := 0)
  }

  /** `selectEnding`: enter an ending of the active route; otherwise nothing changes. */
  function SelectEnding(s: Session, endingId: string): (r: Session)
    requires Valid(s)
    ensures Valid(r) && KeepsProgress(s, r)
  {
    if s.story.None? || !Active(s.currentRouteId) then s
    else if FindEnding(s.story.value.routes[s.currentRouteId.value].endings, endingId).None? then s
    else s.(currentPhase := EndingPhase, currentEndingId := Some(endingId),
            currentSceneIndex := 0, currentSlideIndex := 0)
  }

  /** `determineEnding`: enter the best ending of the active route, or complete when it has none. */
  function DetermineEnding(s: Session): (r: Session)
    requires Valid(s)
    ensures Valid(r) && KeepsProgress(s, r)
  {
    if s.story.None? || !Active(s.currentRouteId) then s
    else
      match FindBestEnding(s.story.value.routes[s.currentRouteId.value].endings, s)
      case Some(ending) => SelectEnding(s, ending.id)
      case None => s.(currentPhase := Complete)
  }

  /** The move to the first slide of the next scene of the same list. */
  function NextScene(s: Session): Session {
    s.(currentSceneIndex := s.currentSceneIndex + 1, currentSlideIndex := 0)
  }

  /** The end of an ending: record its id in the ledger unless it is there already, and complete. */
  function Finish(s: Session, endingId: string): (r: Session)
    requires Valid(s)
    ensures Valid(r) && KeepsProgress(s, r)
  {
    if endingId !in s.endingUnlocked
    then s.(endingUnlocked := s.endingUnlocked + [endingId], currentPhase := Complete)
    else s.(currentPhase := Complete)
  }

  /** `advanceToNextScene`, phase by phase. */
  function AdvanceToNextScene(s: Session): (r: Session)
    requires Valid(s)
    ensures Valid(r) && KeepsProgress(s, r)
  {
    if s.story.None? then s
    else
      var story := s.story.value;
      var next := s.currentSceneIndex + 1;
      match s.currentPhase
      case Prologue =>
        if next < |story.prologue| then NextScene(s) else s
      case RoutePhase =>
        if !Active(s.currentRouteId) then s
        else if next < |story.routes[s.currentRouteId.value].scenes| then NextScene(s)
        else DetermineEnding(s)
      case EndingPhase =>
        if !Active(s.currentRouteId) || !Active(s.currentEndingId) then s
        else
          var ending := FindEnding(story.routes[s.currentRouteId.value].endings, s.currentEndingId.value);
          if ending.Some? && next < |ending.value.scenes| then NextScene(s)
          else Finish(s, s.currentEndingId.value)
      case Complete => s
  }

  /**
   * `advanceSlide`: move to the next slide of the current scene that is not
   * gated; past the last one, advance the scene; with no current scene, nothing.
   */
  function AdvanceSlide(s: Session): (r: Session)
    requires Valid(s)
    ensures Valid(r) && KeepsProgress(s, r)
  {
    match CurrentScene(s)
    case None => s
    case Some(scene) =>
      match NextOpenSlide(scene.slides, s.currentSlideIndex + 1, s)
      case Some(j) => s.(currentSlideIndex := j)
      case None => AdvanceToNextScene(s)
  }

  /**
   * The points a choice awards, applied in the order of `makeChoice`:
   * universal always, route points only in phase `route`, prologue points only
   * in phase `prologue`.
   */
  function Award(s: Session, choice: Choice): (r: Session)
    ensures Valid(s) ==> Valid(r)
  {
    var s1 := if choice.universalPoints.Some? then AddUniversalPoints(s, choice.universalPoints.value) else s;
    var s2 := if choice.routePoints.Some? && s.currentPhase == RoutePhase
              then AddRoutePoints(s1, choice.routePoints.value) else s1;
    if choice.prologuePoints.Some? && s.currentPhase == Prologue
    then AddProloguePoints(s2, choice.prologuePoints.value) else s2
  }

  /** `choicesMade + 1`. */
  function CountChoice(s: Session): (r: Session)
    ensures Valid(s) ==> Valid(r)
  {
    s.(choicesMade := s.choicesMade + 1)
  }

  /** What `makeChoice` does with a choice it found: count it, award its points, then move. */
  function ApplyChoice(s: Session, choice: Choice): (r: Session)
    requires Valid(s)
    ensures Valid(r)
    ensures r.story == s.story && s.endingUnlocked <= r.endingUnlocked
  {
    var awarded := Award(CountChoice(s), choice);
    if Active(choice.routeId) then SelectRoute(awarded, choice.routeId.value)
    else AdvanceSlide(awarded)
  }

  /**
   * `makeChoice`: an index outside the filtered choices changes nothing;
   * otherwise count the choice, award its points, then enter its route if it
   * names one, or else advance the slide.
   */
  function MakeChoice(s: Session, choiceIndex: int): (r: Session)
    requires Valid(s)
    ensures Valid(r)
    ensures r.story == s.story && s.endingUnlocked <= r.endingUnlocked
  {
    var choices := FilteredChoices(s);
    if 0 <= choiceIndex < |choices| then ApplyChoice(s, choices[choiceIndex]) else s
  }

  // ---------------------------------------------------------------------------
  // What each action promises

  /** `addUniversalPoints` adds each delta to its key (from 0) and changes nothing else. */
  lemma AddUniversalPointsSpec(s: Session, points: PointMap, key: string)
    ensures var r := AddUniversalPoints(s, points);
              && Lookup(r.universalPoints, key) == Lookup(s.universalPoints, key) + Lookup(points, key)
              && r.universalPoints.Keys == s.universalPoints.Keys + points.Keys
              && r == s.(universalPoints := r.universalPoints)
  {
  }

  /** `addProloguePoints` adds each delta to its key (from 0) and changes nothing else. */
  lemma AddProloguePointsSpec(s: Session, points: PointMap, key: string)
    ensures var r := AddProloguePoints(s, points);
              && Lookup(r.prologuePoints, key) == Lookup(s.prologuePoints, key) + Lookup(points, key)
              && r.prologuePoints.Keys == s.prologuePoints.Keys + points.Keys
              && r == s.(prologuePoints := r.prologuePoints)
  {
  }

  /**
   * `addRoutePoints` does nothing without an active route; with one, it changes
   * only that route's entry of `routePoints`, adding each delta to its key.
   */
  lemma AddRoutePointsSpec(s: Session, points: PointMap, key: string)
    ensures !Active(s.currentRouteId) ==> AddRoutePoints(s, points) == s
    ensures Active(s.currentRouteId) ==>
              var r := AddRoutePoints(s, points);
              var id := s.currentRouteId.value;
              && r == s.(routePoints := r.routePoints)
              && r.routePoints.Keys == s.routePoints.Keys + {id}
              && (forall other | other in s.routePoints && other != id :: r.routePoints[other] == s.routePoints[other])
              && Lookup(r.routePoints[id], key) == Lookup(CurrentRoutePoints(s), key) + Lookup(points, key)
  {
  }

  /**
   * `selectRoute` enters a known route whose `requires` is met, at its first
   * slide, and otherwise changes nothing; it never touches the route points.
   */
  lemma SelectRouteSpec(s: Session, routeId: string)
    requires Valid(s)
    ensures var r := SelectRoute(s, routeId);
            if s.story.Some? && routeId in s.story.value.routes && IsOpen(s.story.value.routes[routeId].requirements, s)
            then r == s.(currentPhase := RoutePhase, currentRouteId := Some(routeId),
                         currentSceneIndex := 0, currentSlideIndex := 0)
            else r == s
  {
  }

  /**
   * From the prologue (no route active) a route's own route thresholds are not
   * checked at all: they are read against the route active before the call.
   */
  lemma SelectRouteFromPrologueIgnoresRouteThresholds(s: Session, routeId: string, req: PointRequirements)
    requires Valid(s) && !Active(s.currentRouteId)
    requires s.story.Some? && routeId in s.story.value.routes
    requires s.story.value.routes[routeId].requirements == Some(req)
    requires MeetsAll(req.universal, s.universalPoints) && MeetsAll(req.prologue, s.prologuePoints)
    ensures SelectRoute(s, routeId).currentPhase == RoutePhase
    ensures SelectRoute(s, routeId).currentRouteId == Some(routeId)
  {
  }

  /** `selectEnding` enters an ending of the active route, at its first slide, and otherwise changes nothing. */
  lemma SelectEndingSpec(s: Session, endingId: string)
    requires Valid(s)
    ensures var r := SelectEnding(s, endingId);
            if s.story.Some? && Active(s.currentRouteId) &&
               (exists i :: 0 <= i < |s.story.value.routes[s.currentRouteId.value].endings| &&
                            s.story.value.routes[s.currentRouteId.value].endings[i].id == endingId)
            then r == s.(currentPhase := EndingPhase, currentEndingId := Some(endingId),
                         currentSceneIndex := 0, currentSlideIndex := 0)
            else r == s
  {
  }

  /**
   * `determineEnding` on an active route enters the ending `findBestEnding`
   * picks, or completes the story directly when the route has no endings.
   */
  lemma DetermineEndingSpec(s: Session)
    requires Valid(s) && s.story.Some? && Active(s.currentRouteId)
    ensures var endings := s.story.value.routes[s.currentRouteId.value].endings;
            var r := DetermineEnding(s);
            if endings == [] then r == s.(currentPhase := Complete)
            else r == s.(currentPhase := EndingPhase,
                         currentEndingId := Some(FindBestEnding(endings, s).value.id),
                         currentSceneIndex := 0, currentSlideIndex := 0)
  {
    var endings := s.story.value.routes[s.currentRouteId.value].endings;
    if endings != [] {
      var best := FindBestEnding(endings, s).value;
      var i :| 0 <= i < |endings| && endings[i] == best;
      assert FindEnding(endings, best.id).Some?;
    }
  }

  /**
   * `advanceToNextScene`, by case, with the scene count the debug snapshot
   * reports: in bounds it moves to slide 0 of the next scene in the same
   * phase; past the end of the prologue it changes nothing; past the end of a
   * route it determines the ending; past the end of an ending it completes and
   * records the ending id once; when complete it changes nothing.
   */
  lemma AdvanceToNextSceneSpec(s: Session)
    requires Valid(s)
    ensures var r := AdvanceToNextScene(s);
            var next := s.currentSceneIndex + 1;
            var total := GetDebugInfo(s).totalScenes;
            && (s.currentPhase != Complete && next < total ==>
                  r == s.(currentSceneIndex := next, currentSlideIndex := 0))
            && (s.currentPhase == Prologue && next >= total ==> r == s)
            && (s.currentPhase == RoutePhase && Active(s.currentRouteId) && next >= total ==>
                  r == DetermineEnding(s))
            && (s.currentPhase == EndingPhase && Active(s.currentRouteId) && Active(s.currentEndingId) && next >= total ==>
                  r == s.(currentPhase := Complete,
                          endingUnlocked := if s.currentEndingId.value in s.endingUnlocked then s.endingUnlocked
                                            else s.endingUnlocked + [s.currentEndingId.value]))
            && (s.currentPhase == Complete ==> r == s)
  {
  }

  /** The current scene does not depend on the slide index. */
  lemma CurrentSceneIgnoresSlide(s: Session, j: nat)
    ensures CurrentScene(s.(currentSlideIndex := j)) == CurrentScene(s)
    ensures forall req :: IsOpen(req, s.(currentSlideIndex := j)) == IsOpen(req, s)
  {
  }

  /**
   * `advanceSlide` never lands on a gated slide: when some later slide of the
   * current scene is open, the slide index becomes the first such index and
   * nothing else changes, and that slide is then the current one; when none
   * is, it advances the scene; with no current scene it changes nothing.
   */
  lemma AdvanceSlideSpec(s: Session, j: nat)
    requires Valid(s)
    ensures CurrentScene(s).None? ==> AdvanceSlide(s) == s
    ensures CurrentScene(s).Some? ==>
              var slides := CurrentScene(s).value.slides;
              && ((forall i :: s.currentSlideIndex < i < |slides| ==> !IsOpen(slides[i].requirements, s)) ==>
                    AdvanceSlide(s) == AdvanceToNextScene(s))
              && (s.currentSlideIndex < j < |slides| && IsOpen(slides[j].requirements, s) &&
                  (forall i :: s.currentSlideIndex < i < j ==> !IsOpen(slides[i].requirements, s)) ==>
                    && AdvanceSlide(s) == s.(currentSlideIndex := j)
                    && CurrentSlide(AdvanceSlide(s)) == Some(slides[j]))
  {
    if CurrentScene(s).Some? {
      var slides := CurrentScene(s).value.slides;
      if s.currentSlideIndex < j < |slides| && IsOpen(slides[j].requirements, s) &&
         (forall i :: s.currentSlideIndex < i < j ==> !IsOpen(slides[i].requirements, s)) {
        assert NextOpenSlide(slides, s.currentSlideIndex + 1, s) == Some(j);
        CurrentSceneIgnoresSlide(s, j);
      }
    }
  }

  /** An index outside the filtered choices changes nothing, even one valid in the raw list. */
  lemma MakeChoiceOutOfRange(s: Session, choiceIndex: int)
    requires Valid(s)
    requires !(0 <= choiceIndex < |FilteredChoices(s)|)
    ensures MakeChoice(s, choiceIndex) == s
  {
  }

  /** A valid index applies the choice it selects among the filtered ones. */
  lemma MakeChoiceApplies(s: Session, choiceIndex: int)
    requires Valid(s)
    requires 0 <= choiceIndex < |FilteredChoices(s)|
    ensures MakeChoice(s, choiceIndex) == ApplyChoice(s, FilteredChoices(s)[choiceIndex])
  {
  }

  /** The awards of a choice change the three namespaces as `makeChoice` prescribes, and nothing else. */
  lemma AwardSpec(s: Session, choice: Choice)
    ensures var r := Award(s, choice);
            && r.universalPoints ==
                 (if choice.universalPoints.Some? then Added(s.universalPoints, choice.universalPoints.value)
                  else s.universalPoints)
            && r.routePoints ==
                 (if choice.routePoints.Some? && s.currentPhase == RoutePhase
                  then AddRoutePoints(s, choice.routePoints.value).routePoints else s.routePoints)
            && r.prologuePoints ==
                 (if choice.prologuePoints.Some? && s.currentPhase == Prologue
                  then Added(s.prologuePoints, choice.prologuePoints.value) else s.prologuePoints)
            && r == s.(universalPoints := r.universalPoints, routePoints := r.routePoints,
                       prologuePoints := r.prologuePoints)
  {
  }

  /**
   * An applied choice is counted and its points are applied, by phase, before
   * any route switch, and they stay applied even when the switch is refused.
   */
  lemma ApplyChoiceAwards(s: Session, choice: Choice)
    requires Valid(s)
    ensures var r := ApplyChoice(s, choice);
            && r.choicesMade == s.choicesMade + 1
            && r.universalPoints ==
                 (if choice.universalPoints.Some? then Added(s.universalPoints, choice.universalPoints.value)
                  else s.universalPoints)
            && r.routePoints ==
                 (if choice.routePoints.Some? && s.currentPhase == RoutePhase
                  then AddRoutePoints(s, choice.routePoints.value).routePoints else s.routePoints)
            && r.prologuePoints ==
                 (if choice.prologuePoints.Some? && s.currentPhase == Prologue
                  then Added(s.prologuePoints, choice.prologuePoints.value) else s.prologuePoints)
  {
    var counted := CountChoice(s);
    var awarded := Award(counted, choice);
    AwardSpec(counted, choice);
    assert choice.routePoints.Some? && s.currentPhase == RoutePhase ==>
      AddRoutePoints(counted, choice.routePoints.value).routePoints == AddRoutePoints(s, choice.routePoints.value).routePoints;
    if Active(choice.routeId) {
      assert KeepsProgress(awarded, SelectRoute(awarded, choice.routeId.value));
    } else {
      assert KeepsProgress(awarded, AdvanceSlide(awarded));
    }
  }

  /**
   * A choice naming a route does not advance the slide: it asks `selectRoute`
   * for that route only after the choice is counted and its points applied, so
   * the points it awards can open the route. Afterwards the session is either
   * in that route at its first slide or exactly where it was.
   */
  lemma ApplyChoiceEntersRoute(s: Session, choice: Choice)
    requires Valid(s) && Active(choice.routeId)
    ensures ApplyChoice(s, choice) == SelectRoute(Award(CountChoice(s), choice), choice.routeId.value)
    ensures var a := Award(CountChoice(s), choice);
            var id := choice.routeId.value;
            var r := ApplyChoice(s, choice);
            if s.story.Some? && id in s.story.value.routes && IsOpen(s.story.value.routes[id].requirements, a)
            then r == a.(currentPhase := RoutePhase, currentRouteId := Some(id), currentSceneIndex := 0, currentSlideIndex := 0)
            else r == a
    ensures var r := ApplyChoice(s, choice);
            || (r.currentPhase == RoutePhase && r.currentRouteId == choice.routeId &&
                r.currentSceneIndex == 0 && r.currentSlideIndex == 0)
            || (r.currentPhase == s.currentPhase && r.currentRouteId == s.currentRouteId &&
                r.currentSceneIndex == s.currentSceneIndex && r.currentSlideIndex == s.currentSlideIndex)
  {
    var counted := CountChoice(s);
    AwardSpec(counted, choice);
    SelectRouteSpec(Award(counted, choice), choice.routeId.value);
  }

  /** Any other choice advances the slide, from the state with the choice counted and awarded. */
  lemma ApplyChoiceAdvances(s: Session, choice: Choice)
    requires Valid(s) && !Active(choice.routeId)
    ensures ApplyChoice(s, choice) == AdvanceSlide(Award(CountChoice(s), choice))
  {
  }

  /** Route points awarded outside phase `route` are dropped: the route namespace is untouched. */
  lemma MakeChoiceOutsideRouteKeepsRoutePoints(s: Session, choiceIndex: int)
    requires Valid(s) && s.currentPhase != RoutePhase
    ensures MakeChoice(s, choiceIndex).routePoints == s.routePoints
  {
    if 0 <= choiceIndex < |FilteredChoices(s)| {
      MakeChoiceApplies(s, choiceIndex);
      ApplyChoiceAwards(s, FilteredChoices(s)[choiceIndex]);
    }
  }

  /** `reset` yields the state `loadStory` gives for the same story, and a second reset changes nothing. */
  lemma ResetSpec(s: Session)
    ensures Reset(Reset(s)) == Reset(s)
    ensures s.story.Some? ==> Reset(s) == LoadStory(s.story.value)
    ensures var r := Reset(s);
            && r.story == s.story && r.currentPhase == Prologue
            && r.currentRouteId.None? && r.currentEndingId.None?
            && r.currentSceneIndex == 0 && r.currentSlideIndex == 0
            && r.universalPoints == map[] && r.routePoints == map[] && r.prologuePoints == map[]
            && r.choicesMade == 0 && r.endingUnlocked == []
  {
  }
}
