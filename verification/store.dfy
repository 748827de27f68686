/**
 * The store itself (`useVNStore`): one object whose fields are the session
 * state and whose methods update them in place, as the store's `set` calls do.
 * Every method is proved to leave the fields in the state the matching pure
 * function of `Transitions` gives, and to keep the session invariant.
 */
module Store {
  import opened Wrappers
  import opened Points
  import opened Content
  import opened SessionState
  import Evaluator
  import Navigation
  import Endings
  import T = Transitions

  class VNStore {
    var story: Option<GameStory>
    var currentPhase: Phase
    var currentRouteId: Option<string>
    var currentEndingId: Option<string>
    var currentSceneIndex: nat
    var currentSlideIndex: nat
    var universalPoints: PointMap
    var routePoints: map<string, PointMap>
    var prologuePoints: PointMap
    var choicesMade: nat
    var endingUnlocked: seq<string>

    /** The fields as one value: what the store's `get()` returns. */
    function State(): Session
      reads this
    {
      Session(story, currentPhase, currentRouteId, currentEndingId,
              currentSceneIndex, currentSlideIndex,
              universalPoints, routePoints, prologuePoints,
              choicesMade, endingUnlocked)
    }

    ghost predicate Valid()
      reads this
    {
      SessionState.Valid(State())
    }

    /** The store's initial state: no story, phase `prologue`, everything empty. */
    constructor ()
      ensures Valid()
      ensures State() == Fresh(None)
    {
      story := None;
      currentPhase := Prologue;
      currentRouteId, currentEndingId := None, None;
      currentSceneIndex, currentSlideIndex := 0, 0;
      universalPoints, routePoints, prologuePoints := map[], map[], map[];
      choicesMade := 0;
      endingUnlocked := [];
    }

    method LoadStory(newStory: GameStory)
      modifies this
      ensures Valid()
      ensures State() == T.LoadStory(newStory)
    {
      story := Some(newStory);
      currentPhase := Prologue;
      currentRouteId, currentEndingId := None, None;
      currentSceneIndex, currentSlideIndex := 0, 0;
      universalPoints, routePoints, prologuePoints := map[], map[], map[];
      choicesMade := 0;
      endingUnlocked := [];
    }

    method Reset()
      modifies this
      ensures Valid()
      ensures State() == T.Reset(old(State()))
    {
      currentPhase := Prologue;
      currentRouteId, currentEndingId := None, None;
      currentSceneIndex, currentSlideIndex := 0, 0;
      universalPoints, routePoints, prologuePoints := map[], map[], map[];
      choicesMade := 0;
      endingUnlocked := [];
    }

    method AddUniversalPoints(points: PointMap)
      requires Valid()
      modifies this
      ensures Valid()
      ensures State() == T.AddUniversalPoints(old(State()), points)
    {
      universalPoints := Accumulate(universalPoints, points);
    }

    method AddRoutePoints(points: PointMap)
      requires Valid()
      modifies this
      ensures Valid()
      ensures State() == T.AddRoutePoints(old(State()), points)
    {
      if !Active(currentRouteId) {
        return;
      }
      var current := CurrentRoutePoints(State());
      var updated := Accumulate(current, points);
      routePoints := routePoints[currentRouteId.value := updated];
    }

    method AddProloguePoints(points: PointMap)
      requires Valid()
      modifies this
      ensures Valid()
      ensures State() == T.AddProloguePoints(old(State()), points)
    {
      prologuePoints := Accumulate(prologuePoints, points);
    }

    method SelectRoute(routeId: string)
      requires Valid()
      modifies this
      ensures Valid()
      ensures State() == T.SelectRoute(old(State()), routeId)
    {
      if story.None? || routeId !in story.value.routes {
        return;
      }
      var route := story.value.routes[routeId];
      if route.requirements.Some? {
        var check := Evaluator.CheckPointRequirements(route.requirements.value, State());
        if !check.hasRequirements {
          return;
        }
      }
      currentPhase := RoutePhase;
      currentRouteId := Some(routeId);
      currentSceneIndex, currentSlideIndex := 0, 0;
    }

    method SelectEnding(endingId: string)
      requires Valid()
      modifies this
      ensures Valid()
      ensures State() == T.SelectEnding(old(State()), endingId)
    {
      if story.None? || !Active(currentRouteId) {
        return;
      }
      var route := story.value.routes[currentRouteId.value];
      var ending := FindEnding(route.endings, endingId);
      if ending.None? {
        return;
      }
      currentPhase := EndingPhase;
      currentEndingId := Some(endingId);
      currentSceneIndex, currentSlideIndex := 0, 0;
    }

    method DetermineEnding()
      requires Valid()
      modifies this
      ensures Valid()
      ensures State() == T.DetermineEnding(old(State()))
    {
      if story.None? || !Active(currentRouteId) {
        return;
      }
      var route := story.value.routes[currentRouteId.value];
      var selected := Endings.FindBestEnding(route.endings, State());
      if selected.Some? {
        SelectEnding(selected.value.id);
      } else {
        currentPhase := Complete;
      }
    }

    method AdvanceToNextScene()
      requires Valid()
      modifies this
      ensures Valid()
      ensures State() == T.AdvanceToNextScene(old(State()))
    {
      if story.None? {
        return;
      }
      var nextSceneIndex := currentSceneIndex + 1;
      match currentPhase
      case Prologue =>
        if nextSceneIndex < |story.value.prologue| {
          currentSceneIndex, currentSlideIndex := nextSceneIndex, 0;
        }
      case RoutePhase =>
        if !Active(currentRouteId) {
          return;
        }
        var route := story.value.routes[currentRouteId.value];
        if nextSceneIndex < |route.scenes| {
          currentSceneIndex, currentSlideIndex := nextSceneIndex, 0;
        } else {
          DetermineEnding();
        }
      case EndingPhase =>
        if !Active(currentRouteId) || !Active(currentEndingId) {
          return;
        }
        var endingRoute := story.value.routes[currentRouteId.value];
        var ending := FindEnding(endingRoute.endings, currentEndingId.value);
        if ending.Some? && nextSceneIndex < |ending.value.scenes| {
          currentSceneIndex, currentSlideIndex := nextSceneIndex, 0;
        } else {
          if currentEndingId.value !in endingUnlocked {
            endingUnlocked := endingUnlocked + [currentEndingId.value];
          }
          currentPhase := Complete;
        }
      case Complete =>
    }

    /** The forward scan of `advanceSlide`, over the slides of the scene current on entry. */
    method AdvanceSlide()
      requires Valid()
      modifies this
      ensures Valid()
      ensures State() == T.AdvanceSlide(old(State()))
    {
      var scene := Navigation.CurrentScene(State());
      if scene.None? {
        return;
      }
      var slides := scene.value.slides;
      var nextSlideIndex := currentSlideIndex + 1;
      while nextSlideIndex < |slides|
        invariant State() == old(State())
        invariant currentSlideIndex + 1 <= nextSlideIndex
        invariant forall i :: currentSlideIndex + 1 <= i < nextSlideIndex && i < |slides| ==>
                    !Evaluator.IsOpen(slides[i].requirements, State())
        decreases |slides| - nextSlideIndex
      {
        var nextSlide := slides[nextSlideIndex];
        if nextSlide.requirements.None? {
          currentSlideIndex := nextSlideIndex;
          return;
        }
        var check := Evaluator.CheckPointRequirements(nextSlide.requirements.value, State());
        if check.hasRequirements {
          currentSlideIndex := nextSlideIndex;
          return;
        }
        nextSlideIndex := nextSlideIndex + 1;
      }
      AdvanceToNextScene();
    }

    method MakeChoice(choiceIndex: int)
      requires Valid()
      modifies this
      ensures Valid()
      ensures State() == T.MakeChoice(old(State()), choiceIndex)
    {
      ghost var before := State();
      var filteredChoices := Navigation.FilteredChoices(State());
      if !(0 <= choiceIndex < |filteredChoices|) {
        T.MakeChoiceOutOfRange(before, choiceIndex);
        return;
      }
      T.MakeChoiceApplies(before, choiceIndex);
      var choice := filteredChoices[choiceIndex];
      choicesMade := choicesMade + 1;
      ghost var counted := State();
      assert counted == T.CountChoice(before);
      var phase := currentPhase;
      if choice.universalPoints.Some? {
        AddUniversalPoints(choice.universalPoints.value);
      }
      ghost var s1 := State();
      if choice.routePoints.Some? && phase == RoutePhase {
        AddRoutePoints(choice.routePoints.value);
      }
      ghost var s2 := State();
      assert s2 == if choice.routePoints.Some? && phase == RoutePhase
                   then T.AddRoutePoints(s1, choice.routePoints.value) else s1;
      if choice.prologuePoints.Some? && phase == Prologue {
        AddProloguePoints(choice.prologuePoints.value);
      }
      assert State() == T.Award(counted, choice);
      if Active(choice.routeId) {
        SelectRoute(choice.routeId.value);
        return;
      }
      AdvanceSlide();
    }
  }
}
