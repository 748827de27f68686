/**
 * The read-only traversal queries of the store: the scene and slide the session
 * is on (`getCurrentScene`, `getCurrentSlide`), the choices it offers
 * (`getFilteredChoices`), the forward scan `advanceSlide` performs, and the
 * debug snapshot (`getDebugInfo`).
 */
module Navigation {
  import opened Wrappers
  import opened Points
  import opened Content
  import opened SessionState
  import opened Evaluator

  /**
   * The scene list the current phase indexes into: the prologue, the active
   * route's scenes, or the active ending's scenes; none when the phase is
   * `complete`, no story is loaded, or a needed id is unset or unknown.
   */
  function SceneList(s: Session): Option<seq<Scene>> {
    if s.story.None? then None
    else
      var story := s.story.value;
      match s.currentPhase
      case Prologue => Some(story.prologue)
      case RoutePhase =>
        if Active(s.currentRouteId) && s.currentRouteId.value in story.routes
        then Some(story.routes[s.currentRouteId.value].scenes)
        else None
      case EndingPhase =>
        if Active(s.currentRouteId) && Active(s.currentEndingId) && s.currentRouteId.value in story.routes
        then
          match FindEnding(story.routes[s.currentRouteId.value].endings, s.currentEndingId.value)
          case Some(ending) => Some(ending.scenes)
          case None => None
        else None
      case Complete => None
  }

  /** `getCurrentScene`: the scene at the scene index, unless it is missing or its `requires` is unmet. */
  function CurrentScene(s: Session): (r: Option<Scene>)
    ensures r.Some? <==>
              && SceneList(s).Some?
              && s.currentSceneIndex < |SceneList(s).value|
              && IsOpen(SceneList(s).value[s.currentSceneIndex].requirements, s)
    ensures r.Some? ==> r.value == SceneList(s).value[s.currentSceneIndex]
  {
    match SceneList(s)
    case None => None
    case Some(scenes) =>
      if s.currentSceneIndex < |scenes| && IsOpen(scenes[s.currentSceneIndex].requirements, s)
      then Some(scenes[s.currentSceneIndex])
      else None
  }

  /** `getCurrentSlide`: the slide at the slide index of the current scene, unless it is missing or gated. */
  function CurrentSlide(s: Session): (r: Option<Slide>)
    ensures r.Some? <==>
              && CurrentScene(s).Some?
              && s.currentSlideIndex < |CurrentScene(s).value.slides|
              && IsOpen(CurrentScene(s).value.slides[s.currentSlideIndex].requirements, s)
    ensures r.Some? ==> r.value == CurrentScene(s).value.slides[s.currentSlideIndex]
  {
    match CurrentScene(s)
    case None => None
    case Some(scene) =>
      if s.currentSlideIndex < |scene.slides| && IsOpen(scene.slides[s.currentSlideIndex].requirements, s)
      then Some(scene.slides[s.currentSlideIndex])
      else None
  }

  /** The choices of `choices` whose `requires` is met, in their original order. */
  function OpenChoices(choices: seq<Choice>, s: Session): (r: seq<Choice>)
    ensures |r| <= |choices|
    ensures forall c :: c in r <==> c in choices && IsOpen(c.requirements, s)
  {
    if |choices| == 0 then []
    else
      var rest := OpenChoices(choices[1..], s);
      assert forall c :: c in choices <==> c == choices[0] || c in choices[1..];
      if IsOpen(choices[0].requirements, s) then [choices[0]] + rest else rest
  }

  /** Filtering respects concatenation, so it keeps the relative order of the choices it keeps. */
  lemma {:induction false} OpenChoicesAppend(a: seq<Choice>, b: seq<Choice>, s: Session)
    ensures OpenChoices(a + b, s) == OpenChoices(a, s) + OpenChoices(b, s)
  {
    if |a| > 0 {
      assert (a + b)[1..] == a[1..] + b;
      OpenChoicesAppend(a[1..], b, s);
    } else {
      assert a + b == b;
    }
  }

  /** When every choice is open, the filter returns the list unchanged. */
  lemma {:induction false} OpenChoicesAllOpen(choices: seq<Choice>, s: Session)
    requires forall i :: 0 <= i < |choices| ==> IsOpen(choices[i].requirements, s)
    ensures OpenChoices(choices, s) == choices
  {
    if |choices| > 0 {
      OpenChoicesAllOpen(choices[1..], s);
    }
  }

  /** `getFilteredChoices`: the open choices of the current slide; none when there is no slide. */
  function FilteredChoices(s: Session): (r: seq<Choice>)
    ensures CurrentSlide(s).None? ==> r == []
    ensures forall c :: c in r <==>
              CurrentSlide(s).Some? && c in CurrentSlide(s).value.choices && IsOpen(c.requirements, s)
  {
    match CurrentSlide(s)
    case None => []
    case Some(slide) => OpenChoices(slide.choices, s)
  }

  /**
   * The loop of `advanceSlide`, as a search: the smallest index at or after
   * `from` whose slide has no `requires` or a met one.
   */
  function NextOpenSlide(slides: seq<Slide>, from: nat, s: Session): (r: Option<nat>)
    ensures r.Some? ==> from <= r.value < |slides| && IsOpen(slides[r.value].requirements, s)
    ensures r.Some? ==> forall i :: from <= i < r.value ==> !IsOpen(slides[i].requirements, s)
    ensures r.None? ==> forall i :: from <= i < |slides| ==> !IsOpen(slides[i].requirements, s)
    decreases |slides| - from
  {
    if from >= |slides| then None
    else if IsOpen(slides[from].requirements, s) then Some(from)
    else NextOpenSlide(slides, from + 1, s)
  }

  /** `getDebugInfo`'s result. */
  datatype DebugInfo = DebugInfo(
    phase: Phase,
    route: Option<string>,
    ending: Option<string>,
    sceneIndex: nat,
    slideIndex: nat,
    totalScenes: nat,
    universalPoints: PointMap,
    routePoints: PointMap,
    prologuePoints: PointMap)

  /**
   * `getDebugInfo`: the position, the size of the scene list the phase indexes
   * (0 when there is none) and the three namespaces, the route one resolved
   * for the active route only.
   */
  function GetDebugInfo(s: Session): (d: DebugInfo)
    ensures d.phase == s.currentPhase && d.route == s.currentRouteId && d.ending == s.currentEndingId
    ensures d.sceneIndex == s.currentSceneIndex && d.slideIndex == s.currentSlideIndex
    ensures d.universalPoints == s.universalPoints && d.prologuePoints == s.prologuePoints
    ensures d.routePoints == CurrentRoutePoints(s)
    ensures SceneList(s).Some? ==> d.totalScenes == |SceneList(s).value|
    ensures SceneList(s).None? ==> d.totalScenes == 0
  {
    DebugInfo(
      s.currentPhase, s.currentRouteId, s.currentEndingId,
      s.currentSceneIndex, s.currentSlideIndex,
      match SceneList(s) case Some(scenes) => |scenes| case None => 0,
      s.universalPoints, CurrentRoutePoints(s), s.prologuePoints)
  }

  /** The debug snapshot agrees with the traversal: whenever a scene is shown, its index is below the reported scene count. */
  lemma DebugInfoAgrees(s: Session)
    ensures CurrentScene(s).Some? ==> s.currentSceneIndex < GetDebugInfo(s).totalScenes
  {
  }

  /** A shown slide is never gated, and neither is its scene. */
  lemma ShownSlideIsOpen(s: Session)
    requires CurrentSlide(s).Some?
    ensures IsOpen(CurrentSlide(s).value.requirements, s)
    ensures IsOpen(CurrentScene(s).value.requirements, s)
  {
  }
}
