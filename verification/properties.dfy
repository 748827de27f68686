/**
 * Properties of whole playthroughs: any sequence of store actions keeps the
 * session invariant, and without a `reset` or `loadStory` it keeps the story
 * and only ever extends the ledger of unlocked endings. Then small stories
 * built after the content files, run through the actions.
 */
module SessionProperties {
  import opened Wrappers
  import opened Points
  import opened Content
  import opened SessionState
  import opened Evaluator
  import opened Navigation
  import opened Endings
  import opened Transitions

  /** A call into the store from the outside. */
  datatype Action =
    | LoadStoryAction(story: GameStory)
    | ResetAction
    | AdvanceSlideAction
    | MakeChoiceAction(choiceIndex: int)
    | SelectRouteAction(routeId: string)
    | SelectEndingAction(endingId: string)
    | AddUniversalPointsAction(points: PointMap)
    | AddRoutePointsAction(points: PointMap)
    | AddProloguePointsAction(points: PointMap)
    | AdvanceToNextSceneAction
    | DetermineEndingAction

  /** The two actions that discard the session. */
  predicate Restarts(a: Action) {
    a.LoadStoryAction? || a.ResetAction?
  }

  function Step(s: Session, a: Action): (r: Session)
    requires Valid(s)
    ensures Valid(r)
    ensures !Restarts(a) ==> r.story == s.story && s.endingUnlocked <= r.endingUnlocked
  {
    match a
    case LoadStoryAction(story) => LoadStory(story)
    case ResetAction => Reset(s)
    case AdvanceSlideAction => AdvanceSlide(s)
    case MakeChoiceAction(i) => MakeChoice(s, i)
    case SelectRouteAction(id) => SelectRoute(s, id)
    case SelectEndingAction(id) => SelectEnding(s, id)
    case AddUniversalPointsAction(points) => AddUniversalPoints(s, points)
    case AddRoutePointsAction(points) => AddRoutePoints(s, points)
    case AddProloguePointsAction(points) => AddProloguePoints(s, points)
    case AdvanceToNextSceneAction => AdvanceToNextScene(s)
    case DetermineEndingAction => DetermineEnding(s)
  }

  /**
   * The state after the actions in turn. Whatever they are, the ledger never
   * holds an ending id twice and a route id always names a route of the story;
   * without a restart, the story is kept and the ledger never shrinks.
   */
  function Run(s: Session, actions: seq<Action>): (r: Session)
    requires Valid(s)
    ensures Valid(r)
    ensures (forall i :: 0 <= i < |actions| ==> !Restarts(actions[i])) ==>
              r.story == s.story && s.endingUnlocked <= r.endingUnlocked
    decreases |actions|
  {
    if actions == [] then s else Run(Step(s, actions[0]), actions[1..])
  }

  /** Running two action lists in turn is running their concatenation. */
  lemma {:induction false} RunAppend(s: Session, a: seq<Action>, b: seq<Action>)
    requires Valid(s)
    ensures Run(s, a + b) == Run(Run(s, a), b)
    decreases |a|
  {
    if a == [] {
      assert a + b == b;
    } else {
      assert (a + b)[1..] == a[1..] + b;
      RunAppend(Step(s, a[0]), a[1..], b);
    }
  }

  /** A `reset` as the last action leaves the same state whatever came before it. */
  lemma RunEndingInReset(s: Session, actions: seq<Action>)
    requires Valid(s)
    requires forall i :: 0 <= i < |actions| ==> !actions[i].LoadStoryAction?
    ensures Run(s, actions + [ResetAction]) == Reset(s)
  {
    RunAppend(s, actions, [ResetAction]);
    RunKeepsStory(s, actions);
  }

  /** Only `loadStory` replaces the story. */
  lemma {:induction false} RunKeepsStory(s: Session, actions: seq<Action>)
    requires Valid(s)
    requires forall i :: 0 <= i < |actions| ==> !actions[i].LoadStoryAction?
    ensures Run(s, actions).story == s.story
    decreases |actions|
  {
    if actions != [] {
      RunKeepsStory(Step(s, actions[0]), actions[1..]);
    }
  }

  // ---------------------------------------------------------------------------
  // Small stories after the content files

  function Plain(id: string): Slide {
    Slide(id, None, "", [], None)
  }

  function Gated(id: string, req: PointRequirements): Slide {
    Slide(id, None, "", [], Some(req))
  }

  function NoRequirements(): PointRequirements {
    PointRequirements(map[], map[], map[])
  }

  function Pick(text: string, routeId: Option<string>, requirements: Option<PointRequirements>): Choice {
    Choice(text, routeId, None, None, None, requirements)
  }

  function SceneOf(id: string, slides: seq<Slide>): Scene {
    Scene(id, id, slides, None)
  }

  function RouteOf(id: string, scenes: seq<Scene>, endings: seq<RouteEnding>, requirements: Option<PointRequirements>): Route {
    Route(id, id, scenes, endings, requirements)
  }

  /** One prologue scene of one slide with no choices, and nothing else. */
  lemma PrologueStallsAtItsEnd()
    ensures var s := LoadStory(GameStory([SceneOf("opening", [Plain("only")])], map[]));
            AdvanceSlide(s) == s
  {
    var s := LoadStory(GameStory([SceneOf("opening", [Plain("only")])], map[]));
    assert CurrentScene(s) == Some(SceneOf("opening", [Plain("only")]));
  }

  /**
   * The route choice of the prologue: three choices, the third gated by the
   * prologue point `leadership`, entering the routes alice, bob and unity; the
   * unity route is itself gated by the same threshold.
   */
  function RouteChoiceStory(): GameStory {
    var leadership := PointRequirements(map[], map[], map["leadership" := 1]);
    var choices := [
      Pick("Follow Alice to the forest", Some("alice"), None),
      Pick("Go with Bob to the caves", Some("bob"), None),
      Pick("Suggest all three of you work together", Some("unity"), Some(leadership))];
    var slide := Slide("route_choice", None, "", choices, None);
    GameStory(
      [SceneOf("prologue", [slide])],
      map["alice" := RouteOf("alice", [SceneOf("forest", [Plain("forest_cover")])], [], None),
          "bob" := RouteOf("bob", [SceneOf("caves", [Plain("cave_entry")])], [], None),
          "unity" := RouteOf("unity", [SceneOf("unity", [Plain("unity_proposal")])], [], Some(leadership))])
  }

  /** Choosing the first option enters route alice at its first slide and counts the choice. */
  lemma RouteChoiceEntersAlice()
    ensures var r := MakeChoice(LoadStory(RouteChoiceStory()), 0);
            && r.currentPhase == RoutePhase && r.currentRouteId == Some("alice")
            && r.currentSceneIndex == 0 && r.currentSlideIndex == 0 && r.choicesMade == 1
  {
    var s := LoadStory(RouteChoiceStory());
    assert CurrentScene(s).Some?;
    assert CurrentSlide(s) == Some(RouteChoiceStory().prologue[0].slides[0]);
    assert FilteredChoices(s)[0] == RouteChoiceStory().prologue[0].slides[0].choices[0];
  }

  /** Without `leadership`, the gated third option is filtered out, so index 2 changes nothing. */
  lemma GatedChoiceIndexIsRejected()
    ensures var s := LoadStory(RouteChoiceStory());
            MakeChoice(s, 2) == s
  {
    var s := LoadStory(RouteChoiceStory());
    var choices := RouteChoiceStory().prologue[0].slides[0].choices;
    assert CurrentSlide(s) == Some(RouteChoiceStory().prologue[0].slides[0]);
    assert "leadership" in choices[2].requirements.value.prologue && Lookup(s.prologuePoints, "leadership") == 0;
    assert !IsOpen(choices[2].requirements, s);
    assert OpenChoices(choices, s) == choices[..2] by {
      assert choices == choices[..2] + [choices[2]];
      OpenChoicesAppend(choices[..2], [choices[2]], s);
      OpenChoicesAllOpen(choices[..2], s);
    }
  }

  /** With `leadership` 1 from the prologue the unity route can be entered; without it, it cannot. */
  lemma UnityRouteNeedsLeadership()
    ensures SelectRoute(LoadStory(RouteChoiceStory()), "unity") == LoadStory(RouteChoiceStory())
    ensures SelectRoute(AddProloguePoints(LoadStory(RouteChoiceStory()), map["leadership" := 1]), "unity").currentRouteId
            == Some("unity")
  {
    var s := LoadStory(RouteChoiceStory());
    assert Lookup(s.prologuePoints, "leadership") == 0;
    var t := AddProloguePoints(s, map["leadership" := 1]);
    assert Lookup(t.prologuePoints, "leadership") == 1;
  }

  /**
   * A prologue choice that awards `leadership` 1 and names route unity, which
   * asks for that threshold: the points are applied before the route is
   * requested, so the route opens on the choice that earns it.
   */
  function LeadershipStory(): GameStory {
    var leadership := PointRequirements(map[], map[], map["leadership" := 1]);
    var lead := Choice("Take the lead", Some("unity"), None, None, Some(map["leadership" := 1]), None);
    GameStory(
      [SceneOf("prologue", [Slide("decision", None, "", [lead], None)])],
      map["unity" := RouteOf("unity", [SceneOf("unity", [Plain("unity_proposal")])], [], Some(leadership))])
  }

  lemma EarnedLeadershipOpensUnity()
    ensures var r := MakeChoice(LoadStory(LeadershipStory()), 0);
            && r.currentPhase == RoutePhase && r.currentRouteId == Some("unity")
            && Lookup(r.prologuePoints, "leadership") == 1
  {
    var s := LoadStory(LeadershipStory());
    var lead := LeadershipStory().prologue[0].slides[0].choices[0];
    assert CurrentScene(s).Some?;
    assert CurrentSlide(s) == Some(LeadershipStory().prologue[0].slides[0]);
    OpenChoicesAllOpen([lead], s);
    assert FilteredChoices(s)[0] == lead;
    MakeChoiceApplies(s, 0);
    var a := Award(CountChoice(s), lead);
    assert Lookup(a.prologuePoints, "leadership") == 1;
    ApplyChoiceEntersRoute(s, lead);
  }

  /**
   * After the third answer to Alice's question (alice_bond -1, alice_romance 1),
   * the slide asking for alice_bond 1 is skipped and the one asking for
   * alice_bond -1 and alice_romance 1 is shown: a negative threshold is met.
   * The answers keep only their route points (their universal points and full
   * texts are dropped), and the slides after `mystery` are left out.
   */
  function AliceAnswers(): seq<Choice> {
    [Choice("Tell her your name", None, None, Some(map["alice_bond" := 1]), None, None),
     Choice("Make up a name", None, None, Some(map["alice_bond" := -1, "survival_skills" := 1]), None, None),
     Choice("Deflect the question", None, None, Some(map["alice_bond" := -1, "alice_romance" := 1]), None, None)]
  }

  function AliceSlides(): seq<Slide> {
    [Slide("name_response", None, "", AliceAnswers(), None),
     Gated("truth", PointRequirements(map[], map["alice_bond" := 1], map[])),
     Gated("mystery", PointRequirements(map[], map["alice_bond" := -1, "alice_romance" := 1], map[]))]
  }

  function AliceStory(): GameStory {
    GameStory([], map["alice" := RouteOf("alice", [SceneOf("forest_escape", AliceSlides())], [], None)])
  }

  /** Entering route alice shows the question with all three answers. */
  lemma AliceQuestionShown()
    ensures var s := SelectRoute(LoadStory(AliceStory()), "alice");
            && Valid(s) && s.currentPhase == RoutePhase && s.currentRouteId == Some("alice")
            && s.currentSlideIndex == 0 && CurrentRoutePoints(s) == map[]
            && CurrentScene(s) == Some(SceneOf("forest_escape", AliceSlides()))
            && FilteredChoices(s) == AliceAnswers()
  {
    var s := SelectRoute(LoadStory(AliceStory()), "alice");
    assert CurrentScene(s) == Some(SceneOf("forest_escape", AliceSlides()));
    assert CurrentSlide(s) == Some(AliceSlides()[0]);
    OpenChoicesAllOpen(AliceAnswers(), s);
  }

  /** The awarded route points open the slide `mystery` and keep `truth` closed. */
  lemma DeflectAwardOpensMystery(s: Session)
    requires Valid(s) && s.currentPhase == RoutePhase && s.currentRouteId == Some("alice")
    requires s.story == Some(AliceStory()) && s.currentSceneIndex == 0 && CurrentRoutePoints(s) == map[]
    ensures var a := Award(CountChoice(s), AliceAnswers()[2]);
            && CurrentScene(a) == CurrentScene(s) && a.currentSlideIndex == s.currentSlideIndex
            && CurrentRoutePoints(a) == map["alice_bond" := -1, "alice_romance" := 1]
            && !IsOpen(AliceSlides()[1].requirements, a)
            && IsOpen(AliceSlides()[2].requirements, a)
  {
    var a := Award(CountChoice(s), AliceAnswers()[2]);
    assert a.story == s.story && a.currentPhase == s.currentPhase && a.currentRouteId == s.currentRouteId;
    assert a.currentSceneIndex == s.currentSceneIndex && a.currentSlideIndex == s.currentSlideIndex;
    assert SceneList(a) == SceneList(s) == Some([SceneOf("forest_escape", AliceSlides())]);
    assert Added(map[], map["alice_bond" := -1, "alice_romance" := 1]) == map["alice_bond" := -1, "alice_romance" := 1];
    assert CurrentRoutePoints(a) == map["alice_bond" := -1, "alice_romance" := 1];
    assert Lookup(CurrentRoutePoints(a), "alice_bond") == -1;
    assert "alice_bond" in AliceSlides()[1].requirements.value.route;
  }

  lemma DeflectingLandsOnMystery()
    ensures var r := MakeChoice(SelectRoute(LoadStory(AliceStory()), "alice"), 2);
            && r.currentPhase == RoutePhase && r.currentSlideIndex == 2
            && CurrentSlide(r) == Some(AliceSlides()[2])
            && CurrentRoutePoints(r) == map["alice_bond" := -1, "alice_romance" := 1]
  {
    var s := SelectRoute(LoadStory(AliceStory()), "alice");
    AliceQuestionShown();
    MakeChoiceApplies(s, 2);
    var a := Award(CountChoice(s), AliceAnswers()[2]);
    DeflectAwardOpensMystery(s);
    assert MakeChoice(s, 2) == AdvanceSlide(a);
    AdvanceSlideSpec(a, 2);
  }

  /**
   * A route of two scenes and no endings: past the last slide of its last
   * scene the story completes directly, with no ending entered.
   */
  lemma RouteWithoutEndingsCompletes()
    ensures var story := GameStory([], map["solo" := RouteOf("solo", [SceneOf("a", [Plain("a1")]), SceneOf("b", [Plain("b1")])], [], None)]);
            var s := AdvanceSlide(SelectRoute(LoadStory(story), "solo"));
            && s.currentSceneIndex == 1
            && AdvanceSlide(s).currentPhase == Complete
            && AdvanceSlide(s).currentEndingId.None?
  {
    var story := GameStory([], map["solo" := RouteOf("solo", [SceneOf("a", [Plain("a1")]), SceneOf("b", [Plain("b1")])], [], None)]);
    var s0 := SelectRoute(LoadStory(story), "solo");
    assert CurrentScene(s0) == Some(SceneOf("a", [Plain("a1")]));
    var s := AdvanceSlide(s0);
    assert s == s0.(currentSceneIndex := 1, currentSlideIndex := 0);
    assert CurrentScene(s) == Some(SceneOf("b", [Plain("b1")]));
    DetermineEndingSpec(s);
  }

  /**
   * An ending asking for `wisdom` 2 when the player has 1: no ending is
   * eligible, so the first-authored one is chosen anyway.
   */
  lemma FallbackToFirstEnding()
    ensures var wise := RouteEnding("sage", "Sage", [], Some(PointRequirements(map["wisdom" := 2], map[], map[])), Some(2));
            var s := AddUniversalPoints(Fresh(None), map["wisdom" := 1]);
            FindBestEnding([wise], s) == Some(wise)
  {
    var wise := RouteEnding("sage", "Sage", [], Some(PointRequirements(map["wisdom" := 2], map[], map[])), Some(2));
    var s := AddUniversalPoints(Fresh(None), map["wisdom" := 1]);
    assert Lookup(s.universalPoints, "wisdom") == 1;
    assert !Eligible(wise, s);
  }
}
