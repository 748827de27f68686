# Visual novel store, modelled in Dafny

This project models `useVNStore`, the zustand store that drives the visual novel
engine. A `GameStory` is a prologue (a list of scenes) and a map of routes. Each
route has its own scenes and a list of endings, and each ending has its scenes.
The store tracks where the player is:
- the phase: `prologue`, `route`, `ending` or `complete`;
- the route id and the ending id;
- the scene index and the slide index.

It also tracks what the player has earned:
- three point namespaces: universal, per-route and prologue;
- a choice counter;
- the ledger of unlocked endings.

Slides, scenes, routes, endings and choices can carry a `requires` threshold per
namespace. Gated slides are skipped. Gated choices are filtered out before the
player picks by index. Gated routes are refused. Endings are ranked by priority
among the eligible ones.

Layout, one module per file:
- `Wrappers`: `Option`.
- `Points`: point maps and the add-deltas loop.
- `Content`: the story data types.
- `SessionState`: the store's state as a value, with its invariant.
- `Evaluator`: `checkPointRequirements`.
- `Navigation`: the current scene, slide and choices, and the debug snapshot.
- `Endings`: `findBestEnding`.
- `Transitions`: each state-changing action as a function from the state before the call to the state after it.
- `Store`: the class `VNStore`. It has the store's fields, and each action is a method proved equal to its function in `Transitions`.
- `SessionProperties`: whole sequences of actions, and small stories built after the content files.

Modelling choices:
- JavaScript truthiness of ids is written out. An id counts only when it is present and not the empty string (`SessionState.Active`).
- Absent threshold sub-maps are modelled as empty maps.
- An absent `choices` list is modelled as the empty list.
- The optional award maps of a choice stay optional. An empty award still creates the route's entry in `routePoints`, as the code does.

Behaviour of the code worth knowing:
- Route thresholds are checked only when a route is active (vnStore.ts:121). With no active route they are skipped entirely: they neither block nor add to the missing points.
- `selectRoute` checks a route's own `requires` against the points of the route active *before* the call. From the prologue, a route's route thresholds are therefore never checked (`Transitions.SelectRouteFromPrologueIgnoresRouteThresholds`, vnStore.ts:439-449).
- Entering a route changes only the phase, the route id and the two indices (vnStore.ts:451-456). Its route points are kept, including points earned on an earlier visit.

## Model

| member | source | states |
|---|---|---|
| Points.Added | src/stores/vnStore.ts:244-283 | the keys after adding deltas are the old keys plus the delta keys |
| Points.AddedAt | src/stores/vnStore.ts:248-252 | each key ends at its old value (0 when absent) plus its delta (0 when absent) |
| Points.Accumulate | src/stores/vnStore.ts:244-283 | the per-key loop of `add*Points` yields exactly `Added(base, deltas)` |
| Points.AddedMonotone | src/stores/vnStore.ts:244-283 | non-negative deltas never lower a total |
| Content.FindEnding | src/stores/vnStore.ts:181-184 | finds an ending iff one has the id, and returns the first with that id |
| SessionState.Fresh | src/stores/vnStore.ts:65-92 | the initial state (no route, no ending, indices 0, no points, empty ledger) satisfies the session invariant |
| Evaluator.TotalShortfallRemove | src/stores/vnStore.ts:106-147 | the total shortfall over a key set is one key's shortfall plus the total over the rest |
| Evaluator.TotalShortfallZero | src/stores/vnStore.ts:106-147 | the total shortfall is non-negative, and zero iff no key falls short |
| Evaluator.CheckNamespace | src/stores/vnStore.ts:109-118 | the per-key loop reports met iff every threshold is reached, lists exactly the shortfalls of the keys that fall short, and sums them |
| Evaluator.CheckPointRequirements | src/stores/vnStore.ts:95-150 | `hasRequirements` iff all three namespaces are met (route only with an active route); the missing points and the total match the per-namespace shortfalls |
| Evaluator.DeficitsAt | src/stores/vnStore.ts:110-116 | a key is listed as missing iff its current value is below the threshold, with the difference as its value |
| Evaluator.CheckConsistent | src/stores/vnStore.ts:95-150 | the total needed is non-negative; requirements are met iff the total is zero iff no namespace lists a missing key |
| Evaluator.EmptyDeficits | src/stores/vnStore.ts:109-118 | nothing is missing exactly when every threshold is met |
| Evaluator.RouteThresholdsIgnoredWithoutRoute | src/stores/vnStore.ts:120-131 | with no active route, the route thresholds neither block nor add to the missing points |
| Evaluator.NonPositiveThresholdMetWhenAbsent | src/stores/vnStore.ts:111-112 | an absent key counts as 0, so a threshold of 0 or below is met by it |
| Evaluator.MeetsAllMonotone | src/stores/vnStore.ts:109-143 | thresholds that are met stay met when points only increase |
| Navigation.CurrentScene | src/stores/vnStore.ts:153-200 | there is a current scene iff the phase's scene list exists, the index is in range and the scene's `requires` is met |
| Navigation.CurrentSlide | src/stores/vnStore.ts:203-228 | there is a current slide iff there is a current scene, the slide index is in range and the slide's `requires` is met |
| Navigation.OpenChoices | src/stores/vnStore.ts:237-240 | a choice is kept iff it is in the list and its `requires` is met; never more choices than given |
| Navigation.OpenChoicesAppend | src/stores/vnStore.ts:237-240 | filtering distributes over concatenation, so the order of the kept choices is preserved |
| Navigation.OpenChoicesAllOpen | src/stores/vnStore.ts:237-240 | with every choice open the filter keeps the list as it is |
| Navigation.FilteredChoices | src/stores/vnStore.ts:231-241 | without a current slide there are no choices; with one, the result is its open choices |
| Navigation.NextOpenSlide | src/stores/vnStore.ts:292-317 | the search finds the first open slide at or after the index, with every slide before it closed, or reports that none is open |
| Navigation.GetDebugInfo | src/stores/vnStore.ts:545-592 | the snapshot reports the phase, the route and ending ids, the two indices and the universal and prologue points as they are, the active route's points (empty without one), and as `totalScenes` the length of the scene list the phase indexes, 0 when there is none |
| Navigation.DebugInfoAgrees | src/stores/vnStore.ts:545-592 | a shown scene's index is below the reported scene count |
| Navigation.ShownSlideIsOpen | src/stores/vnStore.ts:203-228 | a shown slide and its scene always have their `requires` met |
| Endings.BestIndex | src/stores/vnStore.ts:462-483 | picks an eligible ending of maximal priority, with every earlier eligible ending strictly lower, or -1 when none is eligible |
| Endings.FindBestEnding | src/stores/vnStore.ts:462-483 | none only for an empty list; the first ending when none is eligible; otherwise an eligible ending whose priority (0 when absent) no eligible one exceeds |
| Endings.FindBestEndingEarliest | src/stores/vnStore.ts:475-482 | of eligible endings of equal top priority, the first-authored one wins, as the stable sort keeps it first |
| Endings.FindBestEndingIgnoresIneligible | src/stores/vnStore.ts:466-469 | appending ineligible endings to a non-empty list leaves the pick unchanged, whatever their priority |
| Endings.BestIndexIgnoresIneligible | src/stores/vnStore.ts:466-469 | the search over a list extended by ineligible endings picks the same index as over the list itself |
| Endings.BestIndexPrefix | src/stores/vnStore.ts:475-482 | the search over the first n endings does not depend on what follows them |
| Transitions.LoadStory | src/stores/vnStore.ts:77-92 | loading yields a valid fresh session over the story, whatever the state was |
| Transitions.Reset | src/stores/vnStore.ts:523-542 | reset yields a valid fresh session over the loaded story |
| Transitions.AddUniversalPoints | src/stores/vnStore.ts:244-253 | keeps the session invariant |
| Transitions.AddRoutePoints | src/stores/vnStore.ts:255-272 | keeps the session invariant |
| Transitions.AddProloguePoints | src/stores/vnStore.ts:274-283 | keeps the session invariant |
| Transitions.SelectRoute | src/stores/vnStore.ts:430-459 | keeps the invariant, the story, the points, the counter and the ledger |
| Transitions.SelectEnding | src/stores/vnStore.ts:500-520 | keeps the invariant, the story, the points, the counter and the ledger |
| Transitions.DetermineEnding | src/stores/vnStore.ts:485-497 | keeps the invariant, the story, the points, the counter and the ledger |
| Transitions.Finish | src/stores/vnStore.ts:376-385 | keeps the invariant; the ledger only grows and never holds an id twice |
| Transitions.AdvanceToNextScene | src/stores/vnStore.ts:324-390 | keeps the invariant, the story, the points and the counter; the ledger only grows |
| Transitions.AdvanceSlide | src/stores/vnStore.ts:286-321 | keeps the invariant, the story, the points and the counter; the ledger only grows |
| Transitions.Award | src/stores/vnStore.ts:405-418 | awarding a choice's points keeps the session invariant |
| Transitions.CountChoice | src/stores/vnStore.ts:402 | counting a choice keeps the session invariant |
| Transitions.ApplyChoice | src/stores/vnStore.ts:399-427 | applying a choice keeps the invariant and the story; the ledger only grows |
| Transitions.MakeChoice | src/stores/vnStore.ts:393-427 | a choice keeps the invariant and the story; the ledger only grows |
| Transitions.AddUniversalPointsSpec | src/stores/vnStore.ts:244-253 | each universal key gains its delta (from 0), the keys are the union, and nothing else changes |
| Transitions.AddProloguePointsSpec | src/stores/vnStore.ts:274-283 | each prologue key gains its delta (from 0), the keys are the union, and nothing else changes |
| Transitions.AddRoutePointsSpec | src/stores/vnStore.ts:255-272 | no change without an active route; with one, only that route's entry changes (created if absent) and each key gains its delta |
| Transitions.SelectRouteSpec | src/stores/vnStore.ts:430-459 | a known route whose `requires` is met is entered at scene 0, slide 0 with nothing else changed; otherwise the state is unchanged |
| Transitions.SelectRouteFromPrologueIgnoresRouteThresholds | src/stores/vnStore.ts:439-449 | with no active route, a known route whose universal and prologue thresholds are met is entered, whatever its route thresholds say |
| Transitions.SelectEndingSpec | src/stores/vnStore.ts:500-520 | an ending of the active route with that id is entered at scene 0, slide 0 with nothing else changed; otherwise the state is unchanged |
| Transitions.DetermineEndingSpec | src/stores/vnStore.ts:485-497 | on an active route, the story completes when the route has no endings; otherwise the ending `findBestEnding` picks is entered at its start |
| Transitions.AdvanceToNextSceneSpec | src/stores/vnStore.ts:324-390 | below the scene count, the next scene of the same list at slide 0; past the prologue's end, no change; past a route's end, determine the ending; past an ending's end, complete and record the id once; when complete, no change |
| Transitions.CurrentSceneIgnoresSlide | src/stores/vnStore.ts:153-200 | the current scene and every requirement check are independent of the slide index |
| Transitions.AdvanceSlideSpec | src/stores/vnStore.ts:286-321 | moves to the first later open slide of the scene, which is then shown, and changes nothing else; advances the scene when no later slide is open; no change without a current scene |
| Transitions.MakeChoiceOutOfRange | src/stores/vnStore.ts:397 | an index outside the filtered choices changes nothing, even one valid in the unfiltered list |
| Transitions.AwardSpec | src/stores/vnStore.ts:405-418 | universal points always, route points only in phase route, prologue points only in phase prologue, and nothing else changes |
| Transitions.ApplyChoiceAwards | src/stores/vnStore.ts:399-427 | an applied choice is counted once and its points, by phase, stay applied whether or not a route switch follows or succeeds |
| Transitions.ApplyChoiceEntersRoute | src/stores/vnStore.ts:402-423 | a choice naming a route is `selectRoute` applied after the choice is counted and its points awarded: the route is entered at its start exactly when it is known and its `requires` holds with those points, and otherwise the position stays where it was; the slide never advances |
| Transitions.MakeChoiceApplies | src/stores/vnStore.ts:395-399 | an index inside the filtered choices applies the filtered choice at that index |
| Transitions.ApplyChoiceAdvances | src/stores/vnStore.ts:425-426 | a choice naming no route advances the slide from the state with the choice counted and its points awarded |
| Transitions.MakeChoiceOutsideRouteKeepsRoutePoints | src/stores/vnStore.ts:411-413 | outside phase route, route points on a choice are dropped |
| Transitions.ResetSpec | src/stores/vnStore.ts:523-542 | reset keeps the story and clears everything else; it equals loading the same story, and resetting twice equals once |
| Store.VNStore.constructor | src/stores/vnStore.ts:65-75 | a new store holds the initial state with no story |
| Store.VNStore.LoadStory | src/stores/vnStore.ts:77-92 | the new state is `Transitions.LoadStory` of the story, and the invariant holds |
| Store.VNStore.Reset | src/stores/vnStore.ts:523-542 | the new state is `Transitions.Reset` of the old one, and the invariant holds |
| Store.VNStore.AddUniversalPoints | src/stores/vnStore.ts:244-253 | the new state is `Transitions.AddUniversalPoints` of the old one |
| Store.VNStore.AddRoutePoints | src/stores/vnStore.ts:255-272 | the new state is `Transitions.AddRoutePoints` of the old one |
| Store.VNStore.AddProloguePoints | src/stores/vnStore.ts:274-283 | the new state is `Transitions.AddProloguePoints` of the old one |
| Store.VNStore.SelectRoute | src/stores/vnStore.ts:430-459 | the new state is `Transitions.SelectRoute` of the old one |
| Store.VNStore.SelectEnding | src/stores/vnStore.ts:500-520 | the new state is `Transitions.SelectEnding` of the old one |
| Store.VNStore.DetermineEnding | src/stores/vnStore.ts:485-497 | the new state is `Transitions.DetermineEnding` of the old one |
| Store.VNStore.AdvanceToNextScene | src/stores/vnStore.ts:324-390 | the new state is `Transitions.AdvanceToNextScene` of the old one |
| Store.VNStore.AdvanceSlide | src/stores/vnStore.ts:286-321 | the skipping loop ends in the state `Transitions.AdvanceSlide` gives |
| Store.VNStore.MakeChoice | src/stores/vnStore.ts:393-427 | the new state is `Transitions.MakeChoice` of the old one |
| SessionProperties.Step | src/stores/vnStore.ts:18-53 | every store action keeps the invariant; any action but `reset` and `loadStory` keeps the story and only extends the ledger |
| SessionProperties.Run | src/stores/vnStore.ts:18-53 | after any sequence of actions, the ledger never holds an ending twice and a route id names a route of the story; without a restart, the story is kept and the ledger only grows |
| SessionProperties.RunAppend | src/stores/vnStore.ts:18-53 | running two action lists in turn is running their concatenation |
| SessionProperties.RunKeepsStory | src/stores/vnStore.ts:77-92 | only `loadStory` replaces the story |
| SessionProperties.RunEndingInReset | src/stores/vnStore.ts:523-542 | a final `reset` leaves the same state whatever came before it, short of a `loadStory` |
| SessionProperties.PrologueStallsAtItsEnd | src/stores/vnStore.ts:338-346 | past the last slide of the last prologue scene, `advanceSlide` changes nothing |
| SessionProperties.RouteChoiceEntersAlice | src/content/exampleStory.ts:120-136 | the first option of the route choice enters route alice at its start and counts one choice |
| SessionProperties.GatedChoiceIndexIsRejected | src/content/exampleStory.ts:130-136 | without `leadership`, the third option is filtered out, so picking index 2 changes nothing |
| SessionProperties.UnityRouteNeedsLeadership | src/content/exampleStory.ts:553-559 | route unity is refused without prologue `leadership` 1 and entered with it |
| SessionProperties.EarnedLeadershipOpensUnity | src/stores/vnStore.ts:402-422 | a prologue choice awarding `leadership` 1 and naming a route gated by that threshold enters the route, because the points are applied first |
| SessionProperties.AliceQuestionShown | src/content/aliceRoute.ts:35-53 | entering route alice shows its first question with all three answers |
| SessionProperties.DeflectAwardOpensMystery | src/content/aliceRoute.ts:49-66 | the third answer's route points close the `truth` slide and open the `mystery` slide |
| SessionProperties.DeflectingLandsOnMystery | src/content/aliceRoute.ts:49-66 | after the third answer the `truth` slide is skipped and the `mystery` slide is shown, with alice_bond -1 |
| SessionProperties.RouteWithoutEndingsCompletes | src/stores/vnStore.ts:485-497 | past the last scene of a route with no endings, the story completes with no ending entered |
| SessionProperties.FallbackToFirstEnding | src/stores/vnStore.ts:471-473 | when no ending is eligible, the first-authored one is still chosen |

## Left out

- Audio: `reset` also calls the audio store's `cleanup()`; that store is not part of this model.
- `startTime`: it is read from the clock at load and reset, and nothing in the store reads it back, so the model has no such field.
- Console logging, and the presentation components that read the store, are not part of this model.
- JavaScript object lookups also see inherited prototype keys such as `constructor`. Point maps and `story.routes` are modelled as plain maps, without that effect. In the code, `selectRoute("constructor")` finds a value at vnStore.ts:432 and enters it, and the next scene lookup (vnStore.ts:175) then throws. The model refuses that id, and its session invariant excludes the state that would follow.
- Point values, thresholds and priorities are JavaScript numbers, modelled as `int`. Fractions are not modelled, and neither is the loss of precision past 2^53.
- Endings.FindBestEnding: the array sort is modelled by what a stable descending sort puts first, the leftmost eligible ending of maximal priority. The order of the other endings is not modelled, because only the head is used.
- A `makeChoice` index that is not an integer is not modelled; the index is an `int`.
- `src/types/vn.ts`, which the store imports its types from, is out of date against the content files and is not part of this model. The types follow how vnStore.ts and the content files use them.
- The content files serve only as the source of the small stories in `SessionProperties`. Whole routes are not transcribed. The Alice fixture keeps only the answers' route points: their universal points (aliceRoute.ts:40, 45, 50) and full texts are dropped, and so are the slides after `mystery`.
- The zustand `set`/`get` machinery and re-rendering are not modelled. Each action is one state change, and nested actions are composed as functions.
