/**
 * The story content: an immutable tree of prologue scenes and routes, each route
 * with its own scenes and endings. Only the fields the narrative engine reads are
 * kept; sprites, backgrounds, audio and character rosters are presentation data.
 */
module Content {
  import opened Wrappers
  import opened Points

  /**
   * Thresholds per point namespace. A namespace the content leaves out is the
   * empty map: it lists no key, so it imposes nothing, exactly as an absent one.
   */
  datatype PointRequirements = PointRequirements(
    universal: PointMap,
    route: PointMap,
    prologue: PointMap)

  /**
   * A player option. The three award maps are optional, as in the content files;
   * `requirements` is the content's `requires` field, here and below.
   */
  datatype Choice = Choice(
    text: string,
    routeId: Option<string>,
    universalPoints: Option<PointMap>,
    routePoints: Option<PointMap>,
    prologuePoints: Option<PointMap>,
    requirements: Option<PointRequirements>)

  /** A dialogue beat; a slide without choices has the empty choice list. */
  datatype Slide = Slide(
    id: string,
    speaker: Option<string>,
    text: string,
    choices: seq<Choice>,
    requirements: Option<PointRequirements>)

  datatype Scene = Scene(
    id: string,
    title: string,
    slides: seq<Slide>,
    requirements: Option<PointRequirements>)

  datatype RouteEnding = RouteEnding(
    id: string,
    name: string,
    scenes: seq<Scene>,
    requirements: Option<PointRequirements>,
    priority: Option<int>)

  datatype Route = Route(
    id: string,
    name: string,
    scenes: seq<Scene>,
    endings: seq<RouteEnding>,
    requirements: Option<PointRequirements>)

  datatype GameStory = GameStory(
    prologue: seq<Scene>,
    routes: map<string, Route>)

  /** `endings.find(e => e.id === id)`: the first ending carrying `id`, if any. */
  function FindEnding(endings: seq<RouteEnding>, id: string): (r: Option<RouteEnding>)
    ensures r.Some? <==> exists i :: 0 <= i < |endings| && endings[i].id == id
    ensures r.Some? ==> r.value in endings && r.value.id == id
    ensures r.Some? ==> exists i :: 0 <= i < |endings| && endings[i] == r.value &&
                         forall j :: 0 <= j < i ==> endings[j].id != id
  {
    if |endings| == 0 then None
    else if endings[0].id == id then Some(endings[0])
    else
      var r := FindEnding(endings[1..], id);
      assert forall i :: 1 <= i < |endings| ==> endings[i] == endings[1..][i - 1];
      r
  }
}
