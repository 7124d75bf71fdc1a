/**
 * The map-matching step (app.py:43-49): ask the matching service, take the
 * coordinates of the geometry of the first matching in its JSON answer, and fall
 * back to the sampled points, with a warning, when any step of that raises.
 * The HTTP exchange itself is an injected `Response` value.
 */
module MapMatching {
  import opened Wrappers
  import opened Tracks

  /** A decoded JSON document. */
  datatype Json =
    | JNull
    | JBool(b: bool)
    | JNumber(n: real)
    | JString(s: string)
    | JArray(items: seq<Json>)
    | JObject(members: map<string, Json>)

  /** What the HTTP request produced. `body` is None when it is not valid JSON. */
  datatype Response =
    | TransportError
    | HttpResponse(status: int, body: Option<Json>)

  /** The route handed to the renderer: the service's geometry, or the raw sampled points. */
  datatype Route =
    | Snapped(coordinates: Json)
    | Raw(points: seq<Point>)

  /** `raise_for_status()` raises for client (4xx) and server (5xx) errors only. */
  predicate RaisesForStatus(status: int)
  {
    400 <= status < 600
  }

  /** Python's `v[key]` for a string key; None where Python raises. */
  function Lookup(v: Json, key: string): Option<Json>
  {
    match v
    case JObject(m) => if key in m then Some(m[key]) else None
    case _ => None
  }

  /**
   * Python's `v[0]`: the first item of a list, the first character of a
   * string; a dict has no key 0 (JSON keys are strings) and other values
   * cannot be indexed.
   */
  function First(v: Json): Option<Json>
  {
    match v
    case JArray(items) => if |items| > 0 then Some(items[0]) else None
    case JString(s) => if |s| > 0 then Some(JString([s[0]])) else None
    case _ => None
  }

  /** The "coordinates" of the "geometry" of the first of the "matchings"; None where Python raises. */
  function MatchedCoordinates(body: Json): Option<Json>
  {
    match Lookup(body, "matchings")
    case None => None
    case Some(matchings) =>
      match First(matchings)
      case None => None
      case Some(matching) =>
        match Lookup(matching, "geometry")
        case None => None
        case Some(geometry) => Lookup(geometry, "coordinates")
  }

  /** The try/except of app.py:43-49. */
  function MatchOrFallback(pts: seq<Point>, response: Response): (route: Route)
    ensures route.Raw? ==> route.points == pts
  {
    match response
    case TransportError => Raw(pts)
    case HttpResponse(status, body) =>
      if RaisesForStatus(status) || body.None? then Raw(pts)
      else
        match MatchedCoordinates(body.value)
        case Some(c) => Snapped(c)
        case None => Raw(pts)
  }

  /** The warning of app.py:48 is shown exactly when the raw points are used. */
  predicate Warned(route: Route)
  {
    route.Raw?
  }

  // ---------------------------------------------------------------------------
  // The shape of a successful answer, stated without the lookup chain

  /** body is an object whose "matchings" list starts with a matching whose geometry has coordinates c. */
  ghost predicate IsMatchResponse(body: Json, c: Json)
  {
    && body.JObject?
    && "matchings" in body.members
    && body.members["matchings"].JArray?
    && |body.members["matchings"].items| > 0
    && body.members["matchings"].items[0].JObject?
    && "geometry" in body.members["matchings"].items[0].members
    && body.members["matchings"].items[0].members["geometry"].JObject?
    && "coordinates" in body.members["matchings"].items[0].members["geometry"].members
    && body.members["matchings"].items[0].members["geometry"].members["coordinates"] == c
  }

  /** The answer the service gives on success: one matching whose geometry holds c. */
  function SuccessBody(c: Json): Json
  {
    JObject(map[
      "code" := JString("Ok"),
      "matchings" := JArray([JObject(map["geometry" := JObject(map["type" := JString("LineString"), "coordinates" := c])])])
    ])
  }

  /** The lookup chain succeeds exactly on well-shaped answers (a string "matchings" never gets through). */
  lemma MatchedCoordinatesShape(body: Json, c: Json)
    ensures MatchedCoordinates(body) == Some(c) <==> IsMatchResponse(body, c)
  {
  }

  /** A failed exchange: what the except clause catches. */
  ghost predicate Failed(response: Response)
  {
    || response.TransportError?
    || RaisesForStatus(response.status)
    || response.body.None?
    || forall c :: !IsMatchResponse(response.body.value, c)
  }

  /** On any failure the route is exactly the sampled points, with the warning. */
  lemma FallbackOnFailure(pts: seq<Point>, response: Response)
    requires Failed(response)
    ensures MatchOrFallback(pts, response) == Raw(pts)
    ensures Warned(MatchOrFallback(pts, response))
  {
    if response.HttpResponse? && !RaisesForStatus(response.status) && response.body.Some? {
      var body := response.body.value;
      if MatchedCoordinates(body).Some? {
        MatchedCoordinatesShape(body, MatchedCoordinates(body).value);
      }
    }
  }

  /** On success the route is the first matching's coordinates, whatever the number of points they hold. */
  lemma SnappedOnSuccess(pts: seq<Point>, response: Response, c: Json)
    requires response.HttpResponse? && !RaisesForStatus(response.status)
    requires response.body.Some? && IsMatchResponse(response.body.value, c)
    ensures MatchOrFallback(pts, response) == Snapped(c)
    ensures !Warned(MatchOrFallback(pts, response))
  {
  }

  /** The service's usual answer is read as a match. */
  lemma SuccessBodyMatches(pts: seq<Point>, status: int, c: Json)
    requires 200 <= status < 300
    ensures IsMatchResponse(SuccessBody(c), c)
    ensures MatchOrFallback(pts, HttpResponse(status, Some(SuccessBody(c)))) == Snapped(c)
  {
  }
}
