/**
 * The steps of app.py:28-49 chained: flatten the parsed tracks, sample them
 * down to the matching budget, build the request's coordinate list, and pick
 * the matched geometry or the sampled points.
 */
module Pipeline {
  import opened Tracks
  import opened Sampling
  import opened Request
  import opened MapMatching

  /** The points after sampling (app.py:29-39). */
  function SampledPoints(tracks: seq<Track>): seq<Point>
  {
    Downsample(Flatten(tracks))
  }

  /** The `coords` sent to the matching service (app.py:42). */
  function MatchRequest(tracks: seq<Track>, fmt: real -> string): string
  {
    CoordinateString(SampledPoints(tracks), fmt)
  }

  /** The route that is drawn (app.py:43-49). */
  function DrawnRoute(tracks: seq<Track>, response: Response): Route
  {
    MatchOrFallback(SampledPoints(tracks), response)
  }

  /**
   * The request never names more than MAX_MATCH_POINTS points, each a point of
   * the GPX file in recording order, starting with the file's first point.
   */
  lemma RequestIsBounded(tracks: seq<Track>, fmt: real -> string)
    requires PlainFormatter(fmt)
    ensures |SampledPoints(tracks)| <= MAX_MATCH_POINTS
    ensures |SampledPoints(tracks)| > 0 <==> PointCount(tracks) > 0
    ensures IsSubsequence(SampledPoints(tracks), Flatten(tracks))
    ensures PointCount(tracks) > 0 ==> SampledPoints(tracks)[0] == Flatten(tracks)[0]
    ensures Occurrences(MatchRequest(tracks, fmt), ';') < MAX_MATCH_POINTS
  {
    FlattenLength(tracks);
    DownsampleSpec(Flatten(tracks), MAX_MATCH_POINTS);
    CoordinateStringFields(SampledPoints(tracks), fmt);
  }

  /** When matching fails, the drawn route is the bounded sample of the recorded points. */
  lemma FallbackRouteIsSample(tracks: seq<Track>, response: Response)
    requires Failed(response)
    ensures DrawnRoute(tracks, response).Raw?
    ensures DrawnRoute(tracks, response).points == SampledPoints(tracks)
    ensures |DrawnRoute(tracks, response).points| <= MAX_MATCH_POINTS
    ensures IsSubsequence(DrawnRoute(tracks, response).points, Flatten(tracks))
  {
    FallbackOnFailure(SampledPoints(tracks), response);
    DownsampleSpec(Flatten(tracks), MAX_MATCH_POINTS);
  }
}
