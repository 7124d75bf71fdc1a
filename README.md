# GPX map poster: verified model of the track-to-poster logic

This project models, in Dafny, the deterministic logic of the GPX-Map
Generator, a one-script Streamlit app (`app.py`). The app turns an uploaded GPX
recording into a PNG poster in six steps:

- It flattens the GPX tracks, segments and points into one list of
  (longitude, latitude) pairs.
- If the list holds more than `MAX_MATCH_POINTS = 100` points, it thins it with
  the stride `len // 100 + 1`.
- It sends the points to an OSRM map-matching service as one `lon,lat;lon,lat;…`
  string.
- It draws the service's matched geometry, or the raw points when matching
  fails for any reason.
- It renders a static map.
- It stacks a fixed 80-pixel footer under the map, holding three centred
  caption lines: event, runner and duration.

Modules, one per step:

- `Tracks` (`tracks.dfy`): `Point`, `Flatten`, and the point count and order lemmas.
- `Sampling` (`sampling.dfy`): Python's `s[::step]` as `Stride`, the sampling
  step `Downsample` (budget 100) and its general form `DownsampleTo`, the
  budget arithmetic, and the subsequence lemmas.
- `Request` (`request.dfy`): Python's `join` and `split`, and the coordinate
  string with its round trip.
- `MapMatching` (`matching.dfy`): a JSON value type, the injected HTTP
  `Response`, the `res.json()["matchings"][0]["geometry"]["coordinates"]`
  lookup with Python's indexing rules, and the try/except fallback.
- `Footer` (`footer.dfy`): a `Canvas` class whose `Paste` and `DrawText`
  record what is put on the image. `ComposePoster` is the caption loop.
- `Pipeline` (`pipeline.dfy`): the steps chained, with end-to-end bounds.
- `Wrappers` (`wrappers.dfy`): `Option`.

The model follows `app.py` as written:

- There is no haversine distance, no outlier filter, no timestamp or elevation
  filter, no minimum-point check and no self-computed projection in the code.
- The footer height is the constant 80, not derived from text metrics.
- The match step falls back on HTTP status 400-599, which is what
  `raise_for_status` raises for, rather than on every non-2xx status.

## Model

| member | source | states |
|---|---|---|
| Tracks.Flatten | app.py:29-34 | definition: the (longitude, latitude) of every point of every segment of every track, in that nesting order |
| Sampling.StepFor | app.py:38 | definition: the stride `n // budget + 1` |
| Sampling.Stride | app.py:39 | definition: Python's `s[::step]`, the elements at indices 0, step, 2 step, … below \|s\| |
| Sampling.DownsampleTo | app.py:37-39 | definition: the list unchanged up to the budget, its stride selection with `StepFor` above it |
| Sampling.Downsample | app.py:37-39 | definition: `DownsampleTo` with the budget MAX_MATCH_POINTS = 100 |
| Request.Join | app.py:42 | definition: Python's `sep.join(fields)`, empty for no fields |
| Request.PointField | app.py:42 | definition: a point's formatted longitude, a comma, its formatted latitude |
| Request.CoordinateString | app.py:42 | definition: the point fields joined with `;` |
| MapMatching.RaisesForStatus | app.py:45 | definition: `raise_for_status` raises exactly for status 400-599 |
| MapMatching.Lookup | app.py:46 | definition: indexing a JSON value by a string key succeeds only on an object holding that key |
| MapMatching.First | app.py:46 | definition: indexing by 0 gives a non-empty list's first item or a non-empty string's first character; it fails on everything else |
| MapMatching.MatchedCoordinates | app.py:46 | definition: the `matchings`, first item, `geometry`, `coordinates` lookup chain, failing where any step fails |
| MapMatching.Warned | app.py:47-49 | definition: the warning is shown exactly when the raw points are used |
| Footer.CaptionY | app.py:63 | definition: caption line i starts at map height + 5 + 25 i |
| Pipeline.SampledPoints | app.py:29-39 | definition: the flattened points, down-sampled to 100 |
| Pipeline.MatchRequest | app.py:42 | definition: the coordinate string of the sampled points |
| Pipeline.DrawnRoute | app.py:43-49 | definition: the match-or-fallback route for the sampled points |
| Tracks.FlattenLength | app.py:29-34 | the flattened list has exactly as many points as all segments of all tracks together |
| Tracks.FlattenAt | app.py:29-34 | point k of segment s of track t sits at index (points of earlier tracks) + (points of earlier segments of t) + k: track, then segment, then point order |
| Tracks.FlattenAppend | app.py:29-34 | flattening more tracks appends their points after the earlier ones |
| Tracks.FlattenMember | app.py:29-34 | a point is in the list iff some segment of some track holds it; nothing is invented |
| Sampling.BudgetStep | app.py:37-38 | above the budget B the step n // B + 1 is at least 2 and ceil(n / step) lies in 1..B |
| Sampling.StrideLength | app.py:39 | `s[::step]` keeps ceil(\|s\| / step) elements, never more than \|s\| |
| Sampling.StrideAt | app.py:39 | element i of `s[::step]` is s[i * step], and index i exists exactly when i * step < \|s\| |
| Sampling.StrideIsSubsequence | app.py:39 | `s[::step]` is a subsequence of s: no reordering, duplication or invented point |
| Sampling.StrideKeepsLast | app.py:39 | the last input element is selected iff (\|s\| - 1) % step == 0 |
| Sampling.SubsequenceMultiset | app.py:39 | a subsequence uses each value at most as often as the input does |
| Sampling.DownsampleSpec | app.py:37-39 | sampling leaves lists up to the budget unchanged; otherwise the result has at most budget points, is non-empty iff the input is, keeps the first point, and is a subsequence of the input |
| Sampling.DownsampleStride | app.py:37-39 | above the budget the result is exactly the stride selection with step n // budget + 1 >= 2, of length ceil(n / step), and the last point survives only when step divides n - 1 |
| Request.SplitJoin | app.py:42 | for a non-empty list of fields, none containing the separator, splitting their `join` at the separator returns the fields (no fields join to `""`, which splits to one empty field) |
| Request.JoinSeparators | app.py:42 | a join of n separator-free fields holds n - 1 separators, none for no fields |
| Request.CoordinateStringFields | app.py:42 | the coordinate string has one `lon,lat` field per point, in order, with \|pts\| - 1 semicolons, and is empty iff there are no points |
| MapMatching.MatchOrFallback | app.py:43-49 | a fallback route is exactly the sampled points |
| MapMatching.MatchedCoordinatesShape | app.py:46 | the key path succeeds with c iff the body is an object whose non-empty `matchings` list starts with an object whose `geometry` object has `coordinates` c |
| MapMatching.FallbackOnFailure | app.py:43-49 | transport error, status 400-599, a non-JSON body or a body without that shape all give the raw sampled points and the warning |
| MapMatching.SnappedOnSuccess | app.py:43-46 | a non-error status with a well-shaped body gives that body's coordinates, with no warning, whatever their length |
| MapMatching.SuccessBodyMatches | app.py:44-46 | the service's usual answer, one matching with a LineString geometry, is read as a match |
| Footer.Canvas.constructor | app.py:57 | a new canvas has the requested size and nothing on it |
| Footer.Canvas.Paste | app.py:58 | pasting records the image and its position and leaves the captions alone |
| Footer.Canvas.DrawText | app.py:64 | drawing text appends it, with its position, to the captions and leaves the pasted images alone |
| Footer.FooterHoldsThreeLines | app.py:63 | a caption line starts inside the 80-pixel footer band iff it is one of the first three |
| Footer.ComposePoster | app.py:57-64 | the canvas is the map's width and the map's height plus 80, with the map pasted at (0, 0); event, runner and duration are drawn in that order at y = map height + 5 + 25 i, strictly increasing and inside the footer band, each centred so that 2 x + text width = canvas width |
| Pipeline.RequestIsBounded | app.py:29-42 | the request names at most 100 points, all recorded points in order, starting with the first one, and holds fewer than 100 semicolons |
| Pipeline.FallbackRouteIsSample | app.py:29-49 | when matching fails, the drawn route is exactly the sampled points: at most 100 of the recorded points, in order |

## Left out

- The Streamlit form, title, warning display, image display and download button (app.py:18-26, 48, 69-75) are user-interface I/O. The warning is modelled only as the predicate `MapMatching.Warned`.
- GPX parsing (`gpxpy.parse`, app.py:28) is a foreign library. Its output is taken as a sequence of tracks, each a sequence of segments of points.
- The HTTP GET to the OSRM endpoint, the URL template and `res.json()` (app.py:9-13, 44-46) are network calls. They are replaced by an injected `Response` value: a transport error, or a status with a JSON body or a body that is not JSON.
- Static map tile fetching and rendering (`StaticMap`, app.py:52-54) is a network-backed foreign library. The rendered map is only a `Raster` size. Whether `StaticMap` accepts a malformed matched `coordinates` value is not modelled; the app does not check that value.
- Pillow's drawing, default font and `textsize` (app.py:59-64) become a record of pasted images and drawn texts. Text width is a parameter `textWidth`. The measured text height is unused by the app and left out.
- PNG encoding into `BytesIO` (app.py:67-68) is serialisation done by a foreign library.
- Float formatting in the f-string (app.py:42) is a parameter `fmt`. It is assumed only never to produce `,` or `;`. Coordinates are exact `real`s.
- Float division in the centring (app.py:64) is exact `real` division. It is stated as 2 x + w = canvas width.
- Request.CoordinateStringFields: recovers each point's formatted coordinates, not the points themselves, because float formatting is abstract.
