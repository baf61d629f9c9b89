# Route viewer core, modelled in Dafny

The route viewer lets a user search their Strava activities by name, pick one,
see its statistics, and see its route drawn on a map in a chosen colour theme.
This project models the sequential logic at the core of that program and proves
properties of the model:

- **Polyline** — the decoder of Google's Encoded Polyline Algorithm Format.
  The frontend uses it to read a route's geometry.
  It handles 5-bit groups offset by 63, with 0x20 as the continuation bit.
  Signs are zig-zag encoded, and latitude and longitude are running sums.
  Points come out longitude first.
  The model has the format's encoder beside it, and a round trip joins the two.
- **MapView** — keeps the map's `route` layer and `route` source in step with the selected route.
  An update runs at once on a loaded map, or waits as a `load` handler.
  The map is an abstract surface with layers, sources, `load` handlers and the last camera fit.
- **StatsPanel** — the duration formatter, and the guard that shows the moving-time tile.
- **App** — what selecting a route does to the page's state, and what changing the theme does.
- **RouteSearch** — the search box's state machine.
- **StravaClient** — the backend's case-insensitive name filter over the athlete's activities.
  An HTTP error falls back to the empty list.
- **Themes** — theme lookup with a fallback to `default`.

`Wrappers` holds `Option` and `Result`. `Types` holds the records the frontend
and backend exchange. Network replies, the map library and the theme catalogue are
parameters of the model. Coordinates are integers in units of 1e-5 degree.

Where the model differs from a plain reading of the program:

- `Polyline.Decode` is total over all strings. A character below `?` yields a negative group.
  For a negative group, `b & 0x1f` is the group's low five bits in two's complement, which is Dafny's `b % 32`.
  Such a group also fails `b >= 0x20`, so no input needs excluding.
- The program works on 32-bit integers, and the model on unbounded ones.
  The format writes at most five continuation characters per value.
  `Polyline.VarintFitsInt32` proves that a value read from such a run is below 2^30.
  `Polyline.DisjointGroups` proves that each new group only adds to what is already read.
  That the 32-bit `<<`, `|`, `>>` and `~` then agree with the model's arithmetic is argued, not proved (see "## Left out").

## Model

| member | source | states |
|---|---|---|
| Polyline.Chunk | frontend/src/services/api.ts:39 | reading past the end gives a group that ends the varint with payload 0, as `NaN` does; a character in `?`..`~` gives a group in 0..63 |
| Polyline.Continues | frontend/src/services/api.ts:42 | for a group in 0..63, another group follows exactly when bit 0x20 is set |
| Polyline.Payload | frontend/src/services/api.ts:40 | `b & 0x1f` is below 32; for a character in `?`..`~` it is the group without its continuation bit |
| Polyline.ReadVarint | frontend/src/services/api.ts:38-42 | a varint ends just after the first character, from its start on, whose continuation bit is clear (or at the end of the input) |
| Polyline.VarintIsChunkSum | frontend/src/services/api.ts:38-42 | a varint's value is the sum of `(b_k & 31) << 5k` over its groups |
| Polyline.VarintBound | frontend/src/services/api.ts:38-42 | a varint of k groups is below 2^(5k) |
| Polyline.VarintFitsInt32 | frontend/src/services/api.ts:38-54 | a varint with at most five continuation characters is below 2^30 |
| Polyline.DisjointGroups | frontend/src/services/api.ts:40 | with the value read so far below 32^k and a new group below 32, adding the group times 32^k stays below 32^(k+1) |
| Polyline.ZigZagDecode | frontend/src/services/api.ts:44 | an even r decodes to r/2 and an odd r to -(r+1)/2; the result is negative exactly for odd r |
| Polyline.ZigZagEncode | frontend/src/services/api.ts:44 | the format's zig-zag encoding, which the decoder inverts |
| Polyline.ZigZagDecodeThenEncode | frontend/src/services/api.ts:44 | encoding a decoded value gives the value back, so decoding is injective |
| Polyline.DecodeFrom | frontend/src/services/api.ts:33-60 | from index i on, points come out exactly while i is inside the string |
| Polyline.Decode | frontend/src/services/api.ts:27-63 | the empty string, and only it, decodes to no points |
| Polyline.DecodeFromLength | frontend/src/services/api.ts:33-59 | each point consumes at least two characters |
| Polyline.DecodeLength | frontend/src/services/api.ts:33-59 | at most ceil(length/2) points |
| Polyline.DecodeFromRunningSums | frontend/src/services/api.ts:45-57 | from any start, point k is the accumulators plus the sums of the first k+1 deltas, longitude first |
| Polyline.DecodeRunningSums | frontend/src/services/api.ts:45-57 | point k's longitude and latitude are the sums of the first k+1 decoded deltas |
| Polyline.LngLatAt | frontend/src/services/api.ts:59 | the swapped path holds each point as (longitude, latitude) |
| Polyline.DecodeEncodedPoint | frontend/src/services/api.ts:38-59 | one encoded point decodes to itself, longitude first, and advances the accumulators to it |
| Polyline.DecodeEncoded | frontend/src/services/api.ts:33-60 | decoding an encoded path from any offset and accumulators gives the path back |
| Polyline.RoundTrip | frontend/src/services/api.ts:27-63 | decoding the format's encoding of any integer (lat, lng) path returns that path as (lng, lat) |
| Polyline.EncodeUnsignedChars | frontend/src/services/api.ts:39 | a number's encoding uses only `?`..`~`, the characters whose groups the decoder reads as 0..63 |
| Polyline.EncodeFromPrintable | frontend/src/services/api.ts:39 | an encoded path from any accumulators uses only `?`..`~` |
| Polyline.EncodePrintable | frontend/src/services/api.ts:39 | the encoder's output stays in the character range the decoder's groups assume |
| Polyline.ReferenceEncoding | frontend/src/services/api.ts:27-63 | the format's reference path encodes to ``_p~iF~ps\|U_ulLnnqC_mqNvxq`@`` |
| Polyline.ReferenceVector | frontend/src/services/api.ts:27-63 | the reference string decodes to (-12020000, 3850000), (-12095000, 4070000), (-12645300, 4325200) |
| Polyline.ReadVarintAt | frontend/src/services/api.ts:38-42 | the do-while loop returns exactly the varint's value and the index after it |
| Polyline.DecodePolyline | frontend/src/services/api.ts:27-63 | the decoding loop returns exactly `Decode(encoded)` |
| Themes.GetThemeNames | frontend/src/themes/index.ts:8-10 | one name per catalogue entry, the i-th being the i-th key |
| Themes.GetAllThemes | frontend/src/themes/index.ts:12-14 | one theme per entry, the i-th being the i-th value |
| Themes.Lookup | frontend/src/themes/index.ts:5 | a theme is found exactly when the name is a key, and it is that key's entry |
| Themes.GetTheme | frontend/src/themes/index.ts:4-6 | a present key gives its own theme; an unknown name gives the `default` theme; the result is always one of the catalogue's themes |
| Themes.LookupAt | frontend/src/themes/index.ts:5 | with distinct keys, looking up the i-th key gives the i-th theme |
| Themes.NamesKeyThemes | frontend/src/themes/index.ts:8-14 | `getTheme(getThemeNames()[i])` is `getAllThemes()[i]` |
| Themes.UnknownNameFallsBack | frontend/src/themes/index.ts:5 | any unknown name gives the same theme as `default` |
| StatsPanel.JsRem | frontend/src/components/StatsPanel.tsx:30 | JavaScript's `%`: a is d times the quotient rounded toward zero, plus r; r is in [0, d) for a non-negative dividend and in (-d, 0] for a negative one |
| StatsPanel.Clock | frontend/src/components/StatsPanel.tsx:29-30 | for s >= 0: hours >= 0, 0 <= minutes < 60 and 3600h + 60m <= s < 3600h + 60m + 60 |
| StatsPanel.Falsy | frontend/src/components/StatsPanel.tsx:28 | `!seconds` holds exactly for undefined and 0 |
| StatsPanel.IntToString | frontend/src/components/StatsPanel.tsx:31 | `${n}` reads back as n, after a minus sign when n is negative |
| StatsPanel.FormatTime | frontend/src/components/StatsPanel.tsx:27-32 | `'N/A'` exactly for an undefined or zero duration; otherwise the text ends in `m` |
| StatsPanel.ParseNatToString | frontend/src/components/StatsPanel.tsx:31 | a number's decimal text reads back as the number |
| StatsPanel.ParseNatCanonical | frontend/src/components/StatsPanel.tsx:31 | any text the parser accepts is the decimal text of its value: no leading zeros and no other spelling |
| StatsPanel.FormatTimeParses | frontend/src/components/StatsPanel.tsx:31 | a positive duration's text reads back as (hours, minutes) and has an hours part exactly when hours > 0. Since each number has one accepted spelling, this fixes the text as `"{h}h {m}m"` or `"{m}m"` |
| StatsPanel.MovingTimeCellAsWritten | frontend/src/components/StatsPanel.tsx:80-89 | as written: undefined shows nothing; 0 shows the text `0`, and only 0 does; any other value shows the `Moving Time` tile with `formatTime` of it, never `'N/A'` |
| StatsPanel.ZeroMovingTimeShowsZero | frontend/src/components/StatsPanel.tsx:80 | a moving time of 0 puts the text `0` on the page |
| StatsPanel.MovingTimeCell | frontend/src/components/StatsPanel.tsx:80-89 | the intended guard: the tile exactly for a truthy moving time, otherwise nothing; the tile shows `formatTime` and never `'N/A'` |
| StravaClient.AsciiLower | backend/strava_client.py:38 | the result is not an upper-case letter; other characters are kept |
| StravaClient.Lower | backend/strava_client.py:38 | same length; no upper-case letter remains; each character is kept or lowered |
| StravaClient.LowerIdempotent | backend/strava_client.py:38 | lowering twice is lowering once |
| StravaClient.Contains | backend/strava_client.py:42 | a prefix is contained, and a contained string is no longer than the one containing it |
| StravaClient.ContainsOccurs | backend/strava_client.py:42 | `needle in hay` holds exactly when some slice of hay equals needle |
| StravaClient.ContainsEmpty | backend/strava_client.py:42 | `""` is in every string, and only `""` is in `""` |
| StravaClient.NameText | backend/strava_client.py:42 | a missing name reads as `""` |
| StravaClient.Matches | backend/strava_client.py:42 | the empty query matches every name, and a matching query is no longer than the name |
| StravaClient.Filter | backend/strava_client.py:39-43 | the result is no longer than the input |
| StravaClient.SearchActivities | backend/strava_client.py:27-49 | an HTTP error gives `[]`; a null name raises; otherwise the result is no longer than the input |
| StravaClient.FilterConcat | backend/strava_client.py:39-43 | filtering a concatenation filters each part, so the original order is kept |
| StravaClient.FilterSingleton | backend/strava_client.py:39-43 | one activity is kept exactly when its lowercased name contains the query |
| StravaClient.FilterMembers | backend/strava_client.py:39-43 | an activity is in the result exactly when it is in the input and matches |
| StravaClient.FilterNoNull | backend/strava_client.py:39-43 | every kept activity has a name that is not null |
| StravaClient.FilterIdempotent | backend/strava_client.py:39-43 | filtering the result again with the same query changes nothing |
| StravaClient.EmptyQueryKeepsAll | backend/strava_client.py:42 | the empty query keeps every activity |
| StravaClient.NamelessMatchesOnlyEmpty | backend/strava_client.py:42 | an activity without a name matches only the empty query |
| StravaClient.SearchSeesLowercase | backend/strava_client.py:38 | two queries with the same lowercase form give the same result |
| StravaClient.SearchIdempotent | backend/strava_client.py:38-43 | searching a search's result again with the same query returns it unchanged |
| RouteSearch.TrimStart | frontend/src/components/RouteSearch.tsx:17 | the result is a suffix that is empty or starts with a non-space, and only whitespace was dropped |
| RouteSearch.TrimEnd | frontend/src/components/RouteSearch.tsx:17 | the result is a prefix that is empty or ends with a non-space, and only whitespace was dropped |
| RouteSearch.Trim | frontend/src/components/RouteSearch.tsx:17 | `query.trim()` is a slice of the query that is empty or starts and ends with a non-space, with only whitespace cut on both sides |
| RouteSearch.TrimEmptyIffBlank | frontend/src/components/RouteSearch.tsx:17 | `query.trim()` is empty exactly when the query is all whitespace |
| RouteSearch.IsBlankQuery | frontend/src/components/RouteSearch.tsx:17 | `!query.trim()` holds exactly for an all-whitespace query |
| RouteSearch.Search | frontend/src/components/RouteSearch.tsx:16-31 | a blank query changes nothing and sends nothing. Otherwise one request goes out with loading on and no error. After it, loading is off. On success the results are the reply and the error is cleared; on failure the error is the fixed message and the results are kept |
| RouteSearch.SearchKeepsIdle | frontend/src/components/RouteSearch.tsx:28-30 | a search never leaves the box loading |
| RouteSearch.SearchErrorIffFailure | frontend/src/components/RouteSearch.tsx:20-27 | after a non-blank search the error is set exactly when the request failed, and then it is the fixed message |
| RouteSearch.SearchBox.constructor | frontend/src/components/RouteSearch.tsx:11-14 | empty query, no results, not loading, no error |
| RouteSearch.SearchBox.SetQuery | frontend/src/components/RouteSearch.tsx:54 | only the query changes |
| RouteSearch.SearchBox.HandleSearch | frontend/src/components/RouteSearch.tsx:16-31 | the new state and the requests sent are those of `Search`; after a non-blank search the box is not loading |
| App.SelectRoute | frontend/src/App.tsx:22-44 | while each fetch is awaited, loading is on and no statistics show; details are fetched first for this route, and statistics only after the details arrive. A details failure keeps the old selection, shows no statistics and raises the alert. A details success selects the fetched details, and shows the statistics when their fetch succeeded. Loading ends off in every outcome |
| App.SelectRouteSettles | frontend/src/App.tsx:22-44 | from any state, a selection ends with loading off, and with statistics only beside a selected route |
| App.StatsOnlyFromThisSelection | frontend/src/App.tsx:24-37 | statistics show afterwards exactly when both fetches succeeded, and they are the fetched ones |
| App.StatsFetchFollowsDetails | frontend/src/App.tsx:28-33 | a statistics fetch is issued only after a successful details fetch, for the same route id and with those details on screen |
| App.AppState.constructor | frontend/src/App.tsx:12-15 | the theme is `getTheme('default')`, which is the catalogue's `default` entry; nothing is selected and nothing is loading |
| App.AppState.HandleRouteSelect | frontend/src/App.tsx:22-44 | the new state and the fetches awaited are those of `SelectRoute`; statistics never show without a selected route |
| App.AppState.HandleThemeChange | frontend/src/App.tsx:46-48 | the current theme becomes exactly the given theme, and nothing else changes |
| MapView.ChooseGeometry | frontend/src/components/MapView.tsx:60-61 | the geometry is the detailed polyline when it is non-empty, else the summary polyline when that is non-empty, else none; a chosen geometry is never empty |
| MapView.RouteLayer | frontend/src/components/MapView.tsx:78-91 | a line layer `route` over source `route`, with round join and cap and the theme's route colour, width and opacity |
| MapView.Truthy | frontend/src/components/MapView.tsx:60-61 | an optional string is truthy exactly when it is present and non-empty |
| MapView.Seed | frontend/src/components/MapView.tsx:96 | `new LngLatBounds(p, p)` holds p and nothing else |
| MapView.Extend | frontend/src/components/MapView.tsx:95 | `extend` gives the least box that holds the old box and the point |
| MapView.ExtendAll | frontend/src/components/MapView.tsx:94-97 | the reduce never shrinks its seed box, and leaves it alone for no points |
| MapView.BoundsOf | frontend/src/components/MapView.tsx:94-97 | the reduce seeded with the first coordinate holds every coordinate |
| MapView.ExtendAllTight | frontend/src/components/MapView.tsx:94-97 | extending a box by points holds the old box and every point; each edge comes from the old box or from a point |
| MapView.BoundsOfTight | frontend/src/components/MapView.tsx:94-97 | every coordinate lies inside the fit box, and each edge of the box is some coordinate's |
| MapView.ApplyRoute | frontend/src/components/MapView.tsx:48-103 | the old route pair is removed. When there is geometry, the route source holds its decoded coordinates, the route layer has the theme's paint, and the camera is fitted to their box with padding 50 and max zoom 15. Without geometry, no route pair remains and the camera stays. Nothing else changes |
| MapView.ApplyRouteConsistent | frontend/src/components/MapView.tsx:52-91 | an update keeps every layer drawing from an existing source |
| MapView.MapsAgree | frontend/src/components/MapView.tsx:52-91 | two maps that differ from a third only at `route`, and agree at `route`, are equal |
| MapView.ApplyRouteLastWins | frontend/src/components/MapView.tsx:52-102 | after two updates the layers and sources are those of the second update alone; so is the camera when the second route has geometry |
| MapView.ApplyRouteIdempotent | frontend/src/components/MapView.tsx:48-103 | running the same update twice leaves what running it once leaves |
| MapView.RunHandlersKeeps | frontend/src/components/MapView.tsx:108 | firing handlers keeps the loaded flag, the handler list and consistency |
| MapView.RunHandlers | frontend/src/components/MapView.tsx:108 | the `load` event runs the handlers in registration order; they change neither the loaded flag nor the handler list |
| MapView.LastHandlerWins | frontend/src/components/MapView.tsx:105-109 | after the handlers fire, the route layer and source are exactly those of the last handler's route and theme; so is the camera when that route has geometry |
| MapView.Surface.constructor | frontend/src/components/MapView.tsx:22-27 | a new map is unloaded and empty |
| MapView.Surface.GetLayer | frontend/src/components/MapView.tsx:52 | finds a layer exactly when one has that id |
| MapView.Surface.GetSource | frontend/src/components/MapView.tsx:55 | finds a source exactly when one has that id |
| MapView.Surface.RemoveLayer | frontend/src/components/MapView.tsx:53 | only that layer goes |
| MapView.Surface.RemoveSource | frontend/src/components/MapView.tsx:56 | only that source goes, and no layer may draw from it |
| MapView.Surface.AddSource | frontend/src/components/MapView.tsx:66-76 | only that source is added, under an unused id |
| MapView.Surface.AddLayer | frontend/src/components/MapView.tsx:78-91 | only that layer is added, under an unused id and over an existing source |
| MapView.Surface.FitBounds | frontend/src/components/MapView.tsx:99-102 | the latest fit request replaces the camera |
| MapView.Surface.On | frontend/src/components/MapView.tsx:108 | the handler is appended, and nothing else changes |
| MapView.Surface.FireLoad | frontend/src/components/MapView.tsx:108 | the map becomes loaded and every registered handler runs in order; the surface stays consistent |
| MapView.LngLatBounds.constructor | frontend/src/components/MapView.tsx:96 | the box spans exactly from the south-west corner to the north-east corner |
| MapView.LngLatBounds.ExtendBy | frontend/src/components/MapView.tsx:95 | the box grows to the least box holding it and the point |
| MapView.ComputeBounds | frontend/src/components/MapView.tsx:94-97 | the reduce seeded with the first coordinate gives `BoundsOf`, which holds every coordinate |
| MapView.ClearRoute | frontend/src/components/MapView.tsx:51-57 | the route layer, then the route source, are removed where present, and the surface stays consistent |
| MapView.DrawRoute | frontend/src/components/MapView.tsx:63-102 | the route source is added, then the layer over it, then the camera fit to the coordinates' box |
| MapView.UpdateRoute | frontend/src/components/MapView.tsx:48-103 | on a loaded map the surface becomes `ApplyRoute` of the old surface, and stays consistent |
| MapView.RouteEffect | frontend/src/components/MapView.tsx:44-110 | with no map or no route nothing changes; on a loaded map the update runs now; otherwise one handler with this route and theme is appended and nothing else changes |

## Left out

- The axios wrappers (`frontend/src/services/api.ts:4-24`) and the backend's httpx requests are left out. The replies they give are parameters: a `Result` per fetch.
- The FastAPI routes, CORS and settings (`backend/main.py`, `backend/config.py`) are not part of this model. `get_activity_details` is left out for the same reason.
- Polyline.VarintFitsInt32, Polyline.DisjointGroups: state integer bounds only. That the 32-bit `<<`, `|=`, `>>` and `~` equal the model's addition, multiplication and zig-zag arithmetic below 2^30 is argued from these bounds, not proved on 32-bit bit-vectors.
- Polyline.DecodePolyline: does not model 32-bit wrap-around for a varint with six or more continuation characters. Such input is outside the format. `VarintFitsInt32` gives the range where the model and the program agree.
- Polyline.DecodePolyline: the final division by 1e5 is floating point, so points remain integers in 1e-5 degrees. All `toFixed`, `* 3.6` and `/ 1000` formatters are left out for the same reason.
- Characters are Unicode scalar values, while `charCodeAt` reads UTF-16 code units. The two differ only outside the Basic Multilingual Plane, which no polyline uses.
- StravaClient.SearchActivities: does not model the conversion of each kept activity to `SummaryActivity` (`backend/strava_client.py:45`). That conversion can raise a validation error, for example when a kept activity has no name. The `print` of the HTTP error is also left out.
- StravaClient.Lower: folds only ASCII letters, not all of Unicode as Python's `str.lower` does.
- The stats fetch's console message, the search error's console message and the details error's console message are left out. The `alert` text is kept, as the `alerts` list.
- Concurrency is left out: overlapping selections or searches, and replies arriving late or out of order. Each selection and each search is one uninterrupted call. The button is disabled while loading, but the Enter key is not, and that is left out too.
- `setStyle` on a theme change (`frontend/src/components/MapView.tsx:37-41`) is left out, along with what it does to layers, sources and the loaded state. So is Mapbox's `loaded()`, which can turn false again while tiles load. The model's surface becomes loaded once, at its `load` event.
- Map construction, the navigation control, the access token and teardown (`frontend/src/components/MapView.tsx:7, 19-34`) are left out. The inner `if (!map.current) return;` of `updateRoute` is also left out, since the model never removes the map.
- The theme catalogue's data is a parameter. Keys inherited from `Object.prototype`, such as `getTheme('toString')`, are not modelled: a lookup sees only the catalogue's own keys.
- `document.body` styling (`frontend/src/App.tsx:18-20`), all JSX layout, ThemeSelector and the other statistics tiles are left out. The other tiles' guards at `frontend/src/components/StatsPanel.tsx:91-144` have the same `&&` shape as the moving-time tile; they are not modelled because their formatters are floating point.
- RouteDetails keeps only the description of the extra fields (`type`, `starred`, `segments` and the rest), because the core reads no others.

## Findings

| source | as written | input that shows it | evidently intended | confidence | as-written member | corrected member |
|---|---|---|---|---|---|---|
| frontend/src/components/StatsPanel.tsx:80 | `{stats.moving_time && (<tile>)}` yields the number itself when it is falsy, and React renders the number `0` as text | statistics with `moving_time: 0` | no tile and no stray text for a zero moving time, like `formatTime`'s own `'N/A'` for 0 | not executed | StatsPanel.MovingTimeCellAsWritten, StatsPanel.ZeroMovingTimeShowsZero | StatsPanel.MovingTimeCell |
