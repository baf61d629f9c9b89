/**
 * The records the frontend exchanges with the backend and the theme
 * catalogue (frontend/src/types/index.ts, backend/models.py).
 * Distances, elevations, speeds and theme widths are floating-point
 * numbers in the program; the core only copies them, so they are `real`.
 */
module Types {
  import opened Wrappers

  /** The geometry of a route: either encoded polyline may be missing. */
  datatype RouteMap = RouteMap(summaryPolyline: Option<string>, polyline: Option<string>)

  /** A route as listed by a search. */
  datatype Route = Route(id: int, name: string, distance: real, elevationGain: real, routeMap: RouteMap)

  /** A route with its detail fields; only the description is shown by the core. */
  datatype RouteDetails = RouteDetails(route: Route, description: Option<string>)

  /** Summary statistics of a route; times are whole seconds. */
  datatype RouteStats = RouteStats(
    distance: real,
    elevationGain: real,
    movingTime: Option<int>,
    elapsedTime: Option<int>,
    averageSpeed: Option<real>,
    maxSpeed: Option<real>,
    averageHeartrate: Option<real>,
    maxHeartrate: Option<real>,
    averageWatts: Option<real>,
    kilojoules: Option<real>)

  /** Colours of the panels of a theme. */
  datatype ThemeColors = ThemeColors(
    primary: string, secondary: string, background: string, surface: string,
    text: string, textSecondary: string, border: string, accent: string)

  /** The part of a theme the map reads: the style and the route line's paint. */
  datatype MapTheme = MapTheme(style: string, routeColor: string, routeWidth: real, routeOpacity: real)

  datatype Theme = Theme(name: string, displayName: string, colors: ThemeColors, mapTheme: MapTheme)

  /** A failed request to the backend (network error, non-2xx status). */
  datatype FetchError = FetchError
}
