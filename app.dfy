/**
 * The top-level component's state (frontend/src/App.tsx): the current
 * theme, the selected route's details, its statistics and a loading flag.
 * Selecting a route issues a details fetch and, when that succeeds, a
 * statistics fetch; their outcomes are parameters. `alert` calls are
 * recorded in order.
 */
module App {
  import opened Wrappers
  import opened Types
  import Themes

  const DetailsFailedAlert: string := "Failed to load route details"

  /** A request the component awaits. */
  datatype Fetch = DetailsFetch(routeId: int) | StatsFetch(routeId: int)

  /** The state on screen while a fetch is awaited. */
  datatype Suspension = Suspension(awaiting: Fetch, loading: bool, stats: Option<RouteStats>, selected: Option<RouteDetails>)

  /** The component's state and the alerts it has raised. */
  datatype AppView = AppView(theme: Theme, selected: Option<RouteDetails>, stats: Option<RouteStats>, loading: bool, alerts: seq<string>)

  /**
   * One handleRouteSelect: the state afterwards and the fetches it awaited.
   * Every fetch is awaited with loading on and no statistics shown; the
   * details of this route are fetched first, and its statistics only when
   * the details arrived.
   */
  function SelectRoute(v: AppView, route: Route, details: Result<RouteDetails, FetchError>, stats: Result<RouteStats, FetchError>): (r: (AppView, seq<Suspension>))
    ensures !r.0.loading && r.0.theme == v.theme
    ensures 1 <= |r.1| <= 2
    ensures forall k :: 0 <= k < |r.1| ==> r.1[k].loading && r.1[k].stats.None?
    ensures r.1[0] == Suspension(DetailsFetch(route.id), true, None, v.selected)
    ensures |r.1| == 2 <==> details.Ok?
    ensures details.Err? ==> r.0.selected == v.selected && r.0.stats.None? && r.0.alerts == v.alerts + [DetailsFailedAlert]
    ensures details.Ok? ==> r.1[1] == Suspension(StatsFetch(route.id), true, None, Some(details.value))
    ensures details.Ok? ==> r.0.selected == Some(details.value) && r.0.alerts == v.alerts
    ensures details.Ok? ==> r.0.stats == (if stats.Ok? then Some(stats.value) else None)
  {
    var pending := v.(loading := true, stats := None);
    var first := Suspension(DetailsFetch(route.id), pending.loading, pending.stats, pending.selected);
    match details
    case Err(_) =>
      (pending.(alerts := v.alerts + [DetailsFailedAlert], loading := false), [first])
    case Ok(d) =>
      var shown := pending.(selected := Some(d));
      var second := Suspension(StatsFetch(route.id), shown.loading, shown.stats, shown.selected);
      var settled := match stats
        case Ok(st) => shown.(stats := Some(st))
        case Err(_) => shown;
      (settled.(loading := false), [first, second])
  }

  /** Between events: not loading, and statistics are only shown beside a selected route. */
  predicate Settled(v: AppView)
  {
    !v.loading && (v.stats.Some? ==> v.selected.Some?)
  }

  /** A selection always ends settled, whatever state it started from. */
  lemma SelectRouteSettles(v: AppView, route: Route, details: Result<RouteDetails, FetchError>, stats: Result<RouteStats, FetchError>)
    ensures Settled(SelectRoute(v, route, details, stats).0)
  {
  }

  /** Statistics on screen after a selection were fetched for it: a failed selection shows none. */
  lemma StatsOnlyFromThisSelection(v: AppView, route: Route, details: Result<RouteDetails, FetchError>, stats: Result<RouteStats, FetchError>)
    ensures SelectRoute(v, route, details, stats).0.stats.Some? <==> details.Ok? && stats.Ok?
    ensures SelectRoute(v, route, details, stats).0.stats.Some? ==> SelectRoute(v, route, details, stats).0.stats.value == stats.value
  {
  }

  /** Statistics are requested only for the route whose details arrived. */
  lemma StatsFetchFollowsDetails(v: AppView, route: Route, details: Result<RouteDetails, FetchError>, stats: Result<RouteStats, FetchError>, k: nat)
    requires k < |SelectRoute(v, route, details, stats).1|
    requires SelectRoute(v, route, details, stats).1[k].awaiting.StatsFetch?
    ensures details.Ok? && k == 1
    ensures SelectRoute(v, route, details, stats).1[k].awaiting.routeId == route.id
    ensures SelectRoute(v, route, details, stats).1[k].selected == Some(details.value)
  {
  }

  /** The component, with its state hooks as fields. */
  class AppState {
    var currentTheme: Theme
    var selectedRoute: Option<RouteDetails>
    var routeStats: Option<RouteStats>
    var loading: bool
    var alerts: seq<string>
    ghost var suspensions: seq<Suspension>

    function State(): AppView
      reads this
    {
      AppView(currentTheme, selectedRoute, routeStats, loading, alerts)
    }

    predicate Valid()
      reads this
    {
      Settled(State())
    }

    /** The initial `useState` values, with the theme `getTheme('default')`. */
    constructor (themes: Themes.ThemeTable)
      requires Themes.DefaultName in Themes.GetThemeNames(themes)
      ensures Valid()
      ensures State() == AppView(Themes.GetTheme(themes, Themes.DefaultName), None, None, false, [])
      ensures (Themes.DefaultName, currentTheme) in themes
      ensures suspensions == []
    {
      currentTheme := Themes.GetTheme(themes, Themes.DefaultName);
      selectedRoute := None;
      routeStats := None;
      loading := false;
      alerts := [];
      suspensions := [];
    }

    /** handleRouteSelect, with the outcomes of both fetches given. */
    method HandleRouteSelect(route: Route, details: Result<RouteDetails, FetchError>, stats: Result<RouteStats, FetchError>)
      modifies this
      ensures Valid()
      ensures State() == SelectRoute(old(State()), route, details, stats).0
      ensures suspensions == old(suspensions) + SelectRoute(old(State()), route, details, stats).1
    {
      loading := true;
      routeStats := None;
      suspensions := suspensions + [Suspension(DetailsFetch(route.id), loading, routeStats, selectedRoute)];
      match details {
        case Ok(d) =>
          selectedRoute := Some(d);
          suspensions := suspensions + [Suspension(StatsFetch(route.id), loading, routeStats, selectedRoute)];
          match stats {
            case Ok(st) =>
              routeStats := Some(st);
            case Err(_) =>
          }
        case Err(_) =>
          alerts := alerts + [DetailsFailedAlert];
      }
      loading := false;
    }

    /** handleThemeChange: the given theme becomes current and nothing else changes. */
    method HandleThemeChange(theme: Theme)
      modifies this
      ensures State() == old(State()).(theme := theme)
      ensures suspensions == old(suspensions)
    {
      currentTheme := theme;
    }
  }
}
