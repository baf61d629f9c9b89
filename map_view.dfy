/**
 * The map panel's route synchronisation (updateRoute and the route effect
 * in frontend/src/components/MapView.tsx) over an abstract map surface.
 * The surface holds a loaded flag, layers and GeoJSON sources by id, the
 * `load` handlers registered so far and the last camera fit requested.
 * Coordinates are (longitude, latitude) in units of 1e-5 degrees.
 */
module MapView {
  import opened Wrappers
  import opened Types
  import Polyline

  type Point = Polyline.Point

  /** The id of the route's layer and of its source. */
  const RouteId: string := "route"
  const FitPadding: int := 50
  const FitMaxZoom: int := 15

  /** A line layer: its id, type, source, layout and paint. */
  datatype Layer = Layer(id: string, kind: string, source: string, lineJoin: string, lineCap: string, color: string, width: real, opacity: real)

  /** A longitude/latitude box: south-west and north-east corners. */
  datatype Bounds = Bounds(west: int, south: int, east: int, north: int)

  datatype FitRequest = FitRequest(bounds: Bounds, padding: int, maxZoom: int)

  /** A registered `load` handler: an updateRoute closure and the route and theme it captured. */
  datatype Handler = Handler(route: RouteDetails, theme: Theme)

  datatype SurfaceState = SurfaceState(
    loaded: bool,
    layers: map<string, Layer>,
    sources: map<string, seq<Point>>,
    loadHandlers: seq<Handler>,
    camera: Option<FitRequest>)

  /**
   * The surface's own rule and the component's: every layer is filed under
   * its id and draws from a source that exists, and only the route layer
   * draws from the route source.
   */
  predicate Consistent(s: SurfaceState)
  {
    forall id :: id in s.layers ==>
      && s.layers[id].id == id
      && s.layers[id].source in s.sources
      && (s.layers[id].source == RouteId ==> id == RouteId)
  }

  // ---------------------------------------------------------------------
  // The geometry, the layer and the camera box
  // ---------------------------------------------------------------------

  /** An optional string that JavaScript treats as true: present and non-empty. */
  predicate Truthy(o: Option<string>): (t: bool)
    ensures t <==> o.Some? && |o.value| > 0
  {
    o.Some? && o.value != ""
  }

  /** `route.map.polyline || route.map.summary_polyline`, when that is truthy. */
  function ChooseGeometry(m: RouteMap): (g: Option<string>)
    ensures g.Some? <==> Truthy(m.polyline) || Truthy(m.summaryPolyline)
    ensures g.Some? ==> g.value != ""
    ensures Truthy(m.polyline) ==> g == m.polyline
    ensures !Truthy(m.polyline) && Truthy(m.summaryPolyline) ==> g == m.summaryPolyline
  {
    if Truthy(m.polyline) then m.polyline
    else if Truthy(m.summaryPolyline) then m.summaryPolyline
    else None
  }

  /** The route layer of a theme: a round-jointed line in the theme's route paint. */
  function RouteLayer(theme: Theme): (l: Layer)
    ensures l.id == RouteId && l.source == RouteId && l.kind == "line"
    ensures l.lineJoin == "round" && l.lineCap == "round"
    ensures l.color == theme.mapTheme.routeColor
    ensures l.width == theme.mapTheme.routeWidth && l.opacity == theme.mapTheme.routeOpacity
  {
    Layer(RouteId, "line", RouteId, "round", "round", theme.mapTheme.routeColor, theme.mapTheme.routeWidth, theme.mapTheme.routeOpacity)
  }

  function Min(a: int, b: int): int { if a <= b then a else b }
  function Max(a: int, b: int): int { if a <= b then b else a }

  /** `new LngLatBounds(p, p)`. */
  function Seed(p: Point): (b: Bounds)
    ensures Inside(b, p)
    ensures forall q :: Inside(b, q) ==> q == p
  {
    Bounds(p.0, p.1, p.0, p.1)
  }

  /** `bounds.extend(p)`: the least box holding the old box and p. */
  function Extend(b: Bounds, p: Point): (r: Bounds)
    ensures Holds(r, b) && Inside(r, p)
    ensures forall c :: Holds(c, b) && Inside(c, p) ==> Holds(c, r)
  {
    Bounds(Min(b.west, p.0), Min(b.south, p.1), Max(b.east, p.0), Max(b.north, p.1))
  }

  /** `ps.reduce((b, p) => b.extend(p), b)`. */
  function ExtendAll(b: Bounds, ps: seq<Point>): (r: Bounds)
    ensures Holds(r, b)
    ensures ps == [] ==> r == b
    decreases |ps|
  {
    if ps == [] then b else ExtendAll(Extend(b, ps[0]), ps[1..])
  }

  /** The reduce of updateRoute, seeded with the first coordinate. */
  function BoundsOf(coords: seq<Point>): (b: Bounds)
    requires |coords| >= 1
    ensures forall k :: 0 <= k < |coords| ==> Inside(b, coords[k])
  {
    ExtendAllTight(Seed(coords[0]), coords);
    ExtendAll(Seed(coords[0]), coords)
  }

  predicate Inside(b: Bounds, p: Point)
  {
    b.west <= p.0 <= b.east && b.south <= p.1 <= b.north
  }

  /** Box c holds box b. */
  predicate Holds(c: Bounds, b: Bounds)
  {
    c.west <= b.west && c.south <= b.south && b.east <= c.east && b.north <= c.north
  }

  /** Each edge of the extended box is the old box's edge or some point's coordinate. */
  predicate EdgesFrom(r: Bounds, b: Bounds, ps: seq<Point>)
  {
    && (r.west == b.west || exists k :: 0 <= k < |ps| && ps[k].0 == r.west)
    && (r.south == b.south || exists k :: 0 <= k < |ps| && ps[k].1 == r.south)
    && (r.east == b.east || exists k :: 0 <= k < |ps| && ps[k].0 == r.east)
    && (r.north == b.north || exists k :: 0 <= k < |ps| && ps[k].1 == r.north)
  }

  lemma {:induction false} ExtendAllTight(b: Bounds, ps: seq<Point>)
    ensures Holds(ExtendAll(b, ps), b)
    ensures forall k :: 0 <= k < |ps| ==> Inside(ExtendAll(b, ps), ps[k])
    ensures EdgesFrom(ExtendAll(b, ps), b, ps)
    decreases |ps|
  {
    if ps != [] {
      var b1 := Extend(b, ps[0]);
      var r := ExtendAll(b1, ps[1..]);
      ExtendAllTight(b1, ps[1..]);
      forall k | 0 <= k < |ps|
        ensures Inside(r, ps[k])
      {
        if k > 0 {
          assert ps[k] == ps[1..][k - 1];
        }
      }
      forall k | 0 <= k < |ps| - 1
        ensures ps[1..][k] == ps[k + 1]
      {
      }
    }
  }

  /** The fit box is tight: every coordinate lies inside it and each edge is some coordinate's. */
  lemma BoundsOfTight(coords: seq<Point>)
    requires |coords| >= 1
    ensures forall k :: 0 <= k < |coords| ==> Inside(BoundsOf(coords), coords[k])
    ensures exists k :: 0 <= k < |coords| && coords[k].0 == BoundsOf(coords).west
    ensures exists k :: 0 <= k < |coords| && coords[k].1 == BoundsOf(coords).south
    ensures exists k :: 0 <= k < |coords| && coords[k].0 == BoundsOf(coords).east
    ensures exists k :: 0 <= k < |coords| && coords[k].1 == BoundsOf(coords).north
  {
    ExtendAllTight(Seed(coords[0]), coords);
  }

  // ---------------------------------------------------------------------
  // updateRoute and the load handlers, on values
  // ---------------------------------------------------------------------

  /**
   * What updateRoute leaves on the surface: the old route layer and source
   * are gone; when the route has geometry, a route source holding its
   * decoded coordinates, the theme's route layer and a camera fit to their
   * box take their place. Nothing else changes.
   */
  function ApplyRoute(s: SurfaceState, route: RouteDetails, theme: Theme): (r: SurfaceState)
    ensures r.loaded == s.loaded && r.loadHandlers == s.loadHandlers
    ensures r.layers - {RouteId} == s.layers - {RouteId}
    ensures r.sources - {RouteId} == s.sources - {RouteId}
    ensures RouteId in r.layers <==> ChooseGeometry(route.route.routeMap).Some?
    ensures RouteId in r.sources <==> ChooseGeometry(route.route.routeMap).Some?
    ensures ChooseGeometry(route.route.routeMap).None? ==> r.camera == s.camera
    ensures ChooseGeometry(route.route.routeMap).Some? ==>
      var coords := Polyline.Decode(ChooseGeometry(route.route.routeMap).value);
      && |coords| >= 1
      && r.sources[RouteId] == coords
      && r.layers[RouteId] == RouteLayer(theme)
      && r.camera == Some(FitRequest(BoundsOf(coords), FitPadding, FitMaxZoom))
  {
    var cleared := s.(layers := s.layers - {RouteId}, sources := s.sources - {RouteId});
    match ChooseGeometry(route.route.routeMap)
    case None => cleared
    case Some(g) =>
      var coords := Polyline.Decode(g);
      cleared.(
        sources := cleared.sources[RouteId := coords],
        layers := cleared.layers[RouteId := RouteLayer(theme)],
        camera := Some(FitRequest(BoundsOf(coords), FitPadding, FitMaxZoom)))
  }

  /** updateRoute keeps the surface consistent. */
  lemma ApplyRouteConsistent(s: SurfaceState, route: RouteDetails, theme: Theme)
    requires Consistent(s)
    ensures Consistent(ApplyRoute(s, route, theme))
  {
    var r := ApplyRoute(s, route, theme);
    forall id | id in r.layers
      ensures r.layers[id].id == id && r.layers[id].source in r.sources
      ensures r.layers[id].source == RouteId ==> id == RouteId
    {
      if id != RouteId {
        assert id in r.layers - {RouteId};
        assert r.layers[id] == (s.layers - {RouteId})[id] == s.layers[id];
        assert s.layers[id].source != RouteId;
        assert s.layers[id].source in s.sources - {RouteId};
      }
    }
  }

  /** The second of two updates decides the route pair and camera alone: last writer wins. */
  lemma ApplyRouteLastWins(s: SurfaceState, r1: RouteDetails, t1: Theme, r2: RouteDetails, t2: Theme)
    ensures ApplyRoute(ApplyRoute(s, r1, t1), r2, t2).layers == ApplyRoute(s, r2, t2).layers
    ensures ApplyRoute(ApplyRoute(s, r1, t1), r2, t2).sources == ApplyRoute(s, r2, t2).sources
    ensures ChooseGeometry(r2.route.routeMap).Some? ==>
      ApplyRoute(ApplyRoute(s, r1, t1), r2, t2).camera == ApplyRoute(s, r2, t2).camera
  {
    var a := ApplyRoute(ApplyRoute(s, r1, t1), r2, t2);
    var b := ApplyRoute(s, r2, t2);
    MapsAgree(a.layers, b.layers, s.layers);
    MapsAgree(a.sources, b.sources, s.sources);
  }

  /** Two maps that agree off RouteId with a third, and on RouteId with each other, are equal. */
  lemma MapsAgree<V>(a: map<string, V>, b: map<string, V>, c: map<string, V>)
    requires a - {RouteId} == c - {RouteId} && b - {RouteId} == c - {RouteId}
    requires RouteId in a <==> RouteId in b
    requires RouteId in a ==> a[RouteId] == b[RouteId]
    ensures a == b
  {
    forall id | id in a
      ensures id in b && a[id] == b[id]
    {
      if id != RouteId {
        assert id in a - {RouteId};
        assert a[id] == (a - {RouteId})[id] == (b - {RouteId})[id] == b[id];
      }
    }
    forall id | id in b
      ensures id in a
    {
      if id != RouteId {
        assert id in b - {RouteId};
      }
    }
  }

  /** Running an update twice leaves what running it once leaves. */
  lemma ApplyRouteIdempotent(s: SurfaceState, route: RouteDetails, theme: Theme)
    ensures ApplyRoute(ApplyRoute(s, route, theme), route, theme) == ApplyRoute(s, route, theme)
  {
    ApplyRouteLastWins(s, route, theme, route, theme);
  }

  /** The `load` event: the handlers run in registration order. */
  function RunHandlers(s: SurfaceState, hs: seq<Handler>): (r: SurfaceState)
    ensures r.loaded == s.loaded && r.loadHandlers == s.loadHandlers
    ensures hs == [] ==> r == s
    decreases |hs|
  {
    if hs == [] then s else RunHandlers(ApplyRoute(s, hs[0].route, hs[0].theme), hs[1..])
  }

  lemma {:induction false} RunHandlersKeeps(s: SurfaceState, hs: seq<Handler>)
    ensures RunHandlers(s, hs).loaded == s.loaded
    ensures RunHandlers(s, hs).loadHandlers == s.loadHandlers
    ensures Consistent(s) ==> Consistent(RunHandlers(s, hs))
    decreases |hs|
  {
    if hs != [] {
      if Consistent(s) {
        ApplyRouteConsistent(s, hs[0].route, hs[0].theme);
      }
      RunHandlersKeeps(ApplyRoute(s, hs[0].route, hs[0].theme), hs[1..]);
    }
  }

  /**
   * After the handlers fire, the route layer and source are exactly those
   * the last handler's route and theme produce, whatever came before; the
   * camera too, when that route has geometry.
   */
  lemma {:induction false} LastHandlerWins(s: SurfaceState, hs: seq<Handler>)
    requires |hs| >= 1
    ensures RunHandlers(s, hs).layers == ApplyRoute(s, hs[|hs| - 1].route, hs[|hs| - 1].theme).layers
    ensures RunHandlers(s, hs).sources == ApplyRoute(s, hs[|hs| - 1].route, hs[|hs| - 1].theme).sources
    ensures ChooseGeometry(hs[|hs| - 1].route.route.routeMap).Some? ==>
      RunHandlers(s, hs).camera == ApplyRoute(s, hs[|hs| - 1].route, hs[|hs| - 1].theme).camera
    decreases |hs|
  {
    var s1 := ApplyRoute(s, hs[0].route, hs[0].theme);
    var last := hs[|hs| - 1];
    if |hs| > 1 {
      LastHandlerWins(s1, hs[1..]);
      assert hs[1..][|hs| - 2] == last;
      ApplyRouteLastWins(s, hs[0].route, hs[0].theme, last.route, last.theme);
    }
  }

  // ---------------------------------------------------------------------
  // The surface object
  // ---------------------------------------------------------------------

  /** The map object: the parts of the Mapbox map that updateRoute reads and changes. */
  class Surface {
    var loaded: bool
    var layers: map<string, Layer>
    var sources: map<string, seq<Point>>
    var loadHandlers: seq<Handler>
    var camera: Option<FitRequest>

    function State(): SurfaceState
      reads this
    {
      SurfaceState(loaded, layers, sources, loadHandlers, camera)
    }

    predicate Valid()
      reads this
    {
      Consistent(State())
    }

    /** A new map: its style not yet loaded, nothing on it. */
    constructor ()
      ensures Valid()
      ensures State() == SurfaceState(false, map[], map[], [], None)
    {
      loaded := false;
      layers := map[];
      sources := map[];
      loadHandlers := [];
      camera := None;
    }

    /** `getLayer(id)`. */
    function GetLayer(id: string): (l: Option<Layer>)
      reads this
      ensures l.Some? <==> id in layers
      ensures l.Some? ==> l.value == layers[id]
    {
      if id in layers then Some(layers[id]) else None
    }

    /** `getSource(id)`. */
    function GetSource(id: string): (d: Option<seq<Point>>)
      reads this
      ensures d.Some? <==> id in sources
      ensures d.Some? ==> d.value == sources[id]
    {
      if id in sources then Some(sources[id]) else None
    }

    /** `removeLayer(id)`: the style must be loaded and hold the layer. */
    method RemoveLayer(id: string)
      requires loaded && id in layers
      modifies this
      ensures State() == old(State()).(layers := old(layers) - {id})
    {
      layers := layers - {id};
    }

    /** `removeSource(id)`: the style must be loaded, hold the source and no layer may draw from it. */
    method RemoveSource(id: string)
      requires loaded && id in sources
      requires forall lid :: lid in layers ==> layers[lid].source != id
      modifies this
      ensures State() == old(State()).(sources := old(sources) - {id})
    {
      sources := sources - {id};
    }

    /** `addSource(id, data)`: the style must be loaded and the id unused. */
    method AddSource(id: string, data: seq<Point>)
      requires loaded && id !in sources
      modifies this
      ensures State() == old(State()).(sources := old(sources)[id := data])
    {
      sources := sources[id := data];
    }

    /** `addLayer(layer)`: the style must be loaded, the id unused and the layer's source present. */
    method AddLayer(layer: Layer)
      requires loaded && layer.id !in layers && layer.source in sources
      modifies this
      ensures State() == old(State()).(layers := old(layers)[layer.id := layer])
    {
      layers := layers[layer.id := layer];
    }

    /** `fitBounds(bounds, {padding, maxZoom})`: the latest request replaces any earlier one. */
    method FitBounds(bounds: Bounds, padding: int, maxZoom: int)
      modifies this
      ensures State() == old(State()).(camera := Some(FitRequest(bounds, padding, maxZoom)))
    {
      camera := Some(FitRequest(bounds, padding, maxZoom));
    }

    /** `on('load', handler)`: handlers accumulate and are never removed. */
    method On(handler: Handler)
      modifies this
      ensures State() == old(State()).(loadHandlers := old(loadHandlers) + [handler])
    {
      loadHandlers := loadHandlers + [handler];
    }

    /** The style finishes loading and the `load` event runs every handler in order. */
    method FireLoad()
      requires Valid() && !loaded
      modifies this
      ensures Valid() && loaded
      ensures State() == RunHandlers(old(State()).(loaded := true), old(loadHandlers))
    {
      loaded := true;
      ghost var start := State();
      var hs := loadHandlers;
      var i := 0;
      while i < |hs|
        invariant 0 <= i <= |hs|
        invariant loaded && loadHandlers == hs && Valid()
        invariant RunHandlers(State(), hs[i..]) == RunHandlers(start, hs)
        decreases |hs| - i
      {
        ghost var before := State();
        assert hs[i..][0] == hs[i] && hs[i..][1..] == hs[i + 1..];
        assert RunHandlers(before, hs[i..]) == RunHandlers(ApplyRoute(before, hs[i].route, hs[i].theme), hs[i + 1..]);
        UpdateRoute(this, hs[i].route, hs[i].theme);
        i := i + 1;
      }
    }
  }

  /** A mutable `LngLatBounds`. */
  class LngLatBounds {
    var west: int
    var south: int
    var east: int
    var north: int

    function Box(): Bounds
      reads this
    {
      Bounds(west, south, east, north)
    }

    constructor (sw: Point, ne: Point)
      ensures Box() == Bounds(sw.0, sw.1, ne.0, ne.1)
    {
      west, south := sw.0, sw.1;
      east, north := ne.0, ne.1;
    }

    /** `extend(p)`: grows the box to hold p. */
    method ExtendBy(p: Point)
      modifies this
      ensures Box() == Extend(old(Box()), p)
    {
      if p.0 < west { west := p.0; }
      if p.1 < south { south := p.1; }
      if p.0 > east { east := p.0; }
      if p.1 > north { north := p.1; }
    }
  }

  /** The bounds reduce of updateRoute: the tight box around the coordinates. */
  method ComputeBounds(coords: seq<Point>) returns (b: Bounds)
    requires |coords| >= 1
    ensures b == BoundsOf(coords)
    ensures forall k :: 0 <= k < |coords| ==> Inside(b, coords[k])
  {
    var acc := new LngLatBounds(coords[0], coords[0]);
    var i := 0;
    while i < |coords|
      invariant 0 <= i <= |coords|
      invariant ExtendAll(acc.Box(), coords[i..]) == BoundsOf(coords)
      decreases |coords| - i
    {
      assert coords[i..] == [coords[i]] + coords[i + 1..];
      acc.ExtendBy(coords[i]);
      i := i + 1;
    }
    b := acc.Box();
    BoundsOfTight(coords);
  }

  /** The first half of updateRoute: remove the route layer, then the route source, where present. */
  method ClearRoute(m: Surface)
    requires m.loaded && m.Valid()
    modifies m
    ensures m.Valid()
    ensures m.State() == old(m.State()).(layers := old(m.layers) - {RouteId}, sources := old(m.sources) - {RouteId})
  {
    ghost var s0 := m.State();
    if m.GetLayer(RouteId).Some? {
      m.RemoveLayer(RouteId);
    }
    assert m.layers == s0.layers - {RouteId};
    if m.GetSource(RouteId).Some? {
      m.RemoveSource(RouteId);
    }
    assert m.sources == s0.sources - {RouteId};
    forall id | id in m.layers
      ensures m.layers[id].source in m.sources
    {
      assert id in s0.layers && m.layers[id] == s0.layers[id];
    }
  }

  /** The second half: add the source, then the layer over it, then fit the camera to the coordinates. */
  method DrawRoute(m: Surface, coordinates: seq<Point>, theme: Theme)
    requires m.loaded && m.Valid() && RouteId !in m.layers && RouteId !in m.sources
    requires |coordinates| >= 1
    modifies m
    ensures m.Valid()
    ensures m.State() == old(m.State()).(
      sources := old(m.sources)[RouteId := coordinates],
      layers := old(m.layers)[RouteId := RouteLayer(theme)],
      camera := Some(FitRequest(BoundsOf(coordinates), FitPadding, FitMaxZoom)))
  {
    m.AddSource(RouteId, coordinates);
    m.AddLayer(RouteLayer(theme));
    var bounds := ComputeBounds(coordinates);
    m.FitBounds(bounds, FitPadding, FitMaxZoom);
  }

  /** updateRoute on a loaded map. */
  method UpdateRoute(m: Surface, route: RouteDetails, theme: Theme)
    requires m.loaded && m.Valid()
    modifies m
    ensures m.Valid()
    ensures m.State() == ApplyRoute(old(m.State()), route, theme)
  {
    ClearRoute(m);
    var polyline := ChooseGeometry(route.route.routeMap);
    if polyline.None? {
      return;
    }
    var coordinates := Polyline.DecodePolyline(polyline.value);
    DrawRoute(m, coordinates, theme);
  }

  /**
   * The route effect: nothing without a map or a route; on a loaded map
   * the update runs now, otherwise it is registered for the `load` event.
   */
  method RouteEffect(m: Surface?, route: Option<RouteDetails>, theme: Theme)
    requires m != null ==> m.Valid()
    modifies m
    ensures m != null ==> m.Valid()
    ensures m != null && route.None? ==> m.State() == old(m.State())
    ensures m != null && route.Some? && old(m.loaded) ==> m.State() == ApplyRoute(old(m.State()), route.value, theme)
    ensures m != null && route.Some? && !old(m.loaded) ==>
      m.State() == old(m.State()).(loadHandlers := old(m.loadHandlers) + [Handler(route.value, theme)])
  {
    if m == null || route.None? {
      return;
    }
    if m.loaded {
      UpdateRoute(m, route.value, theme);
    } else {
      m.On(Handler(route.value, theme));
    }
  }
}
