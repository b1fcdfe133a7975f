/** The route-focus state of script.js: the map state object, the stop
    markers and the marker cluster group, and the `RouteManager` operations
    that focus the map on one route (`showRoute` and its helpers) and return
    it to the overview (`closeLine`). Leaflet objects are modelled by what
    the code reads back from them: a marker's icon colour, the cluster
    group's members, the drawn polylines. */
module RouteFocus {
  import opened Gtfs
  import opened Calendar
  import opened Schedule

  // CONFIG.ROUTE_COLORS and CONFIG.STOP_COLORS
  const ROUTE_DIRECTION0: string := "#c84949"
  const ROUTE_DIRECTION1: string := "#2b70cb"
  const STOP_DEFAULT: string := "#666666"
  const STOP_DIRECTION0: string := "#c84949"
  const STOP_DIRECTION1: string := "#2b70cb"
  const STOP_BOTH: string := "#9c27b0"

  /** A stop marker: the stop it stands for (`marker._stopId`) and the
      colour of its icon. */
  class Marker {
    const stopId: string
    var color: string

    constructor (stopId: string)
      ensures this.stopId == stopId && color == STOP_DEFAULT
    {
      this.stopId := stopId;
      color := STOP_DEFAULT;
    }
  }

  /** The marker cluster group `clusters`: the markers it holds and whether
      it currently clusters them. */
  class ClusterGroup {
    var layers: set<Marker>
    var clusteringEnabled: bool

    constructor ()
      ensures layers == {} && clusteringEnabled
    {
      layers := {};
      clusteringEnabled := true;
    }
  }

  /** A polyline drawn on the map: its coordinates and colour. */
  datatype Polyline = Polyline(coordinates: seq<LatLon>, color: string)

  /** `TransitMapState`: the selection, the line-mode flag, the markers by
      stop id, the drawn polylines and the loaded data. */
  class TransitMapState {
    var currentVisibleRouteId: Option<string>
    var currentVisibleStopId: Option<string>
    var lineMode: bool
    var stopMarkers: map<string, Marker>
    var activeShapes: seq<Polyline>
    var gtfsData: GtfsData

    /** Every marker is filed under its own stop id, so distinct stops have
        distinct markers. */
    predicate Valid()
      reads this`stopMarkers
    {
      forall s :: s in stopMarkers ==> stopMarkers[s].stopId == s
    }

    /** Nothing selected, no markers, no polylines; the data not yet loaded
        (its five tables empty). */
    constructor ()
      ensures Valid()
      ensures currentVisibleRouteId == None && currentVisibleStopId == None && !lineMode
      ensures stopMarkers == map[] && activeShapes == []
      ensures gtfsData == GtfsData(map[], map[], [], map[], map[])
    {
      currentVisibleRouteId := None;
      currentVisibleStopId := None;
      lineMode := false;
      stopMarkers := map[];
      activeShapes := [];
      gtfsData := GtfsData(map[], map[], [], map[], map[]);
    }

    /** `reset()`: clears the selection and leaves line mode. */
    method Reset()
      modifies this`currentVisibleRouteId, this`currentVisibleStopId, this`lineMode
      ensures currentVisibleRouteId == None && currentVisibleStopId == None && !lineMode
    {
      currentVisibleRouteId := None;
      currentVisibleStopId := None;
      lineMode := false;
    }

    /** `clearShapes()`: removes every drawn polyline. */
    method ClearShapes()
      modifies this`activeShapes
      ensures activeShapes == []
    {
      activeShapes := [];
    }
  }

  /** The body of `createStopMarkers()` for one stop: a new marker for
      the stop, added to the cluster group. */
  method NewStopMarker(clusters: ClusterGroup, stopId: string) returns (marker: Marker)
    modifies clusters`layers
    ensures fresh(marker) && marker.stopId == stopId && marker.color == STOP_DEFAULT
    ensures clusters.layers == old(clusters.layers) + {marker}
  {
    marker := new Marker(stopId);
    clusters.layers := clusters.layers + {marker};
  }

  /** `createStopMarkers()`: one new default-coloured marker per stop,
      filed under its stop id and added to the cluster group. The stops
      table is keyed by `stop_id`, as both converters write it. */
  method CreateStopMarkers(state: TransitMapState, clusters: ClusterGroup)
    requires state.Valid()
    requires forall k :: k in state.gtfsData.stops ==> state.gtfsData.stops[k].stopId == k
    modifies state`stopMarkers, clusters`layers
    ensures state.Valid()
    ensures forall s :: s in state.stopMarkers <==> s in old(state.stopMarkers) || s in state.gtfsData.stops
    ensures forall s :: s in state.gtfsData.stops ==> fresh(state.stopMarkers[s])
    ensures forall s :: s in state.gtfsData.stops ==> state.stopMarkers[s].color == STOP_DEFAULT
    ensures forall s :: s in state.gtfsData.stops ==> state.stopMarkers[s] in clusters.layers
    ensures forall s :: s in old(state.stopMarkers) && s !in state.gtfsData.stops ==>
      state.stopMarkers[s] == old(state.stopMarkers[s])
    ensures clusters.layers == old(clusters.layers) + set s | s in state.gtfsData.stops :: state.stopMarkers[s]
  {
    var stops := state.gtfsData.stops;
    var markers := state.stopMarkers;
    var todo := stops.Keys;
    while todo != {}
      modifies clusters`layers
      invariant todo <= stops.Keys
      invariant forall s :: s in markers ==> markers[s].stopId == s
      invariant forall s :: s in markers <==> s in old(state.stopMarkers) || (s in stops && s !in todo)
      invariant forall s :: s in stops && s !in todo ==> fresh(markers[s])
      invariant forall s :: s in stops && s !in todo ==> markers[s].color == STOP_DEFAULT
      invariant forall s :: s in stops && s !in todo ==> markers[s] in clusters.layers
      invariant forall s :: s in old(state.stopMarkers) && (s !in stops || s in todo) ==> markers[s] == old(state.stopMarkers[s])
      invariant clusters.layers == old(clusters.layers) + set s | s in stops && s !in todo :: markers[s]
      decreases |todo|
    {
      var key :| key in todo;
      var marker := NewStopMarker(clusters, stops[key].stopId);
      markers := markers[stops[key].stopId := marker];
      todo := todo - {key};
    }
    state.stopMarkers := markers;
  }

  /** The polyline colour of a direction: direction0's for "0", direction1's
      for every other key. */
  function RouteColor(direction: string): (color: string)
    ensures color == ROUTE_DIRECTION0 <==> direction == "0"
    ensures color == ROUTE_DIRECTION1 <==> direction != "0"
  {
    if direction == "0" then ROUTE_DIRECTION0 else ROUTE_DIRECTION1
  }

  /** The icon colour of a stop served in the directions `directions`. */
  function MarkerColor(directions: set<string>): (color: string)
    ensures color == STOP_BOTH <==> "0" in directions && "1" in directions
    ensures color == STOP_DIRECTION0 <==> "0" in directions && "1" !in directions
    ensures color == STOP_DIRECTION1 <==> "1" in directions && "0" !in directions
    ensures color == STOP_DEFAULT <==> "0" !in directions && "1" !in directions
  {
    if "0" in directions && "1" in directions then STOP_BOTH
    else if "0" in directions then STOP_DIRECTION0
    else if "1" in directions then STOP_DIRECTION1
    else STOP_DEFAULT
  }

  /** `updateMarkerColor(marker, stopId, stopDirections)`: recolours the
      marker after the directions serving its stop; a stop without an entry
      keeps its icon. */
  method UpdateMarkerColor(marker: Marker, stopId: string, stopDirections: map<string, set<string>>)
    modifies marker
    ensures stopId in stopDirections ==> marker.color == MarkerColor(stopDirections[stopId])
    ensures stopId !in stopDirections ==> marker.color == old(marker.color)
  {
    if stopId !in stopDirections {
      return;
    }
    marker.color := MarkerColor(stopDirections[stopId]);
  }

  /** The stops a trip calls at. */
  function StopSet(trip: Trip): set<string> {
    set s | s in trip.stops
  }

  /** `drawRouteShape(trip, direction, allStops)`: when the trip's shape is
      known, draws it in the direction's colour and adds the trip's stops to
      `allStops`; otherwise does nothing at all. */
  method DrawRouteShape(state: TransitMapState, trip: Trip, direction: string, allStops: set<string>) returns (lineStops: set<string>)
    modifies state`activeShapes
    ensures trip.shapeId in state.gtfsData.shapes ==>
      state.activeShapes == old(state.activeShapes) + [Polyline(state.gtfsData.shapes[trip.shapeId], RouteColor(direction))]
      && lineStops == allStops + StopSet(trip)
    ensures trip.shapeId !in state.gtfsData.shapes ==>
      state.activeShapes == old(state.activeShapes) && lineStops == allStops
  {
    if trip.shapeId !in state.gtfsData.shapes {
      return allStops;
    }
    var coordinates := state.gtfsData.shapes[trip.shapeId];
    var color := if direction == "0" then ROUTE_DIRECTION0 else ROUTE_DIRECTION1;
    state.activeShapes := state.activeShapes + [Polyline(coordinates, color)];
    lineStops := allStops;
    for i := 0 to |trip.stops|
      invariant lineStops == allStops + set s | s in trip.stops[..i]
    {
      assert trip.stops[..i + 1] == trip.stops[..i] + [trip.stops[i]];
      lineStops := lineStops + {trip.stops[i]};
    }
    assert trip.stops[..|trip.stops|] == trip.stops;
  }

  /** The `stopDirections` update of `showRoute` for one exemplar: every
      stop of the trip gains the direction. */
  method RecordDirection(stopDirections: map<string, set<string>>, trip: Trip, direction: string) returns (updated: map<string, set<string>>)
    ensures updated.Keys == stopDirections.Keys + StopSet(trip)
    ensures forall s :: s in updated ==>
      updated[s] == (if s in stopDirections then stopDirections[s] else {}) + (if s in trip.stops then {direction} else {})
  {
    updated := stopDirections;
    for i := 0 to |trip.stops|
      invariant updated.Keys == stopDirections.Keys + set s | s in trip.stops[..i]
      invariant forall s :: s in updated ==>
        updated[s] == (if s in stopDirections then stopDirections[s] else {}) + (if s in trip.stops[..i] then {direction} else {})
    {
      assert trip.stops[..i + 1] == trip.stops[..i] + [trip.stops[i]];
      var stopId := trip.stops[i];
      var directions := if stopId in updated then updated[stopId] else {};
      updated := updated[stopId := directions + {direction}];
    }
    assert trip.stops[..|trip.stops|] == trip.stops;
  }

  /** The exemplar trip of each direction of a route's running trips. */
  function RouteExemplars(data: GtfsData, routeId: string, date: string, time: string): map<string, Trip>
    requires IsDateString(date) && IsTimeInput(time) && ServicesWellFormed(data.services)
  {
    Exemplars(ActiveTripsForRoute(data.services, data.trips, routeId, date, time))
  }

  /** The directions among `dirs` whose exemplar has a known shape. */
  function DrawnDirections(data: GtfsData, exemplars: map<string, Trip>, dirs: set<string>): set<string> {
    set d | d in dirs && d in exemplars && exemplars[d].shapeId in data.shapes
  }

  /** The stops of the exemplars among `dirs` that have a known shape: the
      stops shown on the line. */
  function LineStops(data: GtfsData, exemplars: map<string, Trip>, dirs: set<string>): set<string> {
    set d, s | d in dirs && d in exemplars && exemplars[d].shapeId in data.shapes && s in exemplars[d].stops :: s
  }

  /** The directions among `dirs` whose exemplar calls at stop `s`, with a
      shape or without. */
  function DirectionsServing(exemplars: map<string, Trip>, dirs: set<string>, s: string): set<string> {
    set d | d in dirs && d in exemplars && s in exemplars[d].stops
  }

  /** `order` lists the directions of `dirs` whose exemplar has a known
      shape, each once. */
  ghost predicate DrawOrder(order: seq<string>, data: GtfsData, exemplars: map<string, Trip>, dirs: set<string>) {
    && (forall i, j :: 0 <= i < j < |order| ==> order[i] != order[j])
    && (forall d :: d in order <==> d in dirs && d in exemplars && exemplars[d].shapeId in data.shapes)
  }

  /** The polylines drawn for the directions of `order`, in that order. */
  function PolylinesOf(data: GtfsData, exemplars: map<string, Trip>, order: seq<string>): (lines: seq<Polyline>)
    requires forall d :: d in order ==> d in exemplars && exemplars[d].shapeId in data.shapes
    ensures |lines| == |order|
  {
    if order == [] then []
    else
      var d := order[|order| - 1];
      PolylinesOf(data, exemplars, order[..|order| - 1])
        + [Polyline(data.shapes[exemplars[d].shapeId], RouteColor(d))]
  }

  /** The polylines of `showRoute`: one per direction whose exemplar has a
      known shape, in the order the directions are visited. */
  ghost predicate DrawnInSomeOrder(lines: seq<Polyline>, data: GtfsData, exemplars: map<string, Trip>) {
    exists order :: DrawOrder(order, data, exemplars, exemplars.Keys) && lines == PolylinesOf(data, exemplars, order)
  }

  lemma {:induction false} DistinctCardinality(order: seq<string>)
    requires forall i, j :: 0 <= i < j < |order| ==> order[i] != order[j]
    ensures |set d | d in order| == |order|
  {
    if order != [] {
      var pre := order[..|order| - 1];
      var last := order[|order| - 1];
      DistinctCardinality(pre);
      assert (set d | d in order) == (set d | d in pre) + {last};
      assert last !in pre;
    }
  }

  lemma {:induction false} PolylinesOfAt(data: GtfsData, exemplars: map<string, Trip>, order: seq<string>, i: nat)
    requires forall d :: d in order ==> d in exemplars && exemplars[d].shapeId in data.shapes
    requires i < |order|
    ensures PolylinesOf(data, exemplars, order)[i] == Polyline(data.shapes[exemplars[order[i]].shapeId], RouteColor(order[i]))
  {
    if i < |order| - 1 {
      PolylinesOfAt(data, exemplars, order[..|order| - 1], i);
    }
  }

  /** Exactly one polyline per direction whose exemplar has a known shape,
      drawn from that shape in that direction's colour. */
  lemma OnePolylinePerDrawnDirection(lines: seq<Polyline>, data: GtfsData, exemplars: map<string, Trip>)
    requires DrawnInSomeOrder(lines, data, exemplars)
    ensures |lines| == |DrawnDirections(data, exemplars, exemplars.Keys)|
    ensures forall d :: d in DrawnDirections(data, exemplars, exemplars.Keys) ==>
      Polyline(data.shapes[exemplars[d].shapeId], RouteColor(d)) in lines
  {
    var order :| DrawOrder(order, data, exemplars, exemplars.Keys) && lines == PolylinesOf(data, exemplars, order);
    DistinctCardinality(order);
    assert (set d | d in order) == DrawnDirections(data, exemplars, exemplars.Keys);
    forall d | d in DrawnDirections(data, exemplars, exemplars.Keys)
      ensures Polyline(data.shapes[exemplars[d].shapeId], RouteColor(d)) in lines
    {
      var i :| 0 <= i < |order| && order[i] == d;
      PolylinesOfAt(data, exemplars, order, i);
    }
  }

  /** What the exemplar loop of `showRoute` has built once it has visited
      the directions `done`: the stops of those with a shape, the directions
      serving each stop, and one polyline per direction with a shape. */
  ghost predicate DrawnSoFar(data: GtfsData, exemplars: map<string, Trip>, done: set<string>,
                             allStops: set<string>, stopDirections: map<string, set<string>>,
                             order: seq<string>, lines: seq<Polyline>)
  {
    && (forall s :: s in allStops <==> s in LineStops(data, exemplars, done))
    && (forall s :: s in stopDirections <==> DirectionsServing(exemplars, done, s) != {})
    && (forall s :: s in stopDirections ==> stopDirections[s] == DirectionsServing(exemplars, done, s))
    && DrawOrder(order, data, exemplars, done)
    && lines == PolylinesOf(data, exemplars, order)
  }

  /** One pass of the exemplar loop of `showRoute`: draws the direction's
      exemplar and records its direction at each of its stops. */
  method VisitDirection(state: TransitMapState, exemplars: map<string, Trip>, direction: string,
                        allStops: set<string>, stopDirections: map<string, set<string>>,
                        ghost done: set<string>, ghost order: seq<string>)
    returns (allStops': set<string>, stopDirections': map<string, set<string>>, ghost order': seq<string>)
    requires direction in exemplars && direction !in done
    requires DrawnSoFar(state.gtfsData, exemplars, done, allStops, stopDirections, order, state.activeShapes)
    modifies state`activeShapes
    ensures DrawnSoFar(state.gtfsData, exemplars, done + {direction}, allStops', stopDirections', order', state.activeShapes)
  {
    var data := state.gtfsData;
    var trip := exemplars[direction];
    LineStopsStep(data, exemplars, done, direction);
    DrawOrderStep(order, data, exemplars, done, direction);
    allStops' := DrawRouteShape(state, trip, direction, allStops);
    order' := order;
    if trip.shapeId in data.shapes {
      PolylinesOfSnoc(data, exemplars, order, direction);
      order' := order + [direction];
    }
    stopDirections' := RecordDirection(stopDirections, trip, direction);
    DirectionsServingStep(exemplars, done, direction);
  }

  /** The `Object.entries(tripsByDirection).forEach` loop of `showRoute`:
      each exemplar's shape is drawn (when known) and its stops get its
      direction. The directions are visited in an order left open. */
  method DrawExemplars(state: TransitMapState, exemplars: map<string, Trip>) returns (allStops: set<string>, stopDirections: map<string, set<string>>, ghost order: seq<string>)
    requires state.activeShapes == []
    modifies state`activeShapes
    ensures DrawnSoFar(state.gtfsData, exemplars, exemplars.Keys, allStops, stopDirections, order, state.activeShapes)
  {
    var todo := exemplars.Keys;
    ghost var done: set<string> := {};
    allStops := {};
    stopDirections := map[];
    order := [];
    while todo != {}
      invariant forall d :: d in exemplars <==> d in todo || d in done
      invariant forall d :: d in todo ==> d !in done
      invariant DrawnSoFar(state.gtfsData, exemplars, done, allStops, stopDirections, order, state.activeShapes)
      decreases |todo|
    {
      var direction :| direction in todo;
      allStops, stopDirections, order := VisitDirection(state, exemplars, direction, allStops, stopDirections, done, order);
      todo := todo - {direction};
      done := done + {direction};
    }
    assert done == exemplars.Keys;
  }

  lemma DirectionsServingStep(exemplars: map<string, Trip>, done: set<string>, d: string)
    requires d in exemplars
    ensures forall s ::
      DirectionsServing(exemplars, done + {d}, s) == DirectionsServing(exemplars, done, s) + (if s in exemplars[d].stops then {d} else {})
  {
  }

  lemma LineStopsStep(data: GtfsData, exemplars: map<string, Trip>, done: set<string>, d: string)
    requires d in exemplars
    ensures forall s :: s in LineStops(data, exemplars, done + {d}) <==>
      s in LineStops(data, exemplars, done) || (exemplars[d].shapeId in data.shapes && s in exemplars[d].stops)
  {
  }

  lemma DrawOrderStep(order: seq<string>, data: GtfsData, exemplars: map<string, Trip>, done: set<string>, d: string)
    requires DrawOrder(order, data, exemplars, done)
    requires d in exemplars && d !in done
    ensures exemplars[d].shapeId in data.shapes ==> DrawOrder(order + [d], data, exemplars, done + {d})
    ensures exemplars[d].shapeId !in data.shapes ==> DrawOrder(order, data, exemplars, done + {d})
  {
  }

  lemma PolylinesOfSnoc(data: GtfsData, exemplars: map<string, Trip>, order: seq<string>, d: string)
    requires forall e :: e in order ==> e in exemplars && exemplars[e].shapeId in data.shapes
    requires d in exemplars && exemplars[d].shapeId in data.shapes
    ensures PolylinesOf(data, exemplars, order + [d])
      == PolylinesOf(data, exemplars, order) + [Polyline(data.shapes[exemplars[d].shapeId], RouteColor(d))]
  {
    assert (order + [d])[..|order|] == order;
  }

  /** The body of the marker loop of `updateVisibleStops` for one marker. */
  method ShowOrHideMarker(marker: Marker, clusters: ClusterGroup, stopId: string, lineStops: set<string>, stopDirections: map<string, set<string>>)
    modifies clusters`layers, marker
    ensures stopId in lineStops ==> clusters.layers == old(clusters.layers) + {marker}
    ensures stopId !in lineStops ==> clusters.layers == old(clusters.layers) - {marker}
    ensures marker.color == (if stopId in lineStops && stopId in stopDirections then MarkerColor(stopDirections[stopId]) else old(marker.color))
  {
    if stopId in lineStops {
      if marker !in clusters.layers {
        clusters.layers := clusters.layers + {marker};
      }
      UpdateMarkerColor(marker, stopId, stopDirections);
    } else if marker in clusters.layers {
      clusters.layers := clusters.layers - {marker};
    }
  }

  /** The marker loop of `updateVisibleStops`: the markers of the line's
      stops are put in the cluster group and recoloured, every other marker
      is taken out and keeps its colour. */
  method ApplyLineStops(markers: map<string, Marker>, clusters: ClusterGroup, lineStops: set<string>, stopDirections: map<string, set<string>>)
    requires forall s :: s in markers ==> markers[s].stopId == s
    modifies clusters`layers, markers.Values
    ensures forall s :: s in markers ==> (markers[s] in clusters.layers <==> s in lineStops)
    ensures forall s :: s in markers ==>
      markers[s].color == (if s in lineStops && s in stopDirections then MarkerColor(stopDirections[s]) else old(markers[s].color))
    ensures forall m :: m !in markers.Values ==> (m in clusters.layers <==> m in old(clusters.layers))
  {
    var todo := markers.Keys;
    while todo != {}
      invariant todo <= markers.Keys
      invariant forall s :: s in markers && s !in todo ==> (markers[s] in clusters.layers <==> s in lineStops)
      invariant forall s :: s in markers && s !in todo ==>
        markers[s].color == (if s in lineStops && s in stopDirections then MarkerColor(stopDirections[s]) else old(markers[s].color))
      invariant forall s :: s in todo ==> (markers[s] in clusters.layers <==> markers[s] in old(clusters.layers))
      invariant forall s :: s in todo ==> markers[s].color == old(markers[s].color)
      invariant forall m :: m !in markers.Values ==> (m in clusters.layers <==> m in old(clusters.layers))
      decreases |todo|
    {
      var stopId :| stopId in todo;
      ShowOrHideMarker(markers[stopId], clusters, stopId, lineStops, stopDirections);
      todo := todo - {stopId};
    }
  }

  /** `updateVisibleStops(lineStops, stopDirections)`: clustering is turned
      off; the markers of the line's stops are in the cluster group and
      recoloured, every other marker is taken out of it and keeps its
      colour. Cluster members that are not stop markers are untouched. */
  method UpdateVisibleStops(state: TransitMapState, clusters: ClusterGroup, lineStops: set<string>, stopDirections: map<string, set<string>>)
    requires state.Valid()
    modifies clusters, state.stopMarkers.Values
    ensures !clusters.clusteringEnabled
    ensures forall s :: s in state.stopMarkers ==> (state.stopMarkers[s] in clusters.layers <==> s in lineStops)
    ensures forall s :: s in state.stopMarkers ==>
      state.stopMarkers[s].color == (if s in lineStops && s in stopDirections then MarkerColor(stopDirections[s]) else old(state.stopMarkers[s].color))
    ensures forall m :: m !in state.stopMarkers.Values ==> (m in clusters.layers <==> m in old(clusters.layers))
  {
    clusters.clusteringEnabled := false;
    ApplyLineStops(state.stopMarkers, clusters, lineStops, stopDirections);
  }

  /** The drawing part of `showRoute`: the route's running trips are
      grouped by direction and each exemplar is drawn. Every stop of the
      line has a direction entry. */
  method DrawRoute(state: TransitMapState, routeId: string, date: string, time: string)
    returns (allStops: set<string>, stopDirections: map<string, set<string>>)
    requires IsDateString(date) && IsTimeInput(time) && ServicesWellFormed(state.gtfsData.services)
    requires state.activeShapes == []
    modifies state`activeShapes
    ensures var exemplars := RouteExemplars(state.gtfsData, routeId, date, time);
      && DrawnInSomeOrder(state.activeShapes, state.gtfsData, exemplars)
      && (forall s :: s in allStops <==> s in LineStops(state.gtfsData, exemplars, exemplars.Keys))
      && (forall s :: s in allStops ==>
            s in stopDirections && stopDirections[s] == DirectionsServing(exemplars, exemplars.Keys, s))
  {
    var routeTrips := ActiveTripsForRoute(state.gtfsData.services, state.gtfsData.trips, routeId, date, time);
    var tripsByDirection := GroupTripsByDirection(routeTrips);
    ghost var order;
    allStops, stopDirections, order := DrawExemplars(state, tripsByDirection);
    assert DrawOrder(order, state.gtfsData, tripsByDirection, tripsByDirection.Keys);
    forall s | s in allStops ensures s in stopDirections {
      var d, t :| d in tripsByDirection && tripsByDirection[d].shapeId in state.gtfsData.shapes
        && t in tripsByDirection[d].stops && t == s;
      assert d in DirectionsServing(tripsByDirection, tripsByDirection.Keys, s);
    }
  }

  /** `showRoute(stopId, routeId)` for the date and time the pickers hold:
      the route becomes the selection in line mode; one polyline is drawn
      per direction exemplar whose shape is known; exactly the stops of
      those exemplars stay in the cluster group, coloured by the directions
      serving them; no marker is created or dropped. */
  method ShowRoute(state: TransitMapState, clusters: ClusterGroup, stopId: string, routeId: string, date: string, time: string)
    requires state.Valid()
    requires IsDateString(date) && IsTimeInput(time) && ServicesWellFormed(state.gtfsData.services)
    modifies state, clusters, state.stopMarkers.Values
    ensures state.Valid()
    ensures state.currentVisibleRouteId == Some(routeId) && state.currentVisibleStopId == Some(stopId) && state.lineMode
    ensures state.stopMarkers == old(state.stopMarkers) && state.gtfsData == old(state.gtfsData)
    ensures var exemplars := RouteExemplars(state.gtfsData, routeId, date, time);
      && DrawnInSomeOrder(state.activeShapes, state.gtfsData, exemplars)
      && (forall s :: s in state.stopMarkers ==>
            (state.stopMarkers[s] in clusters.layers <==> s in LineStops(state.gtfsData, exemplars, exemplars.Keys)))
      && (forall s :: s in state.stopMarkers ==>
            state.stopMarkers[s].color ==
              (if s in LineStops(state.gtfsData, exemplars, exemplars.Keys)
               then MarkerColor(DirectionsServing(exemplars, exemplars.Keys, s))
               else old(state.stopMarkers[s].color)))
    ensures !clusters.clusteringEnabled
    ensures forall m :: m !in state.stopMarkers.Values ==> (m in clusters.layers <==> m in old(clusters.layers))
  {
    state.ClearShapes();
    state.currentVisibleRouteId := Some(routeId);
    state.currentVisibleStopId := Some(stopId);
    state.lineMode := true;

    var allStops, stopDirections := DrawRoute(state, routeId, date, time);
    UpdateVisibleStops(state, clusters, allStops, stopDirections);
  }

  /** A stop whose only exemplars lack a shape is hidden by `showRoute`,
      although it has a direction entry. */
  lemma ShapelessExemplarStopHidden(data: GtfsData, exemplars: map<string, Trip>, s: string)
    requires forall d :: d in exemplars && s in exemplars[d].stops ==> exemplars[d].shapeId !in data.shapes
    ensures s !in LineStops(data, exemplars, exemplars.Keys)
  {
  }

  /** The marker loop of `closeLine()`: every marker gets the default
      icon and is added to the cluster group. */
  method RestoreMarkers(markers: map<string, Marker>, clusters: ClusterGroup)
    modifies clusters`layers, markers.Values
    ensures clusters.layers == old(clusters.layers) + markers.Values
    ensures forall s :: s in markers ==> markers[s].color == STOP_DEFAULT
  {
    var todo := markers.Keys;
    while todo != {}
      invariant todo <= markers.Keys
      invariant old(clusters.layers) <= clusters.layers <= old(clusters.layers) + markers.Values
      invariant forall s :: s in markers && s !in todo ==> markers[s] in clusters.layers
      invariant forall s :: s in markers && s !in todo ==> markers[s].color == STOP_DEFAULT
      decreases |todo|
    {
      var stopId :| stopId in todo;
      var marker := markers[stopId];
      marker.color := STOP_DEFAULT;
      clusters.layers := clusters.layers + {marker};
      todo := todo - {stopId};
    }
  }

  /** `closeLine()`: clustering back on, no polylines, the cluster group
      holding exactly the stop markers, all default-coloured, and no
      selection. */
  method CloseLine(state: TransitMapState, clusters: ClusterGroup)
    requires state.Valid()
    modifies state, clusters, state.stopMarkers.Values
    ensures state.Valid()
    ensures clusters.clusteringEnabled
    ensures state.activeShapes == []
    ensures clusters.layers == state.stopMarkers.Values
    ensures forall s :: s in state.stopMarkers ==> state.stopMarkers[s].color == STOP_DEFAULT
    ensures state.currentVisibleRouteId == None && state.currentVisibleStopId == None && !state.lineMode
    ensures state.stopMarkers == old(state.stopMarkers) && state.gtfsData == old(state.gtfsData)
  {
    clusters.clusteringEnabled := true;
    state.ClearShapes();
    clusters.layers := {};
    RestoreMarkers(state.stopMarkers, clusters);
    state.Reset();
  }
}
