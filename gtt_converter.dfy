/** gtt_gtfs/converter-txt-json.py: the converter for the GTT feed. Routes
    carry every column as read plus the ids of their trips in trips.txt
    order; trips keep only their service and shape. The calendar and the
    shapes are built as `Gtfs.BuildServices` and `Gtfs.BuildShapes`
    describe (the calendar's `setdefault` behaves as the other converter's
    `if sid not in`). */
module GttConverter {
  import opened Tables

  /** A routes.txt row, `route_type` read as an integer. */
  datatype RouteRow = RouteRow(
    routeId: string,
    shortName: string,
    longName: string,
    agencyId: string,
    routeType: int,
    color: string,
    textColor: string)

  /** A trips.txt row. */
  datatype TripRow = TripRow(tripId: string, routeId: string, serviceId: string, shapeId: string)

  /** A routes.json record. */
  datatype RouteRecord = RouteRecord(
    shortName: string,
    longName: string,
    agencyId: string,
    routeType: int,
    color: string,
    textColor: string,
    trips: seq<string>)

  /** A trips.json record. */
  datatype TripRecord = TripRecord(serviceId: string, shapeId: string)

  function RouteRowId(row: RouteRow): string { row.routeId }

  function TripRouteId(row: TripRow): string { row.routeId }

  function TripRowId(row: TripRow): string { row.tripId }

  /** `trips_by_route.get(routeId, [])`: the ids of the trips of a route, in
      trips.txt order. */
  function RouteTrips(trips: seq<TripRow>, routeId: string): seq<string> {
    Collect(trips, TripRouteId, TripRowId, routeId)
  }

  function RouteRecordOf(row: RouteRow, trips: seq<TripRow>): RouteRecord {
    RouteRecord(row.shortName, row.longName, row.agencyId, row.routeType, row.color, row.textColor,
                RouteTrips(trips, row.routeId))
  }

  /** The routes table after the routes loop has seen `routes`: one entry
      per distinct `route_id`. */
  function RoutesJson(routes: seq<RouteRow>, trips: seq<TripRow>): (table: map<string, RouteRecord>)
    ensures table.Keys == KeySet(routes, RouteRowId)
  {
    if routes == [] then map[]
    else
      KeySetSnoc(routes, RouteRowId);
      var last := routes[|routes| - 1];
      RoutesJson(routes[..|routes| - 1], trips)[last.routeId := RouteRecordOf(last, trips)]
  }

  /** A route id repeated in routes.txt keeps its last row. */
  lemma {:induction false} RoutesJsonLastWins(routes: seq<RouteRow>, trips: seq<TripRow>, i: nat)
    requires i < |routes|
    requires forall j :: i < j < |routes| ==> routes[j].routeId != routes[i].routeId
    ensures routes[i].routeId in RoutesJson(routes, trips)
    ensures RoutesJson(routes, trips)[routes[i].routeId] == RouteRecordOf(routes[i], trips)
  {
    if i < |routes| - 1 {
      RoutesJsonLastWins(routes[..|routes| - 1], trips, i);
    }
  }

  /** A route lists exactly the trips whose `route_id` is its own, none when
      no trip names it, and in trips.txt order (appending rows to trips.txt
      appends their ids). */
  lemma RouteTripsAreItsTrips(trips: seq<TripRow>, more: seq<TripRow>, routeId: string)
    ensures forall id :: id in RouteTrips(trips, routeId) <==>
      exists i :: 0 <= i < |trips| && trips[i].routeId == routeId && trips[i].tripId == id
    ensures RouteTrips(trips, routeId) == [] <==> forall i :: 0 <= i < |trips| ==> trips[i].routeId != routeId
    ensures RouteTrips(trips + more, routeId) == RouteTrips(trips, routeId) + RouteTrips(more, routeId)
  {
    CollectMembers(trips, TripRouteId, TripRowId, routeId);
    CollectAppend(trips, more, TripRouteId, TripRowId, routeId);
    if RouteTrips(trips, routeId) == [] {
      forall i | 0 <= i < |trips| ensures trips[i].routeId != routeId {
        assert TripRouteId(trips[i]) in KeySet(trips, TripRouteId);
      }
    }
  }

  /** The trips_by_route loop, then the routes loop. */
  method BuildRoutes(routes: seq<RouteRow>, trips: seq<TripRow>) returns (routesJson: map<string, RouteRecord>)
    ensures routesJson == RoutesJson(routes, trips)
  {
    var tripsByRoute := GroupAppend(trips, TripRouteId, TripRowId);
    routesJson := map[];
    for i := 0 to |routes|
      invariant routesJson == RoutesJson(routes[..i], trips)
    {
      var route := routes[i];
      var routeTrips := Lookup(tripsByRoute, route.routeId);
      LookupGroups(trips, TripRouteId, TripRowId, route.routeId);
      RoutesJsonStep(routes, trips, i);
      routesJson := routesJson[route.routeId := RouteRecord(
        route.shortName, route.longName, route.agencyId, route.routeType, route.color, route.textColor,
        routeTrips)];
    }
    assert routes[..|routes|] == routes;
  }

  lemma RoutesJsonStep(routes: seq<RouteRow>, trips: seq<TripRow>, i: nat)
    requires i < |routes|
    ensures RoutesJson(routes[..i + 1], trips) == RoutesJson(routes[..i], trips)[routes[i].routeId := RouteRecordOf(routes[i], trips)]
  {
    assert routes[..i + 1][..i] == routes[..i];
  }

  function TripRecordOf(row: TripRow): TripRecord { TripRecord(row.serviceId, row.shapeId) }

  /** The trips table: one entry per distinct `trip_id`. */
  function TripsJson(trips: seq<TripRow>): (table: map<string, TripRecord>)
    ensures table.Keys == KeySet(trips, TripRowId)
  {
    IndexBy(trips, TripRowId, TripRecordOf)
  }

  /** A trip id repeated in trips.txt keeps the service and shape of its last
      row; every record comes from a row with its id. */
  lemma TripsJsonRecords(trips: seq<TripRow>, i: nat)
    requires i < |trips|
    requires forall j :: i < j < |trips| ==> trips[j].tripId != trips[i].tripId
    ensures TripsJson(trips)[trips[i].tripId] == TripRecord(trips[i].serviceId, trips[i].shapeId)
    ensures forall id :: id in TripsJson(trips) ==>
      exists j :: 0 <= j < |trips| && trips[j].tripId == id && TripsJson(trips)[id] == TripRecordOf(trips[j])
  {
    IndexByLastWins(trips, TripRowId, TripRecordOf, i);
    forall id | id in TripsJson(trips)
      ensures exists j :: 0 <= j < |trips| && trips[j].tripId == id && TripsJson(trips)[id] == TripRecordOf(trips[j])
    {
      IndexByFrom(trips, TripRowId, TripRecordOf, id);
    }
  }
}
