/** The schedule index of script.js: the active trips of a stop or of a
    route (`getActiveTripsForStop`, `getActiveTripsForRoute`), one exemplar
    trip per direction (`groupTripsByDirection`), and which route a stop's
    popup selects (`buildPopupHTML`, its selection rule only). */
module Schedule {
  import opened Tables
  import opened Gtfs
  import opened Calendar

  /** A trip the stop filter keeps: it calls at `stopId` and its service runs. */
  predicate RunsAtStop(services: map<string, Service>, e: TripEntry, stopId: string, date: string, time: string)
    requires IsDateString(date) && IsTimeInput(time) && ServicesWellFormed(services)
  {
    stopId in e.trip.stops && IsTripActive(services, e.trip.serviceId, date, time)
  }

  /** A trip the route filter keeps: it belongs to `routeId` and its service runs. */
  predicate RunsOnRoute(services: map<string, Service>, e: TripEntry, routeId: string, date: string, time: string)
    requires IsDateString(date) && IsTimeInput(time) && ServicesWellFormed(services)
  {
    e.trip.routeId == routeId && IsTripActive(services, e.trip.serviceId, date, time)
  }

  /** `Object.entries(trips).filter(...)` keeping the trips that call at
      `stopId` and whose service runs. */
  function ActiveTripsForStop(services: map<string, Service>, trips: seq<TripEntry>, stopId: string, date: string, time: string): (active: seq<TripEntry>)
    requires IsDateString(date) && IsTimeInput(time) && ServicesWellFormed(services)
    ensures |active| <= |trips|
    ensures forall i :: 0 <= i < |active| ==> active[i] in trips && RunsAtStop(services, active[i], stopId, date, time)
  {
    if trips == [] then []
    else
      var e := trips[0];
      (if RunsAtStop(services, e, stopId, date, time) then [e] else [])
      + ActiveTripsForStop(services, trips[1..], stopId, date, time)
  }

  /** The filter keeps exactly the trips that call at `stopId` whose
      service runs on `date` at `time`. */
  lemma {:induction false} ActiveTripsForStopMembers(services: map<string, Service>, trips: seq<TripEntry>, stopId: string, date: string, time: string)
    requires IsDateString(date) && IsTimeInput(time) && ServicesWellFormed(services)
    ensures forall e :: e in ActiveTripsForStop(services, trips, stopId, date, time) <==>
      e in trips && stopId in e.trip.stops && IsTripActive(services, e.trip.serviceId, date, time)
  {
    if trips != [] {
      ActiveTripsForStopMembers(services, trips[1..], stopId, date, time);
      assert trips == [trips[0]] + trips[1..];
    }
  }

  /** The filter keeps collection order: filtering two runs of trips one
      after the other gives the two results one after the other. */
  lemma {:induction false} ActiveTripsForStopAppend(services: map<string, Service>, a: seq<TripEntry>, b: seq<TripEntry>, stopId: string, date: string, time: string)
    requires IsDateString(date) && IsTimeInput(time) && ServicesWellFormed(services)
    ensures ActiveTripsForStop(services, a + b, stopId, date, time)
      == ActiveTripsForStop(services, a, stopId, date, time) + ActiveTripsForStop(services, b, stopId, date, time)
  {
    if a != [] {
      ActiveTripsForStopAppend(services, a[1..], b, stopId, date, time);
      assert (a + b)[1..] == a[1..] + b;
      assert (a + b)[0] == a[0];
      var head := if RunsAtStop(services, a[0], stopId, date, time) then [a[0]] else [];
      var restA, restB := ActiveTripsForStop(services, a[1..], stopId, date, time), ActiveTripsForStop(services, b, stopId, date, time);
      assert ActiveTripsForStop(services, a + b, stopId, date, time) == head + (restA + restB);
      ConcatAssoc(head, restA, restB);
    } else {
      assert a + b == b;
    }
  }

  /** `Object.entries(trips).filter(...)` keeping the trips of `routeId`
      whose service runs. */
  function ActiveTripsForRoute(services: map<string, Service>, trips: seq<TripEntry>, routeId: string, date: string, time: string): (active: seq<TripEntry>)
    requires IsDateString(date) && IsTimeInput(time) && ServicesWellFormed(services)
    ensures |active| <= |trips|
    ensures forall i :: 0 <= i < |active| ==> active[i] in trips && RunsOnRoute(services, active[i], routeId, date, time)
  {
    if trips == [] then []
    else
      var e := trips[0];
      (if RunsOnRoute(services, e, routeId, date, time) then [e] else [])
      + ActiveTripsForRoute(services, trips[1..], routeId, date, time)
  }

  /** The filter keeps exactly the trips of `routeId` whose
      service runs on `date` at `time`. */
  lemma {:induction false} ActiveTripsForRouteMembers(services: map<string, Service>, trips: seq<TripEntry>, routeId: string, date: string, time: string)
    requires IsDateString(date) && IsTimeInput(time) && ServicesWellFormed(services)
    ensures forall e :: e in ActiveTripsForRoute(services, trips, routeId, date, time) <==>
      e in trips && e.trip.routeId == routeId && IsTripActive(services, e.trip.serviceId, date, time)
  {
    if trips != [] {
      ActiveTripsForRouteMembers(services, trips[1..], routeId, date, time);
      assert trips == [trips[0]] + trips[1..];
    }
  }

  /** The route filter keeps collection order too. */
  lemma {:induction false} ActiveTripsForRouteAppend(services: map<string, Service>, a: seq<TripEntry>, b: seq<TripEntry>, routeId: string, date: string, time: string)
    requires IsDateString(date) && IsTimeInput(time) && ServicesWellFormed(services)
    ensures ActiveTripsForRoute(services, a + b, routeId, date, time)
      == ActiveTripsForRoute(services, a, routeId, date, time) + ActiveTripsForRoute(services, b, routeId, date, time)
  {
    if a != [] {
      ActiveTripsForRouteAppend(services, a[1..], b, routeId, date, time);
      assert (a + b)[1..] == a[1..] + b;
      assert (a + b)[0] == a[0];
      var head := if RunsOnRoute(services, a[0], routeId, date, time) then [a[0]] else [];
      var restA, restB := ActiveTripsForRoute(services, a[1..], routeId, date, time), ActiveTripsForRoute(services, b, routeId, date, time);
      assert ActiveTripsForRoute(services, a + b, routeId, date, time) == head + (restA + restB);
      ConcatAssoc(head, restA, restB);
    } else {
      assert a + b == b;
    }
  }

  /** `trip.direction_id || "0"`: an empty direction reads as "0", so every
      trip gets a non-empty key, its own direction when it has one. */
  function DirectionKey(trip: Trip): (key: string)
    ensures key != ""
    ensures trip.directionId != "" ==> key == trip.directionId
    ensures trip.directionId == "" ==> key == "0"
  {
    if trip.directionId == "" then "0" else trip.directionId
  }

  function EntryDirection(e: TripEntry): string { DirectionKey(e.trip) }

  /** The groups `groupTripsByDirection` builds: for each direction key,
      the first trip carrying it. */
  function Exemplars(trips: seq<TripEntry>): (groups: map<string, Trip>)
    ensures groups.Keys == KeySet(trips, EntryDirection)
  {
    if trips == [] then map[]
    else
      var last := trips[|trips| - 1];
      var groups := Exemplars(trips[..|trips| - 1]);
      KeySetSnoc(trips, EntryDirection);
      if DirectionKey(last.trip) in groups then groups else groups[DirectionKey(last.trip) := last.trip]
  }

  /** The first trip with a direction key is that key's exemplar; later
      trips never replace it. */
  lemma {:induction false} ExemplarsFirstWins(trips: seq<TripEntry>, i: nat)
    requires i < |trips|
    requires forall j :: 0 <= j < i ==> DirectionKey(trips[j].trip) != DirectionKey(trips[i].trip)
    ensures DirectionKey(trips[i].trip) in Exemplars(trips)
    ensures Exemplars(trips)[DirectionKey(trips[i].trip)] == trips[i].trip
  {
    var n := |trips| - 1;
    var pre := trips[..n];
    if i < n {
      ExemplarsFirstWins(pre, i);
    } else {
      assert DirectionKey(trips[i].trip) !in KeySet(pre, EntryDirection);
    }
  }

  /** `groupTripsByDirection(trips)`: fills `groups` in one pass, storing a
      trip only under a key not yet present. */
  method GroupTripsByDirection(trips: seq<TripEntry>) returns (groups: map<string, Trip>)
    ensures groups == Exemplars(trips)
  {
    groups := map[];
    for i := 0 to |trips|
      invariant groups == Exemplars(trips[..i])
    {
      var direction := DirectionKey(trips[i].trip);
      if direction !in groups {
        groups := groups[direction := trips[i].trip];
      }
      assert trips[..i + 1][..i] == trips[..i];
    }
    assert trips[..|trips|] == trips;
  }

  function EntryRoute(e: TripEntry): string { e.trip.routeId }

  /** The index of the first trip of route `r`. */
  function FirstRouteIndex(trips: seq<TripEntry>, r: string): (i: nat)
    requires r in KeySet(trips, EntryRoute)
    ensures i < |trips| && trips[i].trip.routeId == r
    ensures forall j :: 0 <= j < i ==> trips[j].trip.routeId != r
  {
    if trips[0].trip.routeId == r then 0
    else
      assert r in KeySet(trips[1..], EntryRoute) by {
        var k :| 0 <= k < |trips| && trips[k].trip.routeId == r;
        assert trips[1..][k - 1] == trips[k];
      }
      1 + FirstRouteIndex(trips[1..], r)
  }

  lemma FirstRouteIndexOfPrefix(trips: seq<TripEntry>, n: nat, r: string)
    requires n <= |trips| && r in KeySet(trips[..n], EntryRoute)
    ensures r in KeySet(trips, EntryRoute)
    ensures FirstRouteIndex(trips, r) == FirstRouteIndex(trips[..n], r)
  {
    var k := FirstRouteIndex(trips[..n], r);
    assert trips[k] == trips[..n][k];
  }

  /** The keys of `routeGroups` in insertion order: each route of the
      active trips once, in order of first appearance. */
  function RouteOrder(trips: seq<TripEntry>): (routes: seq<string>)
    ensures forall r :: r in routes <==> r in KeySet(trips, EntryRoute)
    ensures forall i, j :: 0 <= i < j < |routes| ==> routes[i] != routes[j]
  {
    if trips == [] then []
    else
      var last := trips[|trips| - 1];
      var routes := RouteOrder(trips[..|trips| - 1]);
      KeySetSnoc(trips, EntryRoute);
      if last.trip.routeId in routes then routes else routes + [last.trip.routeId]
  }

  /** Routes are listed in the order their first trips appear. */
  lemma {:induction false} RouteOrderByFirstAppearance(trips: seq<TripEntry>)
    ensures forall i, j :: 0 <= i < j < |RouteOrder(trips)| ==>
      FirstRouteIndex(trips, RouteOrder(trips)[i]) < FirstRouteIndex(trips, RouteOrder(trips)[j])
  {
    if trips != [] {
      var n := |trips| - 1;
      var pre := trips[..n];
      var routes := RouteOrder(trips);
      var preRoutes := RouteOrder(pre);
      RouteOrderByFirstAppearance(pre);
      forall i | 0 <= i < |preRoutes|
        ensures FirstRouteIndex(trips, preRoutes[i]) == FirstRouteIndex(pre, preRoutes[i]) < n
      {
        FirstRouteIndexOfPrefix(trips, n, preRoutes[i]);
      }
      RouteOrderSnoc(trips);
      forall i, j | 0 <= i < j < |routes|
        ensures FirstRouteIndex(trips, routes[i]) < FirstRouteIndex(trips, routes[j])
      {
        assert routes[i] == preRoutes[i];
        if j < |preRoutes| {
          assert routes[j] == preRoutes[j];
        }
      }
    }
  }

  /** One more trip either repeats a listed route or appends its route,
      whose first trip it then is. */
  lemma RouteOrderSnoc(trips: seq<TripEntry>)
    requires trips != []
    ensures trips[|trips| - 1].trip.routeId in KeySet(trips, EntryRoute)
    ensures var n := |trips| - 1;
      var preRoutes, x := RouteOrder(trips[..n]), trips[n].trip.routeId;
      || (x in preRoutes && RouteOrder(trips) == preRoutes)
      || (x !in preRoutes && RouteOrder(trips) == preRoutes + [x] && FirstRouteIndex(trips, x) == n)
  {
    var n := |trips| - 1;
    var x := trips[n].trip.routeId;
    assert EntryRoute(trips[n]) == x;
    if x !in RouteOrder(trips[..n]) {
      forall j | 0 <= j < n ensures trips[j].trip.routeId != x {
        assert EntryRoute(trips[..n][j]) in KeySet(trips[..n], EntryRoute);
      }
    }
  }

  /** The first route listed is the route of the first active trip. */
  lemma {:induction false} RouteOrderStartsWithFirstTrip(trips: seq<TripEntry>)
    requires trips != []
    ensures RouteOrder(trips) != [] && RouteOrder(trips)[0] == trips[0].trip.routeId
  {
    var n := |trips| - 1;
    if n > 0 {
      RouteOrderStartsWithFirstTrip(trips[..n]);
      assert trips[0] == trips[..n][0];
    }
  }

  /** What a popup's route list does: which radio buttons are checked and
      which route, if any, `showRoute` is called for while the list is built. */
  datatype PopupChoice = PopupChoice(checked: seq<bool>, fired: Option<string>)

  /** The loop of `buildPopupHTML` over the route groups, as written. Each
      route is checked when it is the current selection for this stop or is
      the first; the first, when not current, calls `showRoute`, which makes
      it the current selection that the later iterations compare against. */
  function PopupPass(routes: seq<string>, stopId: string, curStop: Option<string>, curRoute: Option<string>, isFirst: bool): (choice: PopupChoice)
    ensures |choice.checked| == |routes|
    ensures !isFirst ==> choice.fired == None
    ensures choice.fired.Some? ==> routes != [] && choice.fired == Some(routes[0])
    ensures isFirst && routes != [] ==> choice.checked[0]
  {
    if routes == [] then PopupChoice([], None)
    else
      var routeId := routes[0];
      var isCurrent := curRoute == Some(routeId) && curStop == Some(stopId);
      var fires := isFirst && !isCurrent;
      var rest := if fires then PopupPass(routes[1..], stopId, Some(stopId), Some(routeId), false)
                  else PopupPass(routes[1..], stopId, curStop, curRoute, false);
      PopupChoice([isCurrent || isFirst] + rest.checked, if fires then Some(routeId) else rest.fired)
  }

  /** The popup for `stopId`: the first route is always checked, and
      `showRoute` fires for it exactly when it is not already the current
      selection for this stop; no other route ever fires. */
  function PopupSelection(routes: seq<string>, stopId: string, curStop: Option<string>, curRoute: Option<string>): (choice: PopupChoice)
    ensures |choice.checked| == |routes|
    ensures routes != [] ==> choice.checked[0]
    ensures choice.fired.Some? ==> routes != [] && choice.fired == Some(routes[0])
    ensures routes != [] ==> (choice.fired.None? <==> curRoute == Some(routes[0]) && curStop == Some(stopId))
  {
    PopupPass(routes, stopId, curStop, curRoute, true)
  }

  /** The route shown once the popup is built. */
  function ShownRoute(choice: PopupChoice, curRoute: Option<string>): Option<string> {
    if choice.fired.Some? then choice.fired else curRoute
  }

  lemma {:induction false} PopupPassAfterFirst(routes: seq<string>, stopId: string, curStop: Option<string>, r: string)
    requires r !in routes
    ensures PopupPass(routes, stopId, curStop, Some(r), false).fired == None
    ensures forall i :: 0 <= i < |routes| ==> !PopupPass(routes, stopId, curStop, Some(r), false).checked[i]
  {
    if routes != [] {
      PopupPassAfterFirst(routes[1..], stopId, curStop, r);
    }
  }

  /** As written, only the first route of a popup is ever checked, and it is
      the route shown afterwards: `showRoute` runs for it unless it already
      is this stop's current route. */
  lemma PopupSelectionChecksFirst(routes: seq<string>, stopId: string, curStop: Option<string>, curRoute: Option<string>)
    requires routes != []
    requires forall i, j :: 0 <= i < j < |routes| ==> routes[i] != routes[j]
    ensures var choice := PopupSelection(routes, stopId, curStop, curRoute);
      && (forall i :: 0 <= i < |routes| ==> (choice.checked[i] <==> i == 0))
      && (choice.fired == if curRoute == Some(routes[0]) && curStop == Some(stopId) then None else Some(routes[0]))
      && ShownRoute(choice, curRoute) == Some(routes[0])
  {
    PopupPassAfterFirst(routes[1..], stopId, if curRoute == Some(routes[0]) && curStop == Some(stopId) then curStop else Some(stopId), routes[0]);
  }

  /** A stop showing its second route: reopening its popup checks and shows
      the first route instead. */
  lemma PopupLosesCurrentRoute()
    ensures PopupSelection(["A", "B"], "X", Some("X"), Some("B")) == PopupChoice([true, false], Some("A"))
    ensures ShownRoute(PopupSelection(["A", "B"], "X", Some("X"), Some("B")), Some("B")) == Some("A")
  {
  }

  /** The selection `buildPopupHTML` evidently intends: the route already
      shown for this stop stays checked and shown; otherwise the first is
      checked and shown. */
  function IntendedPopupSelection(routes: seq<string>, stopId: string, curStop: Option<string>, curRoute: Option<string>): PopupChoice {
    var kept := curStop == Some(stopId) && curRoute.Some? && curRoute.value in routes;
    PopupChoice(
      seq(|routes|, i requires 0 <= i < |routes| => if kept then Some(routes[i]) == curRoute else i == 0),
      if kept || routes == [] then None else Some(routes[0]))
  }

  /** Exactly one route is checked and it is the one shown afterwards; the
      route already shown for this stop is kept when the popup lists it. */
  lemma IntendedPopupKeepsCurrentRoute(routes: seq<string>, stopId: string, curStop: Option<string>, curRoute: Option<string>)
    requires routes != []
    requires forall i, j :: 0 <= i < j < |routes| ==> routes[i] != routes[j]
    ensures var choice := IntendedPopupSelection(routes, stopId, curStop, curRoute);
      var shown := ShownRoute(choice, curRoute);
      && |choice.checked| == |routes|
      && shown.Some? && shown.value in routes
      && (forall i :: 0 <= i < |routes| ==> (choice.checked[i] <==> Some(routes[i]) == shown))
      && (curStop == Some(stopId) && curRoute.Some? && curRoute.value in routes ==> shown == curRoute && choice.fired == None)
  {
  }
}
