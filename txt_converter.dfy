/** converter-txt-json.py: turns the GTFS text files of a feed into the
    JSON tables the map script loads. Stops and routes are dictionary
    comprehensions keyed by id, with `""` or null defaults for optional
    columns; the timetable info is keyed by `timetable_id`; each trip gets
    its stop ids sorted by `stop_sequence` and the start and end time of
    its timetable. Services and shapes are built as `Gtfs.BuildServices`
    and `Gtfs.BuildShapes` describe. */
module TxtConverter {
  import opened Tables
  import opened Gtfs

  /** `row.get(column, default)` on a CSV row: `None` is a missing column. */
  function GetOr(field: Option<string>, default: string): (v: string)
    ensures field.Some? ==> v == field.value
    ensures field.None? ==> v == default
  {
    if field.Some? then field.value else default
  }

  // ---------------------------------------------------------------- stops

  /** A stops.txt row; `stop_name` and `stop_code` may be missing. */
  datatype StopRow = StopRow(stopId: string, stopName: Option<string>, stopLat: string, stopLon: string, stopCode: Option<string>)

  function StopRowId(row: StopRow): string { row.stopId }

  /** The record written for a stop: a missing name becomes "", a missing
      code null. */
  function StopOf(row: StopRow): Stop {
    Stop(row.stopId, GetOr(row.stopName, ""), row.stopLat, row.stopLon, row.stopCode)
  }

  /** The stops table: one entry per distinct `stop_id`. */
  function StopsJson(rows: seq<StopRow>): (stops: map<string, Stop>)
    ensures stops.Keys == KeySet(rows, StopRowId)
  {
    IndexBy(rows, StopRowId, StopOf)
  }

  /** A stop id repeated in stops.txt keeps its last row. */
  lemma StopsJsonLastWins(rows: seq<StopRow>, i: nat)
    requires i < |rows|
    requires forall j :: i < j < |rows| ==> rows[j].stopId != rows[i].stopId
    ensures rows[i].stopId in StopsJson(rows)
    ensures StopsJson(rows)[rows[i].stopId] == StopOf(rows[i])
  {
    IndexByLastWins(rows, StopRowId, StopOf, i);
  }

  /** Every stop record carries the id it is filed under, which is what the
      map script relies on when it files markers by `stop_id`. */
  lemma StopsKeyedByOwnId(rows: seq<StopRow>)
    ensures forall k :: k in StopsJson(rows) ==> StopsJson(rows)[k].stopId == k
  {
    forall k | k in StopsJson(rows) ensures StopsJson(rows)[k].stopId == k {
      IndexByFrom(rows, StopRowId, StopOf, k);
    }
  }

  // --------------------------------------------------------------- routes

  /** A routes.txt row; every column but `route_id` may be missing. */
  datatype RouteRow = RouteRow(
    routeId: string,
    shortName: Option<string>,
    longName: Option<string>,
    agencyId: Option<string>,
    color: Option<string>,
    textColor: Option<string>)

  function RouteRowId(row: RouteRow): string { row.routeId }

  function RouteOf(row: RouteRow): Route {
    Route(GetOr(row.shortName, ""), GetOr(row.longName, ""), GetOr(row.agencyId, ""),
          GetOr(row.color, ""), GetOr(row.textColor, ""))
  }

  /** The routes table: one entry per distinct `route_id`. */
  function RoutesJson(rows: seq<RouteRow>): (routes: map<string, Route>)
    ensures routes.Keys == KeySet(rows, RouteRowId)
  {
    IndexBy(rows, RouteRowId, RouteOf)
  }

  /** A route's record is its last row, with "" for each missing column. */
  lemma RoutesJsonLastWins(rows: seq<RouteRow>, i: nat)
    requires i < |rows|
    requires forall j :: i < j < |rows| ==> rows[j].routeId != rows[i].routeId
    ensures rows[i].routeId in RoutesJson(rows)
    ensures var r := RoutesJson(rows)[rows[i].routeId];
      && (rows[i].color.None? ==> r.color == "")
      && (rows[i].color.Some? ==> r.color == rows[i].color.value)
      && (rows[i].textColor.None? ==> r.textColor == "")
      && (rows[i].shortName.None? ==> r.shortName == "")
      && r == RouteOf(rows[i])
  {
    IndexByLastWins(rows, RouteRowId, RouteOf, i);
  }

  // ------------------------------------------------------- timetable info

  /** A timetables.txt row, its day columns read as integers. */
  datatype TimetableRow = TimetableRow(
    timetableId: string,
    startDate: string,
    endDate: string,
    monday: int, tuesday: int, wednesday: int, thursday: int, friday: int, saturday: int, sunday: int,
    startTime: string,
    endTime: string,
    directionId: string,
    routeId: string)

  datatype TimetableInfo = TimetableInfo(
    startDate: string,
    endDate: string,
    days: map<string, int>,
    startTime: string,
    endTime: string,
    directionId: string,
    routeId: string)

  function TimetableRowId(row: TimetableRow): string { row.timetableId }

  function TimetableInfoOf(row: TimetableRow): TimetableInfo {
    TimetableInfo(row.startDate, row.endDate,
      map["mon" := row.monday, "tue" := row.tuesday, "wed" := row.wednesday, "thu" := row.thursday,
          "fri" := row.friday, "sat" := row.saturday, "sun" := row.sunday],
      row.startTime, row.endTime, row.directionId, row.routeId)
  }

  /** `timetable_id` -> info, one entry per distinct id. */
  function TimetableInfoTable(rows: seq<TimetableRow>): (info: map<string, TimetableInfo>)
    ensures info.Keys == KeySet(rows, TimetableRowId)
  {
    IndexBy(rows, TimetableRowId, TimetableInfoOf)
  }

  // ---------------------------------------------------------------- trips

  /** A trips.txt row; `shape_id`, `direction_id` and `timetable_id` may be
      missing. */
  datatype TripRow = TripRow(
    tripId: string,
    routeId: string,
    serviceId: string,
    shapeId: Option<string>,
    directionId: Option<string>,
    timetableId: Option<string>)

  /** A stop_times.txt row, `stop_sequence` read as an integer. */
  datatype StopTimeRow = StopTimeRow(tripId: string, stopId: string, stopSequence: int)

  function TripRowId(row: TripRow): string { row.tripId }

  function StopTimeTripId(row: StopTimeRow): string { row.tripId }

  /** The `(stop_sequence, stop_id)` pair collected per trip. */
  function StopTimeEntry(row: StopTimeRow): Keyed<string> { Keyed(row.stopSequence, row.stopId) }

  /** `stops_by_trip[tripId]` as it stands after the stop_times loop. */
  function StopTimesOf(stopTimes: seq<StopTimeRow>, tripId: string): seq<Keyed<string>> {
    Collect(stopTimes, StopTimeTripId, StopTimeEntry, tripId)
  }

  /** A trip's stop ids, sorted by `stop_sequence`; [] for a trip without
      stop_times rows. */
  function TripStops(stopTimes: seq<StopTimeRow>, tripId: string): seq<string> {
    SortedValues(StopTimesOf(stopTimes, tripId))
  }

  /** `timetable_info.get(t.get("timetable_id"), {}).get("start_time", None)`
      and the same for `end_time`: null unless the trip names a timetable
      that exists. */
  function TimetableStart(info: map<string, TimetableInfo>, timetableId: Option<string>): Option<string> {
    if timetableId.Some? && timetableId.value in info then Some(info[timetableId.value].startTime) else None
  }

  function TimetableEnd(info: map<string, TimetableInfo>, timetableId: Option<string>): Option<string> {
    if timetableId.Some? && timetableId.value in info then Some(info[timetableId.value].endTime) else None
  }

  /** The record written for one trips.txt row: one stop per stop_times row
      of the trip, and a start and an end time together or neither, present
      exactly when the row names a timetable that exists. */
  function TripOf(row: TripRow, stopTimes: seq<StopTimeRow>, info: map<string, TimetableInfo>): (t: Trip)
    ensures |t.stops| == |StopTimesOf(stopTimes, row.tripId)|
    ensures t.startTime.Some? <==> t.endTime.Some?
    ensures t.startTime.Some? <==> row.timetableId.Some? && row.timetableId.value in info
  {
    TripStopsOrdered(stopTimes, row.tripId);
    Trip(row.routeId, row.serviceId, GetOr(row.shapeId, ""), GetOr(row.directionId, ""),
         TripStops(stopTimes, row.tripId),
         TimetableStart(info, row.timetableId), TimetableEnd(info, row.timetableId))
  }

  /** The trips table after the first `|trips|` rows of the loop. */
  function TripsJson(trips: seq<TripRow>, stopTimes: seq<StopTimeRow>, info: map<string, TimetableInfo>): (table: map<string, Trip>)
    ensures table.Keys == KeySet(trips, TripRowId)
  {
    if trips == [] then map[]
    else
      KeySetSnoc(trips, TripRowId);
      var last := trips[|trips| - 1];
      TripsJson(trips[..|trips| - 1], stopTimes, info)[last.tripId := TripOf(last, stopTimes, info)]
  }

  /** A trip id repeated in trips.txt keeps the record of its last row. */
  lemma {:induction false} TripsJsonLastWins(trips: seq<TripRow>, stopTimes: seq<StopTimeRow>, info: map<string, TimetableInfo>, i: nat)
    requires i < |trips|
    requires forall j :: i < j < |trips| ==> trips[j].tripId != trips[i].tripId
    ensures trips[i].tripId in TripsJson(trips, stopTimes, info)
    ensures TripsJson(trips, stopTimes, info)[trips[i].tripId] == TripOf(trips[i], stopTimes, info)
  {
    if i < |trips| - 1 {
      TripsJsonLastWins(trips[..|trips| - 1], stopTimes, info, i);
    }
  }

  /** A trip's stops: exactly the `stop_id`s of its stop_times rows, one per
      row, ordered by `stop_sequence`, rows with equal sequence numbers in
      file order; no rows gives no stops. */
  lemma TripStopsOrdered(stopTimes: seq<StopTimeRow>, tripId: string)
    ensures var sorted := SortByKey(StopTimesOf(stopTimes, tripId));
      && TripStops(stopTimes, tripId) == Values(sorted)
      && SortedByKey(sorted)
      && multiset(sorted) == multiset(StopTimesOf(stopTimes, tripId))
      && (forall k :: WithKey(sorted, k) == WithKey(StopTimesOf(stopTimes, tripId), k))
    ensures |TripStops(stopTimes, tripId)| == |StopTimesOf(stopTimes, tripId)|
    ensures (forall i :: 0 <= i < |stopTimes| ==> stopTimes[i].tripId != tripId) ==> TripStops(stopTimes, tripId) == []
  {
    var rows := StopTimesOf(stopTimes, tripId);
    forall k ensures WithKey(SortByKey(rows), k) == WithKey(rows, k) {
      SortByKeyStable(rows, k);
    }
    assert |SortByKey(rows)| == |multiset(rows)|;
    if forall i :: 0 <= i < |stopTimes| ==> stopTimes[i].tripId != tripId {
      assert tripId !in KeySet(stopTimes, StopTimeTripId);
    }
  }

  /** A trip lists a stop exactly when one of its stop_times rows names it. */
  lemma TripStopsAreRows(stopTimes: seq<StopTimeRow>, tripId: string)
    ensures forall s :: s in TripStops(stopTimes, tripId) <==>
      exists i :: 0 <= i < |stopTimes| && stopTimes[i].tripId == tripId && stopTimes[i].stopId == s
  {
    forall s | s in TripStops(stopTimes, tripId)
      ensures exists i :: 0 <= i < |stopTimes| && stopTimes[i].tripId == tripId && stopTimes[i].stopId == s
    {
      var j :| 0 <= j < |TripStops(stopTimes, tripId)| && TripStops(stopTimes, tripId)[j] == s;
      TripStopFromRow(stopTimes, tripId, j);
    }
    forall i | 0 <= i < |stopTimes| && stopTimes[i].tripId == tripId
      ensures stopTimes[i].stopId in TripStops(stopTimes, tripId)
    {
      RowGivesTripStop(stopTimes, tripId, i);
    }
  }

  lemma TripStopFromRow(stopTimes: seq<StopTimeRow>, tripId: string, j: nat)
    requires j < |TripStops(stopTimes, tripId)|
    ensures exists i :: 0 <= i < |stopTimes| && stopTimes[i].tripId == tripId && stopTimes[i].stopId == TripStops(stopTimes, tripId)[j]
  {
    var rows := StopTimesOf(stopTimes, tripId);
    var sorted := SortByKey(rows);
    assert sorted[j] in multiset(rows);
    assert sorted[j] in Collect(stopTimes, StopTimeTripId, StopTimeEntry, tripId);
    CollectMembers(stopTimes, StopTimeTripId, StopTimeEntry, tripId);
    var i :| 0 <= i < |stopTimes| && StopTimeTripId(stopTimes[i]) == tripId && StopTimeEntry(stopTimes[i]) == sorted[j];
  }

  lemma RowGivesTripStop(stopTimes: seq<StopTimeRow>, tripId: string, i: nat)
    requires i < |stopTimes| && stopTimes[i].tripId == tripId
    ensures stopTimes[i].stopId in TripStops(stopTimes, tripId)
  {
    var sorted := SortByKey(StopTimesOf(stopTimes, tripId));
    CollectMembers(stopTimes, StopTimeTripId, StopTimeEntry, tripId);
    assert StopTimeEntry(stopTimes[i]) in Collect(stopTimes, StopTimeTripId, StopTimeEntry, tripId);
    assert StopTimeEntry(stopTimes[i]) in multiset(sorted);
    var j :| 0 <= j < |sorted| && sorted[j] == StopTimeEntry(stopTimes[i]);
    assert TripStops(stopTimes, tripId)[j] == stopTimes[i].stopId;
  }

  /** The trip times come from the trip's timetable when it names one that
      exists, and are null otherwise; absent shape and direction are "". */
  lemma TripTimesFromTimetable(row: TripRow, stopTimes: seq<StopTimeRow>, timetables: seq<TimetableRow>, i: nat)
    requires i < |timetables|
    requires row.timetableId == Some(timetables[i].timetableId)
    requires forall j :: i < j < |timetables| ==> timetables[j].timetableId != timetables[i].timetableId
    ensures TripOf(row, stopTimes, TimetableInfoTable(timetables)).startTime == Some(timetables[i].startTime)
    ensures TripOf(row, stopTimes, TimetableInfoTable(timetables)).endTime == Some(timetables[i].endTime)
  {
    IndexByLastWins(timetables, TimetableRowId, TimetableInfoOf, i);
  }

  lemma TripWithoutTimetable(row: TripRow, stopTimes: seq<StopTimeRow>, timetables: seq<TimetableRow>)
    requires row.timetableId.None? || row.timetableId.value !in KeySet(timetables, TimetableRowId)
    ensures TripOf(row, stopTimes, TimetableInfoTable(timetables)).startTime == None
    ensures TripOf(row, stopTimes, TimetableInfoTable(timetables)).endTime == None
    ensures row.shapeId.None? ==> TripOf(row, stopTimes, TimetableInfoTable(timetables)).shapeId == ""
    ensures row.directionId.None? ==> TripOf(row, stopTimes, TimetableInfoTable(timetables)).directionId == ""
  {
  }

  lemma TripsJsonStep(trips: seq<TripRow>, stopTimes: seq<StopTimeRow>, info: map<string, TimetableInfo>, i: nat)
    requires i < |trips|
    ensures TripsJson(trips[..i + 1], stopTimes, info) == TripsJson(trips[..i], stopTimes, info)[trips[i].tripId := TripOf(trips[i], stopTimes, info)]
  {
    assert trips[..i + 1][..i] == trips[..i];
  }

  /** The stop_times loop, then the trips loop: each trip row stores its
      record, its stops sorted from `stops_by_trip.get(tid, [])`. */
  method BuildTrips(trips: seq<TripRow>, stopTimes: seq<StopTimeRow>, info: map<string, TimetableInfo>) returns (tripsJson: map<string, Trip>)
    ensures tripsJson == TripsJson(trips, stopTimes, info)
  {
    var stopsByTrip := GroupAppend(stopTimes, StopTimeTripId, StopTimeEntry);
    tripsJson := map[];
    for i := 0 to |trips|
      invariant tripsJson == TripsJson(trips[..i], stopTimes, info)
    {
      var t := trips[i];
      var pairs := Lookup(stopsByTrip, t.tripId);
      LookupGroups(stopTimes, StopTimeTripId, StopTimeEntry, t.tripId);
      var startTime := None;
      var endTime := None;
      if t.timetableId.Some? && t.timetableId.value in info {
        startTime := Some(info[t.timetableId.value].startTime);
        endTime := Some(info[t.timetableId.value].endTime);
      }
      var record := Trip(
        t.routeId, t.serviceId, GetOr(t.shapeId, ""), GetOr(t.directionId, ""),
        SortedValues(pairs), startTime, endTime);
      assert record == TripOf(t, stopTimes, info);
      TripsJsonStep(trips, stopTimes, info, i);
      tripsJson := tripsJson[t.tripId := record];
    }
    assert trips[..|trips|] == trips;
  }
}
