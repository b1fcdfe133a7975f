/** The records of the exported data set (stops, routes, trips, services,
    shapes) as the map script reads them, the GTFS CSV rows the converters
    read, and the two tables both converters build the same way: the
    services (calendar.txt merged with calendar_dates.txt) and the sorted
    shapes. */
module Gtfs {
  import opened Tables

  datatype Option<T> = None | Some(value: T)

  /** One entry of a service's `dates`; `exception_type` 1 adds service on
      `date`, any other value removes it. */
  datatype CalendarException = CalendarException(date: string, exceptionType: int)

  /** A service record. `days` maps "mon" .. "sun" to the calendar flag; a
      service known only from calendar_dates.txt has no day entries and null
      (`None`) dates. `startTime`/`endTime` are read by the map script; the
      converters never write them. */
  datatype Service = Service(
    days: map<string, int>,
    startDate: Option<string>,
    endDate: Option<string>,
    dates: seq<CalendarException>,
    startTime: Option<string>,
    endTime: Option<string>)

  /** A coordinate pair, kept as the text the CSV holds. */
  datatype LatLon = LatLon(lat: string, lon: string)

  /** A trip record; `directionId` and `shapeId` are "" when the feed has
      none, and `stops` is [] for a record without a stop list, which
      `stops?.includes` treats as calling nowhere. */
  datatype Trip = Trip(
    routeId: string,
    serviceId: string,
    shapeId: string,
    directionId: string,
    stops: seq<string>,
    startTime: Option<string>,
    endTime: Option<string>)

  /** One `[tripId, trip]` pair of `Object.entries(trips)`. */
  datatype TripEntry = TripEntry(tripId: string, trip: Trip)

  datatype Stop = Stop(stopId: string, stopName: string, stopLat: string, stopLon: string, stopCode: Option<string>)

  datatype Route = Route(shortName: string, longName: string, agencyId: string, color: string, textColor: string)

  /** The five loaded resources; the trips in their iteration order. */
  datatype GtfsData = GtfsData(
    stops: map<string, Stop>,
    routes: map<string, Route>,
    trips: seq<TripEntry>,
    services: map<string, Service>,
    shapes: map<string, seq<LatLon>>)

  /** A calendar.txt row, its day columns already read as integers. */
  datatype CalendarRow = CalendarRow(
    serviceId: string,
    monday: int, tuesday: int, wednesday: int, thursday: int, friday: int, saturday: int, sunday: int,
    startDate: string,
    endDate: string)

  datatype CalendarDateRow = CalendarDateRow(serviceId: string, date: string, exceptionType: int)

  datatype ShapeRow = ShapeRow(shapeId: string, lat: string, lon: string, sequence: int)

  function CalendarServiceId(row: CalendarRow): string { row.serviceId }

  function DateServiceId(row: CalendarDateRow): string { row.serviceId }

  function ServiceFromCalendar(row: CalendarRow): Service {
    Service(
      map["mon" := row.monday, "tue" := row.tuesday, "wed" := row.wednesday, "thu" := row.thursday,
          "fri" := row.friday, "sat" := row.saturday, "sun" := row.sunday],
      Some(row.startDate), Some(row.endDate), [], None, None)
  }

  function ExceptionOf(row: CalendarDateRow): CalendarException {
    CalendarException(row.date, row.exceptionType)
  }

  /** What a service first seen in calendar_dates.txt starts as. */
  const EmptyService: Service := Service(map[], None, None, [], None, None)

  function ServiceOr(m: map<string, Service>, sid: string): Service {
    if sid in m then m[sid] else EmptyService
  }

  /** The calendar_dates.txt loop: each row's exception appended to its
      service, which is created empty when unseen. The services are those
      of `base` and those the rows name; a service no row names is left as
      it was. */
  function AddExceptions(base: map<string, Service>, rows: seq<CalendarDateRow>): (services: map<string, Service>)
    ensures services.Keys == base.Keys + KeySet(rows, DateServiceId)
    ensures forall sid :: sid in base && sid !in KeySet(rows, DateServiceId) ==> services[sid] == base[sid]
  {
    if rows == [] then base
    else
      KeySetSnoc(rows, DateServiceId);
      var m := AddExceptions(base, rows[..|rows| - 1]);
      var row := rows[|rows| - 1];
      var s := ServiceOr(m, row.serviceId);
      m[row.serviceId := s.(dates := s.dates + [ExceptionOf(row)])]
  }

  /** The services both converters write: calendar.txt rows first (a later
      row for the same service replacing an earlier one), then the
      calendar_dates.txt exceptions. */
  function MergedServices(calendar: seq<CalendarRow>, calendarDates: seq<CalendarDateRow>): (services: map<string, Service>)
    ensures services.Keys == KeySet(calendar, CalendarServiceId) + KeySet(calendarDates, DateServiceId)
  {
    AddExceptions(IndexBy(calendar, CalendarServiceId, ServiceFromCalendar), calendarDates)
  }

  lemma {:induction false} AddExceptionsAt(base: map<string, Service>, rows: seq<CalendarDateRow>, sid: string)
    ensures sid in AddExceptions(base, rows) <==> sid in base || sid in KeySet(rows, DateServiceId)
    ensures sid in AddExceptions(base, rows) ==>
      AddExceptions(base, rows)[sid] ==
        ServiceOr(base, sid).(dates := ServiceOr(base, sid).dates + Collect(rows, DateServiceId, ExceptionOf, sid))
  {
    if rows != [] {
      var pre, row := rows[..|rows| - 1], rows[|rows| - 1];
      AddExceptionsAt(base, pre, sid);
      var m := AddExceptions(base, pre);
      var before := ServiceOr(m, row.serviceId);
      var prior := Collect(pre, DateServiceId, ExceptionOf, sid);
      assert AddExceptions(base, rows) == m[row.serviceId := before.(dates := before.dates + [ExceptionOf(row)])];
      if row.serviceId == sid {
        assert Collect(rows, DateServiceId, ExceptionOf, sid) == prior + [ExceptionOf(row)];
        assert ServiceOr(base, sid).dates + prior + [ExceptionOf(row)] == ServiceOr(base, sid).dates + (prior + [ExceptionOf(row)]);
      } else {
        assert Collect(rows, DateServiceId, ExceptionOf, sid) == prior;
      }
    }
  }

  /** A service is in the merged table iff some calendar or calendar_dates
      row names it; its days and date range come from calendar.txt (or are
      empty and null), and its `dates` are exactly the exceptions of its
      calendar_dates.txt rows, in file order. */
  lemma MergedServiceAt(calendar: seq<CalendarRow>, calendarDates: seq<CalendarDateRow>, sid: string)
    ensures sid in MergedServices(calendar, calendarDates)
      <==> sid in KeySet(calendar, CalendarServiceId) || sid in KeySet(calendarDates, DateServiceId)
    ensures sid in MergedServices(calendar, calendarDates) ==>
      MergedServices(calendar, calendarDates)[sid] ==
        ServiceOr(IndexBy(calendar, CalendarServiceId, ServiceFromCalendar), sid)
          .(dates := Collect(calendarDates, DateServiceId, ExceptionOf, sid))
  {
    var base := IndexBy(calendar, CalendarServiceId, ServiceFromCalendar);
    AddExceptionsAt(base, calendarDates, sid);
    if sid in base {
      IndexByFrom(calendar, CalendarServiceId, ServiceFromCalendar, sid);
    }
    assert ServiceOr(base, sid).dates == [];
  }

  /** The last calendar.txt row of a service gives its seven day flags and
      its date range. */
  lemma MergedServiceFromCalendar(calendar: seq<CalendarRow>, calendarDates: seq<CalendarDateRow>, i: nat)
    requires i < |calendar|
    requires forall j :: i < j < |calendar| ==> calendar[j].serviceId != calendar[i].serviceId
    ensures calendar[i].serviceId in MergedServices(calendar, calendarDates)
    ensures MergedServices(calendar, calendarDates)[calendar[i].serviceId] ==
      ServiceFromCalendar(calendar[i]).(dates := Collect(calendarDates, DateServiceId, ExceptionOf, calendar[i].serviceId))
  {
    IndexByLastWins(calendar, CalendarServiceId, ServiceFromCalendar, i);
    MergedServiceAt(calendar, calendarDates, calendar[i].serviceId);
  }

  /** A service named only in calendar_dates.txt has no day flags, null
      dates, and its exceptions (at least one) in file order. */
  lemma MergedServiceFromDatesOnly(calendar: seq<CalendarRow>, calendarDates: seq<CalendarDateRow>, sid: string)
    requires sid !in KeySet(calendar, CalendarServiceId)
    requires sid in KeySet(calendarDates, DateServiceId)
    ensures sid in MergedServices(calendar, calendarDates)
    ensures MergedServices(calendar, calendarDates)[sid] ==
      EmptyService.(dates := Collect(calendarDates, DateServiceId, ExceptionOf, sid))
    ensures MergedServices(calendar, calendarDates)[sid].dates != []
  {
    MergedServiceAt(calendar, calendarDates, sid);
  }

  /** One more calendar.txt row stores its service under its id. */
  lemma CalendarStep(calendar: seq<CalendarRow>, i: nat)
    requires i < |calendar|
    ensures IndexBy(calendar[..i + 1], CalendarServiceId, ServiceFromCalendar) ==
      IndexBy(calendar[..i], CalendarServiceId, ServiceFromCalendar)[calendar[i].serviceId := ServiceFromCalendar(calendar[i])]
  {
    assert calendar[..i + 1][..i] == calendar[..i];
  }

  /** One more calendar_dates.txt row appends its exception to its service. */
  lemma AddExceptionsStep(base: map<string, Service>, rows: seq<CalendarDateRow>, i: nat)
    requires i < |rows|
    ensures AddExceptions(base, rows[..i + 1]) ==
      var m := AddExceptions(base, rows[..i]);
      var s := ServiceOr(m, rows[i].serviceId);
      m[rows[i].serviceId := s.(dates := s.dates + [ExceptionOf(rows[i])])]
  {
    assert rows[..i + 1][..i] == rows[..i];
  }

  /** The services loop of both converters: each calendar.txt row stores
      a fresh service under its id; then each calendar_dates.txt row appends
      its exception to its service, creating an empty one first when the id
      is unseen (`if sid not in ...` in one converter, `setdefault` in the
      other). */
  method BuildServices(calendar: seq<CalendarRow>, calendarDates: seq<CalendarDateRow>) returns (services: map<string, Service>)
    ensures services == MergedServices(calendar, calendarDates)
  {
    services := map[];
    for i := 0 to |calendar|
      invariant services == IndexBy(calendar[..i], CalendarServiceId, ServiceFromCalendar)
    {
      var row := calendar[i];
      services := services[row.serviceId := Service(
        map["mon" := row.monday, "tue" := row.tuesday, "wed" := row.wednesday, "thu" := row.thursday,
            "fri" := row.friday, "sat" := row.saturday, "sun" := row.sunday],
        Some(row.startDate), Some(row.endDate), [], None, None)];
      CalendarStep(calendar, i);
    }
    assert calendar[..|calendar|] == calendar;
    ghost var base := services;
    for i := 0 to |calendarDates|
      invariant services == AddExceptions(base, calendarDates[..i])
    {
      var row := calendarDates[i];
      if row.serviceId !in services {
        services := services[row.serviceId := Service(map[], None, None, [], None, None)];
      }
      var service := services[row.serviceId];
      services := services[row.serviceId := service.(dates := service.dates + [CalendarException(row.date, row.exceptionType)])];
      AddExceptionsStep(base, calendarDates, i);
    }
    assert calendarDates[..|calendarDates|] == calendarDates;
  }

  function ShapeIdOf(row: ShapeRow): string { row.shapeId }

  function ShapePoint(row: ShapeRow): Keyed<LatLon> { Keyed(row.sequence, LatLon(row.lat, row.lon)) }

  /** `(shape_pt_sequence, [lat, lon])` of the rows of shape `sid`, in file order. */
  function ShapeRowsOf(rows: seq<ShapeRow>, sid: string): seq<Keyed<LatLon>> {
    Collect(rows, ShapeIdOf, ShapePoint, sid)
  }

  /** The points a converter writes for shape `sid`, sorted by sequence
      number. */
  function ShapePoints(rows: seq<ShapeRow>, sid: string): seq<LatLon> {
    SortedValues(ShapeRowsOf(rows, sid))
  }

  /** Each shape's coordinate list is its rows' points ordered by ascending
      sequence number, a permutation of those rows, ties kept in file order. */
  lemma ShapePointsOrdered(rows: seq<ShapeRow>, sid: string)
    ensures ShapePoints(rows, sid) == Values(SortByKey(ShapeRowsOf(rows, sid)))
    ensures SortedByKey(SortByKey(ShapeRowsOf(rows, sid)))
    ensures multiset(SortByKey(ShapeRowsOf(rows, sid))) == multiset(ShapeRowsOf(rows, sid))
    ensures forall k :: WithKey(SortByKey(ShapeRowsOf(rows, sid)), k) == WithKey(ShapeRowsOf(rows, sid), k)
  {
    forall k ensures WithKey(SortByKey(ShapeRowsOf(rows, sid)), k) == WithKey(ShapeRowsOf(rows, sid), k) {
      SortByKeyStable(ShapeRowsOf(rows, sid), k);
    }
  }

  /** The shapes code of both converters: the `defaultdict(list)` of
      `(shape_pt_sequence, [lat, lon])` pairs per shape, then per shape the
      points of those pairs sorted by sequence number. */
  method BuildShapes(rows: seq<ShapeRow>) returns (shapes: map<string, seq<LatLon>>)
    ensures forall sid :: sid in shapes <==> sid in KeySet(rows, ShapeIdOf)
    ensures forall sid :: sid in shapes ==> shapes[sid] == ShapePoints(rows, sid)
  {
    var groups := GroupAppend(rows, ShapeIdOf, ShapePoint);
    shapes := map sid | sid in groups :: SortedValues(groups[sid]);
    GroupsAreCollections(rows, ShapeIdOf, ShapePoint);
  }

  /** Each shape's points are exactly the points of the rows with its id,
      one per row. */
  lemma ShapePointsAreRows(rows: seq<ShapeRow>, sid: string)
    ensures |ShapePoints(rows, sid)| == |ShapeRowsOf(rows, sid)|
    ensures forall p :: p in ShapePoints(rows, sid) <==>
      exists i :: 0 <= i < |rows| && rows[i].shapeId == sid && rows[i].lat == p.lat && rows[i].lon == p.lon
  {
    assert |SortByKey(ShapeRowsOf(rows, sid))| == |multiset(ShapeRowsOf(rows, sid))|;
    forall p | p in ShapePoints(rows, sid)
      ensures exists i :: 0 <= i < |rows| && rows[i].shapeId == sid && rows[i].lat == p.lat && rows[i].lon == p.lon
    {
      var j :| 0 <= j < |ShapePoints(rows, sid)| && ShapePoints(rows, sid)[j] == p;
      ShapePointFromRow(rows, sid, j);
    }
    forall i | 0 <= i < |rows| && rows[i].shapeId == sid
      ensures LatLon(rows[i].lat, rows[i].lon) in ShapePoints(rows, sid)
    {
      RowGivesShapePoint(rows, sid, i);
    }
  }

  lemma ShapePointFromRow(rows: seq<ShapeRow>, sid: string, j: nat)
    requires j < |ShapePoints(rows, sid)|
    ensures exists i :: 0 <= i < |rows| && rows[i].shapeId == sid && LatLon(rows[i].lat, rows[i].lon) == ShapePoints(rows, sid)[j]
  {
    var sorted := SortByKey(ShapeRowsOf(rows, sid));
    assert sorted[j] in multiset(ShapeRowsOf(rows, sid));
    assert sorted[j] in Collect(rows, ShapeIdOf, ShapePoint, sid);
    CollectMembers(rows, ShapeIdOf, ShapePoint, sid);
    var i :| 0 <= i < |rows| && ShapeIdOf(rows[i]) == sid && ShapePoint(rows[i]) == sorted[j];
  }

  lemma RowGivesShapePoint(rows: seq<ShapeRow>, sid: string, i: nat)
    requires i < |rows| && rows[i].shapeId == sid
    ensures LatLon(rows[i].lat, rows[i].lon) in ShapePoints(rows, sid)
  {
    var sorted := SortByKey(ShapeRowsOf(rows, sid));
    CollectMembers(rows, ShapeIdOf, ShapePoint, sid);
    assert ShapePoint(rows[i]) in Collect(rows, ShapeIdOf, ShapePoint, sid);
    assert ShapePoint(rows[i]) in multiset(sorted);
    var j :| 0 <= j < |sorted| && sorted[j] == ShapePoint(rows[i]);
    assert ShapePoints(rows, sid)[j] == LatLon(rows[i].lat, rows[i].lon);
  }
}
