# GTFS transit map: trip activity, route focus and the GTFS converters

This project models the core of a small public-transport web map. Two
Python converters turn GTFS text tables into JSON:

- `converter-txt-json.py` writes stops, routes, services, shapes and trips.
- `gtt_gtfs/converter-txt-json.py` writes routes with their trip lists,
  trips, calendar and shapes.

A browser script (`script.js`) loads those tables. It decides which trips
run at a stop or on a route for a chosen date and time, and builds a
stop's popup of running lines. When the user focuses on one line, it draws
one polyline per direction, shows only that line's stops and colours them
by the directions serving them. Closing the line restores the map.

The modules:

- `Text` (text.dfy): what JavaScript does with the digit strings and
  clock times it meets. String `<` is lexicographic, `Number` of a digit
  string is its decimal value, and `split(":")` gives the fields.
- `Tables` (tables.dfy): the three ways the converters build tables.
  - A dictionary filled row by row: the last row for a key wins.
  - A `defaultdict(list)`: one list per key, in file order.
  - Python's stable `sorted(..., key=...)` on (sequence number, value)
    pairs.
- `Gtfs` (gtfs.dfy): the JSON entities (service, trip, stop, route,
  shapes), the merge of calendar.txt and calendar_dates.txt into services,
  and the shapes table. Both converters share these.
- `TxtConverter` (txt_converter.dfy) and `GttConverter`
  (gtt_converter.dfy): the rest of each converter.
- `Calendar` (calendar.dfy): `TripValidator`, including the weekday
  computation of JavaScript's `Date`.
- `Schedule` (schedule.dfy):
  - the trip filters for a stop and for a route;
  - the grouping of a route's trips into one exemplar per direction;
  - the order of a popup's route list;
  - the popup's radio-button selection.
- `RouteFocus` (route_focus.dfy): `TransitMapState` and the marker and
  cluster objects as classes whose fields the methods update. It also
  holds `createStopMarkers`, `showRoute`, `drawRouteShape`,
  `updateVisibleStops`, `updateMarkerColor` and `closeLine`.

Three behaviours of the code are easy to misread, and the model keeps
each one as written:

- **Calendar exceptions do not override the weekday.** `isTripActive`
  consults them only after the date-range and weekday checks. An
  "added" exception therefore cannot make a service run on a day whose
  flag is 0, or outside its range (`Calendar.RejectedBeforeExceptions`).
- **A service known only from calendar_dates.txt never runs.** The
  converters give such a service null start and end dates. JavaScript
  compares `date > null` as `Number(date) > 0`, so every real date falls
  after its end (`Calendar.DatesOnlyServiceNeverActive`). The model keeps
  that behaviour. It does not assume the dates are present.
- **Only the first route of a popup is ever checked.** `buildPopupHTML`
  computes `isCurrent` for each route and uses it twice: in
  `checked = isCurrent || isFirst`, so the route currently shown for this
  stop is checked, and in `if (isFirst && !isCurrent)`, so an already-shown
  first route is not shown again (script.js:319-331). Yet the first route,
  when not current, is shown at once, and that makes it the current route
  before the later routes are compared. The route shown before is then
  neither checked nor kept (see Findings).

## Model

| member | source | states |
|---|---|---|
| Text.LexLess | script.js:209 | string `<` is strict: it never holds between equal strings, nothing is below "", and "" is below every non-empty string |
| Text.Split | script.js:247-251 | `split(":")` gives at least one field, and no field contains a colon |
| Text.SplitCount | script.js:247-251 | `split(":")` gives one more field than the string has colons |
| Text.LexLessIsNumericLess | script.js:209 | for digit strings of one length, JavaScript's string `<` holds exactly when the numeric value is smaller |
| Text.SplitField | script.js:247 | `split(":")` of `a + ":" + b`, where `a` has no colon, is `a` followed by the fields of `b` |
| Text.SplitNoColon | script.js:251 | a string with no colon splits into itself alone |
| Text.DigitsValue | script.js:247-252 | `Number` of an n-digit string is below 10^n |
| Tables.IndexBy | converter-txt-json.py:28-37 | a comprehension keyed by a column has exactly the keys the rows carry |
| Tables.IndexByLastWins | converter-txt-json.py:59-73 | the entry for a key is built from the last row carrying that key |
| Tables.IndexByFrom | converter-txt-json.py:28-37 | every entry is built from some row carrying its key |
| Tables.Collect | converter-txt-json.py:119-121 | a key's list is non-empty exactly when some row carries the key, and is no longer than the rows |
| Tables.CollectMembers | converter-txt-json.py:119-121 | a value is in a key's list exactly when some row with that key gives it |
| Tables.CollectAppend | gtt_gtfs/converter-txt-json.py:27-28 | the lists keep file order: rows appended later come after earlier ones |
| Tables.GroupsAreCollections | converter-txt-json.py:87-90 | the `defaultdict(list)` has one list per key seen, holding that key's row values in row order |
| Tables.LookupGroups | gtt_gtfs/converter-txt-json.py:39 | `.get(k, [])` on the grouped lists gives k's row values, and `[]` for a key no row carries |
| Tables.GroupAppend | converter-txt-json.py:119-121 | the append loop produces exactly the grouped table |
| Tables.SortByKey | converter-txt-json.py:91 | `sorted(key=sequence number)` is ordered by sequence number and is a permutation of its input |
| Tables.SortByKeyStable | converter-txt-json.py:131 | the sort is stable: pairs with equal sequence numbers keep their input order |
| Tables.Insert | converter-txt-json.py:91 | one insertion step adds exactly the new pair |
| Tables.InsertSorted | converter-txt-json.py:91 | inserting into a sorted list keeps it sorted |
| Tables.Values | converter-txt-json.py:91 | `[v for _, v in pairs]` keeps each pair's value at its position |
| Gtfs.BuildServices | converter-txt-json.py:58-81 | the services loop yields the merged services: calendar rows first, then each calendar_dates exception appended to its service, created empty when unseen (gtt_gtfs/converter-txt-json.py:58-88 builds the same table with `setdefault`) |
| Gtfs.AddExceptions | converter-txt-json.py:74-81 | the exceptions loop keeps every existing service, adds exactly the services the rows name, and leaves a service no row names unchanged |
| Gtfs.CalendarStep | converter-txt-json.py:59-73 | one calendar.txt row stores its service under its id, replacing any earlier one |
| Gtfs.AddExceptionsStep | converter-txt-json.py:75-81 | one calendar_dates row appends its exception to its service, which starts empty when unseen |
| Gtfs.MergedServices | converter-txt-json.py:58-81 | the services are exactly those named in calendar.txt or calendar_dates.txt |
| Gtfs.AddExceptionsAt | converter-txt-json.py:74-81 | after the exceptions loop, a service exists exactly when it existed before or some row names it, and its dates are its earlier dates followed by its rows' exceptions in file order |
| Gtfs.MergedServiceAt | converter-txt-json.py:58-81 | a service exists exactly when a calendar or calendar_dates row names it; its `dates` are exactly its exceptions, in file order |
| Gtfs.MergedServiceFromCalendar | converter-txt-json.py:59-73 | the last calendar row of a service gives its day flags and date range |
| Gtfs.MergedServiceFromDatesOnly | gtt_gtfs/converter-txt-json.py:78-88 | a service named only in calendar_dates has no day flags, null dates and at least one exception |
| Gtfs.BuildShapes | converter-txt-json.py:87-91 | the shapes table has one entry per shape id, holding that shape's points sorted by sequence number (gtt_gtfs/converter-txt-json.py:94-107 builds the same table) |
| Gtfs.ShapePointsOrdered | converter-txt-json.py:91 | a shape's sorted pairs are ordered by sequence, are a permutation of its rows' pairs, and keep file order among equal sequence numbers |
| Gtfs.ShapePointsAreRows | gtt_gtfs/converter-txt-json.py:96-107 | a shape has as many points as rows, and a point is in it exactly when some row of that shape has those coordinates |
| TxtConverter.GetOr | converter-txt-json.py:31 | `.get(col, default)` gives the column's value when present and the default otherwise |
| TxtConverter.StopsJson | converter-txt-json.py:28-37 | stops.json has exactly the stop ids of the rows |
| TxtConverter.StopsJsonLastWins | converter-txt-json.py:28-37 | a stop's record comes from its last row |
| TxtConverter.StopsKeyedByOwnId | converter-txt-json.py:29-30 | every stop record carries the id it is stored under |
| TxtConverter.RoutesJson | converter-txt-json.py:43-52 | routes.json has exactly the route ids of the rows |
| TxtConverter.RoutesJsonLastWins | converter-txt-json.py:43-52 | a route's record comes from its last row, and missing columns become "" |
| TxtConverter.TimetableInfoTable | converter-txt-json.py:97-116 | the timetable table has exactly the timetable ids of the rows |
| TxtConverter.TripOf | converter-txt-json.py:125-133 | a trip record has one stop per stop_times row of the trip, and start and end times together or neither, present exactly when the row names a timetable that exists |
| TxtConverter.TripsJson | converter-txt-json.py:123-134 | trips.json has exactly the trip ids of the rows |
| TxtConverter.TripsJsonLastWins | converter-txt-json.py:123-134 | a trip's record is built from its last row |
| TxtConverter.TripStopsOrdered | converter-txt-json.py:119-131 | a trip's stop_times are sorted by stop sequence as a stable permutation; the stop list is as long as those rows and is empty for a trip with none |
| TxtConverter.TripStopsAreRows | converter-txt-json.py:131 | a stop is in a trip's list exactly when some stop_times row of that trip names it |
| TxtConverter.TripTimesFromTimetable | converter-txt-json.py:132-133 | a trip's start and end times are those of the last row of its timetable |
| TxtConverter.TripWithoutTimetable | converter-txt-json.py:129-133 | with no timetable, or an unknown one, the times are null; a missing shape or direction column becomes "" |
| TxtConverter.TripsJsonStep | converter-txt-json.py:124-134 | one loop iteration stores the trip's record under its id over the table so far |
| TxtConverter.BuildTrips | converter-txt-json.py:119-134 | the trips loop yields exactly trips.json |
| GttConverter.RoutesJson | gtt_gtfs/converter-txt-json.py:30-40 | routes.json has exactly the route ids of the rows |
| GttConverter.RoutesJsonLastWins | gtt_gtfs/converter-txt-json.py:30-40 | a route's record comes from its last row and carries the route's trip list |
| GttConverter.RouteTripsAreItsTrips | gtt_gtfs/converter-txt-json.py:25-28 | a trip id is in a route's list exactly when some trip row of that route names it; the list is empty when no trip has that route; lists keep file order |
| GttConverter.RoutesJsonStep | gtt_gtfs/converter-txt-json.py:31-40 | one loop iteration stores the route's record under its id |
| GttConverter.BuildRoutes | gtt_gtfs/converter-txt-json.py:24-40 | the routes loop yields exactly routes.json |
| GttConverter.TripsJson | gtt_gtfs/converter-txt-json.py:46-52 | trips.json has exactly the trip ids of the rows |
| GttConverter.TripsJsonRecords | gtt_gtfs/converter-txt-json.py:46-52 | a trip's record holds its last row's service and shape, and every record is the record of some row with that id |
| Calendar.LeapDay | script.js:231 | a year adds a leap day to the day count exactly when it is a leap year |
| Calendar.MarchDaysIsCalendar | script.js:231 | the March-based day count equals the start of the year plus the days of the months before |
| Calendar.YearLength | script.js:231 | a year has 366 days when it is a leap year and 365 otherwise |
| Calendar.DayNumber | script.js:231 | `new Date(y, m, d)` is day d of month m of the wall calendar, with a month index of 12 or more rolling into later years |
| Calendar.MonthTables | script.js:231 | each month starts where the one before ends, and December ends the year |
| Calendar.MonthLength | script.js:231 | from the first of each month to the first of the next is that month's length, December to January included |
| Calendar.DayOfWeek | script.js:231-232 | `getDay()` is a weekday from 0 to 6 |
| Calendar.WeekdayOf | script.js:231-232 | the weekday of a `YYYYMMDD` date is from 0 to 6 |
| Calendar.FebruaryLength | script.js:231 | the day count follows the Gregorian rule: February has 29 days exactly in leap years |
| Calendar.NextDayNextWeekday | script.js:231-232 | the next day has the next weekday, and the first of the next month (of the next year after December) follows the last day of the month |
| Calendar.LeapCycle | script.js:231 | the leap-year rule repeats every 400 years |
| Calendar.YearStartCycle | script.js:231 | 400 years hold 146097 days |
| Calendar.FourHundredYearCycle | script.js:231-232 | 400 years later is 146097 days later, on the same weekday |
| Calendar.Wednesday20240103 | script.js:230-235 | 3 January 2024 is a Wednesday |
| Calendar.Saturday20240106 | script.js:230-235 | 6 January 2024 is a Saturday |
| Calendar.WeekdayServiceRunsOnWednesday | script.js:204-236 | a weekday service of 2024 runs on Wednesday 3 January 2024 |
| Calendar.WeekdayServiceSkipsSaturday | script.js:204-244 | that service does not run on Saturday 6 January 2024, not even with an added exception for that date |
| Calendar.IsValidWeekday | script.js:230-236 | a day runs only when its name is among the service's day flags; a service with no flags never runs |
| Calendar.BeforeStart | script.js:209 | for a `YYYYMMDD` start date, the date is before the start exactly when it is numerically smaller; a null start date never rejects |
| Calendar.AfterEnd | script.js:209 | for a `YYYYMMDD` end date, the date is after the end exactly when it is numerically larger; a null end date rejects every date above 0 |
| Calendar.DateOrder | script.js:209 | for two `YYYYMMDD` strings the string order is the numeric order |
| Calendar.FirstExceptionAt | script.js:239 | the exception `find` returns is at the first index holding the date |
| Calendar.CheckCalendarExceptions | script.js:238-244 | null exactly when no exception has the date; otherwise true exactly when the first exception for the date has type 1 |
| Calendar.InputSeconds | script.js:247-248 | the selected time counts whole minutes only |
| Calendar.BoundSeconds | script.js:250-253 | a bound counts at least the seconds of its hours and minutes, and exactly those when it has no seconds field |
| Calendar.IsValidTimeRange | script.js:246-258 | a time passes only when the window's start is not after its end; a one-instant window passes exactly its own time |
| Calendar.IsTripActive | script.js:204-228 | an active trip's service exists, its date is in range and its weekday flag is set; a first exception for the date of a type other than 1 makes it inactive |
| Calendar.FirstException | script.js:239 | `find` gives nothing exactly when no exception has the date; otherwise an exception with that date |
| Calendar.FirstExceptionWins | script.js:238-244 | the first exception for the date decides, whatever follows it |
| Calendar.ClockSecondsOfFields | script.js:246-258 | `h:m` and `h:m:s` give h*3600+m*60(+s) as bounds; the selected time counts only hours and minutes |
| Calendar.RangeCheckIsNumeric | script.js:208-210 | for `YYYYMMDD` strings the string range check is the numeric range check |
| Calendar.RejectedBeforeExceptions | script.js:205-216 | an unknown service, a date out of range or a day whose flag is not 1 is inactive, and no exception placed in `dates` changes that |
| Calendar.ExceptionDecides | script.js:218-220 | once range and weekday pass, the first exception for the date decides (type 1 runs), and the time is not consulted |
| Calendar.TimeWindowDecides | script.js:222-227 | with no exception for the date, the trip runs exactly when the time window, if it applies, contains the selected time |
| Calendar.ConvertedServicesIgnoreTime | script.js:222-224 | the converted services have no time window, so the selected time never changes the answer |
| Calendar.DatesOnlyServiceNeverActive | script.js:208-210 | a service built from calendar_dates alone is never active, even on its added dates |
| Schedule.ActiveTripsForStop | script.js:297-301 | the stop filter returns no more trips than it gets, each one of them, calling at the stop, with an active service |
| Schedule.ActiveTripsForStopMembers | script.js:297-301 | a trip entry is listed for a stop exactly when it is one of the trips, calls at the stop and its service is active |
| Schedule.ActiveTripsForStopAppend | script.js:298 | filtering keeps the trips' order: filtering two runs one after the other concatenates their results |
| Schedule.ActiveTripsForRoute | script.js:373-375 | the route filter returns no more trips than it gets, each one of them, on the route, with an active service |
| Schedule.ActiveTripsForRouteMembers | script.js:373-375 | a trip entry is listed for a route exactly when it is one of the trips, belongs to the route and its service is active |
| Schedule.ActiveTripsForRouteAppend | script.js:374 | the route filter keeps the trips' order |
| Schedule.DirectionKey | script.js:380 | every trip gets a non-empty direction key: its own direction when it has one, "0" when its direction is empty |
| Schedule.Exemplars | script.js:377-386 | there is one exemplar per direction key present among the trips |
| Schedule.ExemplarsFirstWins | script.js:379-383 | the exemplar of a direction is its first trip; later trips never replace it |
| Schedule.GroupTripsByDirection | script.js:377-386 | the loop yields exactly the exemplar table |
| Schedule.FirstRouteIndex | script.js:305-311 | the index of a route's first trip, with no earlier trip of that route |
| Schedule.RouteOrder | script.js:304-311 | the popup lists each route of the active trips exactly once, and no other |
| Schedule.RouteOrderByFirstAppearance | script.js:304-311 | routes are listed in the order of their first trip |
| Schedule.RouteOrderStartsWithFirstTrip | script.js:304-316 | the first route listed is the first active trip's route |
| Schedule.PopupPass | script.js:315-334 | one radio button per route; the first is checked; only the first route can fire `showRoute`, and none fires after it |
| Schedule.PopupSelection | script.js:315-334 | the first route is always checked; `showRoute` fires only for it, and exactly when it is not already the current route of this stop |
| Schedule.PopupPassAfterFirst | script.js:316-333 | once the first route has been shown, no later route is checked or shown |
| Schedule.PopupSelectionChecksFirst | script.js:315-334 | as written, only the first route is checked, and it is the route shown afterwards |
| Schedule.PopupLosesCurrentRoute | script.js:315-334 | a stop showing its second route of two has its popup check and show the first |
| Schedule.IntendedPopupKeepsCurrentRoute | script.js:315-334 | corrected selection: exactly one route is checked and it is the one shown; a current route of this stop in the list is kept |
| RouteFocus.Marker.constructor | script.js:188-192 | a new marker carries its stop id and the default stop colour |
| RouteFocus.ClusterGroup.constructor | script.js:122-127 | a new cluster group is empty with clustering on |
| RouteFocus.TransitMapState.constructor | script.js:30-45 | nothing is selected, no line mode, no markers or shapes, empty data |
| RouteFocus.TransitMapState.Reset | script.js:47-51 | clears the selection and leaves line mode, changing nothing else |
| RouteFocus.TransitMapState.ClearShapes | script.js:53-56 | empties the drawn polylines, changing nothing else |
| RouteFocus.NewStopMarker | script.js:188-196 | a fresh marker for the stop, in default colour, is added to the cluster group |
| RouteFocus.CreateStopMarkers | script.js:184-199 | every stop gets a fresh default-coloured marker; the cluster group gains exactly those markers; no other marker is changed |
| RouteFocus.RouteColor | script.js:392 | direction "0" is drawn in the direction-0 colour, every other direction in the direction-1 colour |
| RouteFocus.MarkerColor | script.js:428-437 | both directions give purple, only "0" or only "1" the direction colours, neither the default |
| RouteFocus.UpdateMarkerColor | script.js:424-441 | a stop with a direction entry gets its directions' colour; one without keeps its colour |
| RouteFocus.DrawRouteShape | script.js:388-403 | with a known shape, appends one polyline in the direction's colour and adds the trip's stops; without one, changes nothing |
| RouteFocus.RecordDirection | script.js:361-366 | every stop of the trip gains the direction; other stops keep theirs |
| RouteFocus.PolylinesOf | script.js:394-401 | there are as many polylines as drawn directions |
| RouteFocus.PolylinesOfAt | script.js:389-401 | the i-th polyline is the i-th drawn direction's shape in its colour |
| RouteFocus.OnePolylinePerDrawnDirection | script.js:358-367 | after drawing, there is exactly one polyline per exemplar whose shape is known, with that shape and colour |
| RouteFocus.VisitDirection | script.js:358-367 | one exemplar's visit extends the drawn shapes, line stops and direction entries consistently |
| RouteFocus.DrawExemplars | script.js:358-367 | visiting all exemplars draws every direction with a known shape and records every exemplar's stops |
| RouteFocus.DrawRoute | script.js:352-367 | the line's stops are exactly the stops of exemplars with a known shape, and each has the set of directions serving it |
| RouteFocus.ShowOrHideMarker | script.js:410-421 | a stop in the line is put in the cluster group and recoloured; any other is removed and keeps its colour |
| RouteFocus.ApplyLineStops | script.js:410-421 | exactly the markers of line stops are in the cluster group afterwards; other layers are untouched |
| RouteFocus.UpdateVisibleStops | script.js:405-422 | clustering is off; exactly the line's stops are shown, coloured by their directions |
| RouteFocus.ShowRoute | script.js:342-371 | the route becomes the selection in line mode; one polyline per exemplar with a known shape; exactly those exemplars' stops are shown, coloured by the directions serving them |
| RouteFocus.ShapelessExemplarStopHidden | script.js:358-367 | a stop served only by exemplars without a shape is hidden, even though it has a direction entry |
| RouteFocus.RestoreMarkers | script.js:448-451 | every marker is back in the cluster group in the default colour |
| RouteFocus.CloseLine | script.js:443-455 | clustering is on, no shapes, exactly the stop markers are in the cluster group, all in default colour, no selection and no line mode |

## Left out

- Reading CSV files, writing JSON files and the converters' progress messages are left out. The models take the parsed rows and return the tables.
- `float()` of coordinates and `int()` of day flags, exception types and sequence numbers are not modelled. Rows carry coordinates as text and those columns as integers.
- Columns read with `row[...]` are assumed present. The `KeyError` a missing column would raise is not modelled. Columns read with `.get` are modelled as optional.
- Timetable fields other than the start and end time are built but unused by the trips. The model keeps them as they are.
- The Leaflet map, tile layers, icon SVGs and cluster-icon sizing are not modelled. A marker is modelled by its stop id and colour. `setOpacity(1)` is not modelled.
- `loadAllData` (fetch), the date and time picker setup, geolocation, `resetView` and `UIManager`'s close button are left out. They are browser I/O.
- `showRoute` reads the date and time from the pickers. The model takes them as parameters, with the date already in `YYYYMMDD` form. An empty or malformed date picker is not modelled.
- `handleMarkerClick`'s `setTimeout` and the popup's HTML text are left out. `generatePopupContent`'s "Unknown stop" and "No active lines" messages and its `try`/`catch` are also left out. The popup's route order and selection are modelled. The route label (`short_name` or `ID …`) is not.
- `Object.entries` gives trips in the object's key order. The model takes that order as the given sequence of trip entries.
- `RouteFocus.ShowRoute`: the order of `activeShapes` is left open. Exemplars are visited in `Object.entries` order of the direction table, and the model states only that some order of the drawn directions was used.
- Polylines are values. `map.removeLayer` and the identity of each Leaflet layer are not modelled. Clearing the shapes empties the list.
- `userMarker` is not modelled.
- The `if (clusters.disableClustering)` test is not modelled: the cluster group always supports disabling clustering.
- The trips.json of `gtt_gtfs/converter-txt-json.py` holds only each trip's service and shape (gtt_gtfs/converter-txt-json.py:46-52), with no stop list. For such a trip `trip?.stops?.includes(stopId)` is `undefined`, which is falsy. `Schedule` reads a missing stop list as the empty list, so `ActiveTripsForStop` never selects these trips, exactly as the script does.

## Findings

| source | as written | input that shows it | evidently intended | confidence | as-written member | corrected member |
|---|---|---|---|---|---|---|
| script.js:315-334 | building a popup calls `showRoute` for the first route whenever it is not the current one. That makes it current before later routes are compared, so only the first radio button is ever checked and the route already shown for this stop is replaced | routes ["A", "B"] at stop "X" while "B" is shown for "X": the popup checks "A" and shows "A" | keep "B" checked and shown when the popup lists it; otherwise check and show the first route | not executed | Schedule.PopupLosesCurrentRoute | Schedule.IntendedPopupKeepsCurrentRoute |
