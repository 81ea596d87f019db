# Station web service — a Dafny model

This project models `StationWebService`, the server-side class of a buoy-monitoring web
application. The class does three things:

- **Seeding** (`fetchStations`): reads the station catalog and stamps every entry with a shared
  `createdAt`, a short `stationId` taken from its compound NDBC identifier, and
  `isPrimary = false`. It then upserts each entry into the Stations store by `id`.
- **A data cycle** (`fetchStationsData`): gives every stored station a fresh record with an
  empty `data` object and issues three requests per station:
  - a science-data request, which yields the water level;
  - an NDBC `.ocean` feed, which yields temperature (converted to °F), chlorophyll, dissolved
    oxygen, turbidity, salinity and a minute-truncated, sorted time axis;
  - an NDBC `.txt` feed, which yields wind and wave series that are computed and then dropped.

  The first two callbacks upsert the whole shared record into the Data store by `id`.
- **A forecast run** (`fetchWeatherForecast`):
  1. finds the first primary station and its Data document;
  2. empties the Weather store;
  3. requests a forecast for every time on the axis except the last. Each request's callback
     inserts its response, if the request succeeded, when the response arrives.

  A failure during setup schedules a retry.

The modules follow that structure:

| module | what it models |
|---|---|
| `Units` | the conversions and the time arithmetic |
| `StationIds` | `split(':').reverse()[0]` over a JavaScript-style `split` |
| `Collection` | the document stores as sequences in natural order, with `findOne` and `upsert` |
| `Sorting` | the sort of the time axis, as an in-place insertion sort specified by a functional sort |
| `Records` | the documents |
| `Normalize` | the three callbacks' data transformations |
| `Aggregation` | how a record and the Data store evolve as callbacks complete, in any order |
| `Seeding` | the catalog fold |
| `Forecast` | the forecast setup and the requests |
| `Service` | the class itself, wiring these together over its store fields |

### Consequences of the code worth knowing

- Only `times` is sorted (lines 147-149); the five value arrays stay in row order (lines 141-145).
  So `times[i]` is row `i`'s minute only for a chronological feed
  (`Normalize.OceanAlignedWhenChronological`). `Normalize.SortingTimesAloneMisaligns` gives a
  two-row feed where a time and the reading at the same index come from different rows.
- Each cycle starts every record from an empty `data` (line 100), and every successful callback
  upserts the whole record (lines 120, 189). A field stored by the previous cycle is therefore
  gone once its provider fails while another provider of the same station succeeds
  (`Aggregation.NewCycleDropsStaleFields`).
- Seeding sets `isPrimary` to `false` on every catalog station (line 41), and nothing in the class
  sets it to `true`. Once the Stations store holds only catalog stations, `findOne({isPrimary:
  true})` (line 256) finds nothing and the forecast run does nothing (`Forecast.SeedingClearsPrimary`).
- When the primary station's Data document has no `times`, the Weather store is emptied
  (line 262) before `timeSet.length` (line 263) throws, and a retry is scheduled (lines 275-280).
- The forecast responses are inserted by their callbacks (lines 266-271), after the run has
  returned, in whatever order they arrive. The run itself only empties the store and issues the
  requests. `Service.StationWebService.OnForecast` is one callback, and
  `Service.StationWebService.DeliverForecasts` delivers a run's responses in a given order.
  `Forecast.ArrivalOrderIrrelevant` shows that every arrival order gives the same documents.
  Each request is its own `HTTP.get`, identified by its position in the issue order. Two
  requests for the same second can therefore end differently: `times` are minute-rounded
  (line 140), so equal seconds do occur.

## Model

| member | source | states |
|---|---|---|
| Wrappers.First | app/imports/api/StationWebService.js:115-116 | `units[0]` / `values[0]`: the first element when there is one, nothing (JavaScript `undefined`) for an empty array |
| Units.CtoF | app/imports/api/StationWebService.js:16-19 | the Celsius-to-Fahrenheit result converts back to its input |
| Units.CtoFFixedPoints | app/imports/api/StationWebService.js:16-19 | 0 °C is 32 °F, 100 °C is 212 °F, −40 is a fixed point |
| Units.CtoFMonotone | app/imports/api/StationWebService.js:16-19 | the conversion is strictly increasing in both directions |
| Units.KnotsToMph | app/imports/api/StationWebService.js:76 | dividing the result by the 1.152 factor gives the knots back |
| Units.MetersToFeet | app/imports/api/StationWebService.js:77 | dividing the result by the 3.28084 factor gives the metres back |
| Units.ConversionsLinear | app/imports/api/StationWebService.js:205-206 | both wind and wave conversions map 0 to 0 and preserve sums and scalings |
| Units.GetTimeStamp | app/imports/api/StationWebService.js:12-14 | the result is the whole second nearest the clock reading, within half a second |
| Units.UnixSeconds | app/imports/api/StationWebService.js:264 | `moment(t).unix()`: the second containing the instant |
| Units.TruncateToMinute | app/imports/api/StationWebService.js:140 | `.seconds(0).milliseconds(0)`: a whole minute, at most the instant and less than a minute before it |
| Units.TruncateToMinuteProperties | app/imports/api/StationWebService.js:140 | truncation is idempotent and keeps the order of instants |
| StationIds.Split | app/imports/api/StationWebService.js:40 | `split(':')` is never empty, no part holds the separator, and there is one part exactly when the separator is absent |
| StationIds.JoinSplit | app/imports/api/StationWebService.js:40 | joining the split parts with the separator gives the string back |
| StationIds.StationIdIsLastToken | app/imports/api/StationWebService.js:40 | the `stationId` is a colon-free suffix of `ndbc`: the whole string if there is no colon, otherwise the text right after the last colon |
| StationIds.StationIdAfterLastColon | app/imports/api/StationWebService.js:40 | whatever the prefix, the `stationId` is the colon-free token after the last colon |
| StationIds.StationIdExample | app/imports/api/StationWebService.js:40 | `urn:ioos:station:noaa:8570283` gives `8570283` |
| Collection.IndexOf | app/imports/api/StationWebService.js:256-258 | the position of the first document with the key, and none exactly when the key is absent |
| Collection.Find | app/imports/api/StationWebService.js:256-258 | `findOne`: a document exactly when the key is present; it carries that key and is the first such document in store order |
| Collection.Upsert | app/imports/api/StationWebService.js:42 | `upsert`: afterwards the key finds the new document, every other key finds what it found before, the key set gains exactly that key, uniqueness of keys is kept, and the size grows only for a new key |
| Sorting.Insert | app/imports/api/StationWebService.js:147-149 | one insertion step is a permutation of the element and the sequence |
| Sorting.InsertSorted | app/imports/api/StationWebService.js:147-149 | inserting into a sorted sequence keeps it sorted |
| Sorting.SortedTimes | app/imports/api/StationWebService.js:147-149 | the time axis comes out ascending and is a permutation of its input |
| Sorting.SortedUnique | app/imports/api/StationWebService.js:147-149 | two ascending permutations of the same values are equal, so any correct sort gives `SortedTimes` |
| Sorting.SortInPlace | app/imports/api/StationWebService.js:147-149 | `times.sort(...)` in place: the array ends as the ascending arrangement of its old contents |
| Sorting.InsertAt | app/imports/api/StationWebService.js:147-149 | moving one element left by swaps extends the ascending prefix by one, permutes the array and leaves everything after position `i` alone |
| Normalize.WaterLevelOf | app/imports/api/StationWebService.js:107-117 | a water level exactly when the request succeeded, the response is not flagged and `data.gageHeight` exists; if so, its type, first unit and first value array |
| Normalize.MinuteTimes | app/imports/api/StationWebService.js:139-140 | one minute-truncated time per row |
| Normalize.OceanSeriesAligned | app/imports/api/StationWebService.js:139-146 | the time axis and all five value arrays have one entry per parsed row |
| Normalize.OceanValuesInRowOrder | app/imports/api/StationWebService.js:141-181 | value `i` of each series is row `i`'s reading (temperature in °F), with units F, μg/L, ppm, FTU, PSU and type `timeSeries` |
| Normalize.OceanTimesNormalized | app/imports/api/StationWebService.js:140-149 | the time axis is ascending, holds exactly the rows' truncated dates with multiplicity, and each is a whole minute |
| Normalize.OceanAlignedWhenChronological | app/imports/api/StationWebService.js:139-149 | for a chronological feed, time `i` is row `i`'s minute |
| Normalize.SortingTimesAloneMisaligns | app/imports/api/StationWebService.js:139-149 | a two-row feed, newest first, whose first time is not the first reading's minute |
| Normalize.NormalizeOcean | app/imports/api/StationWebService.js:131-181 | the push loop and sort compute exactly the ocean series of the rows |
| Normalize.NormalizeMet | app/imports/api/StationWebService.js:198-227 | wind direction as reported, speed in mph and wave height in ft, one per row in row order, with units deg/mph/ft |
| Aggregation.StepAddsFields | app/imports/api/StationWebService.js:106-233 | a callback adds exactly the fields it sets, and one that does not upsert, in particular the meteorological one, leaves the record unchanged |
| Aggregation.RunFields | app/imports/api/StationWebService.js:92-233 | over any order of callbacks the record holds exactly the union of the fields they set |
| Aggregation.StoredRecordIsAccumulated | app/imports/api/StationWebService.js:119-120 | once any callback has upserted, the stored document is the whole accumulated record |
| Aggregation.RunWithoutUpsert | app/imports/api/StationWebService.js:228-231 | callbacks that do not upsert change neither the store nor the record |
| Aggregation.OtherStationsUntouched | app/imports/api/StationWebService.js:120 | a station's callbacks leave every other station's document as it was |
| Aggregation.ProvidersCommute | app/imports/api/StationWebService.js:119 | the water-level and ocean callbacks give the same record in either order |
| Aggregation.NewCycleDropsStaleFields | app/imports/api/StationWebService.js:93-100 | a fresh record whose ocean request fails stores only the water level, dropping the previous cycle's ocean fields |
| Seeding.Stamp | app/imports/api/StationWebService.js:39-41 | the entry with `createdAt`, the derived `stationId` and `isPrimary = false`, all other fields kept |
| Seeding.SeedablePrefix | app/imports/api/StationWebService.js:38-46 | the entries up to the first one without `ndbc`; that entry, if any, ends the loop |
| Seeding.LatestEntry | app/imports/api/StationWebService.js:42 | the last seeded entry for an id carries that id |
| Seeding.LatestEntryExists | app/imports/api/StationWebService.js:38-43 | an id has a latest entry exactly when it is seeded |
| Seeding.SeededFind | app/imports/api/StationWebService.js:38-43 | after seeding, an id finds its stamped latest entry, or what the store held if the id was not seeded |
| Seeding.SeededKeys | app/imports/api/StationWebService.js:38-43 | seeding adds exactly the seeded ids and keeps one document per id |
| Seeding.LatestEntryIsLast | app/imports/api/StationWebService.js:42 | an entry that no later seeded entry shares its id with is the latest one |
| Seeding.LaterEntryWins | app/imports/api/StationWebService.js:42 | with repeated ids the last catalog entry is the stored one |
| Seeding.SeededStationStamped | app/imports/api/StationWebService.js:39-41 | every seeded station has the run's `createdAt`, `isPrimary = false` and the short id of its `ndbc` |
| Seeding.SeedingRerun | app/imports/api/StationWebService.js:35-43 | re-seeding keeps the key set, and the result finds what one run alone would find |
| Forecast.FindPrimary | app/imports/api/StationWebService.js:256 | none exactly when no station is primary, otherwise the first primary station in store order |
| Forecast.SetupOf | app/imports/api/StationWebService.js:256-263 | each of the four outcomes exactly when its condition holds: no primary station; no Data document with its `stationId`; a first such document without `times`; or that document's `times` |
| Forecast.Throws | app/imports/api/StationWebService.js:258-263 | the two setup outcomes that throw and so reach the retry at lines 275-280 |
| Forecast.RequestTimes | app/imports/api/StationWebService.js:263-264 | one request per time except the last, request `i` being the second of time `i` |
| Forecast.Successes | app/imports/api/StationWebService.js:266-271 | the documents inserted when the responses arrive in a given order of request positions, each request with its own outcome; never more than there are responses |
| Forecast.SuccessesSnoc | app/imports/api/StationWebService.js:266-271 | one more arrival appends its response when it succeeded, and nothing otherwise, as `OnForecast` does |
| Forecast.SuccessesExactly | app/imports/api/StationWebService.js:266-271 | a document is kept exactly when it is the successful response to some request |
| Forecast.AllSucceed | app/imports/api/StationWebService.js:266-271 | when every response succeeds, one document per response, in arrival order |
| Forecast.AllFail | app/imports/api/StationWebService.js:266-271 | when every request fails, the Weather store ends empty |
| Forecast.SuccessesAppend | app/imports/api/StationWebService.js:266-271 | the inserts of two batches of arrivals are those of the first followed by those of the second |
| Forecast.MultisetRemove | app/imports/api/StationWebService.js:266-271 | taking one arrival out of a batch removes exactly that one request |
| Forecast.SuccessesRemove | app/imports/api/StationWebService.js:266-271 | a batch's inserts are those of the batch without one arrival plus that arrival's own |
| Forecast.SuccessesPermutation | app/imports/api/StationWebService.js:266-271 | rearranging the arrivals rearranges the inserted documents and changes nothing else |
| Forecast.SucceededAtSnoc | app/imports/api/StationWebService.js:266-271 | one more request adds one successful position exactly when it succeeds |
| Forecast.SuccessCount | app/imports/api/StationWebService.js:266-271 | exactly one document per successful request: K successes out of N requests give K documents |
| Forecast.Issued | app/imports/api/StationWebService.js:263-266 | the positions 0 to n-1 of the n requests, in issue order |
| Forecast.ArrivalOrderIrrelevant | app/imports/api/StationWebService.js:262-271 | for any arrival order that is a permutation of the n issued requests: the store holds the same documents, with the same multiplicities, as for issue order; it holds exactly as many documents as requests succeeded; and a document is held exactly when some request returned it |
| Forecast.SeedingClearsPrimary | app/imports/api/StationWebService.js:41 | if the store held one document per id and every stored id is in the catalog, then after seeding there is no primary station and the forecast run does nothing |
| Service.StationRecord.constructor | app/imports/api/StationWebService.js:93-103 | the record copies `id`, `title` and `stationId` and starts with an empty `data` |
| Service.StationWebService.constructor | app/imports/api/StationWebService.js:10 | the service starts over the persistent stores with whatever they hold, and no retry scheduled |
| Service.StationWebService.FetchStations | app/imports/api/StationWebService.js:21-45 | the Stations store becomes the catalog seeded with the rounded current time, and one document per id is kept; from a valid store whose ids all come from the catalog, it leaves no primary station, so a later forecast run finds nothing to do |
| Service.StationWebService.StartCycle | app/imports/api/StationWebService.js:87-104 | one fresh record per stored station, in store order, all distinct objects, each with its station's `id`, `title` and `stationId` and an empty `data` |
| Service.StationWebService.OnWaterLevel | app/imports/api/StationWebService.js:106-123 | the record takes the water-level step; the Data store gets the record upserted exactly when a water level was found |
| Service.StationWebService.OnOcean | app/imports/api/StationWebService.js:129-191 | the record takes the ocean step; the Data store gets the record upserted exactly when the request succeeded |
| Service.StationWebService.OnMet | app/imports/api/StationWebService.js:196-233 | the meteorological series are computed exactly when the request succeeded, and nothing is stored |
| Service.StationWebService.FetchWeatherForecast | app/imports/api/StationWebService.js:246-282 | the outcome per setup case: no primary station leaves everything alone; a missing document schedules a retry and keeps the Weather store; missing times empty the store and schedule a retry; otherwise the store is emptied and exactly the request times are issued, with no retry |
| Service.StationWebService.RequestForecasts | app/imports/api/StationWebService.js:263-273 | the request loop issues exactly one request per time but the last, in order |
| Service.StationWebService.OnForecast | app/imports/api/StationWebService.js:266-271 | one forecast callback: a successful response is appended to the Weather store, a failed one changes nothing |
| Service.StationWebService.DeliverForecasts | app/imports/api/StationWebService.js:266-271 | a run's callbacks, delivered one by one in the order given, append exactly `Forecast.Successes` of that order to the Weather store |
| StationIds.StationIdOf | app/imports/api/StationWebService.js:40 | `split(':').reverse()[0]`, the last part of the split; its meaning is stated by `StationIdIsLastToken` |
| Seeding.Seeded | app/imports/api/StationWebService.js:38-43 | the Stations store after the forEach of upserts, ending at the first entry without `ndbc`; its meaning is stated by `SeededFind`, `SeededKeys` and `SeedingRerun` |
| Normalize.OceanOf | app/imports/api/StationWebService.js:139-188 | the ocean series of the rows, the reference for `NormalizeOcean`; stated by the `Ocean…` lemmas |
| Normalize.IsMetSeriesOf | app/imports/api/StationWebService.js:203-227 | what the meteorological callback's three series hold, per row and in units deg/mph/ft |
| Aggregation.WithOcean | app/imports/api/StationWebService.js:183-188 | the ocean callback's six field assignments |
| Aggregation.Step | app/imports/api/StationWebService.js:106-121 | the record's `data` after one callback; stated by `StepAddsFields` and `ProvidersCommute` |
| Aggregation.Run | app/imports/api/StationWebService.js:92-233 | the record's `data` after a sequence of callbacks; stated by `RunFields` |
| Aggregation.RunStore | app/imports/api/StationWebService.js:120 | the Data store after a sequence of callbacks of one record; stated by `StoredRecordIsAccumulated`, `RunWithoutUpsert` and `OtherStationsUntouched` |

## Left out

- HTTP requests, URLs, headers, settings and environment variables are left out. Each request's
  outcome is an input to its callback (`Reply`, or `Option<WeatherDoc>` for a forecast).
- The query window (`startDate`/`endDate` from `defaultDuration`) and the forecast URL's
  latitude, longitude and API key are not modelled; only the request times are.
- The catalog file read (`Assets.getText`), `JSON.parse`, `humps.camelizeKeys` and buoyjs
  parsing are external code. The model takes the already parsed, camel-cased entries and rows
  as input, and a failure of that parsing is not modelled.
- `moment` and ISO-8601 strings are not modelled. An instant is an integer count of
  milliseconds, and `times` holds such numbers rather than strings.
- Callback asynchrony is reduced to callbacks completing one at a time in an arbitrary order;
  the Fibers `Future` is unused in the code. A forecast callback of an earlier run that arrives
  after a later run has emptied the store is not modelled: the order lemmas take the arrivals
  of one run at a time.
- Logging and the classification of caught exceptions (`response`, `errno`, other) only print,
  so they are left out.
- `fetchStationsData` catches every exception and returns it. No statement the model covers
  throws inside that `try` itself, so that path is not modelled. A response without `data` makes
  `responseData.data.gageHeight` (line 111) throw inside the callback, before anything is
  written, and the exception escapes the callback. The model gives the same outcome: nothing is
  written (`Normalize.WaterLevelOf` is none).
- The unused reads serve no purpose in the code, so they are not modelled: the projected
  fields in `Stations.find`/`findOne`, the Weather read before the remove, `COORD` and
  `removeCount`.
- The `Meteor.setTimeout` retry is modelled as a counter of scheduled retries; the delayed
  re-run itself is not.
- Units.CtoF, Units.KnotsToMph and Units.MetersToFeet are over exact reals. IEEE-754 rounding
  and NaN propagation of missing readings are not modelled.
- The storage engine is modelled as sequences in natural order. Indexes, concurrent writers
  and write failures are not modelled.
- Normalize.OceanOf and Sorting.SortInPlace sort integers with their natural order. The
  comparator's `new Date(a) - new Date(b)` on ISO strings is this order on the underlying
  instants; a sort's stability is irrelevant for a sequence of plain numbers.
