/**
 * The station web service: the Stations, Data and Weather stores as fields, catalog seeding,
 * the per-station callbacks of a data cycle, and the forecast replacement. Requests and
 * their outcomes are inputs; each callback is a method the environment invokes when the
 * corresponding request completes, one at a time, in any order.
 */
module Service {
  import opened Wrappers
  import opened Units
  import opened Records
  import opened Collection
  import opened Normalize
  import Seeding
  import Aggregation
  import Forecast

  /** The `data` object a cycle builds for one station and shares among its three callbacks. */
  class StationRecord {
    const id: string
    const title: string
    const stationId: string
    var data: Bundle

    constructor (station: Station)
      ensures id == station.id && title == station.title && stationId == station.stationId
      ensures data == EmptyBundle
    {
      id := station.id;
      title := station.title;
      stationId := station.stationId;
      data := EmptyBundle;
    }

    /** The record as a Data document. */
    function Doc(): StationData
      reads this
    {
      StationData(id, title, stationId, data)
    }
  }

  class StationWebService {
    var stations: seq<Station>
    var data: seq<StationData>
    var weather: seq<WeatherDoc>
    /** How many times a forecast run has scheduled itself again after a setup failure. */
    var retriesScheduled: nat

    /** One document per `id` in the Stations and Data stores. */
    ghost predicate Valid()
      reads this
    {
      UniqueKeys(stations, StationKey) && UniqueKeys(data, DataId)
    }

    /**
     * The service over the stores as they are: the collections are global and persist between
     * runs, so they may hold anything, including a station another writer marked primary.
     */
    constructor (stations0: seq<Station>, data0: seq<StationData>, weather0: seq<WeatherDoc>)
      ensures stations == stations0 && data == data0 && weather == weather0
      ensures retriesScheduled == 0
    {
      stations, data, weather, retriesScheduled := stations0, data0, weather0, 0;
    }

    /**
     * Seeds the Stations store from the parsed catalog, stamping every entry with the same
     * `createdAt`, the current time rounded to seconds.
     */
    method FetchStations(catalog: seq<StationEntry>, nowMs: int)
      modifies this`stations
      ensures stations == Seeding.Seeded(old(stations), catalog, GetTimeStamp(nowMs))
      ensures old(Valid()) ==> Valid()
      ensures old(Valid()) && Keys(old(stations), StationKey) <= Seeding.SeededIds(catalog) ==>
        Forecast.SetupOf(stations, data).NoPrimary?
    {
      var currentUnix := GetTimeStamp(nowMs);
      var i := 0;
      while i < |catalog|
        invariant 0 <= i <= |catalog|
        invariant Seeding.Seeded(old(stations), catalog, currentUnix) == Seeding.Seeded(stations, catalog[i..], currentUnix)
        invariant old(Valid()) ==> Valid()
      {
        var station := catalog[i];
        assert catalog[i..] == [station] + catalog[i + 1..];
        if station.ndbc.None? {
          // Splitting the missing identifier throws; the exception is caught and the run ends.
          break;
        }
        stations := Upsert(stations, StationKey, Seeding.Stamp(station, currentUnix));
        i := i + 1;
      }
      assert stations == Seeding.Seeded(old(stations), catalog, currentUnix);
      if old(Valid()) && Keys(old(stations), StationKey) <= Seeding.SeededIds(catalog) {
        Forecast.SeedingClearsPrimary(old(stations), catalog, currentUnix, data);
      }
    }

    /** The start of a data cycle: a fresh record with an empty `data` object per station. */
    method StartCycle() returns (records: seq<StationRecord>)
      ensures |records| == |stations|
      ensures forall k :: 0 <= k < |records| ==> fresh(records[k])
      ensures forall j, k :: 0 <= j < k < |records| ==> records[j] != records[k]
      ensures forall k :: 0 <= k < |records| ==>
        && records[k].id == stations[k].id
        && records[k].title == stations[k].title
        && records[k].stationId == stations[k].stationId
        && records[k].data == EmptyBundle
    {
      records := [];
      var i := 0;
      while i < |stations|
        invariant 0 <= i <= |stations|
        invariant |records| == i
        invariant forall k :: 0 <= k < i ==> fresh(records[k])
        invariant forall j, k :: 0 <= j < k < i ==> records[j] != records[k]
        invariant forall k :: 0 <= k < i ==>
          && records[k].id == stations[k].id
          && records[k].title == stations[k].title
          && records[k].stationId == stations[k].stationId
          && records[k].data == EmptyBundle
      {
        var r := new StationRecord(stations[i]);
        records := records + [r];
        i := i + 1;
      }
    }

    /** The science-data callback: set `waterLevel` and upsert, when the reply carries one. */
    method OnWaterLevel(rec: StationRecord, reply: Reply<ScienceBody>)
      modifies rec`data, this`data
      ensures rec.data == Aggregation.Step(old(rec.data), Aggregation.WaterLevelDone(reply))
      ensures data == if Aggregation.Upserts(Aggregation.WaterLevelDone(reply))
                      then Upsert(old(data), DataId, rec.Doc()) else old(data)
      ensures old(Valid()) ==> Valid()
    {
      match reply
      case NetworkError =>
      case Response(flagged, body) =>
        if !flagged {
          match body.data
          case None =>
          case Some(science) =>
            match science.gageHeight
            case None =>
            case Some(gageHeight) =>
              var waterLevel := WaterLevel(gageHeight.kind, First(gageHeight.units), First(gageHeight.values));
              rec.data := rec.data.(waterLevel := Some(waterLevel));
              data := Upsert(data, DataId, rec.Doc());
        }
    }

    /** The `.ocean` feed callback: set the five series and `times`, and upsert. */
    method OnOcean(rec: StationRecord, reply: Reply<seq<OceanRow>>)
      modifies rec`data, this`data
      ensures rec.data == Aggregation.Step(old(rec.data), Aggregation.OceanDone(reply))
      ensures data == if Aggregation.Upserts(Aggregation.OceanDone(reply))
                      then Upsert(old(data), DataId, rec.Doc()) else old(data)
      ensures old(Valid()) ==> Valid()
    {
      if reply.Response? {
        var o := NormalizeOcean(reply.body);
        rec.data := rec.data.(oceanTemp := Some(o.oceanTemp));
        rec.data := rec.data.(chlorophyll := Some(o.chlorophyll));
        rec.data := rec.data.(dissolvedOxygen := Some(o.dissolvedOxygen));
        rec.data := rec.data.(turbidity := Some(o.turbidity));
        rec.data := rec.data.(salinity := Some(o.salinity));
        rec.data := rec.data.(times := Some(o.times));
        data := Upsert(data, DataId, rec.Doc());
      }
    }

    /**
     * The meteorological feed callback: it computes the wind and wave series and discards
     * them. The method may modify nothing, so neither the record nor any store changes.
     */
    method OnMet(reply: Reply<seq<MetRow>>) returns (computed: Option<MetSeries>)
      ensures computed.Some? <==> reply.Response?
      ensures computed.Some? ==> IsMetSeriesOf(computed.value, reply.body)
    {
      computed := None;
      if reply.Response? {
        var m := NormalizeMet(reply.body);
        computed := Some(m);
      }
    }

    /**
     * The forecast run: finds the primary station's time axis, empties the Weather store and
     * issues one request per time but the last. The responses arrive later, each through
     * `OnForecast`. Returns the Unix times requested, in issue order.
     */
    method FetchWeatherForecast() returns (requested: seq<int>)
      modifies this`weather, this`retriesScheduled
      ensures var setup := Forecast.SetupOf(stations, data);
        && (setup.NoPrimary? ==> weather == old(weather) && requested == [])
        && (setup.NoReferenceData? ==> weather == old(weather) && requested == [])
        && (setup.NoTimes? ==> weather == [] && requested == [])
        && (setup.Ready? ==> weather == [] && requested == Forecast.RequestTimes(setup.times))
        && retriesScheduled == old(retriesScheduled) + (if Forecast.Throws(setup) then 1 else 0)
    {
      requested := [];
      ghost var setup := Forecast.SetupOf(stations, data);
      var referenceStation := Forecast.FindPrimary(stations);
      if referenceStation.None? {
        assert setup.NoPrimary?;
      } else {
        var referenceStationData := Find(data, DataStationId, referenceStation.value.stationId);
        if referenceStationData.None? {
          assert setup.NoReferenceData?;
          // Reading `data.times` of the missing document throws before anything is removed.
          retriesScheduled := retriesScheduled + 1;
          return;
        }
        var timeSet := referenceStationData.value.data.times;
        weather := [];
        if timeSet.None? {
          assert setup.NoTimes?;
          // Reading the length of the missing `times` throws after the remove.
          retriesScheduled := retriesScheduled + 1;
          return;
        }
        var times := timeSet.value;
        assert setup == Forecast.Ready(times);
        requested := RequestForecasts(times);
      }
    }

    /** The request loop: one request per time but the last, in order. */
    static method RequestForecasts(times: seq<int>) returns (requested: seq<int>)
      ensures requested == Forecast.RequestTimes(times)
    {
      requested := [];
      ghost var n := |Forecast.RequestTimes(times)|;
      var i := 0;
      while i < |times| - 1
        invariant 0 <= i <= n
        invariant |requested| == i
        invariant forall k :: 0 <= k < i ==> requested[k] == UnixSeconds(times[k])
        decreases |times| - i
      {
        var unixTime := UnixSeconds(times[i]);
        requested := requested + [unixTime];
        i := i + 1;
      }
    }

    /**
     * The callback of one forecast request: a successful response is inserted at the end of
     * the Weather store, a failed one is only logged.
     */
    method OnForecast(response: Option<WeatherDoc>)
      modifies this`weather
      ensures weather == old(weather) + (if response.Some? then [response.value] else [])
    {
      if response.Some? {
        weather := weather + [response.value];
      }
    }

    /**
     * The environment delivering the responses of a run's requests, request position by
     * request position in the order `arrivals`, each through `OnForecast`.
     */
    method DeliverForecasts(arrivals: seq<nat>, outcome: nat -> Option<WeatherDoc>)
      modifies this`weather
      ensures weather == old(weather) + Forecast.Successes(arrivals, outcome)
    {
      var i := 0;
      while i < |arrivals|
        invariant 0 <= i <= |arrivals|
        invariant weather == old(weather) + Forecast.Successes(arrivals[..i], outcome)
      {
        Forecast.SuccessesSnoc(arrivals[..i], arrivals[i], outcome);
        assert arrivals[..i + 1] == arrivals[..i] + [arrivals[i]];
        OnForecast(outcome(arrivals[i]));
        i := i + 1;
      }
      assert arrivals[..i] == arrivals;
    }
  }
}
