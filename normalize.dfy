/**
 * The data transformations inside the three per-station callbacks: extracting the water level
 * from the science-data response, and turning parsed buoy rows into parallel series.
 */
module Normalize {
  import opened Wrappers
  import opened Units
  import opened Records
  import opened Sorting

  const TIME_SERIES: string := "timeSeries"

  // ---------------------------------------------------------------- water level

  /**
   * The water level a science-data reply yields: nothing for a failed request, a response
   * carrying `error`, or a body without `data.gageHeight`; otherwise the provider's type with
   * the first unit and the first value array unwrapped.
   */
  function WaterLevelOf(reply: Reply<ScienceBody>): (r: Option<WaterLevel>)
    ensures r.Some? <==>
      && reply.Response? && !reply.flaggedError
      && reply.body.data.Some? && reply.body.data.value.gageHeight.Some?
    ensures r.Some? ==>
      var g := reply.body.data.value.gageHeight.value;
      && r.value.kind == g.kind
      && (r.value.units.Some? <==> |g.units| > 0)
      && (r.value.units.Some? ==> r.value.units.value == g.units[0])
      && (r.value.values.Some? <==> |g.values| > 0)
      && (r.value.values.Some? ==> r.value.values.value == g.values[0])
  {
    match reply
    case NetworkError => None
    case Response(flagged, body) =>
      if flagged then None
      else
        match body.data
        case None => None
        case Some(d) =>
          match d.gageHeight
          case None => None
          case Some(g) => Some(WaterLevel(g.kind, First(g.units), First(g.values)))
  }

  // ---------------------------------------------------------------- ocean feed

  /** The five series and the time axis the ocean callback builds. */
  datatype OceanSeries = OceanSeries(
    times: seq<int>,
    oceanTemp: Series,
    chlorophyll: Series,
    dissolvedOxygen: Series,
    turbidity: Series,
    salinity: Series)

  /** Each row's date truncated to its minute, in row order. */
  function MinuteTimes(rows: seq<OceanRow>): (r: seq<int>)
    ensures |r| == |rows|
  {
    seq(|rows|, i requires 0 <= i < |rows| => TruncateToMinute(rows[i].date))
  }

  /**
   * What the ocean callback computes from its rows: every per-row value is pushed in row order
   * (temperature converted to Fahrenheit), while only the `times` array is sorted afterwards.
   */
  function OceanOf(rows: seq<OceanRow>): OceanSeries
  {
    var n := |rows|;
    OceanSeries(
      SortedTimes(MinuteTimes(rows)),
      Series(seq(n, i requires 0 <= i < n => CtoF(rows[i].oceanTemp)), "F", TIME_SERIES),
      Series(seq(n, i requires 0 <= i < n => rows[i].chlorophyllConcentration), "μg/L", TIME_SERIES),
      Series(seq(n, i requires 0 <= i < n => rows[i].oxygenPartsPerMil), "ppm", TIME_SERIES),
      Series(seq(n, i requires 0 <= i < n => rows[i].turbidity), "FTU", TIME_SERIES),
      Series(seq(n, i requires 0 <= i < n => rows[i].waterSalinity), "PSU", TIME_SERIES))
  }

  /** The time axis and the five value arrays have exactly one entry per parsed row. */
  lemma OceanSeriesAligned(rows: seq<OceanRow>)
    ensures var o := OceanOf(rows);
      && |o.times| == |rows|
      && |o.oceanTemp.values| == |rows| && |o.chlorophyll.values| == |rows|
      && |o.dissolvedOxygen.values| == |rows| && |o.turbidity.values| == |rows|
      && |o.salinity.values| == |rows|
  {
    var m := MinuteTimes(rows);
    assert |SortedTimes(m)| == |multiset(SortedTimes(m))| == |multiset(m)| == |m|;
  }

  /** The value arrays stay in row order; each carries its unit and the `timeSeries` tag. */
  lemma OceanValuesInRowOrder(rows: seq<OceanRow>, i: nat)
    requires i < |rows|
    ensures var o := OceanOf(rows);
      && o.oceanTemp == Series(o.oceanTemp.values, "F", "timeSeries")
      && o.chlorophyll == Series(o.chlorophyll.values, "μg/L", "timeSeries")
      && o.dissolvedOxygen == Series(o.dissolvedOxygen.values, "ppm", "timeSeries")
      && o.turbidity == Series(o.turbidity.values, "FTU", "timeSeries")
      && o.salinity == Series(o.salinity.values, "PSU", "timeSeries")
      && o.oceanTemp.values[i] == CtoF(rows[i].oceanTemp)
      && o.chlorophyll.values[i] == rows[i].chlorophyllConcentration
      && o.dissolvedOxygen.values[i] == rows[i].oxygenPartsPerMil
      && o.turbidity.values[i] == rows[i].turbidity
      && o.salinity.values[i] == rows[i].waterSalinity
  {
  }

  /**
   * The time axis is ascending, holds exactly the rows' minute-truncated dates (with
   * multiplicity), and every entry has zero seconds and milliseconds.
   */
  lemma OceanTimesNormalized(rows: seq<OceanRow>)
    ensures var t := OceanOf(rows).times;
      && Sorted(t)
      && multiset(t) == multiset(MinuteTimes(rows))
      && forall i :: 0 <= i < |t| ==> t[i] % MS_PER_MINUTE == 0
  {
    var m := MinuteTimes(rows);
    var t := SortedTimes(m);
    forall i | 0 <= i < |t| ensures t[i] % MS_PER_MINUTE == 0 {
      assert t[i] in multiset(m);
      assert t[i] in m;
      var k :| 0 <= k < |m| && m[k] == t[i];
    }
  }

  /** When the feed is already chronological, `times[i]` is the minute of row `i`. */
  lemma OceanAlignedWhenChronological(rows: seq<OceanRow>)
    requires Sorted(MinuteTimes(rows))
    ensures OceanOf(rows).times == MinuteTimes(rows)
  {
    SortedUnique(SortedTimes(MinuteTimes(rows)), MinuteTimes(rows));
  }

  /**
   * Sorting only `times` breaks the pairing of a time with its reading once the feed is not
   * chronological: with two rows, newest first, the first time is the older row's minute while
   * the first temperature is the newer row's.
   */
  lemma SortingTimesAloneMisaligns()
    ensures var rows := [OceanRow(120000, 0.0, 0.0, 0.0, 0.0, 0.0),
                         OceanRow(60000, 100.0, 0.0, 0.0, 0.0, 0.0)];
      var o := OceanOf(rows);
      && o.times == [60000, 120000]
      && o.oceanTemp.values == [32.0, 212.0]
      && TruncateToMinute(rows[0].date) != o.times[0]
  {
    var rows := [OceanRow(120000, 0.0, 0.0, 0.0, 0.0, 0.0),
                 OceanRow(60000, 100.0, 0.0, 0.0, 0.0, 0.0)];
    var m := MinuteTimes(rows);
    assert m[0] == 120000 by { assert TruncateToMinute(120000) == 120000; }
    assert m[1] == 60000 by { assert TruncateToMinute(60000) == 60000; }
    assert m == [120000, 60000];
    assert Sorted([60000, 120000]);
    assert multiset(m) == multiset([60000, 120000]);
    SortedUnique(SortedTimes(m), [60000, 120000]);
    var temps := OceanOf(rows).oceanTemp.values;
    assert |temps| == 2 && temps[0] == CtoF(0.0) && temps[1] == CtoF(100.0);
    CtoFFixedPoints();
    assert temps == [32.0, 212.0];
  }

  /**
   * The ocean callback's loop: one push per row into six arrays, then an in-place sort of the
   * time array alone.
   */
  method NormalizeOcean(rows: seq<OceanRow>) returns (o: OceanSeries)
    ensures o == OceanOf(rows)
  {
    var times: seq<int> := [];
    var temps: seq<real> := [];
    var chl: seq<real> := [];
    var o2: seq<real> := [];
    var turb: seq<real> := [];
    var sal: seq<real> := [];
    var i := 0;
    while i < |rows|
      invariant 0 <= i <= |rows|
      invariant |times| == i && |temps| == i && |chl| == i && |o2| == i && |turb| == i && |sal| == i
      invariant forall k :: 0 <= k < i ==> times[k] == TruncateToMinute(rows[k].date)
      invariant forall k :: 0 <= k < i ==> temps[k] == CtoF(rows[k].oceanTemp)
      invariant forall k :: 0 <= k < i ==> chl[k] == rows[k].chlorophyllConcentration
      invariant forall k :: 0 <= k < i ==> o2[k] == rows[k].oxygenPartsPerMil
      invariant forall k :: 0 <= k < i ==> turb[k] == rows[k].turbidity
      invariant forall k :: 0 <= k < i ==> sal[k] == rows[k].waterSalinity
    {
      var datum := rows[i];
      times := times + [TruncateToMinute(datum.date)];
      temps := temps + [CtoF(datum.oceanTemp)];
      chl := chl + [datum.chlorophyllConcentration];
      o2 := o2 + [datum.oxygenPartsPerMil];
      turb := turb + [datum.turbidity];
      sal := sal + [datum.waterSalinity];
      i := i + 1;
    }
    ghost var spec := OceanOf(rows);
    assert times == MinuteTimes(rows);
    assert temps == spec.oceanTemp.values;
    assert chl == spec.chlorophyll.values;
    assert o2 == spec.dissolvedOxygen.values;
    assert turb == spec.turbidity.values;
    assert sal == spec.salinity.values;
    var a := new int[|times|](k => if 0 <= k < |times| then times[k] else 0);
    assert a[..] == times;
    SortInPlace(a);
    o := OceanSeries(a[..],
      Series(temps, "F", TIME_SERIES),
      Series(chl, "μg/L", TIME_SERIES),
      Series(o2, "ppm", TIME_SERIES),
      Series(turb, "FTU", TIME_SERIES),
      Series(sal, "PSU", TIME_SERIES));
  }

  // ---------------------------------------------------------------- meteorological feed

  /** The three series the meteorological callback computes (and then discards). */
  datatype MetSeries = MetSeries(windDirection: Series, windSpeed: Series, waveHeight: Series)

  /**
   * `m` is what the meteorological feed's rows give: wind direction as reported, wind speed
   * converted knots to mph, wave height metres to feet, one entry per row in row order.
   */
  predicate IsMetSeriesOf(m: MetSeries, rows: seq<MetRow>)
  {
    && m.windDirection.units == "deg" && m.windSpeed.units == "mph" && m.waveHeight.units == "ft"
    && m.windDirection.kind == TIME_SERIES && m.windSpeed.kind == TIME_SERIES
    && m.waveHeight.kind == TIME_SERIES
    && |m.windDirection.values| == |rows| && |m.windSpeed.values| == |rows|
    && |m.waveHeight.values| == |rows|
    && forall i :: 0 <= i < |rows| ==>
      && m.windDirection.values[i] == rows[i].windDirection
      && m.windSpeed.values[i] == KnotsToMph(rows[i].windSpeed)
      && m.waveHeight.values[i] == MetersToFeet(rows[i].waveHeight)
  }

  /** The meteorological callback's loop, one push per row into three arrays. */
  method NormalizeMet(rows: seq<MetRow>) returns (m: MetSeries)
    ensures IsMetSeriesOf(m, rows)
  {
    var wdir: seq<real> := [];
    var wspd: seq<real> := [];
    var wvht: seq<real> := [];
    var i := 0;
    while i < |rows|
      invariant 0 <= i <= |rows|
      invariant |wdir| == i && |wspd| == i && |wvht| == i
      invariant forall k :: 0 <= k < i ==> wdir[k] == rows[k].windDirection
      invariant forall k :: 0 <= k < i ==> wspd[k] == KnotsToMph(rows[k].windSpeed)
      invariant forall k :: 0 <= k < i ==> wvht[k] == MetersToFeet(rows[k].waveHeight)
    {
      var datum := rows[i];
      wdir := wdir + [datum.windDirection];
      wspd := wspd + [datum.windSpeed * KNOTS_TO_MPH];
      wvht := wvht + [datum.waveHeight * METER_TO_FT];
      i := i + 1;
    }
    m := MetSeries(
      Series(wdir, "deg", TIME_SERIES),
      Series(wspd, "mph", TIME_SERIES),
      Series(wvht, "ft", TIME_SERIES));
  }
}
