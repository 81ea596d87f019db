/**
 * The documents the station web service reads and writes, and the already-parsed provider
 * responses it consumes. Timestamps are integer milliseconds; readings are reals.
 */
module Records {
  import opened Wrappers

  // ---------------------------------------------------------------- station catalog

  /** One entry of the station catalog asset after camel-casing; `ndbc` may be missing. */
  datatype StationEntry = StationEntry(
    id: string,
    title: string,
    lat: real,
    lon: real,
    dataUrl: string,
    ndbc: Option<string>)

  /** A document of the Stations store. */
  datatype Station = Station(
    id: string,
    title: string,
    lat: real,
    lon: real,
    dataUrl: string,
    ndbc: string,
    stationId: string,
    isPrimary: bool,
    createdAt: int)

  function StationKey(s: Station): string { s.id }

  // ---------------------------------------------------------------- per-station data

  /** A synthesized series: `{values, units, type}`. */
  datatype Series = Series(values: seq<real>, units: string, kind: string)

  /**
   * The water-level series: the provider's `type`, and the first unit and first value array;
   * `None` where the provider's array was empty and JavaScript would read `undefined`.
   */
  datatype WaterLevel = WaterLevel(kind: string, units: Option<string>, values: Option<seq<real>>)

  /** The `data` object of a station's record: each field is absent until a callback sets it. */
  datatype Bundle = Bundle(
    waterLevel: Option<WaterLevel>,
    oceanTemp: Option<Series>,
    chlorophyll: Option<Series>,
    dissolvedOxygen: Option<Series>,
    turbidity: Option<Series>,
    salinity: Option<Series>,
    times: Option<seq<int>>)

  const EmptyBundle := Bundle(None, None, None, None, None, None, None)

  /** The top-level fields of a bundle. */
  datatype Field =
    | WaterLevelField | OceanTempField | ChlorophyllField | DissolvedOxygenField
    | TurbidityField | SalinityField | TimesField

  const AllFields: set<Field> :=
    {WaterLevelField, OceanTempField, ChlorophyllField, DissolvedOxygenField,
     TurbidityField, SalinityField, TimesField}

  /** Whether field `f` is set in `b`. */
  predicate Has(b: Bundle, f: Field)
  {
    match f
    case WaterLevelField => b.waterLevel.Some?
    case OceanTempField => b.oceanTemp.Some?
    case ChlorophyllField => b.chlorophyll.Some?
    case DissolvedOxygenField => b.dissolvedOxygen.Some?
    case TurbidityField => b.turbidity.Some?
    case SalinityField => b.salinity.Some?
    case TimesField => b.times.Some?
  }

  /** The fields present in a bundle. */
  function Fields(b: Bundle): set<Field>
  {
    set f | f in AllFields && Has(b, f)
  }

  /** The fields the ocean callback sets. */
  const OceanFields: set<Field> :=
    {OceanTempField, ChlorophyllField, DissolvedOxygenField, TurbidityField, SalinityField, TimesField}

  /** A document of the Data store: `{id, title, stationId, data}`. */
  datatype StationData = StationData(id: string, title: string, stationId: string, data: Bundle)

  function DataId(d: StationData): string { d.id }
  function DataStationId(d: StationData): string { d.stationId }

  // ---------------------------------------------------------------- provider responses

  /**
   * The outcome of one HTTP request: a transport/status error (`error` in the callback), or a
   * response, which may itself carry an `error` member.
   */
  datatype Reply<T> = NetworkError | Response(flaggedError: bool, body: T)

  /** `gageHeight` of the science-data response: arrays nested one level deeper than a series. */
  datatype GageHeight = GageHeight(kind: string, units: seq<string>, values: seq<seq<real>>)

  /** The camel-cased science-data response body; `data` itself may be missing. */
  datatype ScienceBody = ScienceBody(data: Option<ScienceData>)
  datatype ScienceData = ScienceData(gageHeight: Option<GageHeight>)

  /** One parsed row of a buoy's `.ocean` feed. */
  datatype OceanRow = OceanRow(
    date: int,
    oceanTemp: real,
    chlorophyllConcentration: real,
    oxygenPartsPerMil: real,
    turbidity: real,
    waterSalinity: real)

  /** One parsed row of a buoy's meteorological `.txt` feed. */
  datatype MetRow = MetRow(date: int, windDirection: real, windSpeed: real, waveHeight: real)

  /** A forecast provider response, stored verbatim. */
  datatype WeatherDoc = WeatherDoc(payload: string)
}
