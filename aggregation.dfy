/**
 * How one station's shared record evolves while its callbacks complete, one after another in
 * whatever order they are delivered, and what the Data store holds as a result. Every callback
 * that writes does so by upserting the whole accumulated record under the station's `id`.
 */
module Aggregation {
  import opened Wrappers
  import opened Records
  import opened Collection
  import opened Normalize

  /** The completion of one of the three per-station requests, with its outcome. */
  datatype Callback =
    | WaterLevelDone(science: Reply<ScienceBody>)
    | OceanDone(ocean: Reply<seq<OceanRow>>)
    | MetDone(met: Reply<seq<MetRow>>)

  /** Whether the callback upserts the record: the meteorological one never does. */
  predicate Upserts(cb: Callback)
  {
    match cb
    case WaterLevelDone(r) => WaterLevelOf(r).Some?
    case OceanDone(r) => r.Response?
    case MetDone(_) => false
  }

  /** The ocean callback's six field assignments. */
  function WithOcean(b: Bundle, o: OceanSeries): Bundle
  {
    b.(oceanTemp := Some(o.oceanTemp), chlorophyll := Some(o.chlorophyll),
       dissolvedOxygen := Some(o.dissolvedOxygen), turbidity := Some(o.turbidity),
       salinity := Some(o.salinity), times := Some(o.times))
  }

  /** The record's `data` after one callback. */
  function Step(b: Bundle, cb: Callback): Bundle
  {
    match cb
    case WaterLevelDone(r) =>
      (match WaterLevelOf(r)
       case None => b
       case Some(w) => b.(waterLevel := Some(w)))
    case OceanDone(r) => if r.Response? then WithOcean(b, OceanOf(r.body)) else b
    case MetDone(_) => b
  }

  /** The fields a callback sets. */
  function FieldsSetBy(cb: Callback): set<Field>
  {
    match cb
    case WaterLevelDone(r) => if WaterLevelOf(r).Some? then {WaterLevelField} else {}
    case OceanDone(r) => if r.Response? then OceanFields else {}
    case MetDone(_) => {}
  }

  /**
   * One callback only adds fields, exactly those it sets; a callback that does not upsert
   * leaves the record as it was (in particular the meteorological one, always).
   */
  lemma StepAddsFields(b: Bundle, cb: Callback)
    ensures Fields(Step(b, cb)) == Fields(b) + FieldsSetBy(cb)
    ensures Upserts(cb) <==> FieldsSetBy(cb) != {}
    ensures !Upserts(cb) ==> Step(b, cb) == b
    ensures cb.MetDone? ==> Step(b, cb) == b && !Upserts(cb)
  {
  }

  /** The record's `data` after a sequence of callbacks. */
  function Run(b: Bundle, cbs: seq<Callback>): Bundle
    decreases |cbs|
  {
    if cbs == [] then b else Run(Step(b, cbs[0]), cbs[1..])
  }

  function SetByAll(cbs: seq<Callback>): set<Field>
    decreases |cbs|
  {
    if cbs == [] then {} else FieldsSetBy(cbs[0]) + SetByAll(cbs[1..])
  }

  /** Across callbacks the record only gains fields: exactly the union of those each one set. */
  lemma {:induction false} RunFields(b: Bundle, cbs: seq<Callback>)
    ensures Fields(Run(b, cbs)) == Fields(b) + SetByAll(cbs)
    decreases |cbs|
  {
    if cbs != [] {
      StepAddsFields(b, cbs[0]);
      RunFields(Step(b, cbs[0]), cbs[1..]);
    }
  }

  /** The Data store after the callbacks of one record, starting from the record `rec`. */
  function RunStore(store: seq<StationData>, rec: StationData, cbs: seq<Callback>): seq<StationData>
    decreases |cbs|
  {
    if cbs == [] then store
    else
      var next := rec.(data := Step(rec.data, cbs[0]));
      RunStore(if Upserts(cbs[0]) then Upsert(store, DataId, next) else store, next, cbs[1..])
  }

  /**
   * Once any callback has upserted, the stored document is the whole accumulated record:
   * it holds every field set by any earlier successful callback.
   */
  lemma {:induction false} StoredRecordIsAccumulated(store: seq<StationData>, rec: StationData, cbs: seq<Callback>)
    requires exists i :: 0 <= i < |cbs| && Upserts(cbs[i])
    ensures Find(RunStore(store, rec, cbs), DataId, rec.id) == Some(rec.(data := Run(rec.data, cbs)))
    decreases |cbs|
  {
    var next := rec.(data := Step(rec.data, cbs[0]));
    var store' := if Upserts(cbs[0]) then Upsert(store, DataId, next) else store;
    if exists i :: 1 <= i < |cbs| && Upserts(cbs[i]) {
      var i :| 1 <= i < |cbs| && Upserts(cbs[i]);
      assert Upserts(cbs[1..][i - 1]);
      StoredRecordIsAccumulated(store', next, cbs[1..]);
    } else {
      assert Upserts(cbs[0]);
      assert forall i :: 0 <= i < |cbs[1..]| ==> !Upserts(cbs[1..][i]) by {
        forall i | 0 <= i < |cbs[1..]| ensures !Upserts(cbs[1..][i]) {
          assert cbs[1..][i] == cbs[i + 1];
        }
      }
      RunWithoutUpsert(store', next, cbs[1..]);
    }
  }

  /** Callbacks that do not upsert change neither the store nor the record. */
  lemma {:induction false} RunWithoutUpsert(store: seq<StationData>, rec: StationData, cbs: seq<Callback>)
    requires forall i :: 0 <= i < |cbs| ==> !Upserts(cbs[i])
    ensures RunStore(store, rec, cbs) == store
    ensures Run(rec.data, cbs) == rec.data
    decreases |cbs|
  {
    if cbs != [] {
      assert !Upserts(cbs[0]);
      StepAddsFields(rec.data, cbs[0]);
      assert forall i :: 0 <= i < |cbs[1..]| ==> !Upserts(cbs[1..][i]) by {
        forall i | 0 <= i < |cbs[1..]| ensures !Upserts(cbs[1..][i]) {
          assert cbs[1..][i] == cbs[i + 1];
        }
      }
      RunWithoutUpsert(store, rec, cbs[1..]);
    }
  }

  /** A station's callbacks never touch another station's document. */
  lemma {:induction false} OtherStationsUntouched(store: seq<StationData>, rec: StationData, cbs: seq<Callback>, k: string)
    requires k != rec.id
    ensures Find(RunStore(store, rec, cbs), DataId, k) == Find(store, DataId, k)
    decreases |cbs|
  {
    if cbs != [] {
      var next := rec.(data := Step(rec.data, cbs[0]));
      OtherStationsUntouched(if Upserts(cbs[0]) then Upsert(store, DataId, next) else store, next, cbs[1..], k);
    }
  }

  /** The water-level and ocean callbacks set disjoint fields, so their order does not matter. */
  lemma ProvidersCommute(b: Bundle, w: Reply<ScienceBody>, o: Reply<seq<OceanRow>>)
    ensures Step(Step(b, WaterLevelDone(w)), OceanDone(o)) == Step(Step(b, OceanDone(o)), WaterLevelDone(w))
  {
  }

  /**
   * Each cycle starts its record from an empty `data` and the upsert writes the whole record,
   * so a field the previous cycle stored disappears when its provider fails in this cycle
   * while another provider succeeds.
   */
  lemma NewCycleDropsStaleFields(store: seq<StationData>, rec: StationData, w: Reply<ScienceBody>)
    requires rec.data == EmptyBundle
    requires WaterLevelOf(w).Some?
    ensures var after := RunStore(store, rec, [WaterLevelDone(w), OceanDone(NetworkError)]);
      && Find(after, DataId, rec.id).Some?
      && Fields(Find(after, DataId, rec.id).value.data) == {WaterLevelField}
  {
    var cbs := [WaterLevelDone(w), OceanDone(NetworkError)];
    assert Upserts(cbs[0]);
    StoredRecordIsAccumulated(store, rec, cbs);
    RunFields(rec.data, cbs);
    assert SetByAll(cbs) == {WaterLevelField} by {
      assert cbs[1..] == [OceanDone(NetworkError)];
      assert cbs[1..][1..] == [];
      assert FieldsSetBy(cbs[0]) == {WaterLevelField};
      assert FieldsSetBy(cbs[1]) == {};
      assert SetByAll(cbs[1..]) == FieldsSetBy(cbs[1]) + SetByAll([]);
    }
  }
}
