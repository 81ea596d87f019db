/**
 * Seeding the Stations store from the station catalog: each entry gets a shared `createdAt`,
 * its short `stationId` and `isPrimary = false`, and is upserted by `id`, in catalog order.
 * An entry without `ndbc` makes the identifier derivation throw; the exception ends the loop,
 * so only the entries before it are seeded.
 */
module Seeding {
  import opened Wrappers
  import opened Records
  import opened Collection
  import opened StationIds

  /** The three assignments applied to one catalog entry. */
  function Stamp(e: StationEntry, createdAt: int): (s: Station)
    requires e.ndbc.Some?
    ensures s.id == e.id && s.title == e.title && s.dataUrl == e.dataUrl
    ensures s.lat == e.lat && s.lon == e.lon && s.ndbc == e.ndbc.value
    ensures s.stationId == StationIdOf(e.ndbc.value)
    ensures !s.isPrimary && s.createdAt == createdAt
  {
    Station(e.id, e.title, e.lat, e.lon, e.dataUrl, e.ndbc.value, StationIdOf(e.ndbc.value), false, createdAt)
  }

  /** The entries processed before the first one without `ndbc`. */
  function SeedablePrefix(catalog: seq<StationEntry>): (p: seq<StationEntry>)
    ensures |p| <= |catalog| && p == catalog[..|p|]
    ensures forall i :: 0 <= i < |p| ==> p[i].ndbc.Some? && catalog[i].ndbc.Some?
    ensures |p| < |catalog| ==> catalog[|p|].ndbc.None?
    decreases |catalog|
  {
    if catalog == [] || catalog[0].ndbc.None? then []
    else [catalog[0]] + SeedablePrefix(catalog[1..])
  }

  /** The Stations store after seeding `store` from `catalog`. */
  function Seeded(store: seq<Station>, catalog: seq<StationEntry>, createdAt: int): seq<Station>
    decreases |catalog|
  {
    if catalog == [] || catalog[0].ndbc.None? then store
    else Seeded(Upsert(store, StationKey, Stamp(catalog[0], createdAt)), catalog[1..], createdAt)
  }

  /** The ids of the entries that are seeded. */
  ghost function SeededIds(catalog: seq<StationEntry>): set<string>
  {
    var p := SeedablePrefix(catalog);
    set i | 0 <= i < |p| :: p[i].id
  }

  /** The last seeded entry with id `k`, if there is one. */
  function LatestEntry(catalog: seq<StationEntry>, k: string): (r: Option<StationEntry>)
    ensures r.Some? ==> r.value.id == k && r.value.ndbc.Some?
    decreases |catalog|
  {
    if catalog == [] || catalog[0].ndbc.None? then None
    else
      match LatestEntry(catalog[1..], k)
      case Some(e) => Some(e)
      case None => if catalog[0].id == k then Some(catalog[0]) else None
  }

  lemma {:induction false} SeededIdsStep(catalog: seq<StationEntry>)
    requires catalog != [] && catalog[0].ndbc.Some?
    ensures SeededIds(catalog) == {catalog[0].id} + SeededIds(catalog[1..])
  {
    var p, q := SeedablePrefix(catalog), SeedablePrefix(catalog[1..]);
    assert p == [catalog[0]] + q;
    forall x | x in SeededIds(catalog) ensures x in {catalog[0].id} + SeededIds(catalog[1..]) {
      var i :| 0 <= i < |p| && p[i].id == x;
      if i > 0 { assert q[i - 1].id == x; }
    }
    forall x | x in SeededIds(catalog[1..]) ensures x in SeededIds(catalog) {
      var i :| 0 <= i < |q| && q[i].id == x;
      assert p[i + 1].id == x;
    }
    assert p[0].id == catalog[0].id;
  }

  /** A seeded id always has a latest entry, and only seeded ids do. */
  lemma {:induction false} LatestEntryExists(catalog: seq<StationEntry>, k: string)
    ensures LatestEntry(catalog, k).Some? <==> k in SeededIds(catalog)
    decreases |catalog|
  {
    if catalog == [] || catalog[0].ndbc.None? {
      assert SeedablePrefix(catalog) == [];
    } else {
      SeededIdsStep(catalog);
      LatestEntryExists(catalog[1..], k);
    }
  }

  /**
   * What the seeded store finds under any id: the stamped latest catalog entry with that id,
   * or, for an id not seeded, whatever the store held before.
   */
  lemma {:induction false} SeededFind(store: seq<Station>, catalog: seq<StationEntry>, createdAt: int, k: string)
    ensures Find(Seeded(store, catalog, createdAt), StationKey, k) ==
      match LatestEntry(catalog, k)
      case Some(e) => Some(Stamp(e, createdAt))
      case None => Find(store, StationKey, k)
    decreases |catalog|
  {
    if catalog != [] && catalog[0].ndbc.Some? {
      SeededFind(Upsert(store, StationKey, Stamp(catalog[0], createdAt)), catalog[1..], createdAt, k);
    }
  }

  /** Seeding adds exactly the seeded ids to the key set, and keeps one document per id. */
  lemma {:induction false} SeededKeys(store: seq<Station>, catalog: seq<StationEntry>, createdAt: int)
    ensures Keys(Seeded(store, catalog, createdAt), StationKey) == Keys(store, StationKey) + SeededIds(catalog)
    ensures UniqueKeys(store, StationKey) ==> UniqueKeys(Seeded(store, catalog, createdAt), StationKey)
    decreases |catalog|
  {
    if catalog == [] || catalog[0].ndbc.None? {
      assert SeedablePrefix(catalog) == [];
    } else {
      SeededIdsStep(catalog);
      SeededKeys(Upsert(store, StationKey, Stamp(catalog[0], createdAt)), catalog[1..], createdAt);
    }
  }

  /** An entry that no later seeded entry shares its id with is the latest one for that id. */
  lemma {:induction false} LatestEntryIsLast(catalog: seq<StationEntry>, i: nat)
    requires i < |SeedablePrefix(catalog)|
    requires forall j :: i < j < |SeedablePrefix(catalog)| ==> catalog[j].id != catalog[i].id
    ensures LatestEntry(catalog, catalog[i].id) == Some(catalog[i])
    decreases |catalog|
  {
    var p, q := SeedablePrefix(catalog), SeedablePrefix(catalog[1..]);
    assert p == [catalog[0]] + q;
    var k := catalog[i].id;
    if i == 0 {
      LatestEntryExists(catalog[1..], k);
    } else {
      forall j | i - 1 < j < |q| ensures catalog[1..][j].id != catalog[1..][i - 1].id {
        assert catalog[1..][j] == catalog[j + 1];
      }
      LatestEntryIsLast(catalog[1..], i - 1);
    }
  }

  /** A later catalog entry with the same id replaces an earlier one: the last one wins. */
  lemma LaterEntryWins(store: seq<Station>, catalog: seq<StationEntry>, createdAt: int, i: nat)
    requires i < |SeedablePrefix(catalog)|
    requires forall j :: i < j < |SeedablePrefix(catalog)| ==> catalog[j].id != catalog[i].id
    ensures Find(Seeded(store, catalog, createdAt), StationKey, catalog[i].id) == Some(Stamp(catalog[i], createdAt))
  {
    var k := catalog[i].id;
    LatestEntryIsLast(catalog, i);
    assert LatestEntry(catalog, k) == Some(catalog[i]);
    SeededFind(store, catalog, createdAt, k);
  }

  /**
   * Every seeded station carries the run's `createdAt`, `isPrimary = false` and the short
   * identifier of its compound identifier.
   */
  lemma SeededStationStamped(store: seq<Station>, catalog: seq<StationEntry>, createdAt: int, k: string)
    requires k in SeededIds(catalog)
    ensures var s := Find(Seeded(store, catalog, createdAt), StationKey, k);
      && s.Some? && s.value.id == k
      && !s.value.isPrimary && s.value.createdAt == createdAt
      && s.value.stationId == StationIdOf(s.value.ndbc)
  {
    LatestEntryExists(catalog, k);
    SeededFind(store, catalog, createdAt, k);
  }

  /**
   * Re-running the seeding on the same catalog keeps the key set, and every document is what
   * one run alone would give; seeded documents differ from the first run's only in `createdAt`.
   */
  lemma SeedingRerun(store: seq<Station>, catalog: seq<StationEntry>, t1: int, t2: int)
    ensures var once := Seeded(store, catalog, t1);
      var twice := Seeded(once, catalog, t2);
      && Keys(twice, StationKey) == Keys(once, StationKey)
      && (forall k :: Find(twice, StationKey, k) == Find(Seeded(store, catalog, t2), StationKey, k))
      && (forall k :: k in SeededIds(catalog) ==>
            Find(once, StationKey, k).Some? &&
            Find(twice, StationKey, k) == Some(Find(once, StationKey, k).value.(createdAt := t2)))
  {
    var once := Seeded(store, catalog, t1);
    var twice := Seeded(once, catalog, t2);
    SeededKeys(store, catalog, t1);
    SeededKeys(once, catalog, t2);
    forall k ensures Find(twice, StationKey, k) == Find(Seeded(store, catalog, t2), StationKey, k) {
      SeededFind(once, catalog, t2, k);
      SeededFind(store, catalog, t2, k);
      SeededFind(store, catalog, t1, k);
    }
    forall k | k in SeededIds(catalog)
      ensures Find(once, StationKey, k).Some? &&
              Find(twice, StationKey, k) == Some(Find(once, StationKey, k).value.(createdAt := t2))
    {
      LatestEntryExists(catalog, k);
      SeededFind(once, catalog, t2, k);
      SeededFind(store, catalog, t1, k);
    }
  }
}
