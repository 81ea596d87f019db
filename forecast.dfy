/**
 * Replacing the Weather store from the primary station's time axis. The run looks up the first
 * primary station, then the first Data document with that station's `stationId`, takes its
 * `data.times`, removes every Weather document and requests a forecast for every time but the
 * last, inserting each successful response.
 */
module Forecast {
  import opened Wrappers
  import opened Units
  import opened Records
  import opened Collection
  import Seeding

  /** `findOne({isPrimary: true})`: the first primary station in store order. */
  function FindPrimary(stations: seq<Station>): (r: Option<Station>)
    ensures r.None? <==> forall i :: 0 <= i < |stations| ==> !stations[i].isPrimary
    ensures r.Some? ==> r.value.isPrimary && exists i :: FirstPrimaryAt(stations, i) && stations[i] == r.value
    decreases |stations|
  {
    if stations == [] then None
    else if stations[0].isPrimary then Some(stations[0])
    else
      var r := FindPrimary(stations[1..]);
      assert r.Some? ==> exists i :: FirstPrimaryAt(stations, i) && stations[i] == r.value by {
        if r.Some? {
          var i :| FirstPrimaryAt(stations[1..], i) && stations[1..][i] == r.value;
          assert stations[i + 1] == r.value;
          forall j | 0 <= j < i + 1 ensures !stations[j].isPrimary {
            if j > 0 { assert stations[j] == stations[1..][j - 1]; }
          }
          assert FirstPrimaryAt(stations, i + 1);
        }
      }
      assert r.None? ==> forall i :: 0 <= i < |stations| ==> !stations[i].isPrimary by {
        if r.None? {
          forall i | 0 <= i < |stations| ensures !stations[i].isPrimary {
            if i > 0 { assert stations[i] == stations[1..][i - 1]; }
          }
        }
      }
      r
  }

  /** Position `i` holds the first primary station. */
  ghost predicate FirstPrimaryAt(stations: seq<Station>, i: int)
  {
    && 0 <= i < |stations|
    && stations[i].isPrimary
    && forall j :: 0 <= j < i ==> !stations[j].isPrimary
  }

  /** How far the setup of a run gets before the loop. */
  datatype Setup =
    | NoPrimary         // no primary station: nothing happens
    | NoReferenceData   // no Data document for it: dereferencing it throws before the remove
    | NoTimes           // the document has no `times`: the remove runs, then reading the length throws
    | Ready(times: seq<int>)

  function SetupOf(stations: seq<Station>, data: seq<StationData>): (s: Setup)
    ensures s.NoPrimary? <==> FindPrimary(stations).None?
    ensures s.NoReferenceData? <==>
      FindPrimary(stations).Some? && FindPrimary(stations).value.stationId !in Keys(data, DataStationId)
    ensures s.NoTimes? <==>
      && FindPrimary(stations).Some?
      && Find(data, DataStationId, FindPrimary(stations).value.stationId).Some?
      && Find(data, DataStationId, FindPrimary(stations).value.stationId).value.data.times.None?
    ensures s.Ready? <==>
      && FindPrimary(stations).Some?
      && Find(data, DataStationId, FindPrimary(stations).value.stationId).Some?
      && Find(data, DataStationId, FindPrimary(stations).value.stationId).value.data.times.Some?
    ensures s.Ready? ==>
      && FindPrimary(stations).Some?
      && Find(data, DataStationId, FindPrimary(stations).value.stationId).Some?
      && Find(data, DataStationId, FindPrimary(stations).value.stationId).value.data.times == Some(s.times)
  {
    match FindPrimary(stations)
    case None => NoPrimary
    case Some(p) =>
      match Find(data, DataStationId, p.stationId)
      case None => NoReferenceData
      case Some(d) =>
        match d.data.times
        case None => NoTimes
        case Some(ts) => Ready(ts)
  }

  /** Whether the setup threw, which schedules a retry of the whole run. */
  predicate Throws(s: Setup)
  {
    s.NoReferenceData? || s.NoTimes?
  }

  /** The Unix seconds requested: one per time except the last (`i < timeSet.length - 1`). */
  function RequestTimes(times: seq<int>): (r: seq<int>)
    ensures |r| == if |times| == 0 then 0 else |times| - 1
    ensures forall i :: 0 <= i < |r| ==> r[i] * MS_PER_SECOND <= times[i] < r[i] * MS_PER_SECOND + MS_PER_SECOND
  {
    var n := if |times| == 0 then 0 else |times| - 1;
    seq(n, i requires 0 <= i < n => UnixSeconds(times[i]))
  }

  /**
   * The Weather documents inserted when the responses arrive in the order `arrivals`. Each
   * entry of `arrivals` is a request's position in the issue order (0 for the first `get`), and
   * `outcome(i)` is what the i-th request's callback receives. Requests for the same second are
   * separate calls, so they may end differently. Each successful response is appended; each
   * failed one is only logged.
   */
  function Successes(arrivals: seq<nat>, outcome: nat -> Option<WeatherDoc>): (r: seq<WeatherDoc>)
    ensures |r| <= |arrivals|
    decreases |arrivals|
  {
    if arrivals == [] then []
    else
      var last := arrivals[|arrivals| - 1];
      var earlier := Successes(arrivals[..|arrivals| - 1], outcome);
      match outcome(last)
      case None => earlier
      case Some(doc) => earlier + [doc]
  }

  /** One more request adds its response, if it succeeded, at the end. */
  lemma SuccessesSnoc(arrivals: seq<nat>, u: nat, outcome: nat -> Option<WeatherDoc>)
    ensures Successes(arrivals + [u], outcome) ==
      Successes(arrivals, outcome) + (if outcome(u).Some? then [outcome(u).value] else [])
  {
    assert (arrivals + [u])[..|arrivals|] == arrivals;
  }

  /** A document is kept exactly when it is the successful response to some request. */
  lemma {:induction false} SuccessesExactly(arrivals: seq<nat>, outcome: nat -> Option<WeatherDoc>, doc: WeatherDoc)
    ensures doc in Successes(arrivals, outcome) <==>
      exists i :: 0 <= i < |arrivals| && outcome(arrivals[i]) == Some(doc)
    decreases |arrivals|
  {
    if arrivals != [] {
      var n := |arrivals| - 1;
      var init := arrivals[..n];
      SuccessesExactly(init, outcome, doc);
      if exists i :: 0 <= i < |arrivals| && outcome(arrivals[i]) == Some(doc) {
        var i :| 0 <= i < |arrivals| && outcome(arrivals[i]) == Some(doc);
        if i < n { assert init[i] == arrivals[i]; }
      }
      if exists i :: 0 <= i < |init| && outcome(init[i]) == Some(doc) {
        var i :| 0 <= i < |init| && outcome(init[i]) == Some(doc);
        assert arrivals[i] == init[i];
      }
    }
  }

  /** When every request succeeds the store holds one response per request, in order. */
  lemma {:induction false} AllSucceed(arrivals: seq<nat>, outcome: nat -> Option<WeatherDoc>)
    requires forall i :: 0 <= i < |arrivals| ==> outcome(arrivals[i]).Some?
    ensures |Successes(arrivals, outcome)| == |arrivals|
    ensures forall i :: 0 <= i < |arrivals| ==> Successes(arrivals, outcome)[i] == outcome(arrivals[i]).value
    decreases |arrivals|
  {
    if arrivals != [] {
      var n := |arrivals| - 1;
      forall i | 0 <= i < n ensures outcome(arrivals[..n][i]).Some? {
        assert arrivals[..n][i] == arrivals[i];
      }
      AllSucceed(arrivals[..n], outcome);
      assert outcome(arrivals[n]).Some?;
    }
  }

  /** When every request fails the store ends empty. */
  lemma {:induction false} AllFail(arrivals: seq<nat>, outcome: nat -> Option<WeatherDoc>)
    requires forall i :: 0 <= i < |arrivals| ==> outcome(arrivals[i]).None?
    ensures Successes(arrivals, outcome) == []
    decreases |arrivals|
  {
    if arrivals != [] {
      var n := |arrivals| - 1;
      forall i | 0 <= i < n ensures outcome(arrivals[..n][i]).None? {
        assert arrivals[..n][i] == arrivals[i];
      }
      AllFail(arrivals[..n], outcome);
      assert outcome(arrivals[n]).None?;
    }
  }

  /** The inserts of two batches of arrivals are those of the first followed by the second. */
  lemma {:induction false} SuccessesAppend(x: seq<nat>, y: seq<nat>, outcome: nat -> Option<WeatherDoc>)
    ensures Successes(x + y, outcome) == Successes(x, outcome) + Successes(y, outcome)
    decreases |y|
  {
    if y == [] {
      assert x + y == x;
    } else {
      var n := |y| - 1;
      SuccessesAppend(x, y[..n], outcome);
      assert x + y == (x + y[..n]) + [y[n]];
      assert y == y[..n] + [y[n]];
      SuccessesSnoc(x + y[..n], y[n], outcome);
      SuccessesSnoc(y[..n], y[n], outcome);
    }
  }

  /**
   * The order in which the responses arrive does not change which documents are inserted,
   * nor how often: any rearrangement of the requests gives a rearrangement of the inserts.
   */
  lemma {:induction false} SuccessesPermutation(a: seq<nat>, b: seq<nat>, outcome: nat -> Option<WeatherDoc>)
    requires multiset(a) == multiset(b)
    ensures multiset(Successes(a, outcome)) == multiset(Successes(b, outcome))
    decreases |a|
  {
    if a == [] {
      assert |b| == |multiset(b)| == 0;
    } else {
      var n := |a| - 1;
      var u := a[n];
      assert a == a[..n] + [u];
      assert u in multiset(b);
      var j :| 0 <= j < |b| && b[j] == u;
      var rest := b[..j] + b[j + 1..];
      MultisetRemove(b, j);
      assert multiset(a[..n]) == multiset(a) - multiset{u};
      SuccessesPermutation(a[..n], rest, outcome);
      SuccessesRemove(b[..j], u, b[j + 1..], outcome);
      SuccessesAppend(a[..n], [u], outcome);
      var before, last := Successes(a[..n], outcome), Successes([u], outcome);
      assert Successes(a, outcome) == before + last;
      assert multiset(before + last) == multiset(before) + multiset(last);
    }
  }

  lemma MultisetRemove(b: seq<nat>, j: int)
    requires 0 <= j < |b|
    ensures b == b[..j] + [b[j]] + b[j + 1..]
    ensures multiset(b[..j] + b[j + 1..]) == multiset(b) - multiset{b[j]}
  {
    assert b == b[..j] + [b[j]] + b[j + 1..];
  }

  /** The inserts of a batch are those without one request plus that request's own. */
  lemma SuccessesRemove(b1: seq<nat>, x: nat, b2: seq<nat>, outcome: nat -> Option<WeatherDoc>)
    ensures multiset(Successes(b1 + [x] + b2, outcome)) ==
      multiset(Successes(b1 + b2, outcome)) + multiset(Successes([x], outcome))
  {
    var s1, sx, s2 := Successes(b1, outcome), Successes([x], outcome), Successes(b2, outcome);
    assert Successes(b1 + [x] + b2, outcome) == s1 + sx + s2 by {
      SuccessesAppend(b1 + [x], b2, outcome);
      SuccessesAppend(b1, [x], outcome);
    }
    assert Successes(b1 + b2, outcome) == s1 + s2 by {
      SuccessesAppend(b1, b2, outcome);
    }
    assert multiset(s1 + sx + s2) == multiset(s1) + multiset(sx) + multiset(s2);
    assert multiset(s1 + s2) == multiset(s1) + multiset(s2);
  }

  /** The positions of the requests that succeeded. */
  ghost function SucceededAt(arrivals: seq<nat>, outcome: nat -> Option<WeatherDoc>): set<int>
  {
    set i | 0 <= i < |arrivals| && outcome(arrivals[i]).Some?
  }

  /** One document is inserted per successful request: K successes give exactly K documents. */
  lemma {:induction false} SuccessCount(arrivals: seq<nat>, outcome: nat -> Option<WeatherDoc>)
    ensures |Successes(arrivals, outcome)| == |SucceededAt(arrivals, outcome)|
    decreases |arrivals|
  {
    if arrivals != [] {
      var n := |arrivals| - 1;
      var init := arrivals[..n];
      SuccessCount(init, outcome);
      assert arrivals == init + [arrivals[n]];
      SuccessesSnoc(init, arrivals[n], outcome);
      SucceededAtSnoc(init, arrivals[n], outcome);
    }
  }

  /** One more request adds its own position to the successful ones exactly when it succeeds. */
  lemma SucceededAtSnoc(init: seq<nat>, u: nat, outcome: nat -> Option<WeatherDoc>)
    ensures |SucceededAt(init + [u], outcome)| ==
      |SucceededAt(init, outcome)| + (if outcome(u).Some? then 1 else 0)
  {
    var r := init + [u];
    var n := |init|;
    var before, after := SucceededAt(init, outcome), SucceededAt(r, outcome);
    var extra: set<int> := if outcome(u).Some? then {n} else {};
    forall i | i in after ensures i in before + extra {
      if i < n { assert init[i] == r[i]; }
    }
    forall i | i in before ensures i in after {
      assert init[i] == r[i];
    }
    assert after == before + extra;
    assert n !in before;
  }

  /** The positions of `n` requests in the order they are issued. */
  function Issued(n: nat): (r: seq<nat>)
    ensures |r| == n && forall i :: 0 <= i < n ==> r[i] == i
  {
    seq(n, i requires 0 <= i < n => i)
  }

  /** The requests among the first `n` whose call succeeded. */
  ghost function SucceededRequests(n: nat, outcome: nat -> Option<WeatherDoc>): set<nat>
  {
    set i: nat | i < n && outcome(i).Some?
  }

  /**
   * Whatever order the responses to the `n` requests of one run arrive in, the Weather store
   * receives the same documents as if they arrived in issue order, exactly one per successful
   * request, and a document is inserted exactly when it answered one of them.
   */
  lemma ArrivalOrderIrrelevant(n: nat, arrivals: seq<nat>, outcome: nat -> Option<WeatherDoc>, doc: WeatherDoc)
    requires multiset(arrivals) == multiset(Issued(n))
    ensures multiset(Successes(arrivals, outcome)) == multiset(Successes(Issued(n), outcome))
    ensures |Successes(arrivals, outcome)| == |SucceededRequests(n, outcome)|
    ensures doc in Successes(arrivals, outcome) <==> exists i: nat :: i < n && outcome(i) == Some(doc)
  {
    var issued := Issued(n);
    var s, t := Successes(arrivals, outcome), Successes(issued, outcome);
    SuccessesPermutation(arrivals, issued, outcome);
    SuccessCount(issued, outcome);
    SuccessesExactly(issued, outcome, doc);
    assert SucceededAt(issued, outcome) == SucceededRequests(n, outcome);
    assert |s| == |multiset(s)| == |multiset(t)| == |t|;
    assert doc in s <==> doc in multiset(s);
    assert doc in t <==> doc in multiset(t);
    if doc in t {
      var i :| 0 <= i < n && outcome(issued[i]) == Some(doc);
      assert outcome(i) == Some(doc);
    }
    if exists i: nat :: i < n && outcome(i) == Some(doc) {
      var i: nat :| i < n && outcome(i) == Some(doc);
      assert outcome(issued[i]) == Some(doc);
    }
  }

  /**
   * Seeding resets `isPrimary` on every seeded station, so once every stored station comes from
   * the catalog there is no primary station and a forecast run does nothing.
   */
  lemma SeedingClearsPrimary(store: seq<Station>, catalog: seq<StationEntry>, createdAt: int, data: seq<StationData>)
    requires UniqueKeys(store, StationKey)
    requires Keys(store, StationKey) <= Seeding.SeededIds(catalog)
    ensures FindPrimary(Seeding.Seeded(store, catalog, createdAt)).None?
    ensures SetupOf(Seeding.Seeded(store, catalog, createdAt), data).NoPrimary?
  {
    var s := Seeding.Seeded(store, catalog, createdAt);
    Seeding.SeededKeys(store, catalog, createdAt);
    forall i | 0 <= i < |s| ensures !s[i].isPrimary {
      FindOwnKey(s, StationKey, i);
      assert StationKey(s[i]) in Keys(s, StationKey);
      Seeding.SeededStationStamped(store, catalog, createdAt, StationKey(s[i]));
    }
  }
}
