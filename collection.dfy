/**
 * The document stores (Stations, Data, Weather) as sequences of documents in natural order.
 * Only the operations the service uses are modelled: `upsert({key: k}, doc)` (replace the first
 * document whose key is `k` by `doc`, or append it) and `findOne({key: k})` (the first match).
 */
module Collection {
  import opened Wrappers

  /** No two documents share a key. */
  ghost predicate UniqueKeys<D>(docs: seq<D>, key: D -> string)
  {
    forall i, j :: 0 <= i < j < |docs| ==> key(docs[i]) != key(docs[j])
  }

  /** The keys present in the store. */
  ghost function Keys<D>(docs: seq<D>, key: D -> string): set<string>
  {
    set i | 0 <= i < |docs| :: key(docs[i])
  }

  /** The position of the first document with key `k`. */
  function IndexOf<D>(docs: seq<D>, key: D -> string, k: string): (r: Option<nat>)
    ensures r.Some? ==> r.value < |docs| && key(docs[r.value]) == k
    ensures r.Some? ==> forall j :: 0 <= j < r.value ==> key(docs[j]) != k
    ensures r.None? <==> k !in Keys(docs, key)
    decreases |docs|
  {
    if docs == [] then None
    else if key(docs[0]) == k then Some(0)
    else
      match IndexOf(docs[1..], key, k)
      case None =>
        assert Keys(docs, key) == {key(docs[0])} + Keys(docs[1..], key) by {
          forall x | x in Keys(docs, key) ensures x in {key(docs[0])} + Keys(docs[1..], key) {
            var i :| 0 <= i < |docs| && key(docs[i]) == x;
            if i > 0 { assert key(docs[1..][i - 1]) == x; }
          }
        }
        None
      case Some(i) => Some(i + 1)
  }

  /** `findOne({key: k})`: the first document with key `k`, if any. */
  function Find<D>(docs: seq<D>, key: D -> string, k: string): (r: Option<D>)
    ensures r.Some? <==> k in Keys(docs, key)
    ensures r.Some? ==> key(r.value) == k && r.value in docs
    ensures r.Some? ==> exists i :: FirstWithKeyAt(docs, key, k, i) && docs[i] == r.value
  {
    match IndexOf(docs, key, k)
    case None => None
    case Some(i) => Some(docs[i])
  }

  /** Position `i` holds the first document with key `k`. */
  ghost predicate FirstWithKeyAt<D>(docs: seq<D>, key: D -> string, k: string, i: int)
  {
    && 0 <= i < |docs|
    && key(docs[i]) == k
    && forall j :: 0 <= j < i ==> key(docs[j]) != k
  }

  /**
   * `upsert({key: key(d)}, d)`: afterwards `d` is the document found under its key, every other
   * key finds what it found before, no key is lost and no duplicate is introduced.
   */
  function Upsert<D>(docs: seq<D>, key: D -> string, d: D): (r: seq<D>)
    ensures Keys(r, key) == Keys(docs, key) + {key(d)}
    ensures Find(r, key, key(d)) == Some(d)
    ensures forall k :: k != key(d) ==> Find(r, key, k) == Find(docs, key, k)
    ensures UniqueKeys(docs, key) ==> UniqueKeys(r, key)
    ensures |r| == if key(d) in Keys(docs, key) then |docs| else |docs| + 1
  {
    match IndexOf(docs, key, key(d))
    case Some(i) =>
      var r := docs[i := d];
      assert Keys(r, key) == Keys(docs, key) by {
        forall x | x in Keys(docs, key) ensures x in Keys(r, key) {
          var j :| 0 <= j < |docs| && key(docs[j]) == x;
          assert key(r[j]) == x;
        }
        forall x | x in Keys(r, key) ensures x in Keys(docs, key) {
          var j :| 0 <= j < |r| && key(r[j]) == x;
          assert key(docs[j]) == x;
        }
      }
      FindAfterReplace(docs, key, i, d);
      r
    case None =>
      var r := docs + [d];
      assert Keys(r, key) == Keys(docs, key) + {key(d)} by {
        forall x | x in Keys(r, key) ensures x in Keys(docs, key) + {key(d)} {
          var j :| 0 <= j < |r| && key(r[j]) == x;
          if j < |docs| { assert key(docs[j]) == x; }
        }
        assert key(r[|docs|]) == key(d);
        forall x | x in Keys(docs, key) ensures x in Keys(r, key) {
          var j :| 0 <= j < |docs| && key(docs[j]) == x;
          assert key(r[j]) == x;
        }
      }
      FindAfterAppend(docs, key, d);
      r
  }

  lemma FindAfterReplace<D>(docs: seq<D>, key: D -> string, i: nat, d: D)
    requires i < |docs| && key(docs[i]) == key(d)
    requires forall j :: 0 <= j < i ==> key(docs[j]) != key(d)
    ensures Find(docs[i := d], key, key(d)) == Some(d)
    ensures forall k :: k != key(d) ==> Find(docs[i := d], key, k) == Find(docs, key, k)
  {
    var r := docs[i := d];
    assert IndexOf(r, key, key(d)) == Some(i) by {
      var x := IndexOf(r, key, key(d));
      assert key(r[i]) == key(d);
      assert x.Some?;
      assert !(x.value < i) && !(x.value > i);
    }
    forall k | k != key(d) ensures Find(r, key, k) == Find(docs, key, k) {
      var a, b := IndexOf(r, key, k), IndexOf(docs, key, k);
      if a.Some? { assert key(docs[a.value]) == k; }
      if b.Some? { assert key(r[b.value]) == k; }
      if a.Some? && b.Some? {
        assert !(a.value < b.value) && !(b.value < a.value);
      }
    }
  }

  lemma FindAfterAppend<D>(docs: seq<D>, key: D -> string, d: D)
    requires key(d) !in Keys(docs, key)
    ensures Find(docs + [d], key, key(d)) == Some(d)
    ensures forall k :: k != key(d) ==> Find(docs + [d], key, k) == Find(docs, key, k)
  {
    var r := docs + [d];
    assert IndexOf(r, key, key(d)) == Some(|docs|) by {
      var x := IndexOf(r, key, key(d));
      assert key(r[|docs|]) == key(d);
    }
    forall k | k != key(d) ensures Find(r, key, k) == Find(docs, key, k) {
      var a, b := IndexOf(r, key, k), IndexOf(docs, key, k);
      if a.Some? { assert a.value < |docs|; assert key(docs[a.value]) == k; }
      if b.Some? { assert key(r[b.value]) == k; }
      if a.Some? && b.Some? {
        assert !(a.value < b.value) && !(b.value < a.value);
      }
    }
  }

  /** With unique keys, every stored document is the one found under its own key. */
  lemma FindOwnKey<D>(docs: seq<D>, key: D -> string, i: nat)
    requires UniqueKeys(docs, key) && i < |docs|
    ensures Find(docs, key, key(docs[i])) == Some(docs[i])
  {
    var r := IndexOf(docs, key, key(docs[i]));
    assert key(docs[i]) in Keys(docs, key);
    assert !(r.value < i) && !(r.value > i);
  }
}
