/**
 * Deriving a station's short identifier from its compound NDBC identifier:
 * `ndbc.split(':').reverse()[0]`, the last `:`-separated token.
 */
module StationIds {

  const SEPARATOR: char := ':'

  /**
   * JavaScript's `String.prototype.split` with a one-character separator: never empty, no part
   * contains the separator, and a string without the separator is a single part.
   */
  function Split(s: string, sep: char): (parts: seq<string>)
    ensures |parts| >= 1
    ensures forall i :: 0 <= i < |parts| ==> sep !in parts[i]
    ensures |parts| == 1 <==> sep !in s
    decreases |s|
  {
    if s == [] then [""]
    else
      var rest := Split(s[1..], sep);
      if s[0] == sep then [""] + rest
      else [[s[0]] + rest[0]] + rest[1..]
  }

  /** `Array.prototype.join` with a one-character separator. */
  function Join(parts: seq<string>, sep: char): string
    decreases |parts|
  {
    if parts == [] then ""
    else if |parts| == 1 then parts[0]
    else parts[0] + [sep] + Join(parts[1..], sep)
  }

  /** Splitting and joining again gives the original string back. */
  lemma {:induction false} JoinSplit(s: string, sep: char)
    ensures Join(Split(s, sep), sep) == s
    decreases |s|
  {
    if s != [] {
      JoinSplit(s[1..], sep);
      var rest := Split(s[1..], sep);
      if s[0] == sep {
        assert Split(s, sep) == [""] + rest;
        assert s == [sep] + s[1..];
      } else {
        var parts := Split(s, sep);
        assert parts == [[s[0]] + rest[0]] + rest[1..];
        if |rest| == 1 {
          assert s == [s[0]] + s[1..];
        } else {
          assert parts[1..] == rest[1..];
          assert Join(rest, sep) == rest[0] + [sep] + Join(rest[1..], sep);
          assert s == [s[0]] + s[1..];
        }
      }
    }
  }

  /** Joining peels off the last part behind one separator. */
  lemma {:induction false} JoinLast(parts: seq<string>, sep: char)
    requires |parts| >= 2
    ensures Join(parts, sep) == Join(parts[..|parts| - 1], sep) + [sep] + parts[|parts| - 1]
    decreases |parts|
  {
    if |parts| > 2 {
      JoinLast(parts[1..], sep);
      assert parts[1..][..|parts| - 2] == parts[..|parts| - 1][1..];
    }
  }

  function Last<T>(s: seq<T>): T
    requires |s| > 0
  {
    s[|s| - 1]
  }

  /** The short station identifier, the last `:`-separated token of the compound identifier. */
  function StationIdOf(ndbc: string): string
  {
    Last(Split(ndbc, SEPARATOR))
  }

  /**
   * The derived identifier is a suffix of `ndbc` without a colon, and it is either the whole of
   * `ndbc` (no colon at all) or directly preceded by a colon: the token after the last colon.
   */
  lemma StationIdIsLastToken(ndbc: string)
    ensures var id := StationIdOf(ndbc);
      && |id| <= |ndbc|
      && id == ndbc[|ndbc| - |id|..]
      && SEPARATOR !in id
      && (SEPARATOR !in ndbc <==> id == ndbc)
      && (SEPARATOR in ndbc ==> |id| < |ndbc| && ndbc[|ndbc| - |id| - 1] == SEPARATOR)
  {
    var parts := Split(ndbc, SEPARATOR);
    JoinSplit(ndbc, SEPARATOR);
    if |parts| >= 2 {
      JoinLast(parts, SEPARATOR);
      var head := Join(parts[..|parts| - 1], SEPARATOR);
      assert ndbc == head + [SEPARATOR] + Last(parts);
      assert ndbc[|head| + 1..] == Last(parts);
      assert ndbc[|head|] == SEPARATOR;
    }
  }

  /** Whatever precedes the last colon, the identifier is what follows it. */
  lemma StationIdAfterLastColon(prefix: string, token: string)
    requires SEPARATOR !in token
    ensures StationIdOf(prefix + [SEPARATOR] + token) == token
  {
    var ndbc := prefix + [SEPARATOR] + token;
    StationIdIsLastToken(ndbc);
    var id := StationIdOf(ndbc);
    var n, m := |ndbc|, |token|;
    assert ndbc[n - m - 1] == SEPARATOR;
    assert ndbc[n - m..] == token;
  }

  /** The catalog's identifier format: `urn:ioos:station:noaa:8570283` yields `8570283`. */
  lemma StationIdExample()
    ensures StationIdOf("urn:ioos:station:noaa:8570283") == "8570283"
  {
    assert "urn:ioos:station:noaa:8570283" == "urn:ioos:station:noaa" + [SEPARATOR] + "8570283";
    StationIdAfterLastColon("urn:ioos:station:noaa", "8570283");
  }
}
