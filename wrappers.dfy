/** Optional values: JavaScript's `undefined`, an absent field, a lookup that found nothing. */
module Wrappers {

  datatype Option<+T> = None | Some(value: T)

  /** `s[0]` in JavaScript: the first element, or `undefined` for an empty array. */
  function First<T>(s: seq<T>): (r: Option<T>)
    ensures r.Some? <==> |s| > 0
    ensures r.Some? ==> r.value == s[0]
  {
    if |s| > 0 then Some(s[0]) else None
  }
}
