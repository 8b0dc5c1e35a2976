/** The linear searches the handlers run with `Array.prototype.find` and
    `Array.prototype.findIndex`: the first element that satisfies a predicate. */
module Search {
  import opened MarketTypes

  /** The index of the first element of `s` satisfying `p`, or `None` when there
      is none (`findIndex` answering -1, `find` answering `undefined`). */
  function FindIndex<T>(s: seq<T>, p: T -> bool): (r: Option<nat>)
    ensures r.Some? ==> r.value < |s| && p(s[r.value])
    ensures r.Some? ==> forall j :: 0 <= j < r.value ==> !p(s[j])
    ensures r.None? ==> forall j :: 0 <= j < |s| ==> !p(s[j])
    decreases |s|
  {
    if |s| == 0 then None
    else if p(s[0]) then Some(0)
    else
      match FindIndex(s[1..], p)
      case None => None
      case Some(k) => Some(k + 1)
  }
}
