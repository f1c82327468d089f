/** First-match selection over a list, as `Array.prototype.find` and `results[0]` perform it. */
module Lookup {
  import opened Wrappers

  /** The index of the first element of `xs` that satisfies `matches`, or None when none does. */
  function FindFirst<T>(xs: seq<T>, matches: T -> bool): (r: Option<nat>)
    ensures r.Some? ==> r.value < |xs| && matches(xs[r.value])
    ensures r.Some? ==> forall j :: 0 <= j < r.value ==> !matches(xs[j])
    ensures r.None? <==> forall j :: 0 <= j < |xs| ==> !matches(xs[j])
    decreases |xs|
  {
    if |xs| == 0 then None
    else if matches(xs[0]) then Some(0)
    else
      match FindFirst(xs[1..], matches)
      case None => None
      case Some(i) => Some(i + 1)
  }
}
