/** The selection loops the engine and the trainers share: keep the first element that is
    strictly better than every earlier one. */
module Ranking {
  function Min(a: int, b: int): (m: int)
    ensures m <= a && m <= b && (m == a || m == b)
  {
    if a <= b then a else b
  }

  /** The source's loop `if (v > best) { best = v; … }`, started at the first element. */
  function ArgMaxFrom(xs: seq<real>, i: nat, k: nat): (r: nat)
    requires k < i <= |xs|
    requires forall j :: 0 <= j < i ==> xs[j] <= xs[k]
    requires forall j :: 0 <= j < k ==> xs[j] < xs[k]
    ensures k <= r < |xs|
    ensures forall j :: 0 <= j < |xs| ==> xs[j] <= xs[r]
    ensures forall j :: 0 <= j < r ==> xs[j] < xs[r]
    decreases |xs| - i
  {
    if i == |xs| then k
    else if xs[i] > xs[k] then ArgMaxFrom(xs, i + 1, i)
    else ArgMaxFrom(xs, i + 1, k)
  }

  /** The first index holding the largest value. */
  function ArgMax(xs: seq<real>): (r: nat)
    requires xs != []
    ensures r < |xs|
    ensures forall j :: 0 <= j < |xs| ==> xs[j] <= xs[r]
    ensures forall j :: 0 <= j < r ==> xs[j] < xs[r]
  {
    ArgMaxFrom(xs, 1, 0)
  }
}
