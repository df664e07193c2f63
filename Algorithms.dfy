/**
 * The library algorithms the firmware and the app lean on: `std::min`, `std::abs` and
 * `Math.abs`, and the first-match search of `std::find` that the containers and drivers
 * also write out as loops over their slots.
 */
module Algorithms {
  import opened Wrappers

  /** `std::min`. */
  function Min(a: int, b: int): (r: int)
    ensures r <= a && r <= b && (r == a || r == b)
  {
    if a < b then a else b
  }

  /** `std::abs` on integers. */
  function Abs(x: int): (r: nat)
    ensures r == x || r == -x
  {
    if x < 0 then -x else x
  }

  /** `std::abs` on floating values and JavaScript's `Math.abs`. */
  function Magnitude(x: real): (r: real)
    ensures r >= 0.0 && (r == x || r == -x)
  {
    if x < 0.0 then -x else x
  }

  /** `std::find`: the first position holding `x`, and none exactly when no position does. */
  function Find<T(==)>(s: seq<T>, x: T): (r: Option<nat>)
    ensures r.None? <==> x !in s
    ensures r.None? ==> forall i :: 0 <= i < |s| ==> s[i] != x
    ensures r.Some? ==> r.value < |s| && s[r.value] == x
    ensures r.Some? ==> forall i :: 0 <= i < r.value ==> s[i] != x
  {
    if s == [] then None
    else if s[0] == x then Some(0)
    else match Find(s[1..], x) {
      case None => None
      case Some(k) => Some(k + 1)
    }
  }
}
