/** Shared vocabulary: optional values, order sides, integers and integer sequences.

Volumes are integers in cents (the venue's centi-unit).  On that grid the source's
tolerance tests are exact: `x > _VOLUME_TOL` (half a cent) is `x >= 1`, and
`x >= -_VOLUME_TOL` is `x >= 0`.
*/
module Common {
  datatype Option<+T> = None | Some(value: T)

  datatype Side = Buy | Sell

  function Min(a: int, b: int): int {
    if a <= b then a else b
  }

  function Max(a: int, b: int): int {
    if a <= b then b else a
  }

  function Abs(a: int): (r: int)
    ensures r >= 0
  {
    if a < 0 then -a else a
  }

  /** `x` moved into `[0, hi]`. */
  function Clamp(x: int, hi: int): int {
    if x < 0 then 0 else if x > hi then hi else x
  }

  function Sum(xs: seq<int>): int {
    if xs == [] then 0 else Sum(xs[..|xs| - 1]) + xs[|xs| - 1]
  }

  function Elements(xs: seq<int>): set<int> {
    set x | x in xs
  }

  predicate Distinct(xs: seq<int>) {
    forall i, j :: 0 <= i < j < |xs| ==> xs[i] != xs[j]
  }

  predicate Increasing(xs: seq<int>) {
    forall i, j :: 0 <= i < j < |xs| ==> xs[i] < xs[j]
  }
}
