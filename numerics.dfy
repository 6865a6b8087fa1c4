/** Exact-real stand-ins for the JavaScript number operations the pipeline uses:
    `Math.abs`, `Math.round` and `Number.prototype.toFixed(2)` read back by `parseFloat`.
    Values are unbounded reals; IEEE-754 rounding error is not modelled. */
module Numerics {

  /** `Math.abs`. */
  function Abs(x: real): (r: real)
    ensures r >= 0.0
    ensures r == x || r == -x
  {
    if x < 0.0 then -x else x
  }

  /** `Math.round`: the nearest integer, a tie rounded towards positive infinity. */
  function Round(x: real): (n: int)
    ensures x - 0.5 < n as real <= x + 0.5
  {
    (x + 0.5).Floor
  }

  /** A real with at most two decimal places. */
  predicate IsCents(x: real)
  {
    (x * 100.0).Floor as real == x * 100.0
  }

  /** `parseFloat(x.toFixed(2))`: the nearest multiple of 1/100, a tie rounded away
      from zero (toFixed rounds the magnitude and puts the sign back). */
  function ToFixed2(x: real): (r: real)
    ensures IsCents(r)
    ensures Abs(r - x) <= 0.005
    ensures x >= 0.0 ==> r >= 0.0
  {
    var n := (Abs(x) * 100.0 + 0.5).Floor;
    var c := n as real / 100.0;
    assert c * 100.0 == n as real;
    assert (-c) * 100.0 == (-n) as real;
    assert c >= 0.0;
    if x < 0.0 then -c else c
  }

  /** A value that already has two decimals is left unchanged by `toFixed(2)`. */
  lemma ToFixed2Exact(x: real)
    requires IsCents(x)
    ensures ToFixed2(x) == x
  {
    var n := (x * 100.0).Floor;
    assert x * 100.0 == n as real;
    if x < 0.0 {
      assert (-x) * 100.0 + 0.5 == (-n) as real + 0.5;
      assert ((-x) * 100.0 + 0.5).Floor == -n;
    } else {
      assert x * 100.0 + 0.5 == n as real + 0.5;
      assert (x * 100.0 + 0.5).Floor == n;
    }
  }

  /** Rounding twice to two decimals is rounding once. */
  lemma ToFixed2Idempotent(x: real)
    ensures ToFixed2(ToFixed2(x)) == ToFixed2(x)
  {
    ToFixed2Exact(ToFixed2(x));
  }
}
