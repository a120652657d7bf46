/** Real arithmetic for times and positions. */
module Reals {

  function Max(a: real, b: real): real { if a < b then b else a }
  function Min(a: real, b: real): real { if b < a then b else a }
  function Abs(a: real): real { if a < 0.0 then -a else a }
  function Clamp(x: real, low: real, high: real): real { Min(high, Max(low, x)) }

  function Times(k: real, x: real): real { k * x }

  /** The point a fraction `k` of the way. */
  function Mix(from: real, to: real, k: real): real { from + Times(k, to - from) }

  lemma MixBetween(from: real, to: real, k: real)
    requires 0.0 <= k <= 1.0
    ensures Min(from, to) <= Mix(from, to, k) <= Max(from, to)
  {
    hide Times;
    TimesConvex(k, to - from);
  }

  lemma TimesConvex(k: real, x: real)
    requires 0.0 <= k <= 1.0
    ensures x >= 0.0 ==> 0.0 <= Times(k, x) <= x
    ensures x <= 0.0 ==> x <= Times(k, x) <= 0.0
  {
    Convex(k, x);
  }

  lemma Convex(k: real, x: real)
    requires 0.0 <= k <= 1.0
    ensures x >= 0.0 ==> 0.0 <= k * x <= x
    ensures x <= 0.0 ==> x <= k * x <= 0.0
  {
    Scaled(k, x);
    Scaled(1.0 - k, x);
    assert (1.0 - k) * x == x - k * x;
  }

  lemma Scaled(k: real, x: real)
    requires k >= 0.0
    ensures (x >= 0.0 ==> k * x >= 0.0) && (x <= 0.0 ==> k * x <= 0.0)
  {
  }
}
