// clamp from src/modules/util.ts. JavaScript numbers are modelled as
// reals: the function only compares, so no rounding is involved.

module Util {

  /** clamp: min when the value lies below min, otherwise max when it lies
      above max, otherwise the value itself. */
  function Clamp(value: real, min: real, max: real): (r: real)
    ensures value < min ==> r == min
    ensures min <= value && max < value ==> r == max
    ensures min <= value <= max ==> r == value
  {
    if value < min then min
    else if value > max then max
    else value
  }

  /** With a well-formed range the result lies inside it. */
  lemma {:induction false} ClampInRange(value: real, min: real, max: real)
    requires min <= max
    ensures min <= Clamp(value, min, max) <= max
  {
  }

  /** Clamping a clamped value changes nothing. */
  lemma {:induction false} ClampIdempotent(value: real, min: real, max: real)
    requires min <= max
    ensures Clamp(Clamp(value, min, max), min, max) == Clamp(value, min, max)
  {
    ClampInRange(value, min, max);
  }
}
