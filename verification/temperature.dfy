/**
 * The temperature arithmetic of `updateDaySchedule`: a schedule value is a
 * temperature in degrees Celsius; the adjustment is given in degrees
 * Fahrenheit. Each value is converted to Fahrenheit, the adjustment is added,
 * and the sum is converted back. The conversion is exact over the reals here;
 * the host's floating-point arithmetic is not modelled.
 */
module Temperature {

  function CelsiusToFahrenheit(c: real): real {
    c * 9.0 / 5.0 + 32.0
  }

  function FahrenheitToCelsius(f: real): real {
    (f - 32.0) * 5.0 / 9.0
  }

  /** The value written for a shifted breakpoint: `v` moved by `adjustment` degrees Fahrenheit. */
  function Shifted(v: real, adjustment: real): (r: real)
    ensures r - v == adjustment * 5.0 / 9.0
    ensures adjustment > 0.0 ==> r > v
    ensures adjustment < 0.0 ==> r < v
  {
    FahrenheitToCelsius(CelsiusToFahrenheit(v) + adjustment)
  }

  /** The value written by the pass-through branch: converted to Fahrenheit and straight back. */
  function Unshifted(v: real): (r: real)
    ensures r == v
  {
    FahrenheitToCelsius(CelsiusToFahrenheit(v))
  }

  /** Shifting by an adjustment and then by its negation gives back the original value. */
  lemma ShiftRoundTrip(v: real, adjustment: real)
    ensures Shifted(Shifted(v, adjustment), -adjustment) == v
  {
    var once := Shifted(v, adjustment);
    assert once - v == adjustment * 5.0 / 9.0;
    assert Shifted(once, -adjustment) - once == -adjustment * 5.0 / 9.0;
  }
}
