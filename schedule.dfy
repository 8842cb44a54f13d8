/** The sun-phase temperature schedule: a piecewise target temperature over
    the four sun-phase timestamps of a day, with linear twilight ramps.
    Timestamps are whole seconds; the `f64` arithmetic is idealised as `real`. */
module Schedule {
  import opened Common

  const HIGH_TEMP: u16 := 6500
  const LOW_TEMP: u16 := 4000

  /** A point in time, in seconds. */
  type Timestamp = int

  /** The phase timestamps of one day, as the astronomical code returns them. */
  datatype Sun = Sun(dawn: Timestamp, sunrise: Timestamp, sunset: Timestamp, dusk: Timestamp)

  /** The order the astronomical code is expected to deliver; nothing checks it. */
  predicate Ordered(sun: Sun) {
    sun.dawn <= sun.sunrise <= sun.sunset <= sun.dusk
  }

  /** Elapsed fraction of the window from `start` to `stop`, clamped to [0, 1]. */
  function TimeFraction(now: Timestamp, start: Timestamp, stop: Timestamp): (p: real)
    requires start != stop
    ensures 0.0 <= p <= 1.0
    ensures now == start ==> p == 0.0
    ensures start < stop <= now ==> p == 1.0
  {
    var elapsed, length := (now - start) as real, (stop - start) as real;
    assert now == start ==> elapsed / length == 0.0;
    assert start < stop <= now ==> elapsed / length >= 1.0;
    Clamp01(elapsed / length)
  }

  /** `interpolate_temperature`: the temperature `now` on the ramp from
      `tempStart` at `start` to `tempStop` at `stop`, truncated to `u16`. */
  function InterpolateTemperature(now: Timestamp, start: Timestamp, stop: Timestamp,
                                  tempStart: u16, tempStop: u16): (t: u16)
    ensures Between(t as real, tempStart as real, tempStop as real)
    ensures start == stop ==> t == tempStop
    ensures start != stop && now == start ==> t == tempStart
    ensures start < stop <= now ==> t == tempStop
  {
    if start == stop then tempStop
    else
      var pos := TimeFraction(now, start, stop);
      RampPointBetween(tempStart, tempStop, pos);
      CastBetween(RampPoint(tempStart, tempStop, pos), tempStart, tempStop);
      AsU16(RampPoint(tempStart, tempStop, pos))
  }

  /** `temp_start + (temp_stop - temp_start) * time_pos`, before the cast. */
  function RampPoint(tempStart: u16, tempStop: u16, pos: real): real {
    tempStart as real + (tempStop - tempStart) as real * pos
  }

  lemma RampPointBetween(tempStart: u16, tempStop: u16, pos: real)
    requires 0.0 <= pos <= 1.0
    ensures tempStart <= tempStop ==> tempStart as real <= RampPoint(tempStart, tempStop, pos) <= tempStop as real
    ensures tempStop <= tempStart ==> tempStop as real <= RampPoint(tempStart, tempStop, pos) <= tempStart as real
    ensures pos == 0.0 ==> RampPoint(tempStart, tempStop, pos) == tempStart as real
    ensures pos == 1.0 ==> RampPoint(tempStart, tempStop, pos) == tempStop as real
  {
    var d := (tempStop - tempStart) as real;
    ScaledDifference(d, pos);
    var p := d * pos;
    assert RampPoint(tempStart, tempStop, pos) == tempStart as real + p;
  }

  /** Moving further along the window moves the ramp point toward the stop. */
  lemma RampPointMonotone(tempStart: u16, tempStop: u16, p1: real, p2: real)
    requires p1 <= p2
    ensures tempStart <= tempStop ==> RampPoint(tempStart, tempStop, p1) <= RampPoint(tempStart, tempStop, p2)
    ensures tempStop <= tempStart ==> RampPoint(tempStart, tempStop, p2) <= RampPoint(tempStart, tempStop, p1)
  {
    var d := (tempStop - tempStart) as real;
    var q1, q2 := d * p1, d * p2;
    assert RampPoint(tempStart, tempStop, p1) == tempStart as real + q1;
    assert RampPoint(tempStart, tempStop, p2) == tempStart as real + q2;
    if tempStart <= tempStop {
      NonNegativeProduct(d, p2 - p1);
      assert d * (p2 - p1) == q2 - q1;
    } else {
      NonNegativeProduct(-d, p2 - p1);
      assert (-d) * (p2 - p1) == q1 - q2;
    }
  }

  /** A real between two `u16` values is cast to a value between them. */
  lemma CastBetween(x: real, a: u16, b: u16)
    requires a <= b ==> a as real <= x <= b as real
    requires b <= a ==> b as real <= x <= a as real
    ensures Between(AsU16(x) as real, a as real, b as real)
  {
    AsU16Exact(a);
    AsU16Exact(b);
    if a <= b {
      AsU16Monotone(a as real, x);
      AsU16Monotone(x, b as real);
    } else {
      AsU16Monotone(b as real, x);
      AsU16Monotone(x, a as real);
    }
  }

  /** Later in a window never means further from the stop temperature. */
  lemma InterpolateMonotone(n1: Timestamp, n2: Timestamp, start: Timestamp, stop: Timestamp,
                            tempStart: u16, tempStop: u16)
    requires start < stop && n1 <= n2
    ensures tempStart <= tempStop ==>
              InterpolateTemperature(n1, start, stop, tempStart, tempStop)
              <= InterpolateTemperature(n2, start, stop, tempStart, tempStop)
    ensures tempStop <= tempStart ==>
              InterpolateTemperature(n2, start, stop, tempStart, tempStop)
              <= InterpolateTemperature(n1, start, stop, tempStart, tempStop)
  {
    FractionMonotone(n1, n2, start, stop);
    var p1, p2 := TimeFraction(n1, start, stop), TimeFraction(n2, start, stop);
    RampPointMonotone(tempStart, tempStop, p1, p2);
    var x1, x2 := RampPoint(tempStart, tempStop, p1), RampPoint(tempStart, tempStop, p2);
    if tempStart <= tempStop {
      AsU16Monotone(x1, x2);
    } else {
      AsU16Monotone(x2, x1);
    }
  }

  lemma FractionMonotone(n1: Timestamp, n2: Timestamp, start: Timestamp, stop: Timestamp)
    requires start < stop && n1 <= n2
    ensures TimeFraction(n1, start, stop) <= TimeFraction(n2, start, stop)
  {
    QuotientMonotone((n1 - start) as real, (n2 - start) as real, (stop - start) as real);
  }

  lemma QuotientMonotone(a: real, b: real, c: real)
    requires a <= b && 0.0 < c
    ensures a / c <= b / c
  {
    NonNegativeProduct(b - a, 1.0 / c);
    assert (b - a) * (1.0 / c) == b / c - a / c;
  }

  /** `get_temperature`: low before dawn, a ramp up to sunrise, high until
      sunset, a ramp down to dusk, low afterwards. */
  function GetTemperature(now: Timestamp, sun: Sun): (t: u16)
    ensures LOW_TEMP <= t <= HIGH_TEMP
  {
    if now < sun.dawn then LOW_TEMP
    else if now < sun.sunrise then InterpolateTemperature(now, sun.dawn, sun.sunrise, LOW_TEMP, HIGH_TEMP)
    else if now < sun.sunset then HIGH_TEMP
    else if now < sun.dusk then InterpolateTemperature(now, sun.sunset, sun.dusk, HIGH_TEMP, LOW_TEMP)
    else LOW_TEMP
  }

  /** On an ordered day the night is low, the day is high and the two
      twilight ramps start at the temperature of the phase they leave. */
  lemma GetTemperaturePhases(now: Timestamp, sun: Sun)
    requires Ordered(sun)
    ensures now < sun.dawn || sun.dusk <= now ==> GetTemperature(now, sun) == LOW_TEMP
    ensures sun.sunrise <= now < sun.sunset ==> GetTemperature(now, sun) == HIGH_TEMP
    ensures now == sun.dawn < sun.sunrise ==> GetTemperature(now, sun) == LOW_TEMP
    ensures now == sun.sunset < sun.dusk ==> GetTemperature(now, sun) == HIGH_TEMP
  {
  }

  /** Inside each twilight window the start is strictly before the stop, so
      the degenerate-window guard of the interpolation is never what answers,
      and the ramp is the plain rational formula, truncated. */
  lemma TwilightFormula(now: Timestamp, sun: Sun)
    ensures sun.dawn <= now < sun.sunrise ==>
              && sun.dawn < sun.sunrise
              && GetTemperature(now, sun)
                 == AsU16(4000.0 + 2500.0 * (now - sun.dawn) as real / (sun.sunrise - sun.dawn) as real)
    ensures sun.dawn <= now && sun.sunrise <= now && sun.sunset <= now < sun.dusk ==>
              && sun.sunset < sun.dusk
              && GetTemperature(now, sun)
                 == AsU16(6500.0 - 2500.0 * (now - sun.sunset) as real / (sun.dusk - sun.sunset) as real)
  {
    if sun.dawn <= now < sun.sunrise {
      var p := (now - sun.dawn) as real / (sun.sunrise - sun.dawn) as real;
      QuotientBelowOne(now - sun.dawn, sun.sunrise - sun.dawn);
      assert TimeFraction(now, sun.dawn, sun.sunrise) == p;
      assert 2500.0 * p == 2500.0 * (now - sun.dawn) as real / (sun.sunrise - sun.dawn) as real;
    }
    if sun.dawn <= now && sun.sunrise <= now && sun.sunset <= now < sun.dusk {
      var p := (now - sun.sunset) as real / (sun.dusk - sun.sunset) as real;
      QuotientBelowOne(now - sun.sunset, sun.dusk - sun.sunset);
      assert TimeFraction(now, sun.sunset, sun.dusk) == p;
      assert -2500.0 * p == -(2500.0 * (now - sun.sunset) as real / (sun.dusk - sun.sunset) as real);
    }
  }

  lemma QuotientBelowOne(a: int, b: int)
    requires 0 <= a < b
    ensures 0.0 <= a as real / b as real < 1.0
  {
    NonNegativeProduct(a as real, 1.0 / b as real);
    assert a as real / b as real < b as real / b as real;
  }

  /** The morning ramp never goes down and the evening ramp never goes up. */
  lemma GetTemperatureMonotoneInTwilight(n1: Timestamp, n2: Timestamp, sun: Sun)
    requires n1 <= n2
    ensures sun.dawn <= n1 && n2 < sun.sunrise ==>
              GetTemperature(n1, sun) <= GetTemperature(n2, sun)
    ensures sun.dawn <= n1 && sun.sunrise <= n1 && sun.sunset <= n1 && n2 < sun.dusk ==>
              GetTemperature(n2, sun) <= GetTemperature(n1, sun)
  {
    if sun.dawn <= n1 && n2 < sun.sunrise {
      InterpolateMonotone(n1, n2, sun.dawn, sun.sunrise, LOW_TEMP, HIGH_TEMP);
    }
    if sun.dawn <= n1 && sun.sunrise <= n1 && sun.sunset <= n1 && n2 < sun.dusk {
      InterpolateMonotone(n1, n2, sun.sunset, sun.dusk, HIGH_TEMP, LOW_TEMP);
    }
  }

  /** An hour-long dawn: 4000 K when it starts, 5250 K half way, 6500 K at
      sunrise. */
  lemma HourLongDawn(t0: Timestamp, sun: Sun)
    requires sun.dawn == t0 && sun.sunrise == t0 + 3600 && t0 + 3600 < sun.sunset
    ensures GetTemperature(t0, sun) == 4000
    ensures GetTemperature(t0 + 1800, sun) == 5250
    ensures GetTemperature(t0 + 3600, sun) == 6500
  {
    assert TimeFraction(t0 + 1800, t0, t0 + 3600) == 0.5;
    AsU16Exact(5250);
  }

  /** A zero-length dawn answers with the sunrise side at that instant. */
  lemma InstantDawn(sun: Sun)
    requires sun.dawn == sun.sunrise < sun.sunset
    ensures GetTemperature(sun.dawn, sun) == HIGH_TEMP
  {
  }

  /** Strictly after sunset and before dusk the temperature is below the
      daytime value but never below the night value; truncation toward zero
      can reach 4000 K shortly before dusk. */
  lemma EveningTwilightRange(now: Timestamp, sun: Sun)
    requires Ordered(sun) && sun.sunset < now < sun.dusk
    ensures LOW_TEMP <= GetTemperature(now, sun) < HIGH_TEMP
  {
    var p := TimeFraction(now, sun.sunset, sun.dusk);
    var e, l := (now - sun.sunset) as real, (sun.dusk - sun.sunset) as real;
    NonNegativeProduct(e, 1.0 / l);
    assert e / l == e * (1.0 / l);
    assert 0.0 < e / l by {
      assert e * (1.0 / l) != 0.0;
    }
    QuotientBelowOne(now - sun.sunset, sun.dusk - sun.sunset);
    assert 0.0 < p;
    var x := 6500.0 + (-2500.0) * p;
    assert x < 6500.0;
    assert GetTemperature(now, sun) == AsU16(x);
  }
}
