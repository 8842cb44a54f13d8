/** The black-body colour table, the colour lookup for a temperature and the
    per-channel gamma ramp built from it. Floating point is idealised as
    `real`; the `f64 as u16` casts are written out with `AsU16`. */
module Color {
  import opened Common

  /** One colour, each channel a fraction of full intensity. */
  datatype Rgb = Rgb(r: real, g: real, b: real)

  datatype ColorError = InvalidTemperature

  const MIN_TEMPERATURE: int := 1000
  const MAX_TEMPERATURE: int := 10000
  /** Kelvin between two consecutive samples of the table. */
  const TEMPERATURE_STEP: int := 100

  predicate InUnitCube(c: Rgb) {
    0.0 <= c.r <= 1.0 && 0.0 <= c.g <= 1.0 && 0.0 <= c.b <= 1.0
  }

  /** A colour whose channels all lie in [0, 1]. */
  type UnitRgb = c: Rgb | InUnitCube(c) witness Rgb(0.0, 0.0, 0.0)

  /** One entry of the table; its precondition checks each literal entry. */
  function Tint(r: real, g: real, b: real): (c: UnitRgb)
    requires 0.0 <= r <= 1.0 && 0.0 <= g <= 1.0 && 0.0 <= b <= 1.0
    ensures c == Rgb(r, g, b)
  {
    Rgb(r, g, b)
  }

  /** Black-body colours sampled every 100 K from 1000 K to 10100 K. */
  const ColorForTemperature: seq<UnitRgb> := [
    Tint(1.00000000, 0.18172716, 0.00000000),
    Tint(1.00000000, 0.25503671, 0.00000000),
    Tint(1.00000000, 0.30942099, 0.00000000),
    Tint(1.00000000, 0.35357379, 0.00000000),
    Tint(1.00000000, 0.39091524, 0.00000000),
    Tint(1.00000000, 0.42322816, 0.00000000),
    Tint(1.00000000, 0.45159884, 0.00000000),
    Tint(1.00000000, 0.47675916, 0.00000000),
    Tint(1.00000000, 0.49923747, 0.00000000),
    Tint(1.00000000, 0.51943421, 0.00000000),
    Tint(1.00000000, 0.54360078, 0.08679949),
    Tint(1.00000000, 0.56618736, 0.14065513),
    Tint(1.00000000, 0.58734976, 0.18362641),
    Tint(1.00000000, 0.60724493, 0.22137978),
    Tint(1.00000000, 0.62600248, 0.25591950),
    Tint(1.00000000, 0.64373109, 0.28819679),
    Tint(1.00000000, 0.66052319, 0.31873863),
    Tint(1.00000000, 0.67645822, 0.34786758),
    Tint(1.00000000, 0.69160518, 0.37579588),
    Tint(1.00000000, 0.70602449, 0.40267128),
    Tint(1.00000000, 0.71976951, 0.42860152),
    Tint(1.00000000, 0.73288760, 0.45366838),
    Tint(1.00000000, 0.74542112, 0.47793608),
    Tint(1.00000000, 0.75740814, 0.50145662),
    Tint(1.00000000, 0.76888303, 0.52427322),
    Tint(1.00000000, 0.77987699, 0.54642268),
    Tint(1.00000000, 0.79041843, 0.56793692),
    Tint(1.00000000, 0.80053332, 0.58884417),
    Tint(1.00000000, 0.81024551, 0.60916971),
    Tint(1.00000000, 0.81957693, 0.62893653),
    Tint(1.00000000, 0.82854786, 0.64816570),
    Tint(1.00000000, 0.83717703, 0.66687674),
    Tint(1.00000000, 0.84548188, 0.68508786),
    Tint(1.00000000, 0.85347859, 0.70281616),
    Tint(1.00000000, 0.86118227, 0.72007777),
    Tint(1.00000000, 0.86860704, 0.73688797),
    Tint(1.00000000, 0.87576611, 0.75326132),
    Tint(1.00000000, 0.88267187, 0.76921169),
    Tint(1.00000000, 0.88933596, 0.78475236),
    Tint(1.00000000, 0.89576933, 0.79989606),
    Tint(1.00000000, 0.90198230, 0.81465502),
    Tint(1.00000000, 0.90963069, 0.82838210),
    Tint(1.00000000, 0.91710889, 0.84190889),
    Tint(1.00000000, 0.92441842, 0.85523742),
    Tint(1.00000000, 0.93156127, 0.86836903),
    Tint(1.00000000, 0.93853986, 0.88130458),
    Tint(1.00000000, 0.94535695, 0.89404470),
    Tint(1.00000000, 0.95201559, 0.90658983),
    Tint(1.00000000, 0.95851906, 0.91894041),
    Tint(1.00000000, 0.96487079, 0.93109690),
    Tint(1.00000000, 0.97107439, 0.94305985),
    Tint(1.00000000, 0.97713351, 0.95482993),
    Tint(1.00000000, 0.98305189, 0.96640795),
    Tint(1.00000000, 0.98883326, 0.97779486),
    Tint(1.00000000, 0.99448139, 0.98899179),
    Tint(1.00000000, 1.00000000, 1.00000000),
    Tint(0.98947904, 0.99348723, 1.00000000),
    Tint(0.97940448, 0.98722715, 1.00000000),
    Tint(0.96975025, 0.98120637, 1.00000000),
    Tint(0.96049223, 0.97541240, 1.00000000),
    Tint(0.95160805, 0.96983355, 1.00000000),
    Tint(0.94303638, 0.96443333, 1.00000000),
    Tint(0.93480451, 0.95923080, 1.00000000),
    Tint(0.92689056, 0.95421394, 1.00000000),
    Tint(0.91927697, 0.94937330, 1.00000000),
    Tint(0.91194747, 0.94470005, 1.00000000),
    Tint(0.90488690, 0.94018594, 1.00000000),
    Tint(0.89808115, 0.93582323, 1.00000000),
    Tint(0.89151710, 0.93160469, 1.00000000),
    Tint(0.88518247, 0.92752354, 1.00000000),
    Tint(0.87906581, 0.92357340, 1.00000000),
    Tint(0.87315640, 0.91974827, 1.00000000),
    Tint(0.86744421, 0.91604254, 1.00000000),
    Tint(0.86191983, 0.91245088, 1.00000000),
    Tint(0.85657444, 0.90896831, 1.00000000),
    Tint(0.85139976, 0.90559011, 1.00000000),
    Tint(0.84638799, 0.90231183, 1.00000000),
    Tint(0.84153180, 0.89912926, 1.00000000),
    Tint(0.83682430, 0.89603843, 1.00000000),
    Tint(0.83225897, 0.89303558, 1.00000000),
    Tint(0.82782969, 0.89011714, 1.00000000),
    Tint(0.82353066, 0.88727974, 1.00000000),
    Tint(0.81935641, 0.88452017, 1.00000000),
    Tint(0.81530175, 0.88183541, 1.00000000),
    Tint(0.81136180, 0.87922257, 1.00000000),
    Tint(0.80753191, 0.87667891, 1.00000000),
    Tint(0.80380769, 0.87420182, 1.00000000),
    Tint(0.80018497, 0.87178882, 1.00000000),
    Tint(0.79665980, 0.86943756, 1.00000000),
    Tint(0.79322843, 0.86714579, 1.00000000),
    Tint(0.78988728, 0.86491137, 1.00000000),
    Tint(0.78663296, 0.86273225, 1.00000000)
  ]

  /** Every sample of the table is a colour inside the unit cube. */
  function TableColor(index: nat): (c: Rgb)
    requires index < |ColorForTemperature|
    ensures InUnitCube(c)
  {
    ColorForTemperature[index]
  }

  predicate InRange(temperature: int) {
    MIN_TEMPERATURE <= temperature <= MAX_TEMPERATURE
  }

  /** `current` of the lookup: the table sample at or just below `temperature`.
      Both it and the sample after it are inside the table. */
  function BracketIndex(temperature: int): (current: nat)
    requires InRange(temperature)
    ensures current + 1 < |ColorForTemperature|
    ensures MIN_TEMPERATURE + TEMPERATURE_STEP * current <= temperature
    ensures temperature < MIN_TEMPERATURE + TEMPERATURE_STEP * (current + 1)
  {
    (temperature - MIN_TEMPERATURE) / TEMPERATURE_STEP
  }

  /** `vek`'s `Lerp::lerp` on one channel: the factor is clamped to [0, 1]. */
  function LerpChannel(from: real, to: real, factor: real): real {
    from + (to - from) * Clamp01(factor)
  }

  /** The interpolated channel lies between its two ends and reaches them
      when the factor is clamped to 0 or to 1. */
  lemma LerpChannelBetween(from: real, to: real, factor: real)
    ensures Between(LerpChannel(from, to, factor), from, to)
    ensures factor <= 0.0 ==> LerpChannel(from, to, factor) == from
    ensures factor >= 1.0 ==> LerpChannel(from, to, factor) == to
  {
    var f := Clamp01(factor);
    var d := to - from;
    ScaledDifference(d, f);
    var p := d * f;
    assert LerpChannel(from, to, factor) == from + p;
  }

  /** Raising an unclamped factor by one hundredth moves the channel by one
      hundredth of the difference between its ends. */
  lemma LerpChannelAdvance(from: real, to: real, f: real)
    requires 0.0 <= f && f + 0.01 <= 1.0
    ensures LerpChannel(from, to, f + 0.01) - LerpChannel(from, to, f) == (to - from) / 100.0
  {
    var d := to - from;
    var p, q := d * f, d * (f + 0.01);
    assert q == p + d * 0.01;
    assert LerpChannel(from, to, f) == from + p;
    assert LerpChannel(from, to, f + 0.01) == from + q;
  }

  /** Channel-wise linear interpolation; colours in the unit cube stay in it. */
  function Lerp(from: Rgb, to: Rgb, factor: real): (c: Rgb)
    ensures InUnitCube(from) && InUnitCube(to) ==> InUnitCube(c)
    ensures factor <= 0.0 ==> c == from
    ensures factor >= 1.0 ==> c == to
  {
    LerpChannelBetween(from.r, to.r, factor);
    LerpChannelBetween(from.g, to.g, factor);
    LerpChannelBetween(from.b, to.b, factor);
    Rgb(LerpChannel(from.r, to.r, factor),
        LerpChannel(from.g, to.g, factor),
        LerpChannel(from.b, to.b, factor))
  }

  /** `find_interpolated_temperature_color` as written: a failure outside
      [1000, 10000], otherwise a lerp between the two table samples that
      bracket the temperature, with the factor `temperature % 100`, a number
      of kelvin in 0..99 rather than a fraction. A multiple of 100 gets its
      own table sample. This is the lookup the ramp fill uses. */
  function FindInterpolatedTemperatureColor(temperature: int): (r: Result<Rgb, ColorError>)
    ensures r.Failure? <==> !InRange(temperature)
    ensures r.Success? ==> InUnitCube(r.value)
    ensures r.Success? && temperature % TEMPERATURE_STEP == 0 ==>
              r.value == ColorForTemperature[(temperature - MIN_TEMPERATURE) / TEMPERATURE_STEP]
  {
    if temperature < MIN_TEMPERATURE || temperature > MAX_TEMPERATURE then
      Failure(InvalidTemperature)
    else
      var current := BracketIndex(temperature);
      Success(Lerp(TableColor(current), TableColor(current + 1), (temperature % TEMPERATURE_STEP) as real))
  }

  /** As written, every temperature that is not a multiple of 100 gets the
      colour of the next table sample: the clamped factor is already 1. */
  lemma AsWrittenSnapsToNextSample(temperature: int)
    requires InRange(temperature) && temperature % TEMPERATURE_STEP != 0
    ensures FindInterpolatedTemperatureColor(temperature)
         == Success(ColorForTemperature[BracketIndex(temperature) + 1])
  {
    var current := BracketIndex(temperature);
    var f := (temperature % TEMPERATURE_STEP) as real;
    assert f >= 1.0;
    assert Lerp(TableColor(current), TableColor(current + 1), f) == TableColor(current + 1);
  }

  /** 6550 K lies halfway between the samples for 6500 K (white) and 6600 K,
      yet the lookup as written returns the 6600 K sample itself, while the
      intended lookup returns the midpoint. */
  lemma AsWrittenMissesMidpoint()
    ensures FindInterpolatedTemperatureColor(6550) == Success(ColorForTemperature[56])
    ensures IntendedTemperatureColor(6550).Success?
    ensures IntendedTemperatureColor(6550).value.r == (1.0 + 0.98947904) / 2.0
    ensures IntendedTemperatureColor(6550).value != ColorForTemperature[56]
  {
    AsWrittenSnapsToNextSample(6550);
  }

  /** The lookup as evidently intended: a failure outside [1000, 10000],
      otherwise the linear interpolation between the two table samples that
      bracket the temperature, with the fraction `(temperature % 100) / 100`. */
  function IntendedTemperatureColor(temperature: int): (r: Result<Rgb, ColorError>)
    ensures r.Failure? <==> !InRange(temperature)
    ensures r.Success? ==> InUnitCube(r.value)
    ensures r.Success? && temperature % TEMPERATURE_STEP == 0 ==>
              r.value == ColorForTemperature[(temperature - MIN_TEMPERATURE) / TEMPERATURE_STEP]
  {
    if temperature < MIN_TEMPERATURE || temperature > MAX_TEMPERATURE then
      Failure(InvalidTemperature)
    else
      var current := BracketIndex(temperature);
      var factor := (temperature % TEMPERATURE_STEP) as real / TEMPERATURE_STEP as real;
      Success(Lerp(TableColor(current), TableColor(current + 1), factor))
  }

  /** Each kelvin moves every channel by one hundredth of the difference
      between the two table samples around it, also across a sample. */
  lemma CorrectedStepPerKelvin(temperature: int)
    requires MIN_TEMPERATURE <= temperature < MAX_TEMPERATURE
    ensures var k := BracketIndex(temperature);
            var lo, hi := ColorForTemperature[k], ColorForTemperature[k + 1];
            var c, c' := IntendedTemperatureColor(temperature).value,
                         IntendedTemperatureColor(temperature + 1).value;
            && c'.r - c.r == (hi.r - lo.r) / 100.0
            && c'.g - c.g == (hi.g - lo.g) / 100.0
            && c'.b - c.b == (hi.b - lo.b) / 100.0
  {
    if temperature % TEMPERATURE_STEP == TEMPERATURE_STEP - 1 {
      AcrossSampleStep(temperature);
    } else {
      var k := BracketIndex(temperature);
      var lo, hi := ColorForTemperature[k], ColorForTemperature[k + 1];
      var f := (temperature % TEMPERATURE_STEP) as real / 100.0;
      assert IntendedTemperatureColor(temperature).value == Lerp(lo, hi, f);
      WithinBracketStep(temperature);
      LerpChannelAdvance(lo.r, hi.r, f);
      LerpChannelAdvance(lo.g, hi.g, f);
      LerpChannelAdvance(lo.b, hi.b, f);
    }
  }

  /** At 99 K past a sample the next kelvin lands exactly on the next sample. */
  lemma AcrossSampleStep(temperature: int)
    requires MIN_TEMPERATURE <= temperature < MAX_TEMPERATURE
    requires temperature % TEMPERATURE_STEP == TEMPERATURE_STEP - 1
    ensures var k := BracketIndex(temperature);
            var lo, hi := ColorForTemperature[k], ColorForTemperature[k + 1];
            var c, c' := IntendedTemperatureColor(temperature).value,
                         IntendedTemperatureColor(temperature + 1).value;
            && c' == hi
            && c.r == lo.r + (hi.r - lo.r) * 0.99
            && c.g == lo.g + (hi.g - lo.g) * 0.99
            && c.b == lo.b + (hi.b - lo.b) * 0.99
  {
    var k := BracketIndex(temperature);
    var lo, hi := ColorForTemperature[k], ColorForTemperature[k + 1];
    assert (temperature + 1 - MIN_TEMPERATURE) / TEMPERATURE_STEP == k + 1;
    assert temperature % TEMPERATURE_STEP == 99;
    var c := IntendedTemperatureColor(temperature).value;
    assert c == Lerp(lo, hi, 0.99);
    LerpChannelInside(lo.r, hi.r, 0.99);
    LerpChannelInside(lo.g, hi.g, 0.99);
    LerpChannelInside(lo.b, hi.b, 0.99);
  }

  lemma LerpChannelInside(from: real, to: real, f: real)
    requires 0.0 <= f <= 1.0
    ensures LerpChannel(from, to, f) == from + (to - from) * f
  {
  }

  /** Inside one bracket the next kelvin keeps the bracket and adds one
      hundredth to the factor. */
  lemma WithinBracketStep(temperature: int)
    requires MIN_TEMPERATURE <= temperature < MAX_TEMPERATURE
    requires temperature % TEMPERATURE_STEP != TEMPERATURE_STEP - 1
    ensures BracketIndex(temperature + 1) == BracketIndex(temperature)
    ensures IntendedTemperatureColor(temperature + 1).value
         == Lerp(ColorForTemperature[BracketIndex(temperature)],
                 ColorForTemperature[BracketIndex(temperature) + 1],
                 (temperature % TEMPERATURE_STEP) as real / 100.0 + 0.01)
  {
    var m := temperature % TEMPERATURE_STEP;
    assert (temperature + 1) % TEMPERATURE_STEP == m + 1;
    assert (m + 1) as real / 100.0 == m as real / 100.0 + 0.01;
  }

  /** The temperature rounded up to a multiple of 100. */
  function RoundUpToSample(temperature: int): int {
    if temperature % TEMPERATURE_STEP == 0 then temperature
    else temperature - temperature % TEMPERATURE_STEP + TEMPERATURE_STEP
  }

  /** The lookup as written returns the intended colour of the next multiple
      of 100: the program's tint for t is the intended tint for t rounded up. */
  lemma AsWrittenRoundsUp(temperature: int)
    requires InRange(temperature)
    ensures InRange(RoundUpToSample(temperature)) && RoundUpToSample(temperature) % TEMPERATURE_STEP == 0
    ensures FindInterpolatedTemperatureColor(temperature) == IntendedTemperatureColor(RoundUpToSample(temperature))
  {
    if temperature % TEMPERATURE_STEP != 0 {
      var k := BracketIndex(temperature);
      var up := RoundUpToSample(temperature);
      RoundUpIsNextSample(temperature);
      assert BracketIndex(up) == k + 1;
      assert up % TEMPERATURE_STEP == 0;
      assert IntendedTemperatureColor(up) == Success(Lerp(TableColor(k + 1), TableColor(k + 2), 0.0));
      assert FindInterpolatedTemperatureColor(temperature)
          == Success(Lerp(TableColor(k), TableColor(k + 1), (temperature % TEMPERATURE_STEP) as real));
    }
  }

  /** Rounding up a temperature between two samples lands on the upper one. */
  lemma RoundUpIsNextSample(temperature: int)
    requires InRange(temperature) && temperature % TEMPERATURE_STEP != 0
    ensures RoundUpToSample(temperature) == MIN_TEMPERATURE + TEMPERATURE_STEP * (BracketIndex(temperature) + 1)
    ensures (RoundUpToSample(temperature) - MIN_TEMPERATURE) / TEMPERATURE_STEP == BracketIndex(temperature) + 1
  {
    var k := BracketIndex(temperature);
    assert temperature - temperature % TEMPERATURE_STEP == MIN_TEMPERATURE + TEMPERATURE_STEP * k;
  }

  /** 6500 K is neutral white in the lookup the ramp fill uses (and in the
      intended one): the tint leaves every channel at full scale. */
  lemma NeutralAt6500()
    ensures FindInterpolatedTemperatureColor(6500) == Success(Rgb(1.0, 1.0, 1.0))
    ensures IntendedTemperatureColor(6500) == Success(Rgb(1.0, 1.0, 1.0))
  {
    assert (6500 - MIN_TEMPERATURE) / TEMPERATURE_STEP == 55 && 6500 % TEMPERATURE_STEP == 0;
    assert ColorForTemperature[55] == Rgb(1.0, 1.0, 1.0);
  }

  /** `step` of `fill_colorramp`: the input intensity between two slots. */
  function Step(rampSize: nat): real
    requires rampSize >= 2
  {
    U16_MAX as real / (rampSize - 1) as real
  }

  /** Slot `i` of a ramp of `rampSize` slots for a channel of intensity
      `channel`. With a single slot the step is infinite and `inf * 0.0` is
      NaN, which the cast turns into 0. */
  function Sample(rampSize: nat, i: nat, channel: real): (v: u16)
    requires i < rampSize
    ensures i == 0 ==> v == 0
  {
    if rampSize == 1 then 0 else AsU16(Step(rampSize) * i as real * channel)
  }

  /** For a channel in [0, 1] the scaled intensity never exceeds 65535, so
      the cast only truncates and never saturates. */
  lemma SampleNeverSaturates(rampSize: nat, i: nat, channel: real)
    requires 2 <= rampSize && i < rampSize && 0.0 <= channel <= 1.0
    ensures 0.0 <= Step(rampSize) * i as real * channel <= U16_MAX as real
    ensures Sample(rampSize, i, channel) == (Step(rampSize) * i as real * channel).Floor
  {
    var s := Step(rampSize);
    var top := (rampSize - 1) as real;
    StepTimesSlots(rampSize);
    NonNegativeProduct(s, (rampSize - 1 - i) as real);
    assert s * (rampSize - 1 - i) as real == s * top - s * i as real;
    var x := s * i as real;
    assert 0.0 <= x <= U16_MAX as real;
    ScaledDifference(x, channel);
    assert x * channel == s * i as real * channel;
  }

  /** The last slot's input intensity is exactly full scale. */
  lemma StepTimesSlots(rampSize: nat)
    requires rampSize >= 2
    ensures 0.0 < Step(rampSize)
    ensures Step(rampSize) * (rampSize - 1) as real == U16_MAX as real
  {
  }

  /** A full-intensity channel reaches 65535 in the last slot. */
  lemma SampleTopIsFullScale(rampSize: nat)
    requires rampSize >= 2
    ensures Sample(rampSize, rampSize - 1, 1.0) == U16_MAX
  {
    StepTimesSlots(rampSize);
  }

  /** The ramp is non-decreasing along its slots for any non-negative channel. */
  lemma SampleMonotone(rampSize: nat, i: nat, j: nat, channel: real)
    requires i <= j < rampSize && 0.0 <= channel
    ensures Sample(rampSize, i, channel) <= Sample(rampSize, j, channel)
  {
    if rampSize >= 2 {
      var s := Step(rampSize);
      StepTimesSlots(rampSize);
      IntensityMonotone(s, i, j, channel);
      AsU16Monotone(Intensity(s, i, channel), Intensity(s, j, channel));
      assert Sample(rampSize, i, channel) == AsU16(Intensity(s, i, channel));
      assert Sample(rampSize, j, channel) == AsU16(Intensity(s, j, channel));
    }
  }

  /** The input intensity of slot `i` for a step `s`. */
  function Intensity(s: real, i: nat, channel: real): real {
    s * i as real * channel
  }

  /** A later slot never has a lower input intensity. */
  lemma IntensityMonotone(s: real, i: nat, j: nat, channel: real)
    requires 0.0 <= s && i <= j && 0.0 <= channel
    ensures Intensity(s, i, channel) <= Intensity(s, j, channel)
  {
    NonNegativeProduct(s, (j - i) as real);
    assert s * (j - i) as real == s * j as real - s * i as real;
    var x, y := s * i as real, s * j as real;
    NonNegativeProduct(y - x, channel);
    assert (y - x) * channel == y * channel - x * channel;
  }

  /** The ramp of one channel: `rampSize` samples. */
  function ChannelRamp(rampSize: nat, channel: real): (ramp: seq<u16>)
    ensures |ramp| == rampSize
    ensures forall i :: 0 <= i < rampSize ==> ramp[i] == Sample(rampSize, i, channel)
  {
    seq(rampSize, i requires 0 <= i < rampSize => Sample(rampSize, i, channel))
  }

  /** Every channel ramp starts at 0, stays in range and never decreases. */
  lemma ChannelRampShape(rampSize: nat, channel: real)
    requires rampSize >= 1 && 0.0 <= channel <= 1.0
    ensures ChannelRamp(rampSize, channel)[0] == 0
    ensures forall i, j :: 0 <= i <= j < rampSize ==>
              ChannelRamp(rampSize, channel)[i] <= ChannelRamp(rampSize, channel)[j]
  {
    var ramp := ChannelRamp(rampSize, channel);
    forall i, j | 0 <= i <= j < rampSize ensures ramp[i] <= ramp[j] {
      SampleMonotone(rampSize, i, j, channel);
    }
  }

  /** Fills slots `0..rampSize` of `r`, `g` and `b` with the ramp for
      `temperature`, or fails before writing anything when the temperature is
      out of range. The three slices are distinct, as `&mut` borrows are. */
  method FillColorRamp(r: array<u16>, g: array<u16>, b: array<u16>, rampSize: nat, temperature: u16)
    returns (res: Result<(), ColorError>)
    requires r != g && g != b && r != b
    requires rampSize >= 1
    requires r.Length >= rampSize && g.Length >= rampSize && b.Length >= rampSize
    modifies r, g, b
    ensures res.Failure? <==> FindInterpolatedTemperatureColor(temperature).Failure?
    ensures res.Failure? ==> r[..] == old(r[..]) && g[..] == old(g[..]) && b[..] == old(b[..])
    ensures res.Success? ==>
              var c := FindInterpolatedTemperatureColor(temperature).value;
              && r[..rampSize] == ChannelRamp(rampSize, c.r)
              && g[..rampSize] == ChannelRamp(rampSize, c.g)
              && b[..rampSize] == ChannelRamp(rampSize, c.b)
    ensures r[rampSize..] == old(r[rampSize..]) && g[rampSize..] == old(g[rampSize..])
    ensures b[rampSize..] == old(b[rampSize..])
  {
    var lookup := FindInterpolatedTemperatureColor(temperature);
    if lookup.Failure? {
      return Failure(lookup.error);
    }
    var c := lookup.value;
    for i := 0 to rampSize
      invariant forall k :: 0 <= k < i ==> r[k] == Sample(rampSize, k, c.r)
      invariant forall k :: 0 <= k < i ==> g[k] == Sample(rampSize, k, c.g)
      invariant forall k :: 0 <= k < i ==> b[k] == Sample(rampSize, k, c.b)
      invariant forall k :: i <= k < r.Length ==> r[k] == old(r[k])
      invariant forall k :: i <= k < g.Length ==> g[k] == old(g[k])
      invariant forall k :: i <= k < b.Length ==> b[k] == old(b[k])
    {
      r[i] := Sample(rampSize, i, c.r);
      g[i] := Sample(rampSize, i, c.g);
      b[i] := Sample(rampSize, i, c.b);
    }
    assert r[..rampSize] == ChannelRamp(rampSize, c.r);
    assert g[..rampSize] == ChannelRamp(rampSize, c.g);
    assert b[..rampSize] == ChannelRamp(rampSize, c.b);
    return Success(());
  }
}
