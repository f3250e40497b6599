/**
 * The pure decision logic of the fan governor: the temperature-to-speed
 * curve, the fusion of the CPU and NVMe readings into one effective
 * temperature, and the debounce state machine that decides the next fan
 * speed and the two dwell timers.
 *
 * Temperatures (degrees Celsius), times (seconds) and fan speeds are reals:
 * the governor keeps the curve's fractional value as its current speed and
 * truncates it only when it hands it to the fan driver.
 */
module FanGovernor {
  import opened Wrappers

  // Band thresholds, degrees Celsius.
  const LOW_TEMP_THRESHOLD: real := 45.0
  const HIGH_TEMP_THRESHOLD: real := 55.0
  const VERY_HIGH_TEMP_THRESHOLD: real := 75.0

  // Calibration offset added to the NVMe reading, degrees Celsius.
  const NVME_TEMP_OFFSET: real := 5.0

  // Fan speeds on the driver's 0..255 scale.
  const FAN_OFF: real := 0.0
  const FAN_MIN: real := 100.0
  const FAN_MAX: real := 255.0

  // Dwell times, seconds.
  const LOW_TEMP_DURATION: real := 30.0
  const VERY_HIGH_TEMP_DURATION: real := 10.0

  /**
   * The power term `temp_factor ** 1.5` of the curve. Its floating-point
   * value is not modelled: every result below holds whatever this
   * function returns.
   */
  type Power = real -> real

  /** A speed the governor may run at: off, or between the minimum and the maximum. */
  predicate IsFanSpeed(speed: real) {
    speed == FAN_OFF || FAN_MIN <= speed <= FAN_MAX
  }

  /** The temperature bands, checked in the order the governor checks them. */
  predicate IsCritical(temp: real) { temp >= VERY_HIGH_TEMP_THRESHOLD }
  predicate IsHigh(temp: real) { HIGH_TEMP_THRESHOLD <= temp < VERY_HIGH_TEMP_THRESHOLD }
  predicate IsMid(temp: real) { LOW_TEMP_THRESHOLD <= temp < HIGH_TEMP_THRESHOLD }
  predicate IsLow(temp: real) { temp < LOW_TEMP_THRESHOLD }

  /** `min(max(lo, x), hi)` for `lo <= hi`. */
  function Clamp(lo: real, x: real, hi: real): (r: real)
    requires lo <= hi
    ensures lo <= r <= hi
    ensures lo <= x <= hi ==> r == x
  {
    if x < lo then lo else if x > hi then hi else x
  }

  // ---------------------------------------------------------------------
  // Speed curve
  // ---------------------------------------------------------------------

  /** Position of `temp` inside the high band, 0 at its bottom and 1 at its top. */
  function TempFactor(temp: real): real {
    (temp - HIGH_TEMP_THRESHOLD) / (VERY_HIGH_TEMP_THRESHOLD - HIGH_TEMP_THRESHOLD)
  }

  /**
   * The speed curve: the minimum below the high band, the maximum from the
   * critical threshold up, and in between the minimum plus the power term's
   * share of the range, clamped to [FAN_MIN, FAN_MAX].
   */
  function DynamicSpeed(temp: real, pow: Power): (speed: real)
    ensures IsCritical(temp) ==> speed == FAN_MAX
    ensures temp < HIGH_TEMP_THRESHOLD ==> speed == FAN_MIN
    ensures FAN_MIN <= speed <= FAN_MAX
  {
    if temp >= VERY_HIGH_TEMP_THRESHOLD then
      FAN_MAX
    else if temp >= HIGH_TEMP_THRESHOLD then
      var speed := FAN_MIN + pow(TempFactor(temp)) * (FAN_MAX - FAN_MIN);
      Clamp(FAN_MIN, speed, FAN_MAX)
    else
      FAN_MIN
  }

  /**
   * Inside the high band the clamp is inert exactly when the power term
   * stays within [0, 1]; then the curve is the plain interpolation.
   */
  lemma DynamicSpeedInterpolates(temp: real, pow: Power)
    requires IsHigh(temp)
    ensures 0.0 <= TempFactor(temp) < 1.0
    ensures 0.0 <= pow(TempFactor(temp)) <= 1.0
        <==> DynamicSpeed(temp, pow) == FAN_MIN + pow(TempFactor(temp)) * (FAN_MAX - FAN_MIN)
  {
  }

  /** The power term never decreases on the unit interval. */
  ghost predicate MonotoneOnUnit(pow: Power) {
    forall x: real, y: real :: 0.0 <= x <= y < 1.0 ==> pow(x) <= pow(y)
  }

  /**
   * The curve never decreases in the temperature, provided the power term
   * never decreases on [0, 1): across the band edges the clamp does the work.
   */
  lemma DynamicSpeedMonotone(t1: real, t2: real, pow: Power)
    requires MonotoneOnUnit(pow)
    requires t1 <= t2
    ensures DynamicSpeed(t1, pow) <= DynamicSpeed(t2, pow)
  {
  }

  // ---------------------------------------------------------------------
  // Temperature fusion
  // ---------------------------------------------------------------------

  /** The exception `max()` raises when it is given an empty list. */
  datatype FusionError = EmptyMax

  /** Python truthiness of an optional reading: present and non-zero. */
  predicate IsTruthy(reading: Option<real>) {
    reading.Some? && reading.value != 0.0
  }

  /**
   * The effective temperature: nothing when both sensors are silent,
   * otherwise the larger of the CPU reading and the NVMe reading plus its
   * offset. An NVMe reading of exactly 0.0 fails the truthiness test and is
   * dropped; if the CPU reading is missing too, the maximum is taken over
   * nothing and raises.
   */
  function EffectiveTemperature(cpu: Option<real>, nvme: Option<real>): (r: Result<Option<real>, FusionError>)
    ensures r == Ok(None) <==> cpu.None? && nvme.None?
    ensures r.Err? <==> cpu.None? && nvme == Some(0.0)
    ensures r.Ok? && r.value.Some? ==>
              var t := r.value.value;
              (cpu.Some? ==> cpu.value <= t) &&
              (IsTruthy(nvme) ==> nvme.value + NVME_TEMP_OFFSET <= t) &&
              ((cpu.Some? && t == cpu.value) || (IsTruthy(nvme) && t == nvme.value + NVME_TEMP_OFFSET))
  {
    if cpu.None? && nvme.None? then
      Ok(None)
    else
      var adjusted := if IsTruthy(nvme) then Some(nvme.value + NVME_TEMP_OFFSET) else None;
      match (cpu, adjusted)
      case (Some(c), Some(a)) => Ok(Some(if c >= a then c else a))
      case (Some(c), None) => Ok(Some(c))
      case (None, Some(a)) => Ok(Some(a))
      case (None, None) => Err(EmptyMax)
  }

  /** A present NVMe reading of 0.0 is ignored even when it would have been the hottest. */
  lemma ZeroNvmeReadingIgnored(cpu: real)
    ensures EffectiveTemperature(Some(cpu), Some(0.0)) == Ok(Some(cpu))
  {
  }

  /** The fusion example: CPU at 50 and NVMe at 40 (+5) give 50. */
  lemma FusionExample()
    ensures EffectiveTemperature(Some(50.0), Some(40.0)) == Ok(Some(50.0))
  {
  }

  // ---------------------------------------------------------------------
  // Debounce state machine
  // ---------------------------------------------------------------------

  /**
   * The tuple `decide_fan_speed` returns: the speed and both dwell timers.
   * The control loop keeps the same three values between polls as its own
   * state (`ControlLoop.ControllerState`).
   */
  datatype Decision = Decision(speed: real, lowStart: Option<real>, veryHighStart: Option<real>)

  /**
   * One decision of the debounce state machine at time `now`. A critical
   * temperature starts (or keeps) the critical timer and commits FAN_MAX
   * once it has run for more than VERY_HIGH_TEMP_DURATION, dropping the low
   * timer then; the high band commits the curve at once and drops both
   * timers; a low temperature starts (or keeps) the low timer and commits
   * FAN_OFF once it has run for more than LOW_TEMP_DURATION, dropping the
   * critical timer then. Everything else — the mid band, and a dwell not
   * yet elapsed — keeps the current speed and the other timer as they were.
   */
  function DecideFanSpeed(temp: real, currentSpeed: real, lowStart: Option<real>,
                          veryHighStart: Option<real>, now: real, pow: Power): (d: Decision)
    // a running speed stays a running speed: never strictly between off and the minimum
    ensures IsFanSpeed(currentSpeed) ==> IsFanSpeed(d.speed)
    // the speed changes only in the high band or once a dwell timer started on
    // an earlier decision has run past its duration
    ensures d.speed != currentSpeed ==>
              IsHigh(temp) ||
              (IsCritical(temp) && veryHighStart.Some? && now - veryHighStart.value > VERY_HIGH_TEMP_DURATION
               && d.speed == FAN_MAX) ||
              (IsLow(temp) && lowStart.Some? && now - lowStart.value > LOW_TEMP_DURATION
               && d.speed == FAN_OFF)
  {
    if temp >= VERY_HIGH_TEMP_THRESHOLD then
      var start := veryHighStart.GetOr(now);
      if now - start > VERY_HIGH_TEMP_DURATION then
        Decision(FAN_MAX, None, Some(start))
      else
        Decision(currentSpeed, lowStart, Some(start))
    else if HIGH_TEMP_THRESHOLD <= temp < VERY_HIGH_TEMP_THRESHOLD then
      Decision(DynamicSpeed(temp, pow), None, None)
    else if temp < LOW_TEMP_THRESHOLD then
      var start := lowStart.GetOr(now);
      if now - start > LOW_TEMP_DURATION then
        Decision(FAN_OFF, Some(start), None)
      else
        Decision(currentSpeed, Some(start), veryHighStart)
    else
      Decision(currentSpeed, lowStart, veryHighStart)
  }

  /** High band: the curve value is committed at once and both timers are dropped. */
  lemma DecideHighBand(temp: real, currentSpeed: real, lowStart: Option<real>,
                       veryHighStart: Option<real>, now: real, pow: Power)
    requires IsHigh(temp)
    ensures var d := DecideFanSpeed(temp, currentSpeed, lowStart, veryHighStart, now, pow);
            d.speed == DynamicSpeed(temp, pow) && FAN_MIN <= d.speed <= FAN_MAX &&
            d.lowStart.None? && d.veryHighStart.None?
  {
  }

  /**
   * Critical band: the critical timer starts at `now` if it was not running
   * and is kept otherwise; FAN_MAX is committed, and the low timer dropped,
   * only when the timer has run strictly longer than VERY_HIGH_TEMP_DURATION;
   * until then the speed and the low timer stay as they were.
   */
  lemma DecideCriticalBand(temp: real, currentSpeed: real, lowStart: Option<real>,
                           veryHighStart: Option<real>, now: real, pow: Power)
    requires IsCritical(temp)
    ensures var d := DecideFanSpeed(temp, currentSpeed, lowStart, veryHighStart, now, pow);
            var start := if veryHighStart.Some? then veryHighStart.value else now;
            d.veryHighStart == Some(start) &&
            (veryHighStart.None? ==> d.speed == currentSpeed && d.lowStart == lowStart) &&
            (now - start > VERY_HIGH_TEMP_DURATION ==> d.speed == FAN_MAX && d.lowStart.None?) &&
            (now - start <= VERY_HIGH_TEMP_DURATION ==> d.speed == currentSpeed && d.lowStart == lowStart)
  {
  }

  /**
   * Low band: the low timer starts at `now` if it was not running and is
   * kept otherwise; FAN_OFF is committed, and the critical timer dropped,
   * only when the timer has run strictly longer than LOW_TEMP_DURATION;
   * until then the speed and the critical timer stay as they were.
   */
  lemma DecideLowBand(temp: real, currentSpeed: real, lowStart: Option<real>,
                      veryHighStart: Option<real>, now: real, pow: Power)
    requires IsLow(temp)
    ensures var d := DecideFanSpeed(temp, currentSpeed, lowStart, veryHighStart, now, pow);
            var start := if lowStart.Some? then lowStart.value else now;
            d.lowStart == Some(start) &&
            (lowStart.None? ==> d.speed == currentSpeed && d.veryHighStart == veryHighStart) &&
            (now - start > LOW_TEMP_DURATION ==> d.speed == FAN_OFF && d.veryHighStart.None?) &&
            (now - start <= LOW_TEMP_DURATION ==> d.speed == currentSpeed && d.veryHighStart == veryHighStart)
  {
  }

  /** Mid band: nothing changes, in particular a running low timer keeps running. */
  lemma DecideMidBand(temp: real, currentSpeed: real, lowStart: Option<real>,
                      veryHighStart: Option<real>, now: real, pow: Power)
    requires IsMid(temp)
    ensures DecideFanSpeed(temp, currentSpeed, lowStart, veryHighStart, now, pow)
            == Decision(currentSpeed, lowStart, veryHighStart)
  {
  }

  /**
   * Low dwell: two low readings, the first one starting the timer at `t0`,
   * turn the fan off at the second one exactly when more than
   * LOW_TEMP_DURATION seconds lie between them; otherwise the speed holds.
   */
  lemma LowDwell(temp1: real, temp2: real, speed: real, veryHighStart: Option<real>,
                 t0: real, t1: real, pow: Power)
    requires IsLow(temp1) && IsLow(temp2)
    ensures var d1 := DecideFanSpeed(temp1, speed, None, veryHighStart, t0, pow);
            var d2 := DecideFanSpeed(temp2, d1.speed, d1.lowStart, d1.veryHighStart, t1, pow);
            d1.speed == speed &&
            d2.speed == if t1 - t0 > LOW_TEMP_DURATION then FAN_OFF else speed
  {
  }

  /**
   * Critical override: two critical readings more than
   * VERY_HIGH_TEMP_DURATION seconds apart, the first one starting the
   * timer, force FAN_MAX whatever the speed was before.
   */
  lemma CriticalOverride(temp1: real, temp2: real, speed: real, lowStart: Option<real>,
                         t0: real, t1: real, pow: Power)
    requires IsCritical(temp1) && IsCritical(temp2)
    requires t1 - t0 > VERY_HIGH_TEMP_DURATION
    ensures var d1 := DecideFanSpeed(temp1, speed, lowStart, None, t0, pow);
            var d2 := DecideFanSpeed(temp2, d1.speed, d1.lowStart, d1.veryHighStart, t1, pow);
            d1.speed == speed && d2.speed == FAN_MAX
  {
  }

  /**
   * A dip into the mid band does not restart the low dwell: low, mid, low
   * turns the fan off once more than LOW_TEMP_DURATION seconds have passed
   * since the first low reading, counting the time spent in the mid band.
   */
  lemma MidBandKeepsLowDwell(low1: real, mid: real, low2: real, speed: real,
                             veryHighStart: Option<real>, t0: real, t1: real, t2: real, pow: Power)
    requires IsLow(low1) && IsMid(mid) && IsLow(low2)
    requires t2 - t0 > LOW_TEMP_DURATION
    ensures var d1 := DecideFanSpeed(low1, speed, None, veryHighStart, t0, pow);
            var d2 := DecideFanSpeed(mid, d1.speed, d1.lowStart, d1.veryHighStart, t1, pow);
            var d3 := DecideFanSpeed(low2, d2.speed, d2.lowStart, d2.veryHighStart, t2, pow);
            d3.speed == FAN_OFF
  {
  }

  /**
   * A reading in the high band does restart the low dwell: the next low
   * reading starts a fresh timer and cannot turn the fan off, however long
   * ago an earlier low timer started.
   */
  lemma HighBandRestartsLowDwell(high: real, low2: real, speed: real,
                                 lowStart: Option<real>, veryHighStart: Option<real>,
                                 t1: real, t2: real, pow: Power)
    requires IsHigh(high) && IsLow(low2)
    ensures var d1 := DecideFanSpeed(high, speed, lowStart, veryHighStart, t1, pow);
            var d2 := DecideFanSpeed(low2, d1.speed, d1.lowStart, d1.veryHighStart, t2, pow);
            d2 == Decision(DynamicSpeed(high, pow), Some(t2), None)
  {
  }

  /**
   * The two timers are not exclusive: a low reading followed, within the
   * critical dwell, by a critical one leaves both running.
   */
  lemma BothTimersRunning(pow: Power)
    ensures var d1 := DecideFanSpeed(40.0, FAN_OFF, None, None, 100.0, pow);
            var d2 := DecideFanSpeed(80.0, d1.speed, d1.lowStart, d1.veryHighStart, 105.0, pow);
            d2 == Decision(FAN_OFF, Some(100.0), Some(105.0))
  {
  }
}
