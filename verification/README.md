# Fan governor of a Raspberry Pi host, in Dafny

This project models the closed-loop fan governor of the homelab repository's
Raspberry Pi set-up (`1_rpi_setup/.fan_control/exec/main.py`). Every poll,
the governor reads the CPU and NVMe temperatures and fuses them into one
effective temperature: the larger of the CPU reading and the NVMe reading
plus 5 °C. It then runs a debounce state machine over four bands:

- low: below 45 °C;
- mid: 45 °C up to 55 °C;
- high: 55 °C up to 75 °C;
- critical: 75 °C and above.

The state machine keeps the current fan speed and two dwell timers. In the
high band it commits the speed curve at once. In the critical band it
commits full speed (255) only after the critical timer has run for more
than 10 s. In the low band it switches the fan off only after the low timer
has run for more than 30 s. The loop sends a speed to the EMC2301 fan driver
only when the speed changes. It switches the fan off at start-up and again
at shutdown.

Files:

- `wrappers.dfy`, module `Wrappers`: `Option` (a missing reading or timer)
  and `Result` (a value or the exception a Python expression raises).
- `fan_governor.dfy`, module `FanGovernor`: the constants, the speed curve
  `DynamicSpeed`, the fusion `EffectiveTemperature`, the state machine
  `DecideFanSpeed`, and lemmas about each band and about short sequences of
  decisions. This is pure code, so it is written as functions and lemmas.
- `control_loop.dfy`, module `ControlLoop`: the loop. `TickSpec`,
  `PollStep` and `Process` specify one tick, one poll and a run of polls as
  functions. The class `Controller` holds the loop's variables and the log
  of values sent to the driver. Its methods `Tick`, `Step` and `Shutdown`
  update that state in place and are proved against those functions.
  `Run` is the main loop from start-up to shutdown.

Temperatures, times and speeds are `real`. The governor keeps the curve's
fractional value as its current speed. The driver receives the speed
truncated toward zero (`Trunc`, Python's `int()`). The clock is a field of
each poll. The power term `temp_factor ** 1.5` is a parameter
`pow: real -> real`, so every result about the curve holds whatever that
term evaluates to. The loop runs over a finite sequence of polls. Running
out of polls stands for the interrupt that ends the real, endless loop.

### Behaviours of the code that the model keeps

- The dwell timers are not mutually exclusive. The critical band keeps the
  low timer until full speed is committed. The low band keeps the critical
  timer until the fan is switched off. `BothTimersRunning` shows a low
  reading followed by a critical one that leaves both timers set.
- A dip into the mid band does not restart the low dwell, because the mid
  band changes nothing (`MidBandKeepsLowDwell`). The low timer is cleared
  only by a high-band reading (`HighBandRestartsLowDwell`) or by a critical
  reading that commits full speed (`DecideCriticalBand`).
- A failed actuation is not retried. The driver's error is swallowed and
  the current speed is updated anyway, so the same speed is not sent again.
  The model records every attempt in the command log, and the state after a
  tick does not depend on the driver's outcome.
- The mid band does not run the curve. It keeps whatever speed was current, which may be 0.
- An NVMe reading of exactly 0.0 counts as absent (Python truthiness).
  When the CPU reading is also missing, `max([])` raises. The loop then
  ends and the fan is switched off (`PollStep` returns `None`, and `Process`
  stops with `raised`).
- The curve is proved monotone under the assumption that the power term
  never decreases on [0, 1) (`DynamicSpeedMonotone`). Nothing is claimed
  without that assumption.

## Model

| member | source | states |
|---|---|---|
| `FanGovernor.DynamicSpeed` | 1_rpi_setup/.fan_control/exec/main.py:62-73 | The curve gives 255 at 75 °C and above and 100 below 55 °C. At any temperature, whatever the power term yields, the result lies in [100, 255]. |
| `FanGovernor.DynamicSpeedInterpolates` | 1_rpi_setup/.fan_control/exec/main.py:66-71 | In the high band the temperature factor lies in [0, 1). The clamp is inert, and the curve is exactly 100 + pow(factor)·155, if and only if the power term lies in [0, 1]. |
| `FanGovernor.DynamicSpeedMonotone` | 1_rpi_setup/.fan_control/exec/main.py:62-73 | If the power term never decreases on [0, 1), the curve never decreases in the temperature, across all band edges. |
| `FanGovernor.EffectiveTemperature` | 1_rpi_setup/.fan_control/exec/main.py:75-86 | The result is "no temperature" exactly when both readings are missing. It raises exactly when the CPU is missing and the NVMe reads 0.0. Otherwise it is the maximum of the CPU reading and the truthy NVMe reading plus 5: it bounds both and equals one of them. |
| `FanGovernor.ZeroNvmeReadingIgnored` | 1_rpi_setup/.fan_control/exec/main.py:83-84 | An NVMe reading of 0.0 is dropped, so the CPU reading alone decides, even when it is below 5 °C. |
| `FanGovernor.FusionExample` | 1_rpi_setup/.fan_control/exec/main.py:83-84 | A CPU at 50 °C and an NVMe at 40 °C fuse to 50 °C. |
| `FanGovernor.DecideFanSpeed` | 1_rpi_setup/.fan_control/exec/main.py:88-104 | A speed that is 0 or in [100, 255] stays so. The speed changes only in the high band, to 255 once the critical timer started earlier has run for more than 10 s, or to 0 once the low timer started earlier has run for more than 30 s. |
| `FanGovernor.DecideHighBand` | 1_rpi_setup/.fan_control/exec/main.py:96-97 | In [55, 75) the curve value, in [100, 255], is committed at once and both timers are cleared. |
| `FanGovernor.DecideCriticalBand` | 1_rpi_setup/.fan_control/exec/main.py:91-104 | At 75 °C and above, a missing critical timer starts at `now` and a running one is kept. The entry tick leaves the speed and the low timer unchanged. After a strict 10 s dwell the speed is 255 and the low timer is cleared; until then both are unchanged. |
| `FanGovernor.DecideLowBand` | 1_rpi_setup/.fan_control/exec/main.py:99-104 | Below 45 °C, a missing low timer starts at `now` and a running one is kept. The entry tick leaves the speed and the critical timer unchanged. After a strict 30 s dwell the speed is 0 and the critical timer is cleared; until then both are unchanged. |
| `FanGovernor.DecideMidBand` | 1_rpi_setup/.fan_control/exec/main.py:91-104 | In [45, 55) the speed and both timers are returned unchanged. |
| `FanGovernor.LowDwell` | 1_rpi_setup/.fan_control/exec/main.py:99-104 | Two low readings, the first starting the timer, switch the fan off at the second exactly when more than 30 s lie between them. Otherwise the speed holds. |
| `FanGovernor.CriticalOverride` | 1_rpi_setup/.fan_control/exec/main.py:91-94 | Two critical readings more than 10 s apart, the first starting the timer, force 255 whatever the previous speed. |
| `FanGovernor.MidBandKeepsLowDwell` | 1_rpi_setup/.fan_control/exec/main.py:96-104 | Low, mid, low switches the fan off once more than 30 s have passed since the first low reading, so the time spent in the mid band counts toward the dwell. |
| `FanGovernor.HighBandRestartsLowDwell` | 1_rpi_setup/.fan_control/exec/main.py:96-102 | After a high-band reading, the next low reading starts a fresh low timer. It keeps the curve speed, whenever the earlier timer started. |
| `FanGovernor.BothTimersRunning` | 1_rpi_setup/.fan_control/exec/main.py:91-104 | A reading of 40 °C at time 100, then 80 °C at time 105, leaves both timers set (100 and 105) and the fan off. |
| `ControlLoop.Trunc` | 1_rpi_setup/.fan_control/exec/main.py:58 | `int(speed)` truncates toward zero: the integer part of a non-negative speed, and minus that of its negation otherwise. |
| `ControlLoop.TruncFanSpeed` | 1_rpi_setup/.fan_control/exec/main.py:56-58 | A speed that is 0 or in [100, 255] reaches the driver as 0 or as an integer in [100, 255]. Speed 0 reaches it as 0. |
| `ControlLoop.TickSpec` | 1_rpi_setup/.fan_control/exec/main.py:116-127 | No temperature changes nothing and sends nothing. Otherwise the new speed and both timers are those `DecideFanSpeed` returns. A value is sent exactly when the new speed differs from the current one, the value is the truncated new speed, and a valid speed stays valid. |
| `ControlLoop.PollStep` | 1_rpi_setup/.fan_control/exec/main.py:115-127 | A poll raises exactly when the CPU is missing and the NVMe reads 0.0. A poll that does not raise ticks with the fused temperature. A poll with both sensors missing leaves the state as it was and sends nothing. |
| `ControlLoop.Process` | 1_rpi_setup/.fan_control/exec/main.py:113-133 | The loop over a sequence of polls raises exactly when some poll raises (the stop itself is `ProcessStopsAtRaise`), and sends at most one value per poll. |
| `ControlLoop.ProcessStopsAtRaise` | 1_rpi_setup/.fan_control/exec/main.py:113-137 | The loop stops at a raising poll: the run equals the run cut just after that poll, so later polls are never looked at. |
| `ControlLoop.ProcessSendsCommands` | 1_rpi_setup/.fan_control/exec/main.py:114-129 | Over any sequence of polls, the speed stays 0 or in [100, 255], and every value sent is 0 or in [100, 255]. |
| `ControlLoop.SilentPollsIdle` | 1_rpi_setup/.fan_control/exec/main.py:115-118 | Any number of polls without a reading leave the speed and both timers as they were, send nothing and do not end the loop. |
| `ControlLoop.Controller.constructor` | 1_rpi_setup/.fan_control/exec/main.py:108-111 | Start-up sets the speed to 0 and both timers to empty, and sends 0 to the driver. |
| `ControlLoop.Controller.ControlFanSpeed` | 1_rpi_setup/.fan_control/exec/main.py:56-60 | The truncated speed is appended to the driver log, and nothing else changes, whether or not the driver fails. |
| `ControlLoop.Controller.Tick` | 1_rpi_setup/.fan_control/exec/main.py:116-127 | The new state and the values sent are those of `TickSpec`, and the controller invariant (valid speed, valid commands) is kept. |
| `ControlLoop.Controller.Step` | 1_rpi_setup/.fan_control/exec/main.py:115-127 | It reports failure, and changes nothing, exactly when fusion raises. Otherwise it acts as `PollStep`. |
| `ControlLoop.Controller.Shutdown` | 1_rpi_setup/.fan_control/exec/main.py:135-137 | 0 is sent to the driver and the state is kept. |
| `ControlLoop.Run` | 1_rpi_setup/.fan_control/exec/main.py:107-137 | The driver receives 0, then exactly what `Process` sends from the initial state, then 0. The first and last values are 0 and every value is 0 or in [100, 255]. |

## Left out

- The sensor reads `get_cpu_temperature` and `get_nvme_temperature` (main.py:40-54) are sysfs file I/O. Their results are the optional readings of each poll.
- The EMC2301 I2C driver (main.py:13, 20) is a foreign library. It is modelled only by the log of values handed to it, and its failures are not modelled because the governor swallows them.
- `time.time()` is the `now` field of each poll. `time.sleep` and the 5 s poll interval `CHECK_INTERVAL` are not modelled: they affect only when polls happen, not what they decide.
- Logging, the `sys.path` set-up, and the exception handlers are left out, except for the shutdown command that the `finally` clause sends. The endless loop is a finite sequence of polls whose end stands for the interrupt. A raising fusion ends the run early.
- DynamicSpeed: within the high band it states only the [100, 255] bounds and, through `DynamicSpeedInterpolates`, the unclamped formula. The floating-point value of `temp_factor ** 1.5` is a parameter and is not computed.
- Python floats are modelled as exact reals. The rounding in `now - start` (main.py:93, 101) and in the temperature factor (main.py:68) is not modelled.
- The timers `x or now` treat a timestamp of 0.0 as missing. The model uses `Option` timers, because the clock never reads 0.
- `cli.py`, the interactive manual-speed console over the same driver, is not part of this model.
