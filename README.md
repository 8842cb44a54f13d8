# automatic-redshift in Dafny

automatic-redshift is a Wayland daemon that tints the screen warmer at night.
It learns the user's coordinates from a location service and computes the
day's dawn, sunrise, sunset and dusk. From those it derives a target colour
temperature:

- 4000 K at night;
- 6500 K by day;
- a linear ramp between the two during morning and evening twilight.

Whenever the target changes, it pushes a gamma ramp to every output through
the `wlr-gamma-control-unstable-v1` protocol. Each ramp is three channels of
`ramp_size` 16-bit samples derived from a black-body colour table.

The model has seven modules.

- `Common`: Rust's `u16`/`u32`, `Option`/`Result`, the saturating and
  truncating `f64 as u16` cast (`AsU16`) and `clamp(0.0, 1.0)`.
- `Color`: the 92-entry black-body table, the colour lookup, and the ramp
  fill as a method over three arrays.
  - The lookup is modelled as written (`FindInterpolatedTemperatureColor`):
    its lerp factor is `temperature % 100`, which the clamped lerp turns
    into 1 for every temperature that is not a multiple of 100. Such a
    temperature gets the colour of the next table entry up (see
    "## Findings").
  - The intended lookup (`IntendedTemperatureColor`) interpolates between
    the two table entries around the temperature. It is kept beside the
    lookup as written, with its own properties. The program does not use it.
  - The ramp fill uses the lookup as written, as `fill_colorramp` does. It is
    proved to write exactly the sampled ramp.
- `Schedule`: `interpolate_temperature` and `get_temperature` as pure
  functions, with their bounds, phases, monotonicity and worked examples.
- `WaylandSpec`: the callbacks' transitions as values. The state is a
  `ClientState`: the list of outputs, the stored temperature, and the
  connection's request log, next object id and pending shared-memory
  outcomes. Each protocol request the client sends becomes an entry appended
  to the log.
- `WaylandLifecycle`: the per-output lifecycle properties, and an invariant
  that every event preserves. Under the invariant:
  - object ids are distinct;
  - live outputs are never destroyed;
  - no request names a gamma control after the request that destroyed it.
- `WaylandClient`: the objects the Rust code mutates.
  - `Connection` holds the log, the fresh-id counter, the shared-memory
    outcomes and the received-but-undispatched event queue.
  - `WaylandState` holds the outputs and the temperature.
  - `Wayland` is the handle the main loop drives.
  - The shared-memory region of a ramp push is modelled as three fresh
    `u16` arrays filled by `FillColorRamp`.

  The callbacks (`RegistryCallback`, `GammaControlCallback`,
  `OutputCallback`, `HandleEvent`), `UpdateDisplayedTemperature`,
  `DispatchEvents` and `Wayland.SetTemperature` are proved to perform
  exactly the transition `WaylandSpec` defines for them. The smaller
  methods (`Connection`'s, `WaylandState.SetTemperature`, `Bind`,
  `Destroy`, `Wayland.Poll`) state their effect on the fields directly.
- `MainLoop`: the body of `main`'s loop after `select!`.
  - It is specified by `Iteration` and `Run` over the loop variables, the
    client state and the event queue.
  - It is implemented by the methods `Iterate` and `MainLoop`.

Three behaviours of the code are worth knowing.

- Events received from the compositor are only queued when the socket
  becomes readable (`Wayland::poll` calls `recv_events`). They are
  dispatched only inside `Wayland::set_temperature`, and only when the
  temperature actually changes, or once at start-up. An output present at
  start-up gets its first ramp at the first temperature change after its
  ramp size arrives. An output that appears later is only bound at the
  next change, with ramp size 0, so that change sends it nothing
  (`WaylandLifecycle.LateOutputGetsNoRamp`). Its first ramp comes at a
  later change.
- When a ramp size is dispatched inside a temperature change, that output
  gets the same ramp twice: once from the gamma-control callback and once
  from the update loop that follows the dispatch
  (`WaylandLifecycle.SizeDuringChangePushedTwice`).
- For a one-sample ramp, `fill_colorramp` divides by zero. The step is
  infinite, `inf * 0` is NaN, and NaN cast to `u16` is 0. The model's
  `Sample` therefore yields 0 for a ramp of size 1.

The sun calculation (`calculate_sun`) and the clock are parameters of the
loop.

## Model

| member | source | states |
|---|---|---|
| Common.AsU16 | src/main.rs:42 | `as u16` from a float: 0 at or below 0, 65535 at or above 65535, otherwise the integer part (r ≤ x < r + 1) |
| Common.Clamp01 | src/main.rs:40 | the result lies in [0, 1]; inputs in [0, 1] are unchanged, below give 0, above give 1 |
| Color.TableColor | src/color.rs:50-143 | every one of the 92 table entries has all three channels in [0, 1] |
| Color.BracketIndex | src/color.rs:33-34 | for a temperature in [1000, 10000], `current` and `next` are both table indices and `1000 + 100·current ≤ t < 1000 + 100·(current+1)` |
| Color.LerpChannelBetween | src/color.rs:37-41 | a channel interpolated with a clamped factor lies between its two ends; factor ≤ 0 gives the start, ≥ 1 gives the end |
| Color.Lerp | src/color.rs:37-41 | interpolating two colours of the unit cube stays in the unit cube; factor ≤ 0 gives `from`, ≥ 1 gives `to` |
| Color.FindInterpolatedTemperatureColor | src/color.rs:28-44 | the lookup exactly as written: fails iff the temperature is outside [1000, 10000]; succeeds with a colour in the unit cube; at a multiple of 100 it is exactly the table entry `(t − 1000)/100` |
| Color.AsWrittenSnapsToNextSample | src/color.rs:33-41 | as written, every temperature that is not a multiple of 100 returns the next table entry, not an interpolation |
| Color.AsWrittenMissesMidpoint | src/color.rs:35 | at 6550 K the written lookup returns the 6600 K entry, whereas the interpolated red channel is the mean of the 6500 K and 6600 K entries |
| Color.AsWrittenRoundsUp | src/color.rs:28-44 | the lookup as written gives, for every temperature in range, the intended colour of that temperature rounded up to a multiple of 100 |
| Color.IntendedTemperatureColor | src/color.rs:28-44 | the intended lookup: fails iff out of [1000, 10000]; the colour lies in the unit cube; at a multiple of 100 it is exactly the table entry |
| Color.CorrectedStepPerKelvin | src/color.rs:33-41 | in the intended lookup, one kelvin more moves every channel by exactly 1/100 of the difference between the bracketing entries, including across an entry boundary |
| Color.NeutralAt6500 | src/color.rs:106 | 6500 K is neutral white (1, 1, 1) in the lookup as written (and in the intended one), so the day temperature leaves colours untouched |
| Color.Sample | src/color.rs:14-22 | sample i of a ramp: the first sample of every channel is 0 |
| Color.StepTimesSlots | src/color.rs:14-15 | for ramps of two or more samples the step is positive and `step · (ramp_size − 1) = 65535` |
| Color.SampleNeverSaturates | src/color.rs:18-22 | for a channel in [0, 1] the scaled intensity stays within [0, 65535], so the cast is the plain integer part |
| Color.SampleTopIsFullScale | src/color.rs:15-22 | a full channel's last sample is exactly 65535 |
| Color.SampleMonotone | src/color.rs:17-22 | samples never decrease along the ramp |
| Color.ChannelRamp | src/color.rs:17-23 | the ramp of one channel has `ramp_size` entries, entry i being sample i |
| Color.ChannelRampShape | src/color.rs:17-23 | every channel ramp starts at 0 and never decreases |
| Color.FillColorRamp | src/color.rs:5-26 | fails iff the lookup as written fails, changing nothing; otherwise the first `ramp_size` slots of r, g, b hold the three channel ramps and the rest is unchanged |
| Schedule.TimeFraction | src/main.rs:39-40 | the elapsed fraction is clamped to [0, 1]; it is 0 at `start` and 1 from `stop` on |
| Schedule.InterpolateTemperature | src/main.rs:29-43 | the result lies between the two end temperatures; equal ends in time give `temp_stop`; the start gives `temp_start`, the stop and later `temp_stop` |
| Schedule.InterpolateMonotone | src/main.rs:39-42 | over a window the interpolated temperature moves monotonically from `temp_start` towards `temp_stop` |
| Schedule.GetTemperature | src/main.rs:67-79 | the target always lies in [4000, 6500] |
| Schedule.GetTemperaturePhases | src/main.rs:68-77 | night before dawn and from dusk on gives 4000 K; day from sunrise to sunset gives 6500 K; each twilight ramp starts at its start temperature |
| Schedule.TwilightFormula | src/main.rs:70-75 | inside a twilight window the target is `4000 + 2500·elapsed/length` (morning) or `6500 − 2500·elapsed/length` (evening), truncated |
| Schedule.GetTemperatureMonotoneInTwilight | src/main.rs:70-75 | the target only rises during morning twilight and only falls during evening twilight |
| Schedule.HourLongDawn | src/main.rs:70-71 | with an hour from dawn to sunrise: 4000 K at dawn, 5250 K halfway, 6500 K at sunrise |
| Schedule.InstantDawn | src/main.rs:68-73 | dawn equal to sunrise gives 6500 K at that instant (the zero-length window is never interpolated) |
| Schedule.EveningTwilightRange | src/main.rs:74-75 | strictly inside evening twilight the target is at least 4000 K and below 6500 K (truncation may reach 4000 K) |
| WaylandSpec.Position | src/wayland.rs:189 | `iter().position`: None iff no output matches; otherwise the first matching index |
| WaylandSpec.SwapRemove | src/wayland.rs:190 | `swap_remove`: one element shorter, others in place, the last moved into the gap, the multiset less exactly the removed element |
| WaylandSpec.SwapRemoveNames | src/wayland.rs:189-191 | removing an output drops exactly one occurrence of its registry name |
| WaylandSpec.RampBuffer | src/wayland.rs:156-162 | the region holds `3·ramp_size` samples (`6·ramp_size` bytes): the red, green and blue ramps in that order |
| WaylandSpec.Update | src/wayland.rs:138-172 | ramp size 0: nothing happens; otherwise one allocation is consumed and exactly one `set_gamma` with the ramp buffer of the lookup as written is sent iff allocation and lookup succeed, else an error and nothing sent |
| WaylandSpec.UpdateAllSendsInOrder | src/wayland.rs:58-61 | with allocation succeeding and a valid temperature, the loop sends one `set_gamma` per output with a known ramp size, in list order |
| WaylandSpec.UpdateAllStopsAtFirstError | src/wayland.rs:58-61 | a failing loop stops at some output k: only the outputs before k were pushed and the error is k's allocation failure |
| WaylandSpec.DispatchAll | src/wayland.rs:56 | dispatching never changes the temperature; it ends with the queue drained, or with a panic |
| WaylandSpec.SetTemperature | src/wayland.rs:52-67 | afterwards the stored temperature is the requested one |
| WaylandLifecycle.InitialValid | src/wayland.rs:37-41 | the state before any event (no outputs, nothing sent) satisfies the invariant |
| WaylandLifecycle.GlobalKeepsValid | src/wayland.rs:181-187 | binding a new output keeps ids distinct and live, because its two objects are fresh |
| WaylandLifecycle.RemoveKeepsValid | src/wayland.rs:188-193 | removing and destroying an output keeps the invariant; no remaining output shares its gamma control |
| WaylandLifecycle.HandleKeepsValid | src/wayland.rs:175-239 | every callback, whatever its outcome, keeps the invariant |
| WaylandLifecycle.SetTemperatureKeepsValid | src/wayland.rs:52-67 | a temperature change keeps the invariant, so no `set_gamma` ever names a destroyed gamma control |
| WaylandLifecycle.OnGlobal | src/wayland.rs:181-187 | a `wl_output` global of version 4 or more is bound with two fresh ids and appended with no name and ramp size 0, with no ramp pushed; an older one panics; other globals are ignored |
| WaylandLifecycle.OnGammaSize | src/wayland.rs:199-213 | a ramp size changes only its own output; exactly one ramp of that size is pushed when it is positive and allocation and lookup succeed; an unknown gamma control panics with nothing changed |
| WaylandLifecycle.OnUnknownControl | src/wayland.rs:198-204 | any event (ramp size or failure) for a gamma control no output holds panics with the state unchanged |
| WaylandLifecycle.OnRemoval | src/wayland.rs:188-193 | removal by registry name or by a failed gamma control drops exactly one output, sends its destroy and release, and forgets its gamma control |
| WaylandLifecycle.OnUnknownRemove | src/wayland.rs:188-193 | removing an unknown registry name does nothing |
| WaylandLifecycle.OnName | src/wayland.rs:226-239 | a name event sets the name of its output only; an unknown output panics |
| WaylandLifecycle.LateOutputGetsNoRamp | src/wayland.rs:52-67 | an output announced after start-up is bound at the next temperature change with ramp size 0; that change ends `Done` having sent only the bind and the gamma-control request, no ramp |
| WaylandLifecycle.SizeDuringChangePushedTwice | src/wayland.rs:52-67 | a ramp size dispatched during a temperature change stores the size and sends the same `set_gamma` twice, from the callback and from the update loop |
| WaylandLifecycle.BindThenRampSize | src/wayland.rs:181-213 | new output, then ramp size 0, then ramp size 256: exactly three requests, the last a `set_gamma` on its control with 768 samples (1536 bytes) |
| WaylandClient.WaylandState.SetTemperature | src/wayland.rs:88-102 | reports a change iff the temperature differs; stores it; outputs untouched |
| WaylandClient.Bind | src/wayland.rs:115-130 | version ≥ 4: two fresh ids, the bind and get-gamma-control requests, and a record with no name and ramp size 0; older versions fail with nothing sent |
| WaylandClient.Destroy | src/wayland.rs:132-136 | sends the gamma control's destroy, then the output's release |
| WaylandClient.UpdateDisplayedTemperature | src/wayland.rs:138-172 | performs exactly the transition `WaylandSpec.Update` |
| WaylandClient.RegistryCallback | src/wayland.rs:175-196 | performs exactly the transition `WaylandSpec.OnRegistry` |
| WaylandClient.GammaControlCallback | src/wayland.rs:198-224 | performs exactly the transition `WaylandSpec.OnGammaControl` |
| WaylandClient.OutputCallback | src/wayland.rs:226-239 | performs exactly the transition `WaylandSpec.OnOutput` |
| WaylandClient.DispatchEvents | src/wayland.rs:56 | performs exactly `WaylandSpec.DispatchAll` over the queue, leaving the events after a panic queued |
| WaylandClient.Wayland.constructor | src/wayland.rs:15-18 | a handle over a connection and a state that satisfy the client invariant, and satisfies it itself |
| WaylandClient.Wayland.SetTemperature | src/wayland.rs:52-67 | performs exactly `WaylandSpec.SetTemperature`; an unchanged temperature changes nothing at all; keeps the invariant |
| WaylandClient.Wayland.Poll | src/wayland.rs:69-77 | appends the received events to the queue and changes nothing else |
| WaylandClient.Connect | src/wayland.rs:27-50 | without the gamma-control manager: unsupported; otherwise a fresh state at 6500 K with the announced globals dispatched and the invariant established |
| MainLoop.IterationKeepsInv | src/main.rs:98-144 | every iteration keeps `temp` equal to the stored temperature, within [4000, 6500], and the client invariant |
| MainLoop.SendsOnlyOnChange | src/main.rs:138-140 | nothing is sent unless the new target differs from `temp`; on a change the state holds it and, if the loop goes on, the queue is drained |
| MainLoop.IdleWithoutCoordinates | src/main.rs:109-115 | before any coordinates arrive an iteration only queues events |
| MainLoop.FollowsSchedule | src/main.rs:101-134 | new coordinates replace the old; the sun is the calculated one and `temp` is the schedule's target at that instant |
| MainLoop.RepeatedWakeSendsNothing | src/main.rs:106-144 | a second timer wake-up at the same instant changes nothing |
| MainLoop.RunKeepsInv | src/main.rs:98-145 | the loop invariant holds after any sequence of wake-ups, however the loop ends |
| MainLoop.Iterate | src/main.rs:98-144 | performs exactly `MainLoop.Iteration`, keeping the client invariant |
| MainLoop.MainLoop | src/main.rs:88-145 | from `temp = 6500` with no coordinates or sun, performs exactly `MainLoop.Run` and ends with the loop invariant |

## Left out

- Connection set-up, round trips, flushing, and every I/O error of the
  socket: `Connect` takes the announced globals as input. The presence of
  the gamma-control manager is a flag.
- `geoclue.rs` (the location stream) is not part of this model. Coordinates
  and location errors arrive as wake-ups.
- `calculate_sun` and the astronomy crate it calls are not part of this
  model. The loop takes them as a function from an instant and a position to
  a `Sun` or a failure.
- `Timestamp::now` is not modelled: the clock reading is part of each
  wake-up.
- Schedule.InterpolateTemperature: timestamps are whole seconds, so
  sub-second parts are not modelled. In the program, `start == stop`
  compares full-precision timestamps, while the division uses
  `get_seconds()`, which drops the sub-second part (with `jiff`'s default
  span units). A twilight window shorter than one second therefore divides
  0.0 by 0.0. The NaN casts to a target of 0 K, which the colour lookup
  refuses as soon as an output has a known ramp size, and `main` then
  returns the error. The model never reaches that path.
- The loop in `main` runs forever; it is modelled over a finite sequence of
  wake-ups.
- Logging, `time_of` formatting and the installation of the error reporter
  are not modelled.
- Floating point is idealised as exact real arithmetic. Rounding of `f64`
  is not modelled. Two NaNs matter. The one from a ramp of size 1 is
  modelled by its result. The one from a twilight window shorter than one
  second is not modelled; see the line for `Schedule.InterpolateTemperature`.
- `vek`'s `Rgb::lerp` is taken to clamp its factor to [0, 1], as `vek`'s
  `Lerp::lerp` does.
- The shared-memory file is modelled by its contents only. Creating,
  sizing and mapping it is one outcome supplied as input. The file
  descriptor sent with `set_gamma` is not modelled.
- `String::from_utf8(...).expect` in `wl_output_cb` is not modelled:
  output names arrive already decoded, so the invalid-UTF-8 panic is left
  out.
- Errors of `recv_events` in `Wayland::poll` are not modelled; `main`
  discards them.
- Color.FillColorRamp requires a ramp size of at least 1. For 0, the Rust
  subtraction `ramp_size - 1` underflows; its only caller skips outputs
  whose ramp size is 0.
- Object ids come from a counter that only goes up, so the model never
  reuses an id. The Wayland protocol lets a client reuse an id once the
  compositor has sent `wl_display.delete_id`, which is not modelled. The
  invariant's "no request names a destroyed gamma control" is therefore
  about protocol objects, not about the numbers on the wire.
- The received events are an unconstrained input. An event addressed to a
  gamma control or output that is already destroyed reaches its callback,
  which panics, as the lookup in the Rust callback does.
- WaylandClient.Wayland.SetTemperature requires the client invariant. The
  invariant holds from `Connect` on and is re-established by every call,
  but the Rust code states no such precondition.

## Findings

| source | as written | input that shows it | evidently intended | confidence | as-written member | corrected member |
|---|---|---|---|---|---|---|
| src/color.rs:35 | the interpolation factor is `temperature % 100`, a value from 0 to 99, handed to a lerp that clamps it to [0, 1] | 6550 K: the result is the 6600 K entry, not the midpoint of the 6500 K and 6600 K entries; any temperature that is not a multiple of 100 snaps to the next entry | the factor `(temperature % 100) / 100`, so the colour moves linearly between neighbouring entries | not executed | Color.FindInterpolatedTemperatureColor | Color.IntendedTemperatureColor |

The ramp fill and the whole Wayland model use the lookup as written, as the
program does. The intended lookup has the same contract on failure and on
the unit cube, which are the only properties of the colour that the Wayland
proofs rely on. Its linear step per kelvin is proved in
`Color.CorrectedStepPerKelvin`.
