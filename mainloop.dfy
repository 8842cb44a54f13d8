/** The daemon's main loop: each wake-up (Wayland socket readable, new
    coordinates, or the one-minute timer) is followed by recomputing the
    sun phases and the target temperature, which is sent to the compositor
    only when it differs from the last one sent. */
module MainLoop {
  import opened Common
  import opened Schedule
  import opened WaylandSpec
  import WaylandLifecycle
  import WaylandClient

  datatype Coordinates = Coordinates(latitude: real, longitude: real)

  /** The location service reported an error instead of coordinates. */
  datatype LocationError = LocationError

  /** Which branch of the `select!` fired. */
  datatype Trigger =
    | Readable(received: seq<Event>)
    | Located(location: Result<Coordinates, LocationError>)
    | TimerFired

  /** One wake-up of the loop and the clock reading that follows it. */
  datatype Wake = Wake(trigger: Trigger, now: Timestamp)

  /** Why the loop ends: each is an error that `main` returns. */
  datatype Exit = LocationFailed | SunFailed | WaylandFailed(outcome: Outcome)

  /** The loop's local variables. */
  datatype LoopState = LoopState(coordinates: Option<Coordinates>, sun: Option<Sun>, temp: u16)

  const INITIAL_LOOP: LoopState := LoopState(None, None, HIGH_TEMP)

  /** The loop's variables, the Wayland client's state and its undispatched events. */
  datatype World = World(loop: LoopState, client: ClientState, pending: seq<Event>)

  datatype StepResult = StepResult(world: World, exit: Option<Exit>)

  /** The sun calculation for an instant and a position; `None` when a phase
      time cannot be represented as a timestamp. */
  type SunCalculator = (Timestamp, Coordinates) -> Option<Sun>

  /** One iteration of the loop. */
  function Iteration(w: World, wake: Wake, calculateSun: SunCalculator): StepResult {
    var pending := if wake.trigger.Readable? then w.pending + wake.trigger.received else w.pending;
    var w1 := w.(pending := pending);
    if wake.trigger.Located? && wake.trigger.location.Failure? then StepResult(w1, Some(LocationFailed))
    else
      var coordinates := if wake.trigger.Located? then Some(wake.trigger.location.value) else w.loop.coordinates;
      var w2 := w1.(loop := w1.loop.(coordinates := coordinates));
      match coordinates
      case None => StepResult(w2, None)
      case Some(c) =>
        match calculateSun(wake.now, c)
        case None => StepResult(w2, Some(SunFailed))
        case Some(sun) =>
          var t := GetTemperature(wake.now, sun);
          var w3 := w2.(loop := w2.loop.(sun := Some(sun)));
          if t == w3.loop.temp then StepResult(w3, None)
          else
            var d := SetTemperature(w3.client, w3.pending, t);
            var w4 := World(w3.loop.(temp := t), d.client, d.pending);
            if d.outcome.Done? then StepResult(w4, None) else StepResult(w4, Some(WaylandFailed(d.outcome)))
  }

  /** The loop over a finite sequence of wake-ups, up to the first error. */
  function Run(w: World, wakes: seq<Wake>, calculateSun: SunCalculator): StepResult
    decreases |wakes|
  {
    if wakes == [] then StepResult(w, None)
    else
      var r := Iteration(w, wakes[0], calculateSun);
      if r.exit.Some? then r else Run(r.world, wakes[1..], calculateSun)
  }

  // ---------------------------------------------------------------------
  // What the loop keeps and promises
  // ---------------------------------------------------------------------

  /** The loop's `temp` is the temperature the Wayland state holds, it lies
      between the night and day temperatures, and the client invariant holds. */
  predicate Inv(w: World) {
    && w.loop.temp == w.client.temperature
    && LOW_TEMP <= w.loop.temp <= HIGH_TEMP
    && WaylandLifecycle.Valid(w.client)
  }

  lemma InitialInv(client: ClientState, pending: seq<Event>)
    requires client.temperature == HIGH_TEMP && WaylandLifecycle.Valid(client)
    ensures Inv(World(INITIAL_LOOP, client, pending))
  {
  }

  /** Every iteration keeps the invariant, whether it continues or stops. */
  lemma IterationKeepsInv(w: World, wake: Wake, calculateSun: SunCalculator)
    requires Inv(w)
    ensures Inv(Iteration(w, wake, calculateSun).world)
  {
    var pending := if wake.trigger.Readable? then w.pending + wake.trigger.received else w.pending;
    var coordinates := if wake.trigger.Located? && wake.trigger.location.Success?
                       then Some(wake.trigger.location.value) else w.loop.coordinates;
    if coordinates.Some? && calculateSun(wake.now, coordinates.value).Some? {
      var t := GetTemperature(wake.now, calculateSun(wake.now, coordinates.value).value);
      WaylandLifecycle.SetTemperatureKeepsValid(w.client, pending, t);
    }
  }

  /** Nothing is sent to the compositor unless the computed temperature
      differs from the last one sent; when it differs and the iteration
      continues, the new temperature is stored and every queued event has
      been dispatched. */
  lemma SendsOnlyOnChange(w: World, wake: Wake, calculateSun: SunCalculator)
    requires Inv(w)
    ensures var r := Iteration(w, wake, calculateSun);
            && (r.world.loop.temp == w.loop.temp ==> r.world.client == w.client)
            && (r.world.loop.temp != w.loop.temp ==> r.world.client.temperature == r.world.loop.temp)
            && (r.world.loop.temp != w.loop.temp && r.exit.None? ==> r.world.pending == [])
  {
  }

  /** Without coordinates the loop only collects events: nothing is computed
      and nothing is sent. */
  lemma IdleWithoutCoordinates(w: World, wake: Wake, calculateSun: SunCalculator)
    requires w.loop.coordinates.None? && !wake.trigger.Located?
    ensures var r := Iteration(w, wake, calculateSun);
            && r.exit.None? && r.world.loop == w.loop && r.world.client == w.client
            && r.world.pending == w.pending + (if wake.trigger.Readable? then wake.trigger.received else [])
  {
  }

  /** New coordinates replace the old ones and, when the sun calculation
      succeeds, the temperature follows the schedule at that position. */
  lemma FollowsSchedule(w: World, wake: Wake, calculateSun: SunCalculator)
    requires Inv(w)
    requires Iteration(w, wake, calculateSun).exit.None?
    requires wake.trigger.Located? || w.loop.coordinates.Some?
    ensures var r := Iteration(w, wake, calculateSun);
            var c := if wake.trigger.Located? then wake.trigger.location.value else w.loop.coordinates.value;
            && r.world.loop.coordinates == Some(c)
            && calculateSun(wake.now, c).Some?
            && r.world.loop.sun == calculateSun(wake.now, c)
            && r.world.loop.temp == GetTemperature(wake.now, calculateSun(wake.now, c).value)
            && r.world.client.temperature == r.world.loop.temp
  {
  }

  /** A second wake-up by the timer at the same instant sends nothing and
      changes no variable. */
  lemma RepeatedWakeSendsNothing(w: World, wake: Wake, calculateSun: SunCalculator)
    requires Inv(w)
    requires Iteration(w, wake, calculateSun).exit.None?
    ensures var r := Iteration(w, wake, calculateSun);
            Iteration(r.world, Wake(TimerFired, wake.now), calculateSun) == StepResult(r.world, None)
  {
    IterationKeepsInv(w, wake, calculateSun);
  }

  /** The invariant holds after any run, however it ends. */
  lemma {:induction false} RunKeepsInv(w: World, wakes: seq<Wake>, calculateSun: SunCalculator)
    requires Inv(w)
    ensures Inv(Run(w, wakes, calculateSun).world)
    decreases |wakes|
  {
    if wakes != [] {
      IterationKeepsInv(w, wakes[0], calculateSun);
      var r := Iteration(w, wakes[0], calculateSun);
      if r.exit.None? {
        RunKeepsInv(r.world, wakes[1..], calculateSun);
      }
    }
  }

  // ---------------------------------------------------------------------
  // The loop itself
  // ---------------------------------------------------------------------

  function Observe(st: LoopState, w: WaylandClient.Wayland): World
    reads w, w.conn, w.state
  {
    World(st, WaylandClient.Snapshot(w.state, w.conn), w.conn.queue)
  }

  /** One iteration of the loop in `main`. */
  method Iterate(w: WaylandClient.Wayland, st: LoopState, wake: Wake, calculateSun: SunCalculator)
    returns (st': LoopState, exit: Option<Exit>)
    requires w.Valid()
    modifies w.conn, w.state
    ensures StepResult(Observe(st', w), exit) == Iteration(old(Observe(st, w)), wake, calculateSun)
    ensures w.Valid()
  {
    st' := st;
    match wake.trigger {
      case Readable(received) =>
        w.Poll(received);
      case Located(location) =>
        if location.Failure? {
          return st', Some(LocationFailed);
        }
        st' := st'.(coordinates := Some(location.value));
      case TimerFired =>
    }
    if st'.coordinates.None? {
      return st', None;
    }
    var sun := calculateSun(wake.now, st'.coordinates.value);
    if sun.None? {
      return st', Some(SunFailed);
    }
    st' := st'.(sun := sun);
    var t := GetTemperature(wake.now, sun.value);
    if t != st'.temp {
      st' := st'.(temp := t);
      var res := w.SetTemperature(t);
      if !res.Done? {
        return st', Some(WaylandFailed(res));
      }
    }
    return st', None;
  }

  /** The loop in `main`, over a finite sequence of wake-ups, starting from
      the state `main` sets up and stopping at the first error. */
  method MainLoop(w: WaylandClient.Wayland, wakes: seq<Wake>, calculateSun: SunCalculator)
    returns (st: LoopState, exit: Option<Exit>)
    requires w.Valid() && w.state.temperature == HIGH_TEMP
    modifies w.conn, w.state
    ensures StepResult(Observe(st, w), exit) == Run(old(Observe(INITIAL_LOOP, w)), wakes, calculateSun)
    ensures Inv(Observe(st, w))
  {
    st := INITIAL_LOOP;
    exit := None;
    InitialInv(WaylandClient.Snapshot(w.state, w.conn), w.conn.queue);
    RunKeepsInv(Observe(st, w), wakes, calculateSun);
    var i := 0;
    while i < |wakes|
      invariant 0 <= i <= |wakes|
      invariant w.Valid() && exit.None?
      invariant Run(Observe(st, w), wakes[i..], calculateSun) == Run(old(Observe(INITIAL_LOOP, w)), wakes, calculateSun)
    {
      assert wakes[i..][1..] == wakes[i + 1..];
      st, exit := Iterate(w, st, wakes[i], calculateSun);
      if exit.Some? {
        return;
      }
      i := i + 1;
    }
  }
}
