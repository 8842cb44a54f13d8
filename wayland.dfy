/** The Wayland client as objects that change in place: the connection that
    records the requests it sends and queues the events it receives, the
    state the callbacks mutate, and the `Wayland` handle the main loop
    drives. The callbacks, the ramp push, the dispatch loop and
    `Wayland.SetTemperature` are proved to perform the transition that
    `WaylandSpec` defines for them; the smaller methods state their effect
    on the fields directly. */
module WaylandClient {
  import opened Common
  import Color
  import opened WaylandSpec
  import WaylandLifecycle

  /** The temperature `Wayland::new` stores before any ramp is pushed. */
  const INITIAL_TEMPERATURE: u16 := 6500

  /** The connection: the requests sent so far, the next fresh object id,
      the outcomes of the coming shared-memory allocations, and the events
      received but not yet dispatched. */
  class Connection {
    var log: seq<Request>
    var nextId: ObjectId
    var shm: seq<bool>
    var queue: seq<Event>

    function View(): ConnState
      reads this
    {
      ConnState(log, nextId, shm)
    }

    constructor (firstId: ObjectId, allocations: seq<bool>, received: seq<Event>)
      ensures View() == ConnState([], firstId, allocations) && queue == received
    {
      log := [];
      nextId := firstId;
      shm := allocations;
      queue := received;
    }

    /** Allocates the id of a new protocol object. */
    method NewId() returns (id: ObjectId)
      modifies this
      ensures id == old(nextId) && nextId == id + 1
      ensures log == old(log) && shm == old(shm) && queue == old(queue)
    {
      id := nextId;
      nextId := nextId + 1;
    }

    method Send(r: Request)
      modifies this
      ensures log == old(log) + [r]
      ensures nextId == old(nextId) && shm == old(shm) && queue == old(queue)
    {
      log := log + [r];
    }

    /** Creates, sizes and maps a shared-memory region; its success is the
        next entry of `shm`. */
    method CreateShm() returns (ok: bool)
      modifies this
      ensures ok == ShmSucceeds(old(shm)) && shm == ShmAfter(old(shm))
      ensures log == old(log) && nextId == old(nextId) && queue == old(queue)
    {
      ok := ShmSucceeds(shm);
      shm := ShmAfter(shm);
    }

    /** `recv_events`: appends what the socket delivered to the queue. */
    method Receive(received: seq<Event>)
      modifies this
      ensures queue == old(queue) + received
      ensures View() == old(View())
    {
      queue := queue + received;
    }

    method NextEvent() returns (ev: Event)
      requires queue != []
      modifies this
      ensures ev == old(queue[0]) && queue == old(queue[1..])
      ensures View() == old(View())
    {
      ev := queue[0];
      queue := queue[1..];
    }
  }

  class WaylandState {
    var outputs: seq<Output>
    var temperature: u16

    constructor ()
      ensures outputs == [] && temperature == INITIAL_TEMPERATURE
    {
      outputs := [];
      temperature := INITIAL_TEMPERATURE;
    }

    /** Stores the temperature and reports whether it differs from the
        stored one. */
    method SetTemperature(t: u16) returns (changed: bool)
      modifies this
      ensures changed <==> t != old(temperature)
      ensures temperature == t && outputs == old(outputs)
    {
      if t != temperature {
        temperature := t;
        changed := true;
      } else {
        changed := false;
      }
    }
  }

  function Snapshot(state: WaylandState, conn: Connection): ClientState
    reads state, conn
  {
    ClientState(state.outputs, state.temperature, conn.View())
  }

  // ---------------------------------------------------------------------
  // Output
  // ---------------------------------------------------------------------

  /** `Output::bind`: binds the global at version 4 and requests its gamma
      control; a global older than version 4 cannot be bound. */
  method Bind(conn: Connection, name: u32, version: u32) returns (r: Result<Output, ClientError>)
    modifies conn
    ensures version < 4 ==> r == Failure(UnsupportedVersion) && conn.View() == old(conn.View())
    ensures version >= 4 ==>
              && r == Success(Output(name, old(conn.nextId), None, old(conn.nextId) + 1, 0))
              && conn.log == old(conn.log) + [BindOutput(name, 4, r.value.wl),
                                               GetGammaControl(r.value.gammaControl, r.value.wl)]
              && conn.nextId == old(conn.nextId) + 2 && conn.shm == old(conn.shm)
    ensures conn.queue == old(conn.queue)
  {
    if version < 4 {
      return Failure(UnsupportedVersion);
    }
    var wl := conn.NewId();
    conn.Send(BindOutput(name, 4, wl));
    var control := conn.NewId();
    conn.Send(GetGammaControl(control, wl));
    return Success(Output(name, wl, None, control, 0));
  }

  /** `Output::destroy`. */
  method Destroy(o: Output, conn: Connection)
    modifies conn
    ensures conn.log == old(conn.log) + DestroyRequests(o)
    ensures conn.nextId == old(conn.nextId) && conn.shm == old(conn.shm) && conn.queue == old(conn.queue)
  {
    conn.Send(DestroyGammaControl(o.gammaControl));
    conn.Send(ReleaseOutput(o.wl));
  }

  /** `Output::update_displayed_temperature`: the shared-memory region is
      three fresh arrays, one per channel, handed over in R, G, B order. */
  method UpdateDisplayedTemperature(o: Output, temperature: u16, conn: Connection) returns (res: Outcome)
    modifies conn
    ensures ConnStep(conn.View(), res) == Update(o, temperature, old(conn.View()))
    ensures conn.queue == old(conn.queue)
  {
    if o.rampSize == 0 {
      return Done;
    }
    var ok := conn.CreateShm();
    if !ok {
      return Error(ShmFailed);
    }
    var n := o.rampSize;
    var r := new u16[n];
    var g := new u16[n];
    var b := new u16[n];
    var filled := Color.FillColorRamp(r, g, b, n, temperature);
    if filled.Failure? {
      return Error(InvalidTemperature);
    }
    assert r[..] == r[..n] && g[..] == g[..n] && b[..] == b[..n];
    conn.Send(SetGamma(o.gammaControl, r[..] + g[..] + b[..]));
    return Done;
  }

  // ---------------------------------------------------------------------
  // Callbacks
  // ---------------------------------------------------------------------

  /** `wl_registry_cb`. */
  method RegistryCallback(conn: Connection, state: WaylandState, ev: RegistryEvent) returns (res: Outcome)
    modifies conn, state
    ensures ClientStep(Snapshot(state, conn), res) == OnRegistry(old(Snapshot(state, conn)), ev)
    ensures conn.queue == old(conn.queue)
  {
    match ev
    case Global(name, iface, version) =>
      if iface != WlOutputInterface {
        return Done;
      }
      var bound := Bind(conn, name, version);
      if bound.Failure? {
        return Panic(bound.error);
      }
      // The ramp size of a freshly bound output is 0, so this update sends
      // nothing and cannot fail: the `unwrap` after it never fires.
      var u := UpdateDisplayedTemperature(bound.value, state.temperature, conn);
      if !u.Done? {
        assert false;
      }
      state.outputs := state.outputs + [bound.value];
      return Done;
    case GlobalRemove(name) =>
      var index := Position(state.outputs, ByRegName(name));
      if index.Some? {
        var o := state.outputs[index.value];
        state.outputs := SwapRemove(state.outputs, index.value);
        Destroy(o, conn);
      }
      return Done;
  }

  /** `gamma_control_cb`: the output is looked up before the event is
      inspected, so any event for an unknown gamma control aborts. */
  method GammaControlCallback(conn: Connection, state: WaylandState, control: ObjectId, ev: GammaControlEvent)
    returns (res: Outcome)
    modifies conn, state
    ensures ClientStep(Snapshot(state, conn), res) == OnGammaControl(old(Snapshot(state, conn)), control, ev)
    ensures conn.queue == old(conn.queue)
  {
    var index := Position(state.outputs, ByControl(control));
    if index.None? {
      return Panic(UnknownGammaControl);
    }
    var i := index.value;
    match ev
    case GammaSize(size) =>
      var o := state.outputs[i].(rampSize := size);
      state.outputs := state.outputs[i := o];
      var u := UpdateDisplayedTemperature(o, state.temperature, conn);
      if !u.Done? {
        return Panic(u.failure);
      }
      return Done;
    case Failed =>
      var o := state.outputs[i];
      state.outputs := SwapRemove(state.outputs, i);
      Destroy(o, conn);
      return Done;
  }

  /** `wl_output_cb`. */
  method OutputCallback(conn: Connection, state: WaylandState, output: ObjectId, ev: OutputEvent)
    returns (res: Outcome)
    modifies state
    ensures ClientStep(Snapshot(state, conn), res) == OnOutput(old(Snapshot(state, conn)), output, ev)
  {
    match ev
    case OtherOutputEvent =>
      return Done;
    case Name(n) =>
      var index := Position(state.outputs, ByOutput(output));
      if index.None? {
        return Panic(UnknownOutput);
      }
      var i := index.value;
      state.outputs := state.outputs[i := state.outputs[i].(name := Some(n))];
      return Done;
  }

  /** Hands one event to the callback registered for its object. */
  method HandleEvent(conn: Connection, state: WaylandState, ev: Event) returns (res: Outcome)
    modifies conn, state
    ensures ClientStep(Snapshot(state, conn), res) == Handle(old(Snapshot(state, conn)), ev)
    ensures conn.queue == old(conn.queue)
  {
    match ev
    case RegistryEv(r) => res := RegistryCallback(conn, state, r);
    case GammaControlEv(c, g) => res := GammaControlCallback(conn, state, c, g);
    case OutputEv(o, e) => res := OutputCallback(conn, state, o, e);
  }

  /** `dispatch_events`: drains the queue through the callbacks, stopping at
      a panic. */
  method DispatchEvents(conn: Connection, state: WaylandState) returns (res: Outcome)
    modifies conn, state
    ensures DispatchStep(Snapshot(state, conn), conn.queue, res)
         == DispatchAll(old(Snapshot(state, conn)), old(conn.queue))
  {
    res := Done;
    while conn.queue != []
      invariant res == Done
      invariant DispatchAll(Snapshot(state, conn), conn.queue)
             == DispatchAll(old(Snapshot(state, conn)), old(conn.queue))
      decreases |conn.queue|
    {
      ghost var before := Snapshot(state, conn);
      ghost var pending := conn.queue;
      var ev := conn.NextEvent();
      res := HandleEvent(conn, state, ev);
      assert DispatchAll(before, pending)
          == if res.Done? then DispatchAll(Snapshot(state, conn), conn.queue)
             else DispatchStep(Snapshot(state, conn), conn.queue, res);
      if !res.Done? {
        return;
      }
    }
  }

  // ---------------------------------------------------------------------
  // The handle the main loop drives
  // ---------------------------------------------------------------------

  class Wayland {
    const conn: Connection
    const state: WaylandState

    /** No request ever names a destroyed gamma control, and the outputs'
        ids are distinct and live. */
    ghost predicate Valid()
      reads this, conn, state
    {
      WaylandLifecycle.Valid(Snapshot(state, conn))
    }

    constructor (conn: Connection, state: WaylandState)
      requires WaylandLifecycle.Valid(Snapshot(state, conn))
      ensures this.conn == conn && this.state == state
      ensures Valid()
    {
      this.conn := conn;
      this.state := state;
    }

    /** `Wayland::set_temperature`: with an unchanged temperature nothing at
        all happens; otherwise the queued events are dispatched first (so a
        ramp size arriving now is applied at the new temperature), then every
        output is updated in list order, stopping at the first error. */
    method SetTemperature(t: u16) returns (res: Outcome)
      requires Valid()
      modifies conn, state
      ensures DispatchStep(Snapshot(state, conn), conn.queue, res)
           == WaylandSpec.SetTemperature(old(Snapshot(state, conn)), old(conn.queue), t)
      ensures t == old(state.temperature) ==>
                res == Done && Snapshot(state, conn) == old(Snapshot(state, conn)) && conn.queue == old(conn.queue)
      ensures state.temperature == t
      ensures Valid()
    {
      ghost var s0 := Snapshot(state, conn);
      ghost var q0 := conn.queue;
      WaylandLifecycle.SetTemperatureKeepsValid(s0, q0, t);
      var changed := state.SetTemperature(t);
      if !changed {
        return Done;
      }
      res := DispatchEvents(conn, state);
      if !res.Done? {
        return;
      }
      ghost var c1 := conn.View();
      var outputs := state.outputs;
      var i := 0;
      while i < |outputs|
        invariant 0 <= i <= |outputs|
        invariant state.outputs == outputs && state.temperature == t && conn.queue == []
        invariant UpdateAll(outputs[i..], t, conn.View()) == UpdateAll(outputs, t, c1)
      {
        assert outputs[i..][1..] == outputs[i + 1..];
        var u := UpdateDisplayedTemperature(outputs[i], state.temperature, conn);
        if !u.Done? {
          return u;
        }
        i := i + 1;
      }
      return Done;
    }

    /** `Wayland::poll`: receives whatever the socket has; nothing is
        dispatched until the next temperature change. */
    method Poll(received: seq<Event>)
      requires Valid()
      modifies conn
      ensures conn.queue == old(conn.queue) + received
      ensures Snapshot(state, conn) == old(Snapshot(state, conn))
      ensures Valid()
    {
      conn.Receive(received);
    }
  }

  /** `Wayland::new` once connected: without the gamma-control manager the
      compositor is unsupported; otherwise the state starts at 6500 K with
      no outputs and the globals announced so far are dispatched. */
  method Connect(announced: seq<Event>, firstId: ObjectId, allocations: seq<bool>, hasGammaManager: bool)
    returns (w: Wayland?, res: Outcome)
    ensures !hasGammaManager ==> w == null && res == Error(GammaControlUnsupported)
    ensures hasGammaManager ==>
              && w != null && fresh(w) && fresh(w.conn) && fresh(w.state)
              && DispatchStep(Snapshot(w.state, w.conn), w.conn.queue, res)
                 == DispatchAll(ClientState([], INITIAL_TEMPERATURE, ConnState([], firstId, allocations)), announced)
              && w.Valid()
  {
    if !hasGammaManager {
      return null, Error(GammaControlUnsupported);
    }
    var conn := new Connection(firstId, allocations, announced);
    var state := new WaylandState();
    WaylandLifecycle.InitialValid(INITIAL_TEMPERATURE, firstId, allocations);
    WaylandLifecycle.DispatchAllKeepsValid(Snapshot(state, conn), announced);
    res := DispatchEvents(conn, state);
    w := new Wayland(conn, state);
  }
}
