/** The per-output gamma-control state machine of the Wayland client, as
    values: the events the compositor delivers, the requests the client
    sends, and one transition function per callback. The callback methods of
    `WaylandClient`, its ramp push, its dispatch loop and
    `Wayland.SetTemperature` are proved to perform exactly these
    transitions. */
module WaylandSpec {
  import opened Common
  import Color

  /** A protocol object this client created (an output or a gamma control). */
  type ObjectId = nat

  /** Whether a registry global is a `wl_output`. */
  datatype Interface = WlOutputInterface | OtherInterface

  datatype RegistryEvent =
    | Global(name: u32, iface: Interface, version: u32)
    | GlobalRemove(name: u32)

  datatype GammaControlEvent = GammaSize(size: u32) | Failed

  datatype OutputEvent = Name(outputName: string) | OtherOutputEvent

  /** An event as the connection hands it to the callback of its object. */
  datatype Event =
    | RegistryEv(registry: RegistryEvent)
    | GammaControlEv(control: ObjectId, gamma: GammaControlEvent)
    | OutputEv(output: ObjectId, event: OutputEvent)

  /** A request as the connection would send it; `SetGamma` carries the
      contents of the shared-memory region it hands over. */
  datatype Request =
    | BindOutput(name: u32, version: nat, output: ObjectId)
    | GetGammaControl(control: ObjectId, output: ObjectId)
    | SetGamma(control: ObjectId, ramp: seq<u16>)
    | DestroyGammaControl(control: ObjectId)
    | ReleaseOutput(output: ObjectId)

  datatype ClientError =
    | InvalidTemperature   // the colour lookup refused the temperature
    | ShmFailed            // creating, sizing or mapping the shared memory failed
    | UnsupportedVersion   // an output global older than version 4 cannot be bound
    | UnknownGammaControl  // a gamma-control event for no live output
    | UnknownOutput        // an output name event for no live output
    | GammaControlUnsupported  // the compositor offers no gamma-control manager

  /** `Error` is a returned `Err`; `Panic` is an `unwrap`/`expect` that aborts. */
  datatype Outcome = Done | Error(failure: ClientError) | Panic(failure: ClientError)

  /** One display output: its registry name, its `wl_output` object, the name
      the compositor reports, its gamma control and the ramp size (0 until
      the compositor reports one). */
  datatype Output = Output(regName: u32, wl: ObjectId, name: Option<string>,
                           gammaControl: ObjectId, rampSize: nat)

  /** What the connection has observably done: the requests sent, the next
      fresh object id, and the outcomes of the coming shared-memory
      allocations (an empty list means they succeed). */
  datatype ConnState = ConnState(log: seq<Request>, nextId: ObjectId, shm: seq<bool>)

  /** `WaylandState` together with its connection. */
  datatype ClientState = ClientState(outputs: seq<Output>, temperature: u16, conn: ConnState)

  datatype ConnStep = ConnStep(conn: ConnState, outcome: Outcome)
  datatype ClientStep = ClientStep(client: ClientState, outcome: Outcome)
  datatype DispatchStep = DispatchStep(client: ClientState, pending: seq<Event>, outcome: Outcome)

  // ---------------------------------------------------------------------
  // Looking up and removing outputs
  // ---------------------------------------------------------------------

  /** How a callback finds its output. */
  datatype Key = ByRegName(regName: u32) | ByControl(control: ObjectId) | ByOutput(output: ObjectId)

  predicate Matches(o: Output, key: Key) {
    match key
    case ByRegName(n) => o.regName == n
    case ByControl(c) => o.gammaControl == c
    case ByOutput(w) => o.wl == w
  }

  /** `iter().position(...)`: the first output the key matches. */
  function Position(outputs: seq<Output>, key: Key): (r: Option<nat>)
    ensures r.None? <==> forall j :: 0 <= j < |outputs| ==> !Matches(outputs[j], key)
    ensures r.Some? ==> r.value < |outputs| && Matches(outputs[r.value], key)
    ensures r.Some? ==> forall j :: 0 <= j < r.value ==> !Matches(outputs[j], key)
    decreases |outputs|
  {
    if outputs == [] then None
    else if Matches(outputs[0], key) then Some(0)
    else match Position(outputs[1..], key)
      case None => None
      case Some(i) => Some(i + 1)
  }

  /** `Vec::swap_remove`: the last element takes the place of the removed one. */
  function SwapRemove<T>(s: seq<T>, i: nat): (r: seq<T>)
    requires i < |s|
    ensures |r| == |s| - 1
    ensures forall k :: 0 <= k < |r| && k != i ==> r[k] == s[k]
    ensures i < |r| ==> r[i] == s[|s| - 1]
    ensures multiset(r) + multiset{s[i]} == multiset(s)
  {
    if i == |s| - 1 then
      assert s == s[..i] + [s[i]];
      s[..i]
    else
      var r := s[..i] + [s[|s| - 1]] + s[i + 1..|s| - 1];
      assert s == s[..i] + [s[i]] + s[i + 1..|s| - 1] + [s[|s| - 1]];
      r
  }

  function RegNames(outputs: seq<Output>): (names: seq<u32>)
    ensures |names| == |outputs|
    ensures forall k :: 0 <= k < |outputs| ==> names[k] == outputs[k].regName
  {
    seq(|outputs|, k requires 0 <= k < |outputs| => outputs[k].regName)
  }

  /** Removing by `swap_remove` drops exactly the removed output's name from
      the multiset of registry names. */
  lemma {:induction false} SwapRemoveNames(outputs: seq<Output>, i: nat)
    requires i < |outputs|
    ensures multiset(RegNames(SwapRemove(outputs, i))) + multiset{outputs[i].regName}
         == multiset(RegNames(outputs))
  {
    var r := SwapRemove(outputs, i);
    var n := |outputs|;
    if i == n - 1 {
      assert RegNames(outputs) == RegNames(r) + [outputs[i].regName];
    } else {
      var names := RegNames(outputs);
      assert RegNames(r) == names[..i] + [names[n - 1]] + names[i + 1..n - 1];
      assert names == names[..i] + [names[i]] + names[i + 1..n - 1] + [names[n - 1]];
    }
  }

  // ---------------------------------------------------------------------
  // Pushing a gamma ramp to one output
  // ---------------------------------------------------------------------

  /** The ramp buffer: `3 * rampSize` samples (`6 * rampSize` bytes), the red
      block, then the green block, then the blue block. */
  function RampBuffer(rampSize: nat, c: Color.Rgb): (buf: seq<u16>)
    ensures |buf| == 3 * rampSize
    ensures forall i :: 0 <= i < rampSize ==>
              && buf[i] == Color.Sample(rampSize, i, c.r)
              && buf[rampSize + i] == Color.Sample(rampSize, i, c.g)
              && buf[2 * rampSize + i] == Color.Sample(rampSize, i, c.b)
  {
    Color.ChannelRamp(rampSize, c.r) + Color.ChannelRamp(rampSize, c.g) + Color.ChannelRamp(rampSize, c.b)
  }

  /** The outcome of the next shared-memory allocation. */
  function ShmSucceeds(shm: seq<bool>): bool {
    shm == [] || shm[0]
  }

  function ShmAfter(shm: seq<bool>): seq<bool> {
    if shm == [] then [] else shm[1..]
  }

  /** `Output::update_displayed_temperature`: nothing at all while the ramp
      size is unknown; otherwise allocate a region, fill it with the ramp and
      send exactly one `set_gamma`, unless allocation or the colour lookup
      fails. */
  function Update(o: Output, temperature: u16, conn: ConnState): (s: ConnStep)
    ensures s.outcome.Done? || s.outcome.Error?
    ensures s.conn.nextId == conn.nextId
    ensures o.rampSize == 0 ==> s == ConnStep(conn, Done)
    ensures o.rampSize > 0 ==> s.conn.shm == ShmAfter(conn.shm)
    ensures s.outcome.Done? <==>
              o.rampSize == 0 || (ShmSucceeds(conn.shm) && Color.InRange(temperature))
    ensures s.outcome.Done? && o.rampSize > 0 ==>
              s.conn.log == conn.log + [SetGamma(o.gammaControl, RampBuffer(o.rampSize,
                                          Color.FindInterpolatedTemperatureColor(temperature).value))]
    ensures !s.outcome.Done? ==> s.conn.log == conn.log
  {
    if o.rampSize == 0 then ConnStep(conn, Done)
    else
      var conn' := conn.(shm := ShmAfter(conn.shm));
      if !ShmSucceeds(conn.shm) then ConnStep(conn', Error(ShmFailed))
      else match Color.FindInterpolatedTemperatureColor(temperature)
        case Failure(_) => ConnStep(conn', Error(InvalidTemperature))
        case Success(c) =>
          ConnStep(conn'.(log := conn.log + [SetGamma(o.gammaControl, RampBuffer(o.rampSize, c))]), Done)
  }

  /** The loop of `Wayland::set_temperature`: update the outputs in list
      order and stop at the first error. */
  function UpdateAll(outputs: seq<Output>, temperature: u16, conn: ConnState): (s: ConnStep)
    ensures s.outcome.Done? || s.outcome.Error?
    ensures s.conn.nextId == conn.nextId
    decreases |outputs|
  {
    if outputs == [] then ConnStep(conn, Done)
    else
      var first := Update(outputs[0], temperature, conn);
      if !first.outcome.Done? then first
      else UpdateAll(outputs[1..], temperature, first.conn)
  }

  /** The `set_gamma` requests of a successful pass, one per output whose
      ramp size is known, in list order. */
  function GammaRequests(outputs: seq<Output>, c: Color.Rgb): (reqs: seq<Request>)
    ensures |reqs| <= |outputs|
    ensures forall r :: r in reqs ==> r.SetGamma?
  {
    if outputs == [] then []
    else
      (if outputs[0].rampSize > 0 then [SetGamma(outputs[0].gammaControl, RampBuffer(outputs[0].rampSize, c))] else [])
      + GammaRequests(outputs[1..], c)
  }

  /** With every allocation succeeding and a valid temperature, the pass sends
      exactly the requests of `GammaRequests`, in list order. */
  lemma {:induction false} UpdateAllSendsInOrder(outputs: seq<Output>, temperature: u16, conn: ConnState)
    requires conn.shm == [] && Color.InRange(temperature)
    ensures UpdateAll(outputs, temperature, conn)
         == ConnStep(conn.(log := conn.log + GammaRequests(outputs,
                         Color.FindInterpolatedTemperatureColor(temperature).value)), Done)
  {
    if outputs != [] {
      var c := Color.FindInterpolatedTemperatureColor(temperature).value;
      var head := if outputs[0].rampSize > 0 then [SetGamma(outputs[0].gammaControl, RampBuffer(outputs[0].rampSize, c))] else [];
      var first := Update(outputs[0], temperature, conn);
      assert first == ConnStep(conn.(log := conn.log + head), Done);
      UpdateAllSendsInOrder(outputs[1..], temperature, first.conn);
      assert GammaRequests(outputs, c) == head + GammaRequests(outputs[1..], c);
      assert conn.log + head + GammaRequests(outputs[1..], c) == conn.log + GammaRequests(outputs, c);
    }
  }

  lemma {:induction false} GammaRequestsAppend(a: seq<Output>, b: seq<Output>, c: Color.Rgb)
    ensures GammaRequests(a + b, c) == GammaRequests(a, c) + GammaRequests(b, c)
  {
    if a != [] {
      assert (a + b)[1..] == a[1..] + b;
      GammaRequestsAppend(a[1..], b, c);
    } else {
      assert a + b == b;
    }
  }

  /** The pass failed at output `k` with an allocation error after updating
      exactly the outputs before it. */
  predicate FailsAt(outputs: seq<Output>, temperature: u16, conn: ConnState, k: nat)
    requires Color.InRange(temperature)
  {
    && k < |outputs| && outputs[k].rampSize > 0
    && UpdateAll(outputs, temperature, conn).conn.log
       == conn.log + GammaRequests(outputs[..k], Color.FindInterpolatedTemperatureColor(temperature).value)
    && UpdateAll(outputs, temperature, conn).outcome == Error(ShmFailed)
  }

  /** A failing pass fails at some output `k`: only the outputs before it
      have been updated, and with a valid temperature the error can only be
      the allocation. */
  lemma {:induction false} UpdateAllStopsAtFirstError(outputs: seq<Output>, temperature: u16, conn: ConnState)
    requires Color.InRange(temperature)
    requires UpdateAll(outputs, temperature, conn).outcome.Error?
    ensures exists k: nat :: FailsAt(outputs, temperature, conn, k)
    decreases |outputs|
  {
    var first := Update(outputs[0], temperature, conn);
    if !first.outcome.Done? {
      assert outputs[..0] == [];
      assert FailsAt(outputs, temperature, conn, 0);
    } else {
      var rest := outputs[1..];
      UpdateAllStopsAtFirstError(rest, temperature, first.conn);
      var k: nat :| FailsAt(rest, temperature, first.conn, k);
      FailsAtShifts(outputs, temperature, conn, k);
    }
  }

  /** A pass that updated its first output and then failed at `k` in the
      rest fails at `k + 1` of the whole list. */
  lemma FailsAtShifts(outputs: seq<Output>, temperature: u16, conn: ConnState, k: nat)
    requires Color.InRange(temperature) && outputs != []
    requires Update(outputs[0], temperature, conn).outcome.Done?
    requires FailsAt(outputs[1..], temperature, Update(outputs[0], temperature, conn).conn, k)
    ensures FailsAt(outputs, temperature, conn, k + 1)
  {
    var c := Color.FindInterpolatedTemperatureColor(temperature).value;
    var first := Update(outputs[0], temperature, conn);
    var rest := outputs[1..];
    assert UpdateAll(outputs, temperature, conn) == UpdateAll(rest, temperature, first.conn);
    assert outputs[..k + 1] == [outputs[0]] + rest[..k];
    GammaRequestsAppend([outputs[0]], rest[..k], c);
    assert [outputs[0]][1..] == [];
    assert first.conn.log == conn.log + GammaRequests([outputs[0]], c);
  }

  // ---------------------------------------------------------------------
  // The callbacks
  // ---------------------------------------------------------------------

  /** `Output::destroy`: destroy the gamma control, release the output. */
  function DestroyRequests(o: Output): seq<Request> {
    [DestroyGammaControl(o.gammaControl), ReleaseOutput(o.wl)]
  }

  /** Removes output `i` by `swap_remove` and destroys it. */
  function RemoveOutput(s: ClientState, i: nat): (s': ClientState)
    requires i < |s.outputs|
  {
    s.(outputs := SwapRemove(s.outputs, i),
       conn := s.conn.(log := s.conn.log + DestroyRequests(s.outputs[i])))
  }

  /** `wl_registry_cb`. */
  function OnRegistry(s: ClientState, ev: RegistryEvent): ClientStep {
    match ev
    case Global(name, iface, version) =>
      if iface != WlOutputInterface then ClientStep(s, Done)
      else if version < 4 then ClientStep(s, Panic(UnsupportedVersion))
      else
        var o := Output(name, s.conn.nextId, None, s.conn.nextId + 1, 0);
        var bound := s.conn.(log := s.conn.log + [BindOutput(name, 4, o.wl), GetGammaControl(o.gammaControl, o.wl)],
                             nextId := s.conn.nextId + 2);
        var u := Update(o, s.temperature, bound);
        if u.outcome.Done? then ClientStep(s.(outputs := s.outputs + [o], conn := u.conn), Done)
        else ClientStep(s.(conn := u.conn), Panic(u.outcome.failure))
    case GlobalRemove(name) =>
      match Position(s.outputs, ByRegName(name))
      case None => ClientStep(s, Done)
      case Some(i) => ClientStep(RemoveOutput(s, i), Done)
  }

  /** `gamma_control_cb`. */
  function OnGammaControl(s: ClientState, control: ObjectId, ev: GammaControlEvent): ClientStep {
    match Position(s.outputs, ByControl(control))
    case None => ClientStep(s, Panic(UnknownGammaControl))
    case Some(i) =>
      match ev
      case GammaSize(size) =>
        var o := s.outputs[i].(rampSize := size);
        var u := Update(o, s.temperature, s.conn);
        var s' := s.(outputs := s.outputs[i := o], conn := u.conn);
        if u.outcome.Done? then ClientStep(s', Done) else ClientStep(s', Panic(u.outcome.failure))
      case Failed => ClientStep(RemoveOutput(s, i), Done)
  }

  /** `wl_output_cb`: only the name event looks its output up. */
  function OnOutput(s: ClientState, output: ObjectId, ev: OutputEvent): ClientStep {
    match ev
    case OtherOutputEvent => ClientStep(s, Done)
    case Name(n) =>
      match Position(s.outputs, ByOutput(output))
      case None => ClientStep(s, Panic(UnknownOutput))
      case Some(i) => ClientStep(s.(outputs := s.outputs[i := s.outputs[i].(name := Some(n))]), Done)
  }

  function Handle(s: ClientState, ev: Event): ClientStep {
    match ev
    case RegistryEv(r) => OnRegistry(s, r)
    case GammaControlEv(c, g) => OnGammaControl(s, c, g)
    case OutputEv(o, e) => OnOutput(s, o, e)
  }

  /** `dispatch_events`: hand the queued events to their callbacks in order;
      a panic ends the process with the rest of the queue unhandled. */
  function DispatchAll(s: ClientState, events: seq<Event>): (d: DispatchStep)
    ensures d.outcome.Done? ==> d.pending == []
    ensures d.outcome.Done? || d.outcome.Panic?
    ensures d.client.temperature == s.temperature
    decreases |events|
  {
    if events == [] then DispatchStep(s, [], Done)
    else
      var h := Handle(s, events[0]);
      if h.outcome.Done? then DispatchAll(h.client, events[1..])
      else DispatchStep(h.client, events[1..], h.outcome)
  }

  /** `Wayland::set_temperature`: when the temperature changes, store it,
      dispatch the queued events, then update every output in order. */
  function SetTemperature(s: ClientState, pending: seq<Event>, temperature: u16): (d: DispatchStep)
    ensures d.client.temperature == temperature
  {
    if temperature == s.temperature then DispatchStep(s, pending, Done)
    else
      var d := DispatchAll(s.(temperature := temperature), pending);
      if !d.outcome.Done? then d
      else
        var u := UpdateAll(d.client.outputs, temperature, d.client.conn);
        DispatchStep(d.client.(conn := u.conn), d.pending, u.outcome)
  }
}
