/** What the callbacks promise about the lifecycle of an output: binding
    never pushes a ramp, a ramp size triggers exactly one push, removal
    drops exactly one output and destroys its objects, unknown objects
    abort, and the client never names a gamma control after destroying it. */
module WaylandLifecycle {
  import opened Common
  import Color
  import opened WaylandSpec

  // ---------------------------------------------------------------------
  // The invariant
  // ---------------------------------------------------------------------

  /** Every object a request names was created before `n`. */
  predicate IdsBelow(r: Request, n: nat) {
    match r
    case BindOutput(_, _, o) => o < n
    case GetGammaControl(c, o) => c < n && o < n
    case SetGamma(c, _) => c < n
    case DestroyGammaControl(c) => c < n
    case ReleaseOutput(o) => o < n
  }

  predicate NamesControl(r: Request, c: ObjectId) {
    (r.GetGammaControl? || r.SetGamma? || r.DestroyGammaControl?) && r.control == c
  }

  /** `r` names no gamma control that `log` has destroyed. */
  predicate NotDestroyedIn(log: seq<Request>, r: Request) {
    forall i :: 0 <= i < |log| && log[i].DestroyGammaControl? ==> !NamesControl(r, log[i].control)
  }

  /** No request names a gamma control after the request that destroyed it. */
  predicate NoUseAfterDestroy(log: seq<Request>) {
    forall j :: 0 <= j < |log| ==> NotDestroyedIn(log[..j], log[j])
  }

  predicate LogValid(conn: ConnState) {
    && (forall r <- conn.log :: IdsBelow(r, conn.nextId))
    && NoUseAfterDestroy(conn.log)
  }

  /** An output whose objects exist and whose gamma control is not destroyed. */
  predicate Live(o: Output, conn: ConnState) {
    && o.wl < conn.nextId && o.gammaControl < conn.nextId
    && DestroyGammaControl(o.gammaControl) !in conn.log
  }

  predicate IdsDistinct(outputs: seq<Output>) {
    forall i, j :: 0 <= i < |outputs| && 0 <= j < |outputs| && i != j ==>
      outputs[i].wl != outputs[j].wl && outputs[i].gammaControl != outputs[j].gammaControl
  }

  predicate Valid(s: ClientState) {
    && IdsDistinct(s.outputs)
    && (forall o <- s.outputs :: Live(o, s.conn))
    && LogValid(s.conn)
  }

  /** Every output live before is live after. */
  ghost predicate KeepsLive(conn: ConnState, conn': ConnState) {
    forall o :: Live(o, conn) ==> Live(o, conn')
  }

  /** The state before any event: no outputs, nothing sent. */
  lemma InitialValid(temperature: u16, nextId: ObjectId, shm: seq<bool>)
    ensures Valid(ClientState([], temperature, ConnState([], nextId, shm)))
  {
  }

  // ---------------------------------------------------------------------
  // Extending the log
  // ---------------------------------------------------------------------

  lemma IdsBelowGrows(r: Request, n: nat, m: nat)
    requires IdsBelow(r, n) && n <= m
    ensures IdsBelow(r, m)
  {
  }

  /** Appending one request that names only created, undestroyed objects
      keeps the log valid. */
  lemma {:induction false} AppendKeepsLogValid(conn: ConnState, r: Request, nextId: ObjectId)
    requires LogValid(conn) && conn.nextId <= nextId
    requires IdsBelow(r, nextId) && NotDestroyedIn(conn.log, r)
    ensures LogValid(ConnState(conn.log + [r], nextId, conn.shm))
  {
    var log' := conn.log + [r];
    forall r' | r' in log' ensures IdsBelow(r', nextId) {
      if r' in conn.log { IdsBelowGrows(r', conn.nextId, nextId); }
    }
    forall j | 0 <= j < |log'| ensures NotDestroyedIn(log'[..j], log'[j]) {
      if j < |conn.log| {
        assert log'[..j] == conn.log[..j];
      } else {
        assert log'[..j] == conn.log;
      }
    }
  }

  /** A request that names no gamma control can always be appended. */
  lemma NoControlNotDestroyed(log: seq<Request>, r: Request)
    requires r.BindOutput? || r.ReleaseOutput?
    ensures NotDestroyedIn(log, r)
  {
  }

  /** A control whose destruction is not in the log may be named. */
  lemma UndestroyedNotDestroyed(log: seq<Request>, r: Request, c: ObjectId)
    requires NamesControl(r, c) && DestroyGammaControl(c) !in log
    ensures NotDestroyedIn(log, r)
  {
    forall i | 0 <= i < |log| && log[i].DestroyGammaControl?
      ensures !NamesControl(r, log[i].control)
    {
      assert log[i] in log;
      assert log[i] == DestroyGammaControl(log[i].control);
    }
  }

  /** A control id not yet created cannot have been destroyed. */
  lemma FreshNotDestroyed(conn: ConnState, r: Request, c: ObjectId)
    requires LogValid(conn) && NamesControl(r, c) && conn.nextId <= c
    ensures NotDestroyedIn(conn.log, r)
  {
    forall i | 0 <= i < |conn.log| && conn.log[i].DestroyGammaControl?
      ensures !NamesControl(r, conn.log[i].control)
    {
      assert conn.log[i] in conn.log;
      assert IdsBelow(conn.log[i], conn.nextId);
    }
  }

  /** Updating a live output keeps the log valid and destroys nothing. */
  lemma UpdateKeepsValid(o: Output, temperature: u16, conn: ConnState)
    requires LogValid(conn) && Live(o, conn)
    ensures LogValid(Update(o, temperature, conn).conn)
    ensures KeepsLive(conn, Update(o, temperature, conn).conn)
  {
    var u := Update(o, temperature, conn);
    if u.conn.log != conn.log {
      var r := SetGamma(o.gammaControl, RampBuffer(o.rampSize,
                 Color.FindInterpolatedTemperatureColor(temperature).value));
      UndestroyedNotDestroyed(conn.log, r, o.gammaControl);
      AppendKeepsLogValid(conn, r, conn.nextId);
      assert u.conn == ConnState(conn.log + [r], conn.nextId, u.conn.shm);
    }
  }

  /** A pass over live outputs keeps the log valid and destroys nothing. */
  lemma {:induction false} UpdateAllKeepsValid(outputs: seq<Output>, temperature: u16, conn: ConnState)
    requires LogValid(conn)
    requires forall o <- outputs :: Live(o, conn)
    ensures LogValid(UpdateAll(outputs, temperature, conn).conn)
    ensures KeepsLive(conn, UpdateAll(outputs, temperature, conn).conn)
    decreases |outputs|
  {
    if outputs != [] {
      var first := Update(outputs[0], temperature, conn);
      UpdateKeepsValid(outputs[0], temperature, conn);
      if first.outcome.Done? {
        assert forall o <- outputs[1..] :: o in outputs;
        UpdateAllKeepsValid(outputs[1..], temperature, first.conn);
      }
    }
  }

  // ---------------------------------------------------------------------
  // Each callback keeps the invariant
  // ---------------------------------------------------------------------

  /** Binding a new output: its two objects are fresh, so nothing sent
      before names them, and no existing output shares their ids. */
  lemma {:induction false} GlobalKeepsValid(s: ClientState, name: u32, version: u32)
    requires Valid(s) && version >= 4
    ensures Valid(OnRegistry(s, Global(name, WlOutputInterface, version)).client)
  {
    var n := s.conn.nextId;
    var o := Output(name, n, None, n + 1, 0);
    var bind := BindOutput(name, 4, n);
    var get := GetGammaControl(n + 1, n);
    var c1 := ConnState(s.conn.log + [bind], n + 2, s.conn.shm);
    NoControlNotDestroyed(s.conn.log, bind);
    AppendKeepsLogValid(s.conn, bind, n + 2);
    FreshNotDestroyed(s.conn, get, n + 1);
    assert NotDestroyedIn(c1.log, get);
    AppendKeepsLogValid(c1, get, n + 2);
    var c2 := ConnState(c1.log + [get], n + 2, s.conn.shm);
    assert c2.log == s.conn.log + [bind, get];
    var s' := OnRegistry(s, Global(name, WlOutputInterface, version)).client;
    assert s' == s.(outputs := s.outputs + [o], conn := c2);
    forall o' | o' in s'.outputs ensures Live(o', c2) {
      if o' in s.outputs {
        assert Live(o', s.conn);
      } else {
        assert o' == o;
        forall r | r in s.conn.log ensures r != DestroyGammaControl(n + 1) {
          assert IdsBelow(r, n);
        }
      }
    }
    forall i, j | 0 <= i < |s'.outputs| && 0 <= j < |s'.outputs| && i != j
      ensures s'.outputs[i].wl != s'.outputs[j].wl && s'.outputs[i].gammaControl != s'.outputs[j].gammaControl
    {
      if i < |s.outputs| { assert s.outputs[i] in s.outputs; }
      if j < |s.outputs| { assert s.outputs[j] in s.outputs; }
    }
  }

  /** Every output left after a `swap_remove` was one of the others. */
  lemma SwapRemoveKeepsOthers(outputs: seq<Output>, i: nat, k: nat)
    requires i < |outputs| && k < |outputs| - 1
    ensures exists m :: 0 <= m < |outputs| && m != i && SwapRemove(outputs, i)[k] == outputs[m]
  {
    if k == i {
      assert SwapRemove(outputs, i)[k] == outputs[|outputs| - 1];
    } else {
      assert SwapRemove(outputs, i)[k] == outputs[k];
    }
  }

  /** Removing a live output: its destruction is new to the log, and no
      remaining output shares its gamma control. */
  lemma {:induction false} RemoveKeepsValid(s: ClientState, i: nat)
    requires Valid(s) && i < |s.outputs|
    ensures Valid(RemoveOutput(s, i))
  {
    var o := s.outputs[i];
    var n := s.conn.nextId;
    assert o in s.outputs && Live(o, s.conn);
    var d := DestroyGammaControl(o.gammaControl);
    var rel := ReleaseOutput(o.wl);
    UndestroyedNotDestroyed(s.conn.log, d, o.gammaControl);
    AppendKeepsLogValid(s.conn, d, n);
    var c1 := ConnState(s.conn.log + [d], n, s.conn.shm);
    NoControlNotDestroyed(c1.log, rel);
    AppendKeepsLogValid(c1, rel, n);
    var s' := RemoveOutput(s, i);
    assert s'.conn == ConnState(c1.log + [rel], n, s.conn.shm);
    var rest := SwapRemove(s.outputs, i);
    assert s'.outputs == rest;
    forall k | 0 <= k < |rest| ensures Live(rest[k], s'.conn) {
      SwapRemoveKeepsOthers(s.outputs, i, k);
      var m :| 0 <= m < |s.outputs| && m != i && rest[k] == s.outputs[m];
      assert s.outputs[m] in s.outputs;
      assert s.outputs[m].gammaControl != o.gammaControl;
      assert DestroyGammaControl(rest[k].gammaControl) !in s.conn.log;
      assert s'.conn.log == s.conn.log + [d, rel];
    }
    forall a, b | 0 <= a < |rest| && 0 <= b < |rest| && a != b
      ensures rest[a].wl != rest[b].wl && rest[a].gammaControl != rest[b].gammaControl
    {
      var last := |s.outputs| - 1;
      var ma := if a == i then last else a;
      var mb := if b == i then last else b;
      assert rest[a] == s.outputs[ma] && rest[b] == s.outputs[mb];
    }
  }

  lemma {:induction false} GammaControlKeepsValid(s: ClientState, control: ObjectId, ev: GammaControlEvent)
    requires Valid(s)
    ensures Valid(OnGammaControl(s, control, ev).client)
  {
    match Position(s.outputs, ByControl(control))
    case None =>
    case Some(i) =>
      match ev
      case Failed => RemoveKeepsValid(s, i);
      case GammaSize(size) =>
        var o := s.outputs[i].(rampSize := size);
        assert s.outputs[i] in s.outputs;
        UpdateKeepsValid(o, s.temperature, s.conn);
        var u := Update(o, s.temperature, s.conn);
        var outs := s.outputs[i := o];
        forall o' | o' in outs ensures Live(o', u.conn) {
          var k :| 0 <= k < |outs| && outs[k] == o';
          if k != i { assert s.outputs[k] in s.outputs; }
        }
  }

  lemma {:induction false} OutputKeepsValid(s: ClientState, output: ObjectId, ev: OutputEvent)
    requires Valid(s)
    ensures Valid(OnOutput(s, output, ev).client)
  {
    match ev
    case OtherOutputEvent =>
    case Name(n) =>
      match Position(s.outputs, ByOutput(output))
      case None =>
      case Some(i) =>
        var outs := s.outputs[i := s.outputs[i].(name := Some(n))];
        forall o' | o' in outs ensures Live(o', s.conn) {
          var k :| 0 <= k < |outs| && outs[k] == o';
          assert s.outputs[k] in s.outputs;
        }
  }

  /** Every event handler keeps the invariant, whatever its outcome. */
  lemma HandleKeepsValid(s: ClientState, ev: Event)
    requires Valid(s)
    ensures Valid(Handle(s, ev).client)
  {
    match ev
    case RegistryEv(r) =>
      match r {
        case Global(name, iface, version) =>
          if iface == WlOutputInterface && version >= 4 { GlobalKeepsValid(s, name, version); }
        case GlobalRemove(name) =>
          match Position(s.outputs, ByRegName(name)) {
            case None =>
            case Some(i) => RemoveKeepsValid(s, i);
          }
      }
    case GammaControlEv(c, g) => GammaControlKeepsValid(s, c, g);
    case OutputEv(o, e) => OutputKeepsValid(s, o, e);
  }

  lemma {:induction false} DispatchAllKeepsValid(s: ClientState, events: seq<Event>)
    requires Valid(s)
    ensures Valid(DispatchAll(s, events).client)
    decreases |events|
  {
    if events != [] {
      HandleKeepsValid(s, events[0]);
      var h := Handle(s, events[0]);
      if h.outcome.Done? { DispatchAllKeepsValid(h.client, events[1..]); }
    }
  }

  /** Changing the temperature keeps the invariant, so no `set_gamma` ever
      names a destroyed gamma control. */
  lemma SetTemperatureKeepsValid(s: ClientState, pending: seq<Event>, temperature: u16)
    requires Valid(s)
    ensures Valid(SetTemperature(s, pending, temperature).client)
  {
    if temperature != s.temperature {
      var s1 := s.(temperature := temperature);
      DispatchAllKeepsValid(s1, pending);
      var d := DispatchAll(s1, pending);
      if d.outcome.Done? {
        UpdateAllKeepsValid(d.client.outputs, temperature, d.client.conn);
      }
    }
  }

  // ---------------------------------------------------------------------
  // What each event does
  // ---------------------------------------------------------------------

  /** A new `wl_output` global (version 4 or later) is bound with two fresh
      objects and appended with no name and an unknown ramp size; no ramp
      is pushed yet. An older version aborts. Other globals are ignored. */
  lemma OnGlobal(s: ClientState, name: u32, iface: Interface, version: u32)
    ensures iface != WlOutputInterface ==> OnRegistry(s, Global(name, iface, version)) == ClientStep(s, Done)
    ensures iface == WlOutputInterface && version < 4 ==>
              OnRegistry(s, Global(name, iface, version)).outcome == Panic(UnsupportedVersion)
    ensures iface == WlOutputInterface && version >= 4 ==>
              var n := s.conn.nextId;
              OnRegistry(s, Global(name, iface, version)) == ClientStep(
                s.(outputs := s.outputs + [Output(name, n, None, n + 1, 0)],
                   conn := s.conn.(log := s.conn.log + [BindOutput(name, 4, n), GetGammaControl(n + 1, n)],
                                   nextId := n + 2)),
                Done)
  {
  }

  /** Any event for a gamma control that no output holds, a ramp size or a
      failure, aborts with nothing changed: the output is looked up before
      the event is examined. */
  lemma OnUnknownControl(s: ClientState, control: ObjectId, ev: GammaControlEvent)
    requires Position(s.outputs, ByControl(control)).None?
    ensures OnGammaControl(s, control, ev) == ClientStep(s, Panic(UnknownGammaControl))
  {
  }

  /** A ramp size changes only the output it is for, and pushes exactly one
      ramp of that size when it is positive (and allocation and the lookup
      succeed); a failure aborts. An unknown gamma control aborts with
      nothing changed. */
  lemma OnGammaSize(s: ClientState, control: ObjectId, size: u32)
    ensures Position(s.outputs, ByControl(control)).None? ==>
              OnGammaControl(s, control, GammaSize(size)) == ClientStep(s, Panic(UnknownGammaControl))
    ensures Position(s.outputs, ByControl(control)).Some? ==>
              var i := Position(s.outputs, ByControl(control)).value;
              var step := OnGammaControl(s, control, GammaSize(size));
              var pushed := size > 0 && ShmSucceeds(s.conn.shm) && Color.InRange(s.temperature);
              && step.client.outputs == s.outputs[i := s.outputs[i].(rampSize := size)]
              && step.client.outputs[i].gammaControl == control
              && step.client.temperature == s.temperature
              && (step.outcome.Done? <==> size == 0 || pushed)
              && (!step.outcome.Done? ==> step.outcome.Panic?)
              && step.client.conn.log == s.conn.log +
                   (if pushed then [SetGamma(control, RampBuffer(size,
                                      Color.FindInterpolatedTemperatureColor(s.temperature).value))]
                    else [])
  {
  }

  /** Removal by registry name or by a failed gamma control drops exactly one
      output (one occurrence of its name) and destroys its two objects; under
      the invariant the destroyed gamma control is no longer found. */
  lemma {:induction false} OnRemoval(s: ClientState, ev: Event)
    requires ev.RegistryEv? ==> ev.registry.GlobalRemove?
    requires ev.GammaControlEv? ==> ev.gamma.Failed?
    requires !ev.OutputEv?
    requires Position(s.outputs, RemovalKey(ev)).Some?
    ensures var i := Position(s.outputs, RemovalKey(ev)).value;
            var step := Handle(s, ev);
            && step.outcome == Done
            && |step.client.outputs| == |s.outputs| - 1
            && multiset(RegNames(step.client.outputs)) + multiset{s.outputs[i].regName}
               == multiset(RegNames(s.outputs))
            && step.client.conn.log == s.conn.log + DestroyRequests(s.outputs[i])
            && (Valid(s) ==> Position(step.client.outputs, ByControl(s.outputs[i].gammaControl)).None?)
  {
    var i := Position(s.outputs, RemovalKey(ev)).value;
    var step := Handle(s, ev);
    assert step == ClientStep(RemoveOutput(s, i), Done);
    SwapRemoveNames(s.outputs, i);
    if Valid(s) {
      var rest := step.client.outputs;
      forall k | 0 <= k < |rest| ensures !Matches(rest[k], ByControl(s.outputs[i].gammaControl)) {
        SwapRemoveKeepsOthers(s.outputs, i, k);
      }
    }
  }

  function RemovalKey(ev: Event): Key
    requires !ev.OutputEv?
  {
    if ev.RegistryEv? then ByRegName(ev.registry.name) else ByControl(ev.control)
  }

  /** Removing a name no output has does nothing. */
  lemma OnUnknownRemove(s: ClientState, name: u32)
    requires Position(s.outputs, ByRegName(name)).None?
    ensures OnRegistry(s, GlobalRemove(name)) == ClientStep(s, Done)
  {
  }

  /** A name event records the name on the output it is for and changes
      nothing else; an unknown output aborts. */
  lemma OnName(s: ClientState, output: ObjectId, n: string)
    ensures Position(s.outputs, ByOutput(output)).None? ==>
              OnOutput(s, output, Name(n)).outcome == Panic(UnknownOutput)
    ensures Position(s.outputs, ByOutput(output)).Some? ==>
              var i := Position(s.outputs, ByOutput(output)).value;
              OnOutput(s, output, Name(n)) ==
                ClientStep(s.(outputs := s.outputs[i := s.outputs[i].(name := Some(n))]), Done)
  {
  }

  /** The lifecycle of one output: a new global, then a ramp size of 0 (no
      push), then a ramp size of 256 pushes exactly one ramp of 768 samples
      (1536 bytes) at the current temperature. */
  lemma {:induction false} BindThenRampSize(s: ClientState, name: u32)
    requires Valid(s) && s.conn.shm == [] && Color.InRange(s.temperature)
    ensures var n := s.conn.nextId;
            var d := DispatchAll(s, [RegistryEv(Global(name, WlOutputInterface, 4)),
                                     GammaControlEv(n + 1, GammaSize(0)),
                                     GammaControlEv(n + 1, GammaSize(256))]);
            && d.outcome == Done
            && d.client.outputs == s.outputs + [Output(name, n, None, n + 1, 256)]
            && |d.client.conn.log| == |s.conn.log| + 3
            && d.client.conn.log[|s.conn.log| + 2].SetGamma?
            && d.client.conn.log[|s.conn.log| + 2].control == n + 1
            && |d.client.conn.log[|s.conn.log| + 2].ramp| == 768
  {
    var n := s.conn.nextId;
    var e1 := RegistryEv(Global(name, WlOutputInterface, 4));
    var e2 := GammaControlEv(n + 1, GammaSize(0));
    var e3 := GammaControlEv(n + 1, GammaSize(256));
    BoundOnGlobal(s, name);
    NewControlFound(s, name, 0);
    FirstSizeIsZero(s, name);
    SecondSizePushes(s, name);
    DispatchThree(s, e1, e2, e3);
  }

  /** The state after binding a new output under the next two fresh ids,
      with its ramp size and the ramps pushed to it so far. */
  function AfterBind(s: ClientState, name: u32, rampSize: nat, pushed: seq<Request>): ClientState {
    var n := s.conn.nextId;
    s.(outputs := s.outputs + [Output(name, n, None, n + 1, rampSize)],
       conn := s.conn.(log := s.conn.log + [BindOutput(name, 4, n), GetGammaControl(n + 1, n)] + pushed,
                       nextId := n + 2))
  }

  lemma BoundOnGlobal(s: ClientState, name: u32)
    ensures Handle(s, RegistryEv(Global(name, WlOutputInterface, 4))) == ClientStep(AfterBind(s, name, 0, []), Done)
  {
    OnGlobal(s, name, WlOutputInterface, 4);
  }

  lemma FirstSizeIsZero(s: ClientState, name: u32)
    requires Position(AfterBind(s, name, 0, []).outputs, ByControl(s.conn.nextId + 1)) == Some(|s.outputs|)
    ensures var s1 := AfterBind(s, name, 0, []);
            Handle(s1, GammaControlEv(s.conn.nextId + 1, GammaSize(0))) == ClientStep(s1, Done)
  {
    var n := s.conn.nextId;
    var s1 := AfterBind(s, name, 0, []);
    OnGammaSize(s1, n + 1, 0);
    assert s1.outputs[|s.outputs| := s1.outputs[|s.outputs|].(rampSize := 0)] == s1.outputs;
  }

  lemma SecondSizePushes(s: ClientState, name: u32)
    requires Position(AfterBind(s, name, 0, []).outputs, ByControl(s.conn.nextId + 1)) == Some(|s.outputs|)
    requires s.conn.shm == [] && Color.InRange(s.temperature)
    ensures var c := Color.FindInterpolatedTemperatureColor(s.temperature).value;
            var n := s.conn.nextId;
            Handle(AfterBind(s, name, 0, []), GammaControlEv(n + 1, GammaSize(256)))
            == ClientStep(AfterBind(s, name, 256, [SetGamma(n + 1, RampBuffer(256, c))]), Done)
  {
    var n := s.conn.nextId;
    var s1 := AfterBind(s, name, 0, []);
    SizeOnFoundOutput(s1, |s.outputs|, n + 1, 256);
    assert s1.outputs[|s.outputs| := s1.outputs[|s.outputs|].(rampSize := 256)]
        == AfterBind(s, name, 256, []).outputs;
    assert ShmAfter(s.conn.shm) == s.conn.shm;
  }

  /** A ramp size for a live output with allocation succeeding and a valid
      temperature records the size and pushes one ramp unless it is 0. */
  lemma SizeOnFoundOutput(s: ClientState, i: nat, control: ObjectId, size: u32)
    requires Position(s.outputs, ByControl(control)) == Some(i)
    requires s.conn.shm == [] && Color.InRange(s.temperature)
    ensures Handle(s, GammaControlEv(control, GammaSize(size)))
         == ClientStep(s.(outputs := s.outputs[i := s.outputs[i].(rampSize := size)],
                          conn := s.conn.(log := s.conn.log +
                            (if size > 0 then [SetGamma(control, RampBuffer(size,
                               Color.FindInterpolatedTemperatureColor(s.temperature).value))] else []))),
                       Done)
  {
    OnGammaSize(s, control, size);
    assert ShmAfter(s.conn.shm) == [];
  }

  /** Dispatching three events that each complete is handling them in turn. */
  lemma DispatchThree(s: ClientState, e1: Event, e2: Event, e3: Event)
    requires Handle(s, e1).outcome.Done?
    requires Handle(Handle(s, e1).client, e2).outcome.Done?
    requires Handle(Handle(Handle(s, e1).client, e2).client, e3).outcome.Done?
    ensures DispatchAll(s, [e1, e2, e3])
         == DispatchStep(Handle(Handle(Handle(s, e1).client, e2).client, e3).client, [], Done)
  {
    var s1 := Handle(s, e1).client;
    var s2 := Handle(s1, e2).client;
    DispatchDone(s, e1, [e2, e3]);
    DispatchDone(s1, e2, [e3]);
    DispatchDone(s2, e3, []);
    assert [e1] + [e2, e3] == [e1, e2, e3] && [e2] + [e3] == [e2, e3];
  }

  /** A fresh gamma control appended after the others is found at the end. */
  lemma NewControlFound(s: ClientState, name: u32, rampSize: nat)
    requires Valid(s)
    ensures var n := s.conn.nextId;
            Position(s.outputs + [Output(name, n, None, n + 1, rampSize)], ByControl(n + 1)) == Some(|s.outputs|)
  {
    var n := s.conn.nextId;
    var outs := s.outputs + [Output(name, n, None, n + 1, rampSize)];
    forall k | 0 <= k < |s.outputs| ensures !Matches(outs[k], ByControl(n + 1)) {
      assert s.outputs[k] in s.outputs;
    }
    assert Matches(outs[|s.outputs|], ByControl(n + 1));
  }

  /** Dispatching an event that completes continues with the rest. */
  lemma DispatchDone(s: ClientState, ev: Event, rest: seq<Event>)
    requires Handle(s, ev).outcome.Done?
    ensures DispatchAll(s, [ev] + rest) == DispatchAll(Handle(s, ev).client, rest)
  {
    assert ([ev] + rest)[1..] == rest;
  }

  // ---------------------------------------------------------------------
  // When outputs get their ramps
  // ---------------------------------------------------------------------

  /** An output announced after start-up is bound only at the next
      temperature change, with ramp size 0, so that change sends it no ramp:
      only the bind and the gamma-control request go out. */
  lemma LateOutputGetsNoRamp(s: ClientState, name: u32, t: u16)
    requires s.outputs == [] && t != s.temperature
    ensures var n := s.conn.nextId;
            var d := SetTemperature(s, [RegistryEv(Global(name, WlOutputInterface, 4))], t);
            && d.outcome == Done
            && d.client.outputs == [Output(name, n, None, n + 1, 0)]
            && d.client.conn.log == s.conn.log + [BindOutput(name, 4, n), GetGammaControl(n + 1, n)]
  {
    var s0 := s.(temperature := t);
    var ev := RegistryEv(Global(name, WlOutputInterface, 4));
    BoundOnGlobal(s0, name);
    DispatchDone(s0, ev, []);
    assert [ev] + [] == [ev];
    var s1 := AfterBind(s0, name, 0, []);
    assert s1.outputs == [Output(name, s.conn.nextId, None, s.conn.nextId + 1, 0)];
    assert UpdateAll(s1.outputs[1..], t, s1.conn) == ConnStep(s1.conn, Done);
  }

  /** A ramp size dispatched inside a temperature change is pushed twice:
      once by the gamma-control callback and once more by the update loop,
      with the same ramp both times. */
  lemma SizeDuringChangePushedTwice(o: Output, s: ClientState, size: u32, t: u16)
    requires s.outputs == [o] && size > 0
    requires s.conn.shm == [] && Color.InRange(t) && t != s.temperature
    ensures var d := SetTemperature(s, [GammaControlEv(o.gammaControl, GammaSize(size))], t);
            var push := SetGamma(o.gammaControl, RampBuffer(size, Color.FindInterpolatedTemperatureColor(t).value));
            && d.outcome == Done
            && d.client.outputs == [o.(rampSize := size)]
            && d.client.conn.log == s.conn.log + [push, push]
  {
    var s0 := s.(temperature := t);
    var ev := GammaControlEv(o.gammaControl, GammaSize(size));
    var push := SetGamma(o.gammaControl, RampBuffer(size, Color.FindInterpolatedTemperatureColor(t).value));
    assert Matches(s0.outputs[0], ByControl(o.gammaControl));
    assert Position(s0.outputs, ByControl(o.gammaControl)) == Some(0);
    SizeOnFoundOutput(s0, 0, o.gammaControl, size);
    DispatchDone(s0, ev, []);
    assert [ev] + [] == [ev];
    var s1 := Handle(s0, ev).client;
    assert s1.outputs == [o.(rampSize := size)];
    assert s1.conn.log == s.conn.log + [push];
    var u := Update(s1.outputs[0], t, s1.conn);
    assert u.conn.log == s1.conn.log + [push];
    assert UpdateAll(s1.outputs[1..], t, u.conn) == ConnStep(u.conn, Done);
  }
}
