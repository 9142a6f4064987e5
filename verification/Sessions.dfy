/** Client sessions of the example driver: opening the configured devices, freeing them, and what every run keeps. */
module Sessions {
  import opened Outcomes
  import opened Driver

  datatype SessionStatus = Allocated | Initialized
  datatype Mode = ReadOnly | ReadWrite

  /** `QDMI_Device_impl_d`: a configured device with the device session opened for it, if the library handed one out. */
  datatype Device = Device(lib: Lib, id: string, session: Option<nat>)

  datatype Session = Session(status: SessionStatus, devices: seq<Device>, token: Option<string>, mode: Mode)

  const NEW_SESSION := Session(Allocated, [], None, ReadOnly)

  // ----- opening all devices -----

  /** How the environment answers while one device is opened. A library may hand out a session and still report an
      error, or report success and hand out none. */
  datatype DeviceAnswer = DeviceAnswer(
    makeOk: bool,      // memory for the device object
    given: bool,       // `device_session_alloc` hands out a session
    alloc: Code,       // its status
    token: Code,       // the status of `device_session_set_parameter`
    init: Code,        // the status of `device_session_init`
    growOk: bool)      // the list of devices can grow

  /** The destructor of a device. */
  function DeviceFreed(f: Foreign, d: Device): Foreign {
    if d.session.Some? then DeviceSessionFree(f, d.lib, d.session.value) else f
  }

  function DevicesFreed(f: Foreign, devices: seq<Device>): Foreign
    decreases |devices|
  {
    if devices == [] then f else DevicesFreed(DeviceFreed(f, devices[0]), devices[1..])
  }

  datatype OpenResult = OpenResult(f: Foreign, device: Result<Device, Code>)

  /** The error with which opening one device ends, if any. */
  function OpenError(a: DeviceAnswer): Option<Code> {
    if !a.makeOk then Some(OutOfMem)
    else if a.alloc != Success then Some(a.alloc)
    else if a.token != Success && a.token != NotSupported then Some(a.token)
    else if a.init != Success then Some(a.init)
    else if !a.growOk then Some(OutOfMem)
    else None
  }

  /** One round of the device loop. On an error the device of this round is destroyed at once. */
  function OpenDevice(f: Foreign, c: Configured, a: DeviceAnswer): OpenResult {
    if !a.makeOk then OpenResult(f, Err(OutOfMem))
    else
      var given := if a.given then DeviceSessionGiven(f, c.lib) else f;
      var d := Device(c.lib, c.id, if a.given then Some(f.next) else None);
      if a.alloc != Success then OpenResult(DeviceFreed(given, d), Err(a.alloc))
      else
        var authorized := DeviceSessionUsed(given, c.lib, d.session);
        if a.token != Success && a.token != NotSupported then OpenResult(DeviceFreed(authorized, d), Err(a.token))
        else
          var ready := DeviceSessionUsed(authorized, c.lib, d.session);
          if a.init != Success then OpenResult(DeviceFreed(ready, d), Err(a.init))
          else if !a.growOk then OpenResult(DeviceFreed(ready, d), Err(OutOfMem))
          else OpenResult(ready, Ok(d))
  }

  datatype OpenAllResult = OpenAllResult(f: Foreign, devices: Result<seq<Device>, Code>)

  /** The device loop from the given devices on. On an error all of them are destroyed. */
  function OpenAll(
      f: Foreign, configured: seq<Configured>, answers: seq<DeviceAnswer>, devices: seq<Device>): OpenAllResult
    requires |devices| <= |configured| <= |answers|
    decreases |configured| - |devices|
  {
    if |devices| == |configured| then OpenAllResult(f, Ok(devices))
    else
      var r := OpenDevice(f, configured[|devices|], answers[|devices|]);
      match r.device
      case Err(e) => OpenAllResult(DevicesFreed(r.f, devices), Err(e))
      case Ok(d) => OpenAll(r.f, configured, answers, devices + [d])
  }

  // ----- the ledger while devices are opened -----

  /** The device sessions held by a list of devices. */
  function Held(devices: seq<Device>): (sids: set<nat>) {
    set k | 0 <= k < |devices| && devices[k].session.Some? :: devices[k].session.value
  }

  /** Each device holds a device session of its own, open in its library; and the library is initialized. */
  predicate Owned(f: Foreign, devices: seq<Device>) {
    && (forall k | 0 <= k < |devices| ::
          && devices[k].lib in f.live
          && (devices[k].session.Some? ==>
                devices[k].session.value in f.sessions && f.sessions[devices[k].session.value] == devices[k].lib))
    && (forall j, k | 0 <= j < k < |devices| && devices[j].session.Some? ::
          devices[j].session != devices[k].session)
  }

  lemma HeldAppend(devices: seq<Device>, d: Device)
    ensures Held(devices + [d]) == Held(devices) + (if d.session.Some? then {d.session.value} else {})
  {
    var all := devices + [d];
    assert forall k | 0 <= k < |devices| :: all[k] == devices[k];
    assert all[|devices|] == d;
  }

  lemma HeldSplit(devices: seq<Device>)
    requires devices != []
    ensures Held(devices) == (if devices[0].session.Some? then {devices[0].session.value} else {}) + Held(devices[1..])
  {
    assert forall k | 1 <= k < |devices| :: devices[k] == devices[1..][k - 1];
    assert forall k | 0 <= k < |devices[1..]| :: devices[1..][k] == devices[k + 1];
  }

  lemma FirstIsNotHeldAgain(f: Foreign, devices: seq<Device>)
    requires devices != [] && Owned(f, devices) && devices[0].session.Some?
    ensures devices[0].session.value !in Held(devices[1..])
  {
    assert forall k | 0 <= k < |devices[1..]| :: devices[1..][k] == devices[k + 1];
  }

  /** Destroying devices frees each of their sessions exactly once and touches nothing else. */
  lemma {:induction false} FreeingDevices(f: Foreign, devices: seq<Device>)
    requires !f.faulty && Owned(f, devices)
    ensures DevicesFreed(f, devices) == f.(sessions := f.sessions - Held(devices))
    decreases |devices|
  {
    if devices != [] {
      var d, rest, mid := devices[0], devices[1..], DeviceFreed(f, devices[0]);
      HeldSplit(devices);
      assert forall k | 0 <= k < |rest| :: rest[k] == devices[k + 1];
      if d.session.Some? {
        FirstIsNotHeldAgain(f, devices);
        forall k | 0 <= k < |rest| && rest[k].session.Some? ensures rest[k].session.value in mid.sessions {
          assert rest[k].session.value in Held(rest);
        }
        assert f.sessions - {d.session.value} - Held(rest) == f.sessions - Held(devices);
      } else {
        assert f.sessions - Held(rest) == f.sessions - Held(devices);
      }
      assert Owned(mid, rest);
      FreeingDevices(mid, rest);
    } else {
      assert f.sessions - Held(devices) == f.sessions;
    }
  }

  /** Opening one device: on an error nothing stays open; on success exactly the device's session, if any. */
  lemma OpeningDevice(f: Foreign, c: Configured, a: DeviceAnswer)
    requires !f.faulty && c.lib in f.live && f.next !in f.sessions
    ensures var r := OpenDevice(f, c, a);
            && r.f == f.(sessions := r.f.sessions, next := r.f.next) && r.f.next >= f.next
            && (r.device.Err? <==> OpenError(a).Some?)
            && (r.device.Err? ==> r.f.sessions == f.sessions && OpenError(a) == Some(r.device.error))
            && (r.device.Ok? ==>
                  && r.device.value == Device(c.lib, c.id, if a.given then Some(f.next) else None)
                  && r.f.sessions == (if a.given then f.sessions[f.next := c.lib] else f.sessions)
                  && r.f.next == (if a.given then f.next + 1 else f.next))
  {
    assert f.sessions[f.next := c.lib] - {f.next} == f.sessions;
  }

  predicate Opened(configured: seq<Configured>, devices: seq<Device>) {
    |devices| <= |configured| &&
    forall k | 0 <= k < |devices| :: devices[k].lib == configured[k].lib && devices[k].id == configured[k].id
  }

  /** The loop keeps: what was open before, plus the sessions of the devices opened so far. */
  predicate OpenInv(f: Foreign, base: Foreign, devices: seq<Device>) {
    && f == base.(sessions := f.sessions, next := f.next) && !f.faulty && base.next <= f.next
    && Owned(f, devices)
    && (forall s | s in Held(devices) :: base.next <= s < f.next)
    && f.sessions.Keys == base.sessions.Keys + Held(devices)
    && (forall s | s in base.sessions :: f.sessions[s] == base.sessions[s])
  }

  lemma OpenStep(f: Foreign, base: Foreign, devices: seq<Device>, c: Configured, a: DeviceAnswer)
    requires OpenInv(f, base, devices) && c.lib in f.live && (forall s | s in base.sessions :: s < base.next)
    requires OpenDevice(f, c, a).device.Ok?
    ensures OpenInv(OpenDevice(f, c, a).f, base, devices + [OpenDevice(f, c, a).device.value])
  {
    var r := OpenDevice(f, c, a);
    OpeningDevice(f, c, a);
    HeldAppend(devices, r.device.value);
    OwnedGrows(f, r.f, devices, r.device.value);
    SessionKeysGrow(f, r.f, base, devices, r.device.value);
  }

  /** A new device joins with a device session of its own, or with none. */
  lemma OwnedGrows(f: Foreign, g: Foreign, devices: seq<Device>, d: Device)
    requires Owned(f, devices) && d.lib in f.live && (forall s | s in Held(devices) :: s < f.next)
    requires d.session.Some? ==> d.session.value == f.next
    requires g.live == f.live && g.sessions == if d.session.Some? then f.sessions[f.next := d.lib] else f.sessions
    ensures Owned(g, devices + [d])
  {
    var more := devices + [d];
    assert forall k | 0 <= k < |devices| && devices[k].session.Some? :: devices[k].session.value in Held(devices);
    assert forall k | 0 <= k < |more| :: more[k] == if k < |devices| then devices[k] else d;
  }

  lemma SessionKeysGrow(f: Foreign, g: Foreign, base: Foreign, devices: seq<Device>, d: Device)
    requires f.sessions.Keys == base.sessions.Keys + Held(devices)
    requires d.session.Some? ==> d.session.value == f.next
    requires g.sessions == if d.session.Some? then f.sessions[f.next := d.lib] else f.sessions
    ensures g.sessions.Keys == base.sessions.Keys + Held(devices + [d])
  {
    HeldAppend(devices, d);
  }

  lemma ErrorRestores(f: Foreign, base: Foreign, devices: seq<Device>)
    requires OpenInv(f, base, devices) && (forall s | s in base.sessions :: s < base.next)
    ensures DevicesFreed(f, devices) == base.(next := f.next)
  {
    FreeingDevices(f, devices);
    assert f.sessions - Held(devices) == base.sessions;
  }

  lemma FailedStepRestores(f: Foreign, base: Foreign, devices: seq<Device>, c: Configured, a: DeviceAnswer)
    requires OpenInv(f, base, devices) && c.lib in f.live && (forall s | s in base.sessions :: s < base.next)
    requires OpenDevice(f, c, a).device.Err?
    ensures var r := OpenDevice(f, c, a);
            DevicesFreed(r.f, devices) == base.(next := r.f.next) && r.f.next >= f.next
  {
    var r := OpenDevice(f, c, a);
    OpeningDevice(f, c, a);
    assert r.f == f.(next := r.f.next);
    assert OpenInv(r.f, base, devices);
    ErrorRestores(r.f, base, devices);
  }

  /** The whole loop: all or nothing, whatever the libraries answer. */
  lemma {:induction false} OpeningAll(
      f: Foreign, base: Foreign, configured: seq<Configured>, answers: seq<DeviceAnswer>, devices: seq<Device>)
    requires |devices| <= |configured| <= |answers| && Opened(configured, devices)
    requires OpenInv(f, base, devices) && (forall s | s in base.sessions :: s < base.next)
    requires forall k | 0 <= k < |configured| :: configured[k].lib in base.live
    ensures var r := OpenAll(f, configured, answers, devices);
            && (r.devices.Err? ==> r.f == base.(next := r.f.next) && r.f.next >= f.next)
            && (r.devices.Ok? ==> OpenInv(r.f, base, r.devices.value) && Opened(configured, r.devices.value) &&
                                  |r.devices.value| == |configured|)
            && (r.devices.Ok? <==> forall k | |devices| <= k < |configured| :: OpenError(answers[k]) == None)
    decreases |configured| - |devices|
  {
    if |devices| < |configured| {
      var n := |devices|;
      var r := OpenDevice(f, configured[n], answers[n]);
      OpeningDevice(f, configured[n], answers[n]);
      if r.device.Ok? {
        OpenStep(f, base, devices, configured[n], answers[n]);
        assert Opened(configured, devices + [r.device.value]);
        OpeningAll(r.f, base, configured, answers, devices + [r.device.value]);
      } else {
        FailedStepRestores(f, base, devices, configured[n], answers[n]);
      }
    }
  }
}
