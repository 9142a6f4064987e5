/** Runs of the example driver: any calls on any number of sessions, with device libraries that may fail at any call. */
module DriverRuns {
  import opened Outcomes
  import opened Config
  import opened Driver
  import opened Sessions

  /** `QDMI_Job_impl_d`: the device it was created on, and the job the library handed out, if any. */
  datatype ClientJob = ClientJob(session: nat, device: nat, handle: Option<nat>)

  /** The global driver state, the sessions and jobs clients hold, and the ledger of foreign calls. Handles are
      never reused. */
  datatype World = World(
    f: Foreign,
    libraries: seq<Lib>,
    configured: seq<Configured>,
    sessions: nat,
    live: map<nat, Session>,
    jobs: map<nat, ClientJob>,
    next: nat)

  const START := World(CLEAN, [], [], 0, map[], map[], 0)

  datatype SessionParameter = TokenParameter | OtherParameter | InvalidParameter

  datatype Stepped = Stepped(w: World, code: Code)

  function NewSession(w: World): World {
    w.(sessions := w.sessions + 1, live := w.live[w.next := NEW_SESSION], next := w.next + 1)
  }

  /** `hasPointer` tells whether the place for the handle is not null, `allocOk` whether memory for the session is
      found. */
  function SessionAlloc(
      w: World, hasPointer: bool, allocOk: bool, file: Option<string>, answers: seq<LoadAnswer>): Stepped
    requires file.Some? ==> |answers| >= |Lines(file.value)|
  {
    if !hasPointer then Stepped(w, InvalidArgument)
    else if !allocOk then Stepped(w, OutOfMem)
    else if w.sessions == 0 then
      var r := InitializeDriver(w.f, file, answers);
      if r.code != Success then Stepped(w.(f := r.f), r.code)
      else
        var dropped := LibrariesDestroyed(r.f, w.libraries);
        Stepped(NewSession(w.(f := dropped, libraries := r.libs, configured := r.configured)), Success)
    else Stepped(NewSession(w), Success)
  }

  datatype SessionChange = SessionChange(session: Session, code: Code)

  /** `value` is the memory of `size` characters behind the pointer, if it is not null; the last one is the
      terminator. */
  function SetParameter(s: Session, param: SessionParameter, size: nat, value: Option<string>): SessionChange
    requires value.Some? ==> |value.value| == size
  {
    if (value.Some? && size == 0) || param == InvalidParameter then SessionChange(s, InvalidArgument)
    else if s.status != Allocated then SessionChange(s, BadState)
    else if param != TokenParameter then SessionChange(s, NotSupported)
    else if value == None then SessionChange(s, Success)
    else SessionChange(s.(token := Some(value.value[..size - 1])), Success)
  }

  datatype InitResult = InitResult(f: Foreign, session: Session, code: Code)

  function SessionInit(f: Foreign, configured: seq<Configured>, s: Session, answers: seq<DeviceAnswer>): InitResult
    requires |configured| <= |answers|
  {
    if s.status != Allocated then InitResult(f, s, BadState)
    else if s.token == None then InitResult(f, s, PermissionDenied)
    else
      var authorized := s.(mode := if s.token.value == [] then ReadOnly else ReadWrite);
      var r := OpenAll(f, configured, answers, []);
      match r.devices
      case Err(e) => InitResult(r.f, authorized, e)
      case Ok(devices) => InitResult(r.f, authorized.(devices := devices, status := Initialized), Success)
  }

  function SessionFree(w: World, s: nat): World
    requires s in w.live && w.sessions > 0
  {
    var freed := DevicesFreed(w.f, w.live[s].devices);
    var rest := w.(f := freed, live := w.live - {s}, sessions := w.sessions - 1);
    if rest.sessions == 0 then
      rest.(configured := [], f := LibrariesDestroyed(freed, w.libraries), libraries := [])
    else rest
  }

  /** How a library answers `device_session_create_device_job`. */
  datatype JobAnswer = JobAnswer(given: bool, code: Code)

  function CreateJob(w: World, s: nat, k: nat, hasPointer: bool, allocOk: bool, a: JobAnswer): Stepped
    requires s in w.live && k < |w.live[s].devices|
  {
    var d := w.live[s].devices[k];
    if !hasPointer then Stepped(w, InvalidArgument)
    else if w.live[s].mode != ReadWrite then Stepped(w, PermissionDenied)
    else if !allocOk then Stepped(w, OutOfMem)
    else
      var used := DeviceSessionUsed(w.f, d.lib, d.session);
      var f := if a.given then DeviceJobGiven(used, d.lib) else used;
      if a.code != Success then Stepped(w.(f := f), a.code)
      else
        var job := ClientJob(s, k, if a.given then Some(used.next) else None);
        Stepped(w.(f := f, jobs := w.jobs[w.next := job], next := w.next + 1), Success)
  }

  function FreeJob(w: World, j: nat): World
    requires j in w.jobs && w.jobs[j].session in w.live && w.jobs[j].device < |w.live[w.jobs[j].session].devices|
  {
    var lib := w.live[w.jobs[j].session].devices[w.jobs[j].device].lib;
    w.(f := DeviceJobFree(w.f, lib, w.jobs[j].handle), jobs := w.jobs - {j})
  }

  datatype Call =
    | AllocCall(hasPointer: bool, allocOk: bool, file: Option<string>, loads: seq<LoadAnswer>)
    | SetParameterCall(s: nat, param: SessionParameter, size: nat, value: Option<string>)
    | InitCall(s: nat, opens: seq<DeviceAnswer>)
    | FreeCall(s: nat)
    | CreateJobCall(s: nat, k: nat, hasPointer: bool, allocOk: bool, answer: JobAnswer)
    | FreeJobCall(j: nat)

  /** A call a client may make: handles name live objects, all jobs of a session are freed before the session, and the
      environment has an answer for every question. */
  predicate Possible(w: World, c: Call) {
    match c
    case AllocCall(_, _, file, loads) => file.Some? ==> |loads| >= |Lines(file.value)|
    case SetParameterCall(s, _, size, value) => s in w.live && (value.Some? ==> |value.value| == size)
    case InitCall(s, opens) => s in w.live && |w.configured| <= |opens|
    case FreeCall(s) => s in w.live && w.sessions > 0 && forall j | j in w.jobs :: w.jobs[j].session != s
    case CreateJobCall(s, k, _, _, _) => s in w.live && k < |w.live[s].devices|
    case FreeJobCall(j) =>
      j in w.jobs && w.jobs[j].session in w.live && w.jobs[j].device < |w.live[w.jobs[j].session].devices|
  }

  /** One call; one that a client may not make is not part of any run and is skipped. */
  function Step(w: World, c: Call): World {
    if !Possible(w, c) then w
    else match c
      case AllocCall(hasPointer, allocOk, file, loads) => SessionAlloc(w, hasPointer, allocOk, file, loads).w
      case SetParameterCall(s, param, size, value) =>
        w.(live := w.live[s := SetParameter(w.live[s], param, size, value).session])
      case InitCall(s, opens) =>
        var r := SessionInit(w.f, w.configured, w.live[s], opens);
        w.(f := r.f, live := w.live[s := r.session])
      case FreeCall(s) => SessionFree(w, s)
      case CreateJobCall(s, k, hasPointer, allocOk, a) => CreateJob(w, s, k, hasPointer, allocOk, a).w
      case FreeJobCall(j) => FreeJob(w, j)
  }

  function Run(w: World, calls: seq<Call>): World
    decreases |calls|
  {
    if calls == [] then w else Run(Step(w, calls[0]), calls[1..])
  }

  // ----- the invariant -----

  /** The open counts are those of the loaded libraries, each initialized exactly once; configured devices point at
      loaded libraries and have different ids; `sessions` counts the live sessions; without one nothing is loaded. */
  predicate LibrariesInv(w: World) {
    && Balanced(w.f, w.libraries)
    && ConfiguredInv(w.configured, w.libraries)
    && w.sessions == |w.live.Keys|
    && (w.sessions == 0 ==> w.libraries == [] && w.configured == [])
  }

  /** An initialized session lists all configured devices in order, an allocated one none. */
  predicate SessionInv(f: Foreign, configured: seq<Configured>, s: Session) {
    && Owned(f, s.devices)
    && (if s.status == Allocated then s.devices == [] else Opened(configured, s.devices) && |s.devices| == |configured|)
  }

  predicate SessionsValid(f: Foreign, configured: seq<Configured>, live: map<nat, Session>, next: nat) {
    forall s | s in live :: s < next && SessionInv(f, configured, live[s])
  }

  predicate HeldApart(live: map<nat, Session>) {
    forall s, t | s in live && t in live && s != t :: Held(live[s].devices) !! Held(live[t].devices)
  }

  predicate HeldBySome(live: map<nat, Session>, d: nat) {
    exists s | s in live :: d in Held(live[s].devices)
  }

  predicate HeldCovers(f: Foreign, live: map<nat, Session>) {
    forall d | d in f.sessions :: d < f.next && HeldBySome(live, d)
  }

  /** Every open device session belongs to exactly one device of exactly one live session. */
  predicate SessionsInv(w: World) {
    SessionsValid(w.f, w.configured, w.live, w.next) && HeldApart(w.live) && HeldCovers(w.f, w.live)
  }

  predicate ClientJobInv(w: World, c: ClientJob) {
    && c.session in w.live && c.device < |w.live[c.session].devices|
    && (c.handle.Some? ==>
          c.handle.value in w.f.jobs && w.f.jobs[c.handle.value] == w.live[c.session].devices[c.device].lib)
  }

  /** Every client job belongs to a device of a live session and has its own device job. */
  predicate JobsInv(w: World) {
    && (forall j | j in w.jobs :: j < w.next && ClientJobInv(w, w.jobs[j]))
    && (forall i, j | i in w.jobs && j in w.jobs && i != j && w.jobs[i].handle.Some? ::
         w.jobs[i].handle != w.jobs[j].handle)
    && (forall h | h in w.f.jobs :: h < w.f.next)
  }

  predicate WorldInv(w: World) {
    LibrariesInv(w) && SessionsInv(w) && JobsInv(w)
  }

  /** A session that lives on keeps the configuration, and once initialized it never changes. */
  predicate WorldLater(a: World, b: World) {
    && a.next <= b.next
    && (forall s | s in b.live && s < a.next :: s in a.live)
    && (forall s | s in a.live && s in b.live ::
          b.configured == a.configured && b.libraries == a.libraries &&
            (a.live[s].status == Initialized ==> b.live[s] == a.live[s]))
  }

  // ----- every call keeps the invariant -----

  /** Owning is about the ledger's initialized libraries and the device sessions held, nothing else. */
  lemma OwnedElsewhere(f: Foreign, g: Foreign, devices: seq<Device>)
    requires Owned(f, devices) && g.live == f.live
    requires forall d | d in Held(devices) :: d in f.sessions ==> d in g.sessions && g.sessions[d] == f.sessions[d]
    ensures Owned(g, devices)
  {
    assert forall k | 0 <= k < |devices| && devices[k].session.Some? :: devices[k].session.value in Held(devices);
  }

  /** The next handle names nothing yet. */
  lemma NewHandlesAreFree(w: World)
    requires WorldInv(w)
    ensures w.next !in w.live && w.next !in w.jobs
  {
    assert forall s | s in w.live :: s < w.next;
  }

  /** Without sessions there are no device sessions and no client jobs. */
  lemma NothingWithoutSessions(w: World)
    requires WorldInv(w) && w.sessions == 0
    ensures w.live == map[] && w.f.sessions == map[] && w.jobs == map[]
  {
    assert w.live.Keys == {};
    assert forall d | d in w.f.sessions :: HeldBySome(w.live, d);
    assert w.f.sessions.Keys == {};
    JobsNeedSessions(w);
    assert w.jobs.Keys == {};
  }

  lemma JobsNeedSessions(w: World)
    requires JobsInv(w)
    ensures forall j | j in w.jobs :: w.jobs[j].session in w.live
  {
    forall j | j in w.jobs ensures w.jobs[j].session in w.live {
      assert ClientJobInv(w, w.jobs[j]);
    }
  }

  /** Adding or replacing one session. */
  lemma UpdateKeepsApart(live: map<nat, Session>, s: nat, session: Session)
    requires HeldApart(live)
    requires forall t | t in live && t != s :: Held(session.devices) !! Held(live[t].devices)
    ensures HeldApart(live[s := session])
  {
  }

  lemma UpdateKeepsCovers(f: Foreign, live: map<nat, Session>, g: Foreign, s: nat, session: Session)
    requires HeldCovers(f, live) && f.next <= g.next
    requires forall d | d in g.sessions :: d in f.sessions || (d in Held(session.devices) && d < g.next)
    requires s in live ==> Held(live[s].devices) <= Held(session.devices)
    ensures HeldCovers(g, live[s := session])
  {
    var after := live[s := session];
    forall d | d in g.sessions ensures d < g.next && HeldBySome(after, d) {
      if d in f.sessions {
        assert HeldBySome(live, d);
        var t :| t in live && d in Held(live[t].devices);
        assert d in Held(after[t].devices);
      } else {
        assert d in Held(after[s].devices);
      }
    }
  }

  lemma UpdateKeepsValid(
      f: Foreign, configured: seq<Configured>, live: map<nat, Session>, next: nat, g: Foreign, s: nat,
      session: Session)
    requires SessionsValid(f, configured, live, next) && s < next && SessionInv(g, configured, session)
    requires g.live == f.live && forall d | d in f.sessions :: d in g.sessions && g.sessions[d] == f.sessions[d]
    ensures SessionsValid(g, configured, live[s := session], next)
  {
    forall t | t in live && t != s ensures SessionInv(g, configured, live[t]) {
      assert SessionInv(f, configured, live[t]);
      OwnedElsewhere(f, g, live[t].devices);
    }
  }

  /** Client jobs stay valid while their session keeps its devices. */
  lemma UpdateKeepsJobs(w: World, after: World)
    requires JobsInv(w) && after.jobs == w.jobs && after.f.jobs == w.f.jobs && w.next <= after.next &&
             w.f.next <= after.f.next
    requires forall s | s in w.live && (exists j | j in w.jobs :: w.jobs[j].session == s) ::
               s in after.live && w.live[s].devices <= after.live[s].devices
    ensures JobsInv(after)
  {
    forall j | j in after.jobs ensures j < after.next && ClientJobInv(after, after.jobs[j]) {
      assert ClientJobInv(w, w.jobs[j]);
      assert w.jobs[j].session in w.live;
    }
  }

  lemma NewSessionKeeps(w: World)
    requires Balanced(w.f, w.libraries) && ConfiguredInv(w.configured, w.libraries) && w.sessions == |w.live.Keys|
    requires SessionsInv(w) && JobsInv(w)
    ensures WorldInv(NewSession(w)) && WorldLater(w, NewSession(w))
  {
    NewSessionKeepsSessions(w);
    UpdateKeepsJobs(w, NewSession(w));
    NewSessionIsCounted(w);
    assert forall s | s in w.live :: s < w.next;
  }

  lemma NewSessionIsCounted(w: World)
    requires w.sessions == |w.live.Keys| && w.next !in w.live
    ensures NewSession(w).sessions == |NewSession(w).live.Keys|
  {
    assert NewSession(w).live.Keys == w.live.Keys + {w.next};
  }

  lemma NewSessionKeepsSessions(w: World)
    requires SessionsInv(w)
    ensures SessionsInv(NewSession(w))
  {
    NewSessionIsApart(w);
    UpdateKeepsValid(w.f, w.configured, w.live, w.next + 1, w.f, w.next, NEW_SESSION);
    UpdateKeepsCovers(w.f, w.live, w.f, w.next, NEW_SESSION);
  }

  lemma NewSessionIsApart(w: World)
    requires HeldApart(w.live)
    ensures HeldApart(w.live[w.next := NEW_SESSION])
  {
    assert Held(NEW_SESSION.devices) == {};
    UpdateKeepsApart(w.live, w.next, NEW_SESSION);
  }

  /** An allocation adds one session or none, and touches no job. */
  lemma AllocChanges(w: World, c: Call)
    requires WorldInv(w) && c.AllocCall? && Possible(w, c)
    ensures var r := SessionAlloc(w, c.hasPointer, c.allocOk, c.file, c.loads);
            && Step(w, c) == r.w && r.w.jobs == w.jobs && w.next !in w.live
            && r.w.live == if r.code == Success then w.live[w.next := NEW_SESSION] else w.live
  {
    NewHandlesAreFree(w);
  }

  lemma AllocKeeps(w: World, hasPointer: bool, allocOk: bool, file: Option<string>, answers: seq<LoadAnswer>)
    requires WorldInv(w) && (file.Some? ==> |answers| >= |Lines(file.value)|)
    ensures var after := SessionAlloc(w, hasPointer, allocOk, file, answers);
            && WorldInv(after.w) && WorldLater(w, after.w)
            && (after.code != Success ==> after.w == w)
  {
    if hasPointer && allocOk {
      if w.sessions == 0 {
        NothingWithoutSessions(w);
        LoadingIsTransactional(w.f, file, answers);
        var r := InitializeDriver(w.f, file, answers);
        if r.code == Success {
          var loaded := w.(f := r.f, libraries := r.libs, configured := r.configured);
          assert LibrariesDestroyed(r.f, w.libraries) == r.f;
          NewSessionKeeps(loaded);
        }
      } else {
        NewSessionKeeps(w);
      }
    }
  }

  /** Replacing one session by one that holds the same devices or newly opened ones. */
  lemma ReplacingSession(w: World, s: nat, g: Foreign, session: Session)
    requires WorldInv(w) && s in w.live
    requires g == w.f.(sessions := g.sessions, next := g.next) && w.f.next <= g.next
    requires SessionInv(g, w.configured, session) && w.live[s].devices <= session.devices
    requires w.live[s].status == Initialized ==> session == w.live[s]
    requires forall d | d in w.f.sessions :: d in g.sessions && g.sessions[d] == w.f.sessions[d]
    requires g.sessions.Keys == w.f.sessions.Keys + Held(session.devices)
    requires forall d | d in Held(session.devices) :: d in Held(w.live[s].devices) || w.f.next <= d < g.next
    requires Held(w.live[s].devices) <= Held(session.devices)
    ensures var after := w.(f := g, live := w.live[s := session]);
            WorldInv(after) && WorldLater(w, after)
  {
    var after := w.(f := g, live := w.live[s := session]);
    assert after.live.Keys == w.live.Keys;
    ReplacingKeepsSessions(w, s, g, session);
    UpdateKeepsJobs(w, after);
    ReplacingIsLater(w, s, g, session);
  }

  lemma ReplacingIsLater(w: World, s: nat, g: Foreign, session: Session)
    requires s in w.live && (w.live[s].status == Initialized ==> session == w.live[s])
    requires forall t | t in w.live :: t < w.next
    ensures WorldLater(w, w.(f := g, live := w.live[s := session]))
  {
  }

  lemma ReplacingKeepsSessions(w: World, s: nat, g: Foreign, session: Session)
    requires SessionsInv(w) && s in w.live && g.live == w.f.live && w.f.next <= g.next
    requires SessionInv(g, w.configured, session)
    requires forall d | d in w.f.sessions :: d in g.sessions && g.sessions[d] == w.f.sessions[d]
    requires g.sessions.Keys == w.f.sessions.Keys + Held(session.devices)
    requires forall d | d in Held(session.devices) :: d in Held(w.live[s].devices) || w.f.next <= d < g.next
    requires Held(w.live[s].devices) <= Held(session.devices)
    ensures SessionsInv(w.(f := g, live := w.live[s := session]))
  {
    forall t | t in w.live && t != s ensures Held(session.devices) !! Held(w.live[t].devices) {
      HeldIsOpen(w, t);
    }
    HeldIsOpen(w, s);
    UpdateKeepsApart(w.live, s, session);
    UpdateKeepsCovers(w.f, w.live, g, s, session);
    UpdateKeepsValid(w.f, w.configured, w.live, w.next, g, s, session);
  }

  lemma HeldIsOpen(w: World, s: nat)
    requires SessionsInv(w) && s in w.live
    ensures forall d | d in Held(w.live[s].devices) :: d in w.f.sessions && d < w.f.next
  {
    assert SessionInv(w.f, w.configured, w.live[s]);
  }

  lemma SetParameterKeeps(w: World, s: nat, param: SessionParameter, size: nat, value: Option<string>)
    requires WorldInv(w) && s in w.live && (value.Some? ==> |value.value| == size)
    ensures var after := w.(live := w.live[s := SetParameter(w.live[s], param, size, value).session]);
            WorldInv(after) && WorldLater(w, after)
  {
    HeldIsOpen(w, s);
    assert SessionInv(w.f, w.configured, w.live[s]);
    ReplacingSession(w, s, w.f, SetParameter(w.live[s], param, size, value).session);
  }

  /** The start of the device loop. */
  lemma OpeningConfigured(w: World, answers: seq<DeviceAnswer>)
    requires WorldInv(w) && |w.configured| <= |answers|
    ensures var r := OpenAll(w.f, w.configured, answers, []);
            && (r.devices.Err? ==> r.f == w.f.(next := r.f.next) && r.f.next >= w.f.next)
            && (r.devices.Ok? ==> OpenInv(r.f, w.f, r.devices.value) && Opened(w.configured, r.devices.value) &&
                                  |r.devices.value| == |w.configured|)
            && (r.devices.Ok? <==> forall k | 0 <= k < |w.configured| :: OpenError(answers[k]) == None)
  {
    assert Held([]) == {};
    forall k | 0 <= k < |w.configured| ensures w.configured[k].lib in w.f.live {
      assert w.configured[k].lib in w.libraries;
    }
    OpeningAll(w.f, w.f, w.configured, answers, []);
  }

  /** A session that was allocated gets all devices at once. */
  lemma OpenedKeeps(w: World, s: nat, g: Foreign, session: Session)
    requires WorldInv(w) && s in w.live && w.live[s].status == Allocated && session.status == Initialized
    requires OpenInv(g, w.f, session.devices) && Opened(w.configured, session.devices) &&
             |session.devices| == |w.configured|
    ensures var after := w.(f := g, live := w.live[s := session]);
            WorldInv(after) && WorldLater(w, after)
  {
    assert SessionInv(w.f, w.configured, w.live[s]);
    assert w.live[s].devices == [] && Held([]) == {};
    ReplacingSession(w, s, g, session);
  }

  /** A session that could not be initialized keeps its devices; at most its mode has changed. */
  lemma NotOpenedKeeps(w: World, s: nat, next: nat, session: Session)
    requires WorldInv(w) && s in w.live && w.f.next <= next
    requires session == w.live[s] || (w.live[s].status == Allocated && session == w.live[s].(mode := session.mode))
    ensures var after := w.(f := w.f.(next := next), live := w.live[s := session]);
            WorldInv(after) && WorldLater(w, after)
  {
    HeldIsOpen(w, s);
    StillValid(w, s, next, session);
    ReplacingSession(w, s, w.f.(next := next), session);
  }

  lemma StillValid(w: World, s: nat, next: nat, session: Session)
    requires SessionsInv(w) && s in w.live && session.devices == w.live[s].devices && session.status == w.live[s].status
    ensures SessionInv(w.f.(next := next), w.configured, session)
  {
    assert SessionInv(w.f, w.configured, w.live[s]);
    OwnedElsewhere(w.f, w.f.(next := next), w.live[s].devices);
  }

  lemma InitKeeps(w: World, s: nat, answers: seq<DeviceAnswer>)
    requires WorldInv(w) && s in w.live && |w.configured| <= |answers|
    ensures var r := SessionInit(w.f, w.configured, w.live[s], answers);
            var after := w.(f := r.f, live := w.live[s := r.session]);
            WorldInv(after) && WorldLater(w, after)
  {
    var r := SessionInit(w.f, w.configured, w.live[s], answers);
    OpeningConfigured(w, answers);
    if w.live[s].status == Allocated && w.live[s].token.Some? && OpenAll(w.f, w.configured, answers, []).devices.Ok? {
      OpenedKeeps(w, s, r.f, r.session);
    } else {
      assert r.f == w.f.(next := r.f.next);
      NotOpenedKeeps(w, s, r.f.next, r.session);
    }
  }

  /** Removing one session and its device sessions. */
  lemma RemovingSession(w: World, s: nat)
    requires WorldInv(w) && s in w.live && forall j | j in w.jobs :: w.jobs[j].session != s
    ensures var g := w.f.(sessions := w.f.sessions - Held(w.live[s].devices));
            var after := w.(f := g, live := w.live - {s}, sessions := w.sessions - 1);
            && SessionsInv(after) && JobsInv(after)
            && Balanced(g, w.libraries) && w.sessions - 1 == |after.live.Keys|
  {
    var g := w.f.(sessions := w.f.sessions - Held(w.live[s].devices));
    assert (w.live - {s}).Keys == w.live.Keys - {s};
    RemoveKeepsValid(w, s, g);
    RemoveKeepsCovers(w.f, w.live, s, g);
    RemoveKeepsApart(w.live, s);
    RemoveKeepsJobs(w, w.(f := g, live := w.live - {s}, sessions := w.sessions - 1), s);
  }

  lemma RemoveKeepsApart(live: map<nat, Session>, s: nat)
    requires HeldApart(live)
    ensures HeldApart(live - {s})
  {
  }

  lemma RemoveKeepsJobs(w: World, after: World, s: nat)
    requires JobsInv(w) && after.live == w.live - {s} && forall j | j in w.jobs :: w.jobs[j].session != s
    requires after.jobs == w.jobs && after.f.jobs == w.f.jobs && w.next <= after.next && w.f.next <= after.f.next
    ensures JobsInv(after)
  {
    UpdateKeepsJobs(w, after);
  }

  lemma RemoveKeepsValid(w: World, s: nat, g: Foreign)
    requires SessionsInv(w) && s in w.live && g == w.f.(sessions := w.f.sessions - Held(w.live[s].devices))
    ensures SessionsValid(g, w.configured, w.live - {s}, w.next)
  {
    forall t | t in w.live && t != s ensures SessionInv(g, w.configured, w.live[t]) {
      assert SessionInv(w.f, w.configured, w.live[t]);
      assert Held(w.live[s].devices) !! Held(w.live[t].devices);
      OwnedElsewhere(w.f, g, w.live[t].devices);
    }
  }

  lemma RemoveKeepsCovers(f: Foreign, live: map<nat, Session>, s: nat, g: Foreign)
    requires HeldCovers(f, live) && s in live && g == f.(sessions := f.sessions - Held(live[s].devices))
    ensures HeldCovers(g, live - {s})
  {
    forall d | d in g.sessions ensures d < g.next && HeldBySome(live - {s}, d) {
      assert d in f.sessions && HeldBySome(live, d);
      var t :| t in live && d in Held(live[t].devices);
      assert t != s && t in live - {s} && d in Held((live - {s})[t].devices);
    }
  }

  lemma FreeKeeps(w: World, s: nat)
    requires WorldInv(w) && s in w.live && w.sessions > 0 && forall j | j in w.jobs :: w.jobs[j].session != s
    ensures WorldInv(SessionFree(w, s)) && WorldLater(w, SessionFree(w, s))
  {
    assert SessionInv(w.f, w.configured, w.live[s]);
    FreeingDevices(w.f, w.live[s].devices);
    RemovingSession(w, s);
    var g := w.f.(sessions := w.f.sessions - Held(w.live[s].devices));
    var rest := w.(f := g, live := w.live - {s}, sessions := w.sessions - 1);
    if rest.sessions == 0 {
      LastSessionFreed(rest);
    }
  }

  /** The last session drops all libraries, after its devices. */
  lemma LastSessionFreed(w: World)
    requires SessionsInv(w) && JobsInv(w) && Balanced(w.f, w.libraries) && w.sessions == 0 == |w.live.Keys|
    ensures WorldInv(w.(configured := [], f := LibrariesDestroyed(w.f, w.libraries), libraries := []))
  {
    assert w.live.Keys == {};
    assert forall d | d in w.f.sessions :: HeldBySome(w.live, d);
    assert w.f.sessions.Keys == {};
    JobsNeedSessions(w);
    assert w.jobs.Keys == {};
    DestroyingBalances(w.f, w.libraries);
  }

  lemma CreateJobKeeps(w: World, s: nat, k: nat, hasPointer: bool, allocOk: bool, a: JobAnswer)
    requires WorldInv(w) && s in w.live && k < |w.live[s].devices|
    ensures var r := CreateJob(w, s, k, hasPointer, allocOk, a);
            && WorldInv(r.w) && WorldLater(w, r.w) && r.w.live == w.live
            && (r.code != Success ==> r.w.jobs == w.jobs)
            && r.w.f == w.f.(jobs := r.w.f.jobs, next := r.w.f.next)
  {
    var r, d := CreateJob(w, s, k, hasPointer, allocOk, a), w.live[s].devices[k];
    assert SessionInv(w.f, w.configured, w.live[s]);
    assert DeviceSessionUsed(w.f, d.lib, d.session) == w.f;
    LedgerOfJobsChanges(w, r.w.f);
    if r.w != w {
      JobGivenKeeps(w, r.w, s, k);
    }
  }

  /** The device jobs in the ledger do not matter to libraries and sessions. */
  lemma LedgerOfJobsChanges(w: World, g: Foreign)
    requires LibrariesInv(w) && SessionsInv(w) && g == w.f.(jobs := g.jobs, next := g.next) && w.f.next <= g.next
    ensures LibrariesInv(w.(f := g)) && SessionsInv(w.(f := g))
  {
    forall t | t in w.live ensures SessionInv(g, w.configured, w.live[t]) {
      assert SessionInv(w.f, w.configured, w.live[t]);
      OwnedElsewhere(w.f, g, w.live[t].devices);
    }
    assert forall d | d in g.sessions :: d in w.f.sessions;
  }

  lemma JobGivenKeeps(w: World, after: World, s: nat, k: nat)
    requires JobsInv(w) && s in w.live && k < |w.live[s].devices|
    requires after == w.(f := after.f, jobs := after.jobs, next := after.next) && w.next <= after.next
    requires var lib := w.live[s].devices[k].lib;
             (after.f.jobs == w.f.jobs && after.f.next == w.f.next) ||
             (after.f.jobs == w.f.jobs[w.f.next := lib] && after.f.next == w.f.next + 1)
    requires after.jobs == w.jobs ||
             (after.next == w.next + 1 &&
              (after.jobs == w.jobs[w.next := ClientJob(s, k, None)] ||
               (after.jobs == w.jobs[w.next := ClientJob(s, k, Some(w.f.next))] && w.f.next in after.f.jobs)))
    ensures JobsInv(after)
  {
    forall j | j in w.jobs
      ensures ClientJobInv(after, w.jobs[j]) && (w.jobs[j].handle.Some? ==> w.jobs[j].handle.value < w.f.next)
    {
      assert ClientJobInv(w, w.jobs[j]);
    }
    assert forall j | j in w.jobs :: j < w.next;
  }

  lemma FreeJobKeeps(w: World, j: nat)
    requires WorldInv(w) && Possible(w, FreeJobCall(j))
    ensures WorldInv(FreeJob(w, j)) && WorldLater(w, FreeJob(w, j))
    ensures w.jobs[j].handle.Some? ==> w.jobs[j].handle.value !in FreeJob(w, j).f.jobs
  {
    var c, after := w.jobs[j], FreeJob(w, j);
    assert ClientJobInv(w, c) && SessionInv(w.f, w.configured, w.live[c.session]);
    assert w.live[c.session].devices[c.device].lib in w.f.live;
    forall t | t in w.live ensures SessionInv(after.f, w.configured, w.live[t]) {
      assert SessionInv(w.f, w.configured, w.live[t]);
      OwnedElsewhere(w.f, after.f, w.live[t].devices);
    }
    forall i | i in after.jobs ensures ClientJobInv(after, after.jobs[i]) {
      assert ClientJobInv(w, w.jobs[i]);
      assert c.handle.Some? ==> w.jobs[j].handle != w.jobs[i].handle;
    }
  }

  /** Every call keeps the invariant and the sessions that live on, whatever the environment answers. */
  lemma StepKeeps(w: World, c: Call)
    requires WorldInv(w)
    ensures WorldInv(Step(w, c)) && WorldLater(w, Step(w, c))
  {
    if Possible(w, c) {
      match c {
        case AllocCall(hasPointer, allocOk, file, loads) => AllocKeeps(w, hasPointer, allocOk, file, loads);
        case SetParameterCall(_, _, _, _) => SessionCallKeeps(w, c);
        case InitCall(_, _) => SessionCallKeeps(w, c);
        case FreeCall(_) => SessionCallKeeps(w, c);
        case CreateJobCall(s, k, hasPointer, allocOk, a) => CreateJobKeeps(w, s, k, hasPointer, allocOk, a);
        case FreeJobCall(j) => FreeJobKeeps(w, j);
      }
    }
  }

  lemma SessionCallKeeps(w: World, c: Call)
    requires WorldInv(w) && Possible(w, c) && (c.SetParameterCall? || c.InitCall? || c.FreeCall?)
    ensures WorldInv(Step(w, c)) && WorldLater(w, Step(w, c))
  {
    if c.SetParameterCall? {
      SetParameterKeeps(w, c.s, c.param, c.size, c.value);
    } else if c.InitCall? {
      InitKeeps(w, c.s, c.opens);
    } else {
      FreeKeeps(w, c.s);
    }
  }

  lemma LaterIsTransitive(a: World, b: World, c: World)
    requires WorldInv(a) && WorldLater(a, b) && WorldLater(b, c)
    ensures WorldLater(a, c)
  {
    forall s | s in a.live && s in c.live ensures s in b.live {
      assert s < a.next <= b.next;
    }
  }

  lemma {:induction false} RunKeeps(w: World, calls: seq<Call>)
    requires WorldInv(w)
    ensures WorldInv(Run(w, calls)) && WorldLater(w, Run(w, calls))
    decreases |calls|
  {
    if calls != [] {
      StepKeeps(w, calls[0]);
      RunKeeps(Step(w, calls[0]), calls[1..]);
      LaterIsTransitive(w, Step(w, calls[0]), Run(w, calls));
    }
  }

  // ----- device jobs that nobody can free -----

  predicate HeldByJob(jobs: map<nat, ClientJob>, d: nat) {
    exists j | j in jobs :: jobs[j].handle == Some(d)
  }

  /** The device jobs in the ledger that no client job holds. */
  function Orphans(w: World): set<nat> {
    set d | d in w.f.jobs && !HeldByJob(w.jobs, d)
  }

  /** The call reaches the library, and the library hands out a device job together with an error. */
  predicate Leaks(w: World, c: Call) {
    && c.CreateJobCall? && Possible(w, c)
    && c.hasPointer && w.live[c.s].mode == ReadWrite && c.allocOk
    && c.answer.given && c.answer.code != Success
  }

  function LeakCount(w: World, calls: seq<Call>): nat
    decreases |calls|
  {
    if calls == [] then 0
    else (if Leaks(w, calls[0]) then 1 else 0) + LeakCount(Step(w, calls[0]), calls[1..])
  }

  lemma {:induction false} LibrariesDestroyedKeepsJobs(f: Foreign, libs: seq<Lib>)
    ensures LibrariesDestroyed(f, libs).jobs == f.jobs
    decreases |libs|
  {
    if libs != [] {
      LibrariesDestroyedKeepsJobs(LibraryDestroyed(f, libs[0]), libs[1..]);
    }
  }

  lemma {:induction false} DevicesFreedKeepsJobs(f: Foreign, devices: seq<Device>)
    ensures DevicesFreed(f, devices).jobs == f.jobs
    decreases |devices|
  {
    if devices != [] {
      DevicesFreedKeepsJobs(DeviceFreed(f, devices[0]), devices[1..]);
    }
  }

  lemma AllocKeepsJobs(w: World, c: Call)
    requires WorldInv(w) && c.AllocCall? && Possible(w, c)
    ensures Step(w, c).jobs == w.jobs && Step(w, c).f.jobs == w.f.jobs
  {
    if c.hasPointer && c.allocOk && w.sessions == 0 {
      NothingWithoutSessions(w);
      LoadingIsTransactional(w.f, c.file, c.loads);
    }
  }

  lemma FreeKeepsJobs(w: World, c: Call)
    requires c.FreeCall? && Possible(w, c)
    ensures Step(w, c).jobs == w.jobs && Step(w, c).f.jobs == w.f.jobs
  {
    DevicesFreedKeepsJobs(w.f, w.live[c.s].devices);
    LibrariesDestroyedKeepsJobs(DevicesFreed(w.f, w.live[c.s].devices), w.libraries);
  }

  lemma InitKeepsJobs(w: World, c: Call)
    requires WorldInv(w) && c.InitCall? && Possible(w, c)
    ensures Step(w, c).jobs == w.jobs && Step(w, c).f.jobs == w.f.jobs
  {
    InitChangesSessions(w, c.s, c.opens);
  }

  lemma InitChangesSessions(w: World, s: nat, opens: seq<DeviceAnswer>)
    requires WorldInv(w) && s in w.live && |w.configured| <= |opens|
    ensures SessionInit(w.f, w.configured, w.live[s], opens).f.jobs == w.f.jobs
  {
    OpeningConfigured(w, opens);
  }

  /** Only the two job calls touch jobs. */
  lemma OtherCallsKeepJobs(w: World, c: Call)
    requires WorldInv(w) && !c.CreateJobCall? && !c.FreeJobCall?
    ensures Step(w, c).jobs == w.jobs && Step(w, c).f.jobs == w.f.jobs
  {
    if Possible(w, c) {
      match c {
        case AllocCall(_, _, _, _) => AllocKeepsJobs(w, c);
        case SetParameterCall(_, _, _, _) =>
        case InitCall(_, _) => InitKeepsJobs(w, c);
        case FreeCall(_) => FreeKeepsJobs(w, c);
      }
    }
  }

  /** A device job that is handed out is held by the client job created with it, or by nobody. */
  lemma GivenJobOrphans(w: World, after: World, given: bool, job: Option<ClientJob>)
    requires JobsInv(w)
    requires job.Some? ==> job.value.handle == if given then Some(w.f.next) else None
    requires after.jobs == if job.Some? then w.jobs[w.next := job.value] else w.jobs
    requires after.f.jobs.Keys == w.f.jobs.Keys + (if given then {w.f.next} else {})
    ensures Orphans(after) == Orphans(w) + (if given && job == None then {w.f.next} else {})
  {
    NextIsNotHeld(w);
    assert w.next !in w.jobs;
    if job.Some? {
      NewJobHolds(w.jobs, w.next, job.value);
    }
  }

  lemma CreateJobOrphans(w: World, c: Call)
    requires JobsInv(w) && c.CreateJobCall? && Possible(w, c)
    ensures Orphans(Step(w, c)) == Orphans(w) + (if Leaks(w, c) then {w.f.next} else {})
  {
    var asked := c.hasPointer && w.live[c.s].mode == ReadWrite && c.allocOk;
    var given := asked && c.answer.given;
    var handle := if given then Some(w.f.next) else None;
    var job := if asked && c.answer.code == Success then Some(ClientJob(c.s, c.k, handle)) else None;
    CreateJobHandsOut(w, c, given, job);
    GivenJobOrphans(w, Step(w, c), given, job);
  }

  lemma CreateJobHandsOut(w: World, c: Call, given: bool, job: Option<ClientJob>)
    requires c.CreateJobCall? && Possible(w, c)
    requires var asked := c.hasPointer && w.live[c.s].mode == ReadWrite && c.allocOk;
             && given == (asked && c.answer.given)
             && job == if asked && c.answer.code == Success
                  then Some(ClientJob(c.s, c.k, if given then Some(w.f.next) else None)) else None
    ensures Step(w, c).jobs == if job.Some? then w.jobs[w.next := job.value] else w.jobs
    ensures Step(w, c).f.jobs.Keys == w.f.jobs.Keys + (if given then {w.f.next} else {})
  {
  }

  lemma NewJobHolds(jobs: map<nat, ClientJob>, next: nat, job: ClientJob)
    requires next !in jobs
    ensures forall d: nat :: HeldByJob(jobs[next := job], d) <==> HeldByJob(jobs, d) || job.handle == Some(d)
  {
    var after := jobs[next := job];
    forall d: nat ensures HeldByJob(after, d) <==> HeldByJob(jobs, d) || job.handle == Some(d) {
      if HeldByJob(jobs, d) {
        var j :| j in jobs && jobs[j].handle == Some(d);
        assert after[j].handle == Some(d);
      }
      assert after[next] == job;
    }
  }

  lemma NextIsNotHeld(w: World)
    requires JobsInv(w)
    ensures !HeldByJob(w.jobs, w.f.next)
  {
    forall j | j in w.jobs ensures w.jobs[j].handle != Some(w.f.next) {
      assert ClientJobInv(w, w.jobs[j]);
    }
  }

  /** Freeing a job takes exactly its own device job out of the ledger. */
  lemma FreeJobOrphans(w: World, j: nat)
    requires Possible(w, FreeJobCall(j))
    ensures Orphans(FreeJob(w, j)) == Orphans(w)
  {
    var after, h := FreeJob(w, j), w.jobs[j].handle;
    RemovedJobHolds(w.jobs, j);
    assert after.f.jobs.Keys == w.f.jobs.Keys - (if h.Some? then {h.value} else {});
    assert h.Some? ==> HeldByJob(w.jobs, h.value);
  }

  lemma RemovedJobHolds(jobs: map<nat, ClientJob>, j: nat)
    requires j in jobs
    ensures forall d: nat | jobs[j].handle != Some(d) :: HeldByJob(jobs - {j}, d) <==> HeldByJob(jobs, d)
  {
    var after := jobs - {j};
    forall d: nat | jobs[j].handle != Some(d) ensures HeldByJob(after, d) <==> HeldByJob(jobs, d) {
      if HeldByJob(jobs, d) {
        var i :| i in jobs && jobs[i].handle == Some(d);
        assert after[i].handle == Some(d);
      }
    }
  }

  /** Every call adds to the orphans exactly the device job it leaks, and no call frees one. */
  lemma StepOrphans(w: World, c: Call)
    requires WorldInv(w)
    ensures Orphans(Step(w, c)) == Orphans(w) + (if Leaks(w, c) then {w.f.next} else {})
  {
    if c.CreateJobCall? {
      if Possible(w, c) {
        CreateJobOrphans(w, c);
      }
    } else if c.FreeJobCall? {
      if Possible(w, c) {
        FreeJobOrphans(w, c.j);
      }
    } else {
      OtherCallsKeepJobs(w, c);
    }
  }

  lemma NextIsNoOrphan(w: World)
    requires JobsInv(w)
    ensures w.f.next !in Orphans(w)
  {
    assert w.f.next !in w.f.jobs;
  }

  lemma StepCountsOrphans(w: World, c: Call)
    requires WorldInv(w)
    ensures |Orphans(Step(w, c))| == |Orphans(w)| + (if Leaks(w, c) then 1 else 0)
  {
    StepOrphans(w, c);
    NextIsNoOrphan(w);
  }

  lemma {:induction false} OrphansAreLeaks(w: World, calls: seq<Call>)
    requires WorldInv(w)
    ensures |Orphans(Run(w, calls))| == |Orphans(w)| + LeakCount(w, calls)
    decreases |calls|
  {
    if calls != [] {
      StepKeeps(w, calls[0]);
      StepCountsOrphans(w, calls[0]);
      OrphansAreLeaks(Step(w, calls[0]), calls[1..]);
    }
  }

  // ----- what every run guarantees -----

  /** Conservation of device jobs, over every run: the device jobs in the ledger that no client job holds are as
      many as the calls that leaked one, so each is held by a client job exactly when no call leaked. Once all
      sessions are freed nothing else is left. */
  lemma EveryRunAccountsForJobs(calls: seq<Call>)
    ensures var w, leaks := Run(START, calls), LeakCount(START, calls);
            && |Orphans(w)| == leaks
            && ((forall d | d in w.f.jobs :: HeldByJob(w.jobs, d)) <==> leaks == 0)
            && (w.sessions == 0 ==> |w.f.jobs| == leaks && (w.f.jobs == map[] <==> leaks == 0))
  {
    var w := Run(START, calls);
    assert WorldInv(START) && Orphans(START) == {};
    RunKeeps(START, calls);
    OrphansAreLeaks(START, calls);
    OrphansAreUnheld(w);
    if w.sessions == 0 {
      NothingWithoutSessions(w);
      AllAreOrphans(w);
    }
  }

  lemma OrphansAreUnheld(w: World)
    ensures (forall d | d in w.f.jobs :: HeldByJob(w.jobs, d)) <==> |Orphans(w)| == 0
  {
    if Orphans(w) != {} {
      var d :| d in Orphans(w);
      assert d in w.f.jobs && !HeldByJob(w.jobs, d);
    } else {
      assert forall d | d in w.f.jobs && !HeldByJob(w.jobs, d) :: d in Orphans(w);
    }
  }

  lemma AllAreOrphans(w: World)
    requires w.jobs == map[]
    ensures |w.f.jobs| == |Orphans(w)| && (w.f.jobs == map[] <==> |Orphans(w)| == 0)
  {
    assert Orphans(w) == w.f.jobs.Keys;
  }

  /** In every state any run reaches, failed loads and failing libraries included: no foreign call was ever out of
      order; each handle is open as often as loaded libraries use it; each loaded library is initialized exactly
      once; the counter counts the live sessions; every open device session belongs to one device of one live
      session. Without sessions nothing is left but the device jobs that were leaked. */
  lemma EveryRunIsBalanced(calls: seq<Call>)
    ensures var w := Run(START, calls);
            && WorldInv(w) && !w.f.faulty
            && w.f.opens == Handles(w.libraries) && w.f.live == multiset(w.libraries)
            && (forall l | l in w.libraries :: w.f.live[l] == 1)
            && w.sessions == |w.live.Keys|
            && (w.sessions == 0 ==>
                 w.f.opens == multiset{} && w.f.live == multiset{} && w.f.sessions == map[] && w.jobs == map[])
            && (w.sessions == 0 ==> |w.f.jobs| == LeakCount(START, calls))
  {
    assert WorldInv(START);
    RunKeeps(START, calls);
    EveryRunAccountsForJobs(calls);
    var w := Run(START, calls);
    forall l | l in w.libraries ensures w.f.live[l] == 1 {
      InitializedOnce(w.libraries, l);
    }
    if w.sessions == 0 {
      NothingWithoutSessions(w);
    }
  }

  lemma {:induction false} InitializedOnce(libs: seq<Lib>, l: Lib)
    requires Distinct(libs) && l in libs
    ensures multiset(libs)[l] == 1
  {
    MultisetByHead(libs);
    if l == libs[0] {
      assert l !in libs[1..];
      assert l !in multiset(libs[1..]);
    } else {
      InitializedOnce(libs[1..], l);
    }
  }

  /** Initializing a session is all or nothing. It succeeds exactly for an allocated session with a token when no
      step fails for any device. Otherwise the session stays as it was but for its mode, with no devices, and every
      device session opened in the call has been freed exactly once. */
  lemma InitIsAllOrNothing(w: World, s: nat, answers: seq<DeviceAnswer>)
    requires WorldInv(w) && s in w.live && |w.configured| <= |answers|
    ensures var was, r := w.live[s], SessionInit(w.f, w.configured, w.live[s], answers);
            && (r.code == Success <==> was.status == Allocated && was.token.Some? &&
                                       forall k | 0 <= k < |w.configured| :: OpenError(answers[k]) == None)
            && (r.code != Success ==> r.session == was.(mode := r.session.mode) && r.f == w.f.(next := r.f.next))
            && (r.code != Success && was.status == Allocated ==>
                 r.session.status == Allocated && r.session.devices == [])
            && (r.code == Success ==>
                  && r.session.status == Initialized && |r.session.devices| == |w.configured|
                  && r.session.mode == (if was.token.value == [] then ReadOnly else ReadWrite)
                  && (forall k | 0 <= k < |w.configured| ::
                        r.session.devices[k].id == w.configured[k].id &&
                          r.session.devices[k].lib == w.configured[k].lib)
                  && r.f.sessions.Keys == w.f.sessions.Keys + Held(r.session.devices))
  {
    OpeningConfigured(w, answers);
    assert SessionInv(w.f, w.configured, w.live[s]);
    var r := OpenAll(w.f, w.configured, answers, []);
    ErrorsAreErrors(w.f, w.configured, answers, []);
  }

  lemma {:induction false} ErrorsAreErrors(
      f: Foreign, configured: seq<Configured>, answers: seq<DeviceAnswer>, devices: seq<Device>)
    requires |devices| <= |configured| <= |answers|
    ensures OpenAll(f, configured, answers, devices).devices != Err(Success)
    decreases |configured| - |devices|
  {
    if |devices| < |configured| {
      var r := OpenDevice(f, configured[|devices|], answers[|devices|]);
      if r.device.Ok? {
        ErrorsAreErrors(r.f, configured, answers, devices + [r.device.value]);
      }
    }
  }

  function DeviceIds(s: Session): (ids: seq<string>)
    ensures |ids| == |s.devices| && forall k | 0 <= k < |ids| :: ids[k] == s.devices[k].id
  {
    seq(|s.devices|, k requires 0 <= k < |s.devices| => s.devices[k].id)
  }

  /** Any two initialized sessions alive at the same time expose the same device ids in the same order, all
      distinct, each device pointing at a loaded library. */
  lemma SessionsExposeSameDevices(calls: seq<Call>, s: nat, t: nat)
    requires var w := Run(START, calls);
             s in w.live && t in w.live && w.live[s].status == Initialized && w.live[t].status == Initialized
    ensures var w := Run(START, calls);
            && DeviceIds(w.live[s]) == DeviceIds(w.live[t]) == Ids(w.configured)
            && (forall i, j | 0 <= i < j < |w.live[s].devices| :: w.live[s].devices[i].id != w.live[s].devices[j].id)
            && forall k | 0 <= k < |w.live[s].devices| :: w.live[s].devices[k].lib in w.libraries
  {
    var w := Run(START, calls);
    EveryRunIsBalanced(calls);
    assert SessionInv(w.f, w.configured, w.live[s]) && SessionInv(w.f, w.configured, w.live[t]);
    forall k | 0 <= k < |w.live[s].devices| ensures w.live[s].devices[k].lib in w.libraries {
      assert w.configured[k].lib in w.libraries;
    }
  }

  /** As long as an initialized session lives, it and the configuration never change. */
  lemma InitializedSessionIsFixed(before: seq<Call>, calls: seq<Call>, s: nat)
    requires s in Run(START, before).live && Run(START, before).live[s].status == Initialized
    ensures var w, end := Run(START, before), Run(Run(START, before), calls);
            s in end.live ==>
              && end.live[s] == w.live[s] && end.configured == w.configured && end.libraries == w.libraries
              && Owned(end.f, end.live[s].devices)
  {
    EveryRunIsBalanced(before);
    RunKeeps(Run(START, before), calls);
    var end := Run(Run(START, before), calls);
    if s in end.live {
      assert SessionInv(end.f, end.configured, end.live[s]);
    }
  }

  /** The configuration is that of the file: each entry, in order, with the library of its own name and prefix; and
      exactly these libraries are loaded, one for each different handle and prefix. */
  predicate ConfiguredBy(w: World, file: string, loader: map<string, nat>) {
    var entries := ReadEntries(Lines(file), {});
    && entries.Some? && Resolves(entries.value, loader)
    && w.configured == Bound(entries.value, loader)
    && LibSet(w.libraries) == Used(w.configured) && |w.libraries| == |Used(w.configured)|
  }

  /** The first session loads the file; it succeeds only if the file reads, and then the configuration is that of
      the file; with an environment that never fails it succeeds exactly if the file reads. A failed load leaves
      everything as it was. */
  lemma FirstSessionLoadsFile(w: World, file: string, answers: seq<LoadAnswer>, loader: map<string, nat>)
    requires WorldInv(w) && w.sessions == 0 && |answers| >= |Lines(file)|
    ensures var r, entries := SessionAlloc(w, true, true, Some(file), answers), ReadEntries(Lines(file), {});
            && (r.code != Success ==> r.w == w)
            && (r.code == Success ==> entries.Some? && Ids(r.w.configured) == EntryIds(entries.value))
            && (r.code == Success && Follows(Lines(file), answers, loader) ==> ConfiguredBy(r.w, file, loader))
            && (AllWell(answers) ==> (r.code == Success <==> entries.Some?))
  {
    AllocKeeps(w, true, true, Some(file), answers);
    LoadFollowsFile(w.f, [], [], {}, Lines(file), answers);
    if Follows(Lines(file), answers, loader) {
      assert LibSet([]) == Used([]);
      LoadBindsLibraries(w.f, [], [], {}, Lines(file), answers, loader);
      LoadedOnce(w, file, answers);
    }
  }

  lemma LoadedOnce(w: World, file: string, answers: seq<LoadAnswer>)
    requires WorldInv(w) && w.sessions == 0 && |answers| >= |Lines(file)|
    ensures var r := SessionAlloc(w, true, true, Some(file), answers);
            |r.w.libraries| == |LibSet(r.w.libraries)|
  {
    AllocKeeps(w, true, true, Some(file), answers);
    DistinctCount(SessionAlloc(w, true, true, Some(file), answers).w.libraries);
  }

  // ----- a run that leaks -----

  const ONE_DEVICE := [DeviceLine(Entry("l", "p", "d"), "", " ", " ", "")]

  /** One session on one device whose library hands out a job with an error; all handles are freed in the end. */
  const LEAKING_RUN := [
    AllocCall(true, true, Some(PrintItems(ONE_DEVICE)), [LoadAnswer(true, Some(0), true, true, true, true)]),
    SetParameterCall(0, TokenParameter, 2, Some("t\0")),
    InitCall(0, [DeviceAnswer(true, true, Success, Success, Success, true)]),
    CreateJobCall(0, 0, true, true, JobAnswer(true, Fatal)),
    FreeCall(0)]

  lemma OneDeviceReads()
    ensures Lines(PrintItems(ONE_DEVICE)) == ItemTexts(ONE_DEVICE)
    ensures ReadEntries(Lines(PrintItems(ONE_DEVICE)), {}) == Some([Entry("l", "p", "d")])
  {
    LinesOfPrint(ONE_DEVICE);
    ConfigRoundTrip(ONE_DEVICE);
    assert Entries(ONE_DEVICE) == [Entry("l", "p", "d")];
  }

  /** The first session of the run: allocated, with the one device configured. */
  lemma LeakingRunLoads()
    ensures var w := Step(START, LEAKING_RUN[0]);
            && Possible(START, LEAKING_RUN[0]) && WorldInv(w)
            && w.live == map[0 := NEW_SESSION] && w.sessions == 1 && |w.configured| == 1 && w.jobs == map[]
  {
    var loads := LEAKING_RUN[0].loads;
    OneDeviceReads();
    FirstSessionLoadsFile(START, PrintItems(ONE_DEVICE), loads, map[]);
    AllocKeeps(START, true, true, Some(PrintItems(ONE_DEVICE)), loads);
    assert |Ids(Step(START, LEAKING_RUN[0]).configured)| == 1;
  }

  /** Its second and third call: the session is initialized for reading and writing. */
  lemma LeakingRunInitializes(w: World)
    requires WorldInv(w) && w.live == map[0 := NEW_SESSION] && |w.configured| == 1
    ensures var after := Step(Step(w, LEAKING_RUN[1]), LEAKING_RUN[2]);
            && 0 in after.live && after.live[0].mode == ReadWrite && |after.live[0].devices| == 1
            && after.sessions == w.sessions && after.jobs == w.jobs
  {
    StepKeeps(w, LEAKING_RUN[1]);
    TokenIsSet(w);
    OneSessionOpens(Step(w, LEAKING_RUN[1]), LEAKING_RUN[2].opens);
  }

  lemma TokenIsSet(w: World)
    requires w.live == map[0 := NEW_SESSION]
    ensures Step(w, LEAKING_RUN[1]) == w.(live := map[0 := NEW_SESSION.(token := Some("t"))])
  {
    assert "t\0"[..1] == "t";
  }

  lemma OneSessionOpens(v: World, opens: seq<DeviceAnswer>)
    requires WorldInv(v) && 0 in v.live && v.live[0] == NEW_SESSION.(token := Some("t")) &&
             |v.configured| == 1 == |opens|
    requires OpenError(opens[0]) == None
    ensures var after := Step(v, InitCall(0, opens));
            && 0 in after.live && after.live[0].mode == ReadWrite && |after.live[0].devices| == 1
            && after.sessions == v.sessions && after.jobs == v.jobs
  {
    InitIsAllOrNothing(v, 0, opens);
  }

  /** The last two calls: a device job is handed out with an error, and the session is freed. */
  lemma LeakingRunEnds(w: World)
    requires w.sessions == 1 && w.jobs == map[] && 0 in w.live && w.live[0].mode == ReadWrite &&
             |w.live[0].devices| == 1
    ensures var after := Step(w, LEAKING_RUN[3]);
            && Leaks(w, LEAKING_RUN[3]) && Step(after, LEAKING_RUN[4]).sessions == 0
  {
  }

  /** A run after which all handles are freed and a device job is left. */
  lemma LeakingRunLeaves()
    ensures var w := Run(START, LEAKING_RUN);
            w.sessions == 0 && w.jobs == map[] && |w.f.jobs| == LeakCount(START, LEAKING_RUN) > 0
  {
    var r := LEAKING_RUN;
    var w1 := Step(START, r[0]);
    var w3 := Step(Step(w1, r[1]), r[2]);
    LeakingRunLoads();
    LeakingRunInitializes(w1);
    LeakingRunEnds(w3);
    RunUnfolds(START, r, r[1..]);
    RunUnfolds(w1, r[1..], r[2..]);
    RunUnfolds(Step(w1, r[1]), r[2..], r[3..]);
    RunUnfolds(w3, r[3..], r[4..]);
    RunUnfolds(Step(w3, r[3]), r[4..], []);
    EveryRunIsBalanced(r);
  }

  lemma RunUnfolds(w: World, calls: seq<Call>, rest: seq<Call>)
    requires calls != [] && rest == calls[1..]
    ensures Run(w, calls) == Run(Step(w, calls[0]), rest)
    ensures LeakCount(w, calls) == (if Leaks(w, calls[0]) then 1 else 0) + LeakCount(Step(w, calls[0]), rest)
  {
  }
}
