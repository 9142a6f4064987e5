/** The example driver as objects: libraries with destructors, client sessions and the global driver state, updated
    in place. Each method is proved against the state machine of modules `Driver`, `Sessions` and `DriverRuns`. */
module DriverObjects {
  import opened Outcomes
  import opened Config
  import D = Driver
  import opened Sessions
  import R = DriverRuns

  /** The dynamic loader and the device libraries, as the ledger of the calls made to them. */
  class Environment {
    var f: D.Foreign

    constructor ()
      ensures f == D.CLEAN
    {
      f := D.CLEAN;
    }
  }

  /** `QDMI_Library` */
  class Library {
    var handle: Option<nat>
    var prefix: string
    var initialized: bool

    constructor ()
      ensures handle == None && !initialized
    {
      handle := None;
      prefix := [];
      initialized := false;
    }

    predicate Loaded()
      reads this
    {
      handle.Some? && initialized
    }

    function View(): D.Lib
      requires handle.Some?
      reads this
    {
      D.Lib(handle.value, prefix)
    }

    /** `~QDMI_Library` */
    method Destroy(env: Environment)
      requires initialized ==> handle.Some?
      modifies env`f
      ensures initialized ==> env.f == D.LibraryDestroyed(old(env.f), View())
      ensures !initialized && handle.Some? ==> env.f == D.DlClose(old(env.f), handle.value)
      ensures handle == None ==> env.f == old(env.f)
    {
      if initialized {
        env.f := D.DeviceFinalize(env.f, View());
      }
      if handle.Some? {
        env.f := D.DlClose(env.f, handle.value);
      }
    }
  }

  /** The objects of a vector are loaded libraries with the given values. */
  predicate Shows(libs: seq<Library>, views: seq<D.Lib>)
    reads libs
  {
    |libs| == |views| && forall i | 0 <= i < |libs| :: libs[i].Loaded() && libs[i].View() == views[i]
  }

  /** Destroying a vector of libraries, first to last. */
  method DestroyAll(libs: seq<Library>, env: Environment, ghost views: seq<D.Lib>)
    requires Shows(libs, views)
    modifies env`f
    ensures env.f == D.LibrariesDestroyed(old(env.f), views)
  {
    for i := 0 to |libs|
      invariant D.LibrariesDestroyed(env.f, views[i..]) == D.LibrariesDestroyed(old(env.f), views)
    {
      assert views[i..][0] == views[i] && views[i..][1..] == views[i + 1..];
      libs[i].Destroy(env);
    }
  }

  function LibResult(lib: Result<Library, Code>): Result<D.Lib, Code>
    requires lib.Ok? ==> lib.value.Loaded()
    reads if lib.Ok? then {lib.value} else {}
  {
    match lib
    case Ok(l) => Ok(l.View())
    case Err(e) => Err(e)
  }

  /** `std::ranges::find_if` over the loaded libraries. */
  method FindLoaded(
      libraries: seq<Library>, handle: nat, prefix: string, ghost views: seq<D.Lib>) returns (at: Option<nat>)
    requires Shows(libraries, views)
    ensures at.Some? ==> at.value < |libraries| && libraries[at.value].View() == D.Lib(handle, prefix)
    ensures at.Some? <==> D.Lib(handle, prefix) in views
  {
    for i := 0 to |libraries|
      invariant forall k | 0 <= k < i :: views[k] != D.Lib(handle, prefix)
    {
      assert views[i] == libraries[i].View();
      if libraries[i].handle == Some(handle) && libraries[i].prefix == prefix {
        return Some(i);
      }
    }
    return None;
  }

  /** Resolving the symbols and initializing a library that is not loaded yet. Only a successful initialization
      sets the flag that the destructor looks at. */
  method InitializeLibrary(
      env: Environment, library: Library, prefix: string, a: D.LoadAnswer) returns (error: Option<Code>)
    requires library.handle.Some? && !library.initialized
    modifies env`f, library
    ensures library.handle == old(library.handle) && library.prefix == prefix
    ensures library.initialized <==> a.symbolsOk && a.initOk
    ensures env.f == if library.initialized then D.DeviceInitialized(old(env.f), library.View()) else old(env.f)
    ensures error == if !library.initialized then Some(Fatal) else if !a.growOk then Some(OutOfMem) else None
  {
    library.prefix := prefix;
    if !a.symbolsOk || !a.initOk {
      return Some(Fatal);
    }
    env.f := D.DeviceInitialized(env.f, library.View());
    library.initialized := true;
    return if a.growOk then None else Some(OutOfMem);
  }

  /** `QDMI_library_load` */
  method LibraryLoad(
      env: Environment, libraries: seq<Library>, prefix: string, a: D.LoadAnswer, ghost views: seq<D.Lib>)
    returns (more: seq<Library>, lib: Result<Library, Code>, ghost moreViews: seq<D.Lib>)
    requires Shows(libraries, views)
    modifies env`f
    ensures Shows(more, moreViews) && (lib.Ok? ==> lib.value.Loaded())
    ensures more == libraries || (|more| == |libraries| + 1 && libraries <= more && fresh(more[|libraries|]))
    ensures D.LoadResult(env.f, moreViews, LibResult(lib)) == D.LibraryLoad(old(env.f), views, prefix, a)
  {
    more, moreViews := libraries, views;
    if !a.makeOk {
      return more, Err(OutOfMem), moreViews;
    }
    if a.handle == None {
      return more, Err(Fatal), moreViews;
    }
    var library := new Library();
    library.handle := a.handle;
    env.f := D.DlOpen(env.f, library.handle.value);
    var existing := FindLoaded(libraries, library.handle.value, prefix, views);
    if existing.Some? {
      library.Destroy(env);
      return more, Ok(libraries[existing.value]), moreViews;
    }
    more, lib, moreViews := LoadNew(env, libraries, library, prefix, a, views);
  }

  /** The rest for a library that is open and not loaded yet. */
  method LoadNew(
      env: Environment, libraries: seq<Library>, library: Library, prefix: string, a: D.LoadAnswer,
      ghost views: seq<D.Lib>)
    returns (more: seq<Library>, lib: Result<Library, Code>, ghost moreViews: seq<D.Lib>)
    requires Shows(libraries, views) && library !in libraries && library.handle.Some? && !library.initialized
    modifies env`f, library
    ensures Shows(more, moreViews) && (lib.Ok? ==> lib.value.Loaded())
    ensures more == libraries || more == libraries + [library]
    ensures D.LoadResult(env.f, moreViews, LibResult(lib)) ==
            D.LoadNew(old(env.f), views, D.Lib(old(library.handle).value, prefix), a)
  {
    var error := InitializeOrDestroy(env, library, prefix, a, views);
    if error.Some? {
      return libraries, Err(error.value), views;
    }
    return libraries + [library], Ok(library), views + [library.View()];
  }

  /** A library that cannot be initialized, or not be listed, is destroyed. */
  method InitializeOrDestroy(
      env: Environment, library: Library, prefix: string, a: D.LoadAnswer, ghost views: seq<D.Lib>)
    returns (error: Option<Code>)
    requires library.handle.Some? && !library.initialized
    modifies env`f, library
    ensures error == None ==> library.Loaded() && library.View() == D.Lib(old(library.handle).value, prefix)
    ensures D.LoadNew(old(env.f), views, D.Lib(old(library.handle).value, prefix), a) ==
            if error == None then D.LoadResult(env.f, views + [library.View()], Ok(library.View()))
            else D.LoadResult(env.f, views, Err(error.value))
  {
    error := InitializeLibrary(env, library, prefix, a);
    if error.Some? {
      library.Destroy(env);
      assert library.initialized <==> error == Some(OutOfMem);
    }
  }

  /** The line loop of `QDMI_initialize_driver`, filling local lists. */
  method LoadLines(env: Environment, lines: seq<string>, answers: seq<D.LoadAnswer>)
    returns (loaded: seq<Library>, configured: seq<D.Configured>, code: Code, ghost views: seq<D.Lib>)
    requires |answers| >= |lines|
    modifies env`f
    ensures Shows(loaded, views) && forall i | 0 <= i < |loaded| :: fresh(loaded[i])
    ensures D.DriverLoad(env.f, views, configured, code) == D.LoadLines(old(env.f), [], [], {}, lines, answers)
  {
    loaded, configured, views := [], [], [];
    var deviceIds: set<string> := {};
    ghost var r := D.LoadLines(env.f, [], [], {}, lines, answers);
    assert lines[0..] == lines && answers[0..] == answers;
    for i := 0 to |lines|
      invariant Shows(loaded, views)
      invariant forall k | 0 <= k < |loaded| :: fresh(loaded[k])
      invariant r == D.LoadLines(env.f, views, configured, deviceIds, lines[i..], answers[i..])
    {
      assert lines[i..][0] == lines[i] && lines[i..][1..] == lines[i + 1..];
      assert answers[i..][0] == answers[i] && answers[i..][1..] == answers[i + 1..];
      match ReadLine(lines[i]) {
        case Skipped =>
        case Malformed =>
          return loaded, configured, Fatal, views;
        case Parsed(e) =>
          if e.id in deviceIds {
            return loaded, configured, Fatal, views;
          }
          var library;
          loaded, library, views := LibraryLoad(env, loaded, e.prefix, answers[i], views);
          if library.Err? {
            return loaded, configured, library.error, views;
          }
          if !answers[i].pushOk {
            return loaded, configured, OutOfMem, views;
          }
          deviceIds := deviceIds + {e.id};
          configured := configured + [D.Configured(library.value.View(), e.id)];
      }
    }
    return loaded, configured, Success, views;
  }

  /** `QDMI_Session_impl_d`. `deleted` marks an object whose memory has been released. */
  class ClientSession {
    var status: SessionStatus
    var deviceList: seq<Device>
    var token: Option<string>
    var mode: Mode
    var deleted: bool

    constructor ()
      ensures View() == NEW_SESSION && !deleted
    {
      deleted := false;
      status := Allocated;
      deviceList := [];
      token := None;
      mode := ReadOnly;
    }

    function View(): Session
      reads this
    {
      Session(status, deviceList, token, mode)
    }
  }

  /** `QDMI_Job_impl_d`: the device it was created on, as a place in the list of its session, and the device job
      the library handed out, if any. `deleted` marks an object whose memory has been released. */
  class ClientJob {
    const session: ClientSession
    const device: nat
    var deviceJob: Option<nat>
    var deleted: bool

    constructor (session: ClientSession, device: nat)
      ensures this.session == session && this.device == device && deviceJob == None && !deleted
    {
      this.session := session;
      this.device := device;
      deviceJob := None;
      deleted := false;
    }
  }

  /** The objects behind the session handles of clients: all different, none deleted, with the values of the world. */
  predicate SessionsShow(live: map<nat, ClientSession>, w: R.World)
    reads live.Values
  {
    && live.Keys == w.live.Keys
    && (forall s | s in live :: !live[s].deleted && live[s].View() == w.live[s])
    && (forall s, t | s in live && t in live && s != t :: live[s] != live[t])
  }

  /** The objects behind the job handles: all different, none deleted, with the values of the world and the session
      they belong to. */
  predicate JobsShow(held: map<nat, ClientJob>, live: map<nat, ClientSession>, w: R.World)
    reads held.Values
  {
    && held.Keys == w.jobs.Keys
    && (forall j | j in held ::
          && !held[j].deleted && held[j].device == w.jobs[j].device && held[j].deviceJob == w.jobs[j].handle
          && w.jobs[j].session in live && held[j].session == live[w.jobs[j].session])
    && (forall i, j | i in held && j in held && i != j :: held[i] != held[j])
  }

  /** A new session object joins under the next handle. */
  lemma SessionJoins(
      live: map<nat, ClientSession>, held: map<nat, ClientJob>, w: R.World, after: R.World, session: ClientSession)
    requires SessionsShow(live, w) && JobsShow(held, live, w) && w.next !in w.live
    requires after.live == w.live[w.next := NEW_SESSION] && after.jobs == w.jobs
    requires session !in live.Values && session.View() == NEW_SESSION && !session.deleted
    ensures SessionsShow(live[w.next := session], after) && JobsShow(held, live[w.next := session], after)
  {
    var more := live[w.next := session];
    forall s, t | s in more && t in more && s != t ensures more[s] != more[t] {
      assert s != w.next ==> live[s] in live.Values;
      assert t != w.next ==> live[t] in live.Values;
    }
  }

  lemma ObjectsStay(live: map<nat, ClientSession>, held: map<nat, ClientJob>, w: R.World, after: R.World)
    requires SessionsShow(live, w) && JobsShow(held, live, w) && after.live == w.live && after.jobs == w.jobs
    ensures SessionsShow(live, after) && JobsShow(held, live, after)
  {
  }

  /** A session object leaves; none of its jobs is held. */
  lemma SessionLeaves(live: map<nat, ClientSession>, held: map<nat, ClientJob>, w: R.World, after: R.World, s: nat)
    requires s in live && after.live == w.live - {s} && after.jobs == w.jobs
    requires live.Keys == w.live.Keys && JobsShow(held, live, w) && forall j | j in w.jobs :: w.jobs[j].session != s
    requires forall t | t in live && t != s :: !live[t].deleted && live[t].View() == w.live[t]
    requires forall t, u | t in live && u in live && t != u :: live[t] != live[u]
    ensures SessionsShow(live - {s}, after) && JobsShow(held, live - {s}, after)
  {
  }

  /** A new job object joins under the next handle. */
  lemma JobJoins(
      held: map<nat, ClientJob>, live: map<nat, ClientSession>, w: R.World, after: R.World, job: ClientJob, s: nat)
    requires JobsShow(held, live, w) && w.next !in w.jobs && job !in held.Values && !job.deleted
    requires s in live && job.session == live[s]
    requires after.jobs == w.jobs[w.next := R.ClientJob(s, job.device, job.deviceJob)]
    ensures JobsShow(held[w.next := job], live, after)
  {
    var more := held[w.next := job];
    forall i, j | i in more && j in more && i != j ensures more[i] != more[j] {
      assert i != w.next ==> held[i] in held.Values;
      assert j != w.next ==> held[j] in held.Values;
    }
  }

  /** Destroying a vector of devices, first to last. */
  method FreeDevices(devices: seq<Device>, env: Environment)
    modifies env`f
    ensures env.f == DevicesFreed(old(env.f), devices)
  {
    for i := 0 to |devices|
      invariant DevicesFreed(env.f, devices[i..]) == DevicesFreed(old(env.f), devices)
    {
      FreeDevice(devices[i], env);
      assert devices[i..][0] == devices[i] && devices[i..][1..] == devices[i + 1..];
    }
  }

  /** `~QDMI_Device_impl_d` */
  method FreeDevice(d: Device, env: Environment)
    modifies env`f
    ensures env.f == DeviceFreed(old(env.f), d)
  {
    if d.session.Some? {
      env.f := D.DeviceSessionFree(env.f, d.lib, d.session.value);
    }
  }

  /** The global driver state and the functions that update it. */
  class DriverState {
    const env: Environment
    var libraries: seq<Library>
    var configuredDevices: seq<D.Configured>
    var sessions: nat

    constructor (env: Environment)
      ensures this.env == env && libraries == [] && configuredDevices == [] && sessions == 0
    {
      this.env := env;
      libraries := [];
      configuredDevices := [];
      sessions := 0;
    }

    /** The driver's part of a world agrees with the driver's fields. */
    predicate HoldsState(w: R.World)
      reads this, env, libraries
    {
      Shows(libraries, w.libraries) && w.f == env.f && w.configured == configuredDevices && w.sessions == sessions
    }

    /** A world agrees with the driver and the objects that clients hold. */
    predicate Represents(w: R.World, live: map<nat, ClientSession>, held: map<nat, ClientJob>)
      reads this, env, libraries, live.Values, held.Values
    {
      HoldsState(w) && SessionsShow(live, w) && JobsShow(held, live, w)
    }

    /** The local lists move into the driver state; what it held before is destroyed. */
    method Adopt(loaded: seq<Library>, configured: seq<D.Configured>, ghost views: seq<D.Lib>, ghost was: seq<D.Lib>)
      requires Shows(libraries, was) && Shows(loaded, views)
      modifies this, env`f
      ensures libraries == loaded && configuredDevices == configured && sessions == old(sessions)
      ensures env.f == D.LibrariesDestroyed(old(env.f), was)
      ensures Shows(loaded, views)
    {
      DestroyAll(libraries, env, was);
      assert Shows(loaded, views);
      libraries := loaded;
      configuredDevices := configured;
    }

    /** `QDMI_initialize_driver` */
    method InitializeDriver(file: Option<string>, answers: seq<D.LoadAnswer>, ghost w: R.World) returns (code: Code)
      requires HoldsState(w) && (file.Some? ==> |answers| >= |Lines(file.value)|)
      modifies this, env`f
      ensures var r := D.InitializeDriver(old(env.f), file, answers);
              && code == r.code
              && HoldsState(if code != Success then w.(f := r.f)
                            else w.(f := D.LibrariesDestroyed(r.f, w.libraries), libraries := r.libs,
                              configured := r.configured))
    {
      if file == None {
        return Fatal;
      }
      ghost var views;
      var loaded, configured;
      loaded, configured, code, views := LoadLines(env, Lines(file.value), answers);
      if code != Success {
        DestroyAll(loaded, env, views);
      } else {
        Adopt(loaded, configured, views, w.libraries);
      }
    }

    /** `QDMI_session_alloc` */
    method SessionAlloc(hasPointer: bool, allocOk: bool, file: Option<string>, answers: seq<D.LoadAnswer>,
                        ghost w: R.World, ghost live: map<nat, ClientSession>, ghost held: map<nat, ClientJob>)
      returns (code: Code, session: ClientSession?)
      requires R.WorldInv(w) && Represents(w, live, held)
      requires R.Possible(w, R.AllocCall(hasPointer, allocOk, file, answers))
      modifies this, env`f
      ensures code == R.SessionAlloc(w, hasPointer, allocOk, file, answers).code
      ensures session != null <==> code == Success
      ensures session != null ==> fresh(session)
      ensures Represents(R.Step(w, R.AllocCall(hasPointer, allocOk, file, answers)),
                         if session == null then live else live[w.next := session], held)
    {
      R.AllocChanges(w, R.AllocCall(hasPointer, allocOk, file, answers));
      ghost var after := R.SessionAlloc(w, hasPointer, allocOk, file, answers).w;
      code, session := AllocObject(hasPointer, allocOk, file, answers, w, after, live, held);
    }

    method AllocObject(hasPointer: bool, allocOk: bool, file: Option<string>, answers: seq<D.LoadAnswer>,
                       ghost w: R.World, ghost after: R.World,
                       ghost live: map<nat, ClientSession>, ghost held: map<nat, ClientJob>)
      returns (code: Code, session: ClientSession?)
      requires Represents(w, live, held) && (file.Some? ==> |answers| >= |Lines(file.value)|)
      requires after == R.SessionAlloc(w, hasPointer, allocOk, file, answers).w && after.jobs == w.jobs &&
               w.next !in w.live
      requires after.live == if R.SessionAlloc(w, hasPointer, allocOk, file, answers).code == Success
                             then w.live[w.next := NEW_SESSION] else w.live
      modifies this, env`f
      ensures code == R.SessionAlloc(w, hasPointer, allocOk, file, answers).code
      ensures session != null <==> code == Success
      ensures session != null ==> fresh(session)
      ensures Represents(after, if session == null then live else live[w.next := session], held)
    {
      session := null;
      code := AddSession(hasPointer, allocOk, file, answers, w);
      if code == Success {
        session := new ClientSession();
        SessionJoins(live, held, w, after, session);
      } else {
        ObjectsStay(live, held, w, after);
      }
    }

    /** The checks, loading for the first session, and counting. */
    method AddSession(
        hasPointer: bool, allocOk: bool, file: Option<string>, answers: seq<D.LoadAnswer>, ghost w: R.World)
      returns (code: Code)
      requires HoldsState(w) && (file.Some? ==> |answers| >= |Lines(file.value)|)
      modifies this, env`f
      ensures code == R.SessionAlloc(w, hasPointer, allocOk, file, answers).code
      ensures HoldsState(R.SessionAlloc(w, hasPointer, allocOk, file, answers).w)
    {
      if !hasPointer {
        return InvalidArgument;
      }
      if !allocOk {
        return OutOfMem;
      }
      if sessions == 0 {
        var status := InitializeDriver(file, answers, w);
        if status != Success {
          return status;
        }
      }
      sessions := sessions + 1;
      return Success;
    }

    /** `QDMI_session_init` */
    method SessionInit(session: ClientSession?, answers: seq<DeviceAnswer>,
                       ghost w: R.World, ghost s: nat,
                       ghost live: map<nat, ClientSession>, ghost held: map<nat, ClientJob>)
      returns (code: Code)
      requires Represents(w, live, held)
      requires session != null ==> s in live && live[s] == session && R.Possible(w, R.InitCall(s, answers))
      modifies session, env`f
      ensures session == null ==> code == InvalidArgument && Represents(w, live, held)
      ensures session != null ==>
                && code == R.SessionInit(w.f, w.configured, w.live[s], answers).code
                && Represents(R.Step(w, R.InitCall(s, answers)), live, held)
    {
      if session == null {
        return InvalidArgument;
      }
      code := InitSession(session, answers);
    }

    method InitSession(session: ClientSession, answers: seq<DeviceAnswer>) returns (code: Code)
      requires |configuredDevices| <= |answers|
      modifies session, env`f
      ensures session.deleted == old(session.deleted)
      ensures R.InitResult(env.f, session.View(), code) ==
              R.SessionInit(old(env.f), configuredDevices, old(session.View()), answers)
    {
      if session.status != Allocated {
        return BadState;
      }
      if session.token == None {
        return PermissionDenied;
      }
      session.mode := if session.token.value == [] then ReadOnly else ReadWrite;
      var devices: seq<Device> := [];
      for i := 0 to |configuredDevices|
        invariant |devices| == i
        invariant session.View() == old(session.View()).(mode := session.mode) &&
                  session.deleted == old(session.deleted)
        invariant session.mode == if session.token.value == [] then ReadOnly else ReadWrite
        invariant OpenAll(env.f, configuredDevices, answers, devices) ==
                  OpenAll(old(env.f), configuredDevices, answers, [])
      {
        var device := OpenOne(configuredDevices[i], answers[i], env);
        if device.Err? {
          FreeDevices(devices, env);
          return device.error;
        }
        devices := devices + [device.value];
      }
      session.deviceList := devices;
      session.status := Initialized;
      return Success;
    }

    /** `QDMI_session_free`: the session's devices first, then the libraries if it was the last session. */
    method SessionFree(session: ClientSession?,
                       ghost w: R.World, ghost s: nat,
                       ghost live: map<nat, ClientSession>, ghost held: map<nat, ClientJob>)
      requires Represents(w, live, held)
      requires session != null ==> s in live && live[s] == session && R.Possible(w, R.FreeCall(s))
      modifies this, env`f, session
      ensures session == null ==> Represents(w, live, held)
      ensures session != null ==> session.deleted && Represents(R.Step(w, R.FreeCall(s)), live - {s}, held)
    {
      if session == null {
        return;
      }
      FreeObject(session, w, R.SessionFree(w, s), s, live, held);
    }

    method FreeObject(session: ClientSession, ghost w: R.World, ghost after: R.World, ghost s: nat,
                      ghost live: map<nat, ClientSession>, ghost held: map<nat, ClientJob>)
      requires Represents(w, live, held) && s in live && live[s] == session && w.sessions > 0
      requires after == R.SessionFree(w, s) && forall j | j in w.jobs :: w.jobs[j].session != s
      modifies this, env`f, session
      ensures session.deleted && Represents(after, live - {s}, held)
    {
      DropSession(session.deviceList, w, s);
      session.deleted := true;
      SessionLeaves(live, held, w, after, s);
    }

    /** The session's devices, its count, and the libraries with the last one. */
    method DropSession(devices: seq<Device>, ghost w: R.World, ghost s: nat)
      requires HoldsState(w) && s in w.live && w.live[s].devices == devices && w.sessions > 0
      modifies this, env`f
      ensures sessions == w.sessions - 1
      ensures configuredDevices == if w.sessions == 1 then [] else w.configured
      ensures Shows(libraries, if w.sessions == 1 then [] else w.libraries)
      ensures var freed := DevicesFreed(w.f, devices);
              env.f == if w.sessions == 1 then D.LibrariesDestroyed(freed, w.libraries) else freed
    {
      FreeDevices(devices, env);
      sessions := sessions - 1;
      if sessions == 0 {
        DropLibraries(w.libraries);
      }
    }

    method DropLibraries(ghost views: seq<D.Lib>)
      requires Shows(libraries, views)
      modifies this, env`f
      ensures libraries == [] && configuredDevices == [] && sessions == old(sessions)
      ensures env.f == D.LibrariesDestroyed(old(env.f), views)
    {
      configuredDevices := [];
      DestroyAll(libraries, env, views);
      libraries := [];
    }

    /** `QDMI_session_set_parameter` */
    method SessionSetParameter(session: ClientSession?, param: R.SessionParameter, size: nat, value: Option<string>,
                               ghost w: R.World, ghost s: nat, ghost live: map<nat, ClientSession>,
                               ghost held: map<nat, ClientJob>)
      returns (code: Code)
      requires Represents(w, live, held) && (value.Some? ==> |value.value| == size)
      requires session != null ==> s in live && live[s] == session
      modifies session
      ensures session == null ==> code == InvalidArgument && Represents(w, live, held)
      ensures session != null ==>
                && code == R.SetParameter(w.live[s], param, size, value).code
                && Represents(R.Step(w, R.SetParameterCall(s, param, size, value)), live, held)
    {
      if session == null {
        return InvalidArgument;
      }
      code := SetSessionParameter(session, param, size, value);
    }

    method SetSessionParameter(session: ClientSession, param: R.SessionParameter, size: nat, value: Option<string>)
      returns (code: Code)
      requires value.Some? ==> |value.value| == size
      modifies session`token
      ensures R.SessionChange(session.View(), code) == R.SetParameter(old(session.View()), param, size, value)
    {
      if (value.Some? && size == 0) || param == R.InvalidParameter {
        return InvalidArgument;
      }
      if session.status != Allocated {
        return BadState;
      }
      if param != R.TokenParameter {
        return NotSupported;
      }
      if value.Some? {
        session.token := Some(value.value[..size - 1]);
      }
      return Success;
    }

    /** `QDMI_device_create_job` on device `k` of a session; no session stands for a null device. */
    method DeviceCreateJob(session: ClientSession?, k: nat, hasPointer: bool, allocOk: bool, a: R.JobAnswer,
                           ghost w: R.World, ghost s: nat, ghost live: map<nat, ClientSession>,
                           ghost held: map<nat, ClientJob>)
      returns (code: Code, job: ClientJob?)
      requires R.WorldInv(w) && Represents(w, live, held)
      requires session != null ==>
                 s in live && live[s] == session && R.Possible(w, R.CreateJobCall(s, k, hasPointer, allocOk, a))
      modifies env`f
      ensures session == null ==> code == InvalidArgument && job == null && Represents(w, live, held)
      ensures session != null ==>
                && code == R.CreateJob(w, s, k, hasPointer, allocOk, a).code
                && Represents(R.Step(w, R.CreateJobCall(s, k, hasPointer, allocOk, a)), live,
                              if job == null then held else held[w.next := job])
      ensures job != null <==> code == Success
      ensures job != null ==> fresh(job)
    {
      job := null;
      if session == null {
        return InvalidArgument, job;
      }
      R.NewHandlesAreFree(w);
      ghost var after := R.CreateJob(w, s, k, hasPointer, allocOk, a).w;
      code, job := CreateJobObject(session, k, hasPointer, allocOk, a, w, after, s, live, held);
    }

    method CreateJobObject(session: ClientSession, k: nat, hasPointer: bool, allocOk: bool, a: R.JobAnswer,
                           ghost w: R.World, ghost after: R.World, ghost s: nat,
                           ghost live: map<nat, ClientSession>, ghost held: map<nat, ClientJob>)
      returns (code: Code, job: ClientJob?)
      requires Represents(w, live, held) && w.next !in w.jobs && s in live && live[s] == session &&
               k < |session.deviceList|
      requires after == R.CreateJob(w, s, k, hasPointer, allocOk, a).w
      modifies env`f
      ensures code == R.CreateJob(w, s, k, hasPointer, allocOk, a).code
      ensures Represents(after, live, if job == null then held else held[w.next := job])
      ensures job != null <==> code == Success
      ensures job != null ==> fresh(job)
    {
      code, job := CreateJobOn(session, k, hasPointer, allocOk, a, w, s);
      if job != null {
        JobJoins(held, live, w, after, job, s);
      } else {
        ObjectsStay(live, held, w, after);
      }
    }

    method CreateJobOn(session: ClientSession, k: nat, hasPointer: bool, allocOk: bool, a: R.JobAnswer,
                       ghost w: R.World, ghost s: nat)
      returns (code: Code, job: ClientJob?)
      requires HoldsState(w) && s in w.live && w.live[s] == session.View() && k < |session.deviceList|
      modifies env`f
      ensures var r := R.CreateJob(w, s, k, hasPointer, allocOk, a);
              && code == r.code && HoldsState(r.w) && r.w.live == w.live
              && (job == null ==> r.w.jobs == w.jobs)
              && (job != null ==> r.w.jobs == w.jobs[w.next := R.ClientJob(s, k, job.deviceJob)])
      ensures job != null <==> code == Success
      ensures job != null ==> fresh(job) && !job.deleted && job.session == session && job.device == k
    {
      job := null;
      if !hasPointer {
        return InvalidArgument, job;
      }
      if session.mode != ReadWrite {
        return PermissionDenied, job;
      }
      if !allocOk {
        return OutOfMem, job;
      }
      var createdJob := new ClientJob(session, k);
      createdJob.deviceJob := CreateDeviceJob(session.deviceList[k], a);
      if a.code != Success {
        createdJob.deleted := true;
        return a.code, job;
      }
      return Success, createdJob;
    }

    /** The call of the library. */
    method CreateDeviceJob(d: Device, a: R.JobAnswer) returns (deviceJob: Option<nat>)
      modifies env`f
      ensures var used := D.DeviceSessionUsed(old(env.f), d.lib, d.session);
              && env.f == (if a.given then D.DeviceJobGiven(used, d.lib) else used)
              && deviceJob == if a.given then Some(used.next) else None
    {
      env.f := D.DeviceSessionUsed(env.f, d.lib, d.session);
      deviceJob := None;
      if a.given {
        deviceJob := Some(env.f.next);
        env.f := D.DeviceJobGiven(env.f, d.lib);
      }
    }

    /** `QDMI_job_free`: the device job is freed, then the object is deleted; a null handle changes nothing. */
    method JobFree(job: ClientJob?,
                   ghost w: R.World, ghost j: nat, ghost live: map<nat, ClientSession>, ghost held: map<nat, ClientJob>)
      requires Represents(w, live, held)
      requires job != null ==> j in held && held[j] == job && R.Possible(w, R.FreeJobCall(j))
      modifies env`f, job
      ensures job == null ==> Represents(w, live, held)
      ensures job != null ==> job.deleted && Represents(R.Step(w, R.FreeJobCall(j)), live, held - {j})
    {
      if job != null {
        assert job.session.View() == w.live[w.jobs[j].session];
        env.f := D.DeviceJobFree(env.f, job.session.deviceList[job.device].lib, job.deviceJob);
        job.deleted := true;
      }
    }
  }

  /** One round of the device loop of `QDMI_session_init`; on an error the device of the round is destroyed. */
  method OpenOne(c: D.Configured, a: DeviceAnswer, env: Environment) returns (device: Result<Device, Code>)
    modifies env`f
    ensures OpenResult(env.f, device) == OpenDevice(old(env.f), c, a)
  {
    if !a.makeOk {
      return Err(OutOfMem);
    }
    var d := Device(c.lib, c.id, None);
    if a.given {
      d := d.(session := Some(env.f.next));
      env.f := D.DeviceSessionGiven(env.f, d.lib);
    }
    if a.alloc != Success {
      FreeDevice(d, env);
      return Err(a.alloc);
    }
    env.f := D.DeviceSessionUsed(env.f, d.lib, d.session);
    if a.token != Success && a.token != NotSupported {
      FreeDevice(d, env);
      return Err(a.token);
    }
    env.f := D.DeviceSessionUsed(env.f, d.lib, d.session);
    if a.init != Success {
      FreeDevice(d, env);
      return Err(a.init);
    }
    if !a.growOk {
      FreeDevice(d, env);
      return Err(OutOfMem);
    }
    return Ok(d);
  }
}
