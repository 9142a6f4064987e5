/** The example driver as a state machine on values: sessions, device libraries and the foreign calls it makes. */
module Driver {
  import opened Outcomes
  import opened Config

  // ----- the foreign side -----

  /** A loaded device library: a handle of the dynamic loader and the prefix of its symbols. */
  datatype Lib = Lib(handle: nat, prefix: string)

  /** The ledger of foreign calls: open handles with their open counts, successful initializations not yet
      finalized, device sessions and device jobs handed out and not yet freed. A call out of order makes it faulty
      for good. */
  datatype Foreign = Foreign(
    opens: multiset<nat>,
    live: multiset<Lib>,
    sessions: map<nat, Lib>,
    jobs: map<nat, Lib>,
    next: nat,
    faulty: bool)

  const CLEAN := Foreign(multiset{}, multiset{}, map[], map[], 0, false)

  function DlOpen(f: Foreign, handle: nat): Foreign {
    f.(opens := f.opens + multiset{handle})
  }

  function DlClose(f: Foreign, handle: nat): Foreign {
    f.(opens := f.opens - multiset{handle}, faulty := f.faulty || handle !in f.opens)
  }

  /** A successful `device_initialize`; a second one before finalizing is a fault. */
  function DeviceInitialized(f: Foreign, l: Lib): Foreign {
    f.(live := f.live + multiset{l}, faulty := f.faulty || l in f.live || l.handle !in f.opens)
  }

  /** `device_finalize`; a fault when the library is not initialized or a device session of it is still open. */
  function DeviceFinalize(f: Foreign, l: Lib): Foreign {
    f.(live := f.live - multiset{l},
       faulty := f.faulty || l !in f.live || l.handle !in f.opens || HasSession(f, l))
  }

  predicate HasSession(f: Foreign, l: Lib) {
    exists s | s in f.sessions :: f.sessions[s] == l
  }

  /** `device_session_alloc` hands out a new device session. */
  function DeviceSessionGiven(f: Foreign, l: Lib): Foreign {
    f.(sessions := f.sessions[f.next := l], next := f.next + 1, faulty := f.faulty || l !in f.live)
  }

  /** Any other call on a device session. */
  function DeviceSessionUsed(f: Foreign, l: Lib, session: Option<nat>): Foreign {
    f.(faulty := f.faulty || l !in f.live || (session.Some? && session.value !in f.sessions))
  }

  function DeviceSessionFree(f: Foreign, l: Lib, session: nat): Foreign {
    f.(sessions := f.sessions - {session},
       faulty := f.faulty || l !in f.live || session !in f.sessions || f.sessions[session] != l)
  }

  function DeviceJobGiven(f: Foreign, l: Lib): Foreign {
    f.(jobs := f.jobs[f.next := l], next := f.next + 1, faulty := f.faulty || l !in f.live)
  }

  function DeviceJobFree(f: Foreign, l: Lib, job: Option<nat>): Foreign {
    f.(jobs := if job.Some? then f.jobs - {job.value} else f.jobs,
       faulty := f.faulty || l !in f.live || (job.Some? && (job.value !in f.jobs || f.jobs[job.value] != l)))
  }

  // ----- loading the libraries -----

  /** How the environment answers while one configuration line is loaded. */
  datatype LoadAnswer = LoadAnswer(
    makeOk: bool,            // memory for the library object
    handle: Option<nat>,     // `dlopen`
    symbolsOk: bool,         // every required symbol resolves
    initOk: bool,            // `device_initialize` succeeds
    growOk: bool,            // the list of libraries can grow
    pushOk: bool)            // the list of configured devices can grow

  datatype LoadResult = LoadResult(f: Foreign, libs: seq<Lib>, lib: Result<Lib, Code>)

  function LibraryLoad(f: Foreign, libs: seq<Lib>, prefix: string, a: LoadAnswer): LoadResult {
    if !a.makeOk then LoadResult(f, libs, Err(OutOfMem))
    else if a.handle == None then LoadResult(f, libs, Err(Fatal))
    else
      var lib := Lib(a.handle.value, prefix);
      var held := DlOpen(f, lib.handle);
      if lib in libs then LoadResult(DlClose(held, lib.handle), libs, Ok(lib)) else LoadNew(held, libs, lib, a)
  }

  /** The rest for a library that is open and not loaded yet. */
  function LoadNew(held: Foreign, libs: seq<Lib>, lib: Lib, a: LoadAnswer): LoadResult {
    if !a.symbolsOk || !a.initOk then LoadResult(DlClose(held, lib.handle), libs, Err(Fatal))
    else
      var ready := DeviceInitialized(held, lib);
      if !a.growOk then LoadResult(LibraryDestroyed(ready, lib), libs, Err(OutOfMem))
      else LoadResult(ready, libs + [lib], Ok(lib))
  }

  /** The destructor of a loaded library. */
  function LibraryDestroyed(f: Foreign, l: Lib): Foreign {
    DlClose(DeviceFinalize(f, l), l.handle)
  }

  function LibrariesDestroyed(f: Foreign, libs: seq<Lib>): Foreign
    decreases |libs|
  {
    if libs == [] then f else LibrariesDestroyed(LibraryDestroyed(f, libs[0]), libs[1..])
  }

  datatype Configured = Configured(lib: Lib, id: string)

  datatype DriverLoad = DriverLoad(f: Foreign, libs: seq<Lib>, configured: seq<Configured>, code: Code)

  /** The line loop, from the given state on. */
  function LoadLines(
      f: Foreign, libs: seq<Lib>, configured: seq<Configured>, seen: set<string>, lines: seq<string>,
      answers: seq<LoadAnswer>): DriverLoad
    requires |answers| >= |lines|
    decreases |lines|
  {
    if lines == [] then DriverLoad(f, libs, configured, Success)
    else match ReadLine(lines[0])
      case Skipped => LoadLines(f, libs, configured, seen, lines[1..], answers[1..])
      case Malformed => DriverLoad(f, libs, configured, Fatal)
      case Parsed(e) =>
        if e.id in seen then DriverLoad(f, libs, configured, Fatal)
        else
          var r := LibraryLoad(f, libs, e.prefix, answers[0]);
          if r.lib.Err? then DriverLoad(r.f, r.libs, configured, r.lib.error)
          else if !answers[0].pushOk then DriverLoad(r.f, r.libs, configured, OutOfMem)
          else LoadLines(r.f, r.libs, configured + [Configured(r.lib.value, e.id)], seen + {e.id}, lines[1..],
            answers[1..])
  }

  /** What leaving the loop does: on any failure the local list of libraries is destroyed. */
  function Finished(r: DriverLoad): DriverLoad {
    if r.code == Success then r else DriverLoad(LibrariesDestroyed(r.f, r.libs), [], [], r.code)
  }

  /** Loading the whole file. */
  function InitializeDriver(f: Foreign, file: Option<string>, answers: seq<LoadAnswer>): DriverLoad
    requires file.Some? ==> |answers| >= |Lines(file.value)|
  {
    if file == None then DriverLoad(f, [], [], Fatal)
    else Finished(LoadLines(f, [], [], {}, Lines(file.value), answers))
  }

  // ----- the ledger while libraries are loaded -----

  function Handles(libs: seq<Lib>): multiset<nat> {
    if libs == [] then multiset{} else multiset{libs[0].handle} + Handles(libs[1..])
  }

  predicate Distinct(libs: seq<Lib>) {
    forall i, j | 0 <= i < j < |libs| :: libs[i] != libs[j]
  }

  /** Each handle is open once for every loaded library using it, and each loaded library is initialized exactly
      once. */
  predicate Balanced(f: Foreign, libs: seq<Lib>) {
    && !f.faulty
    && f.opens == Handles(libs)
    && f.live == multiset(libs)
    && Distinct(libs)
  }

  lemma {:induction false} HandlesAppend(libs: seq<Lib>, l: Lib)
    ensures Handles(libs + [l]) == Handles(libs) + multiset{l.handle}
  {
    if libs == [] {
      assert libs + [l] == [l];
    } else {
      HandlesAppend(libs[1..], l);
      assert (libs + [l])[1..] == libs[1..] + [l];
    }
  }

  /** Opening and closing again leaves the ledger as it was. */
  lemma OpenThenClose(f: Foreign, handle: nat)
    ensures DlClose(DlOpen(f, handle), handle) == f
  {
    assert f.opens + multiset{handle} - multiset{handle} == f.opens;
  }

  /** A library that is not loaded yet joins the balance. */
  lemma LoadedJoins(f: Foreign, libs: seq<Lib>, l: Lib)
    requires Balanced(f, libs) && l !in libs
    ensures Balanced(DeviceInitialized(DlOpen(f, l.handle), l), libs + [l])
  {
    HandlesAppend(libs, l);
    assert l !in multiset(libs);
  }

  /** The first library leaves the balance when it is destroyed. */
  lemma DestroyedLeaves(f: Foreign, libs: seq<Lib>)
    requires libs != [] && Balanced(f, libs) && !HasSession(f, libs[0])
    ensures Balanced(LibraryDestroyed(f, libs[0]), libs[1..])
    ensures LibraryDestroyed(f, libs[0]) == f.(opens := Handles(libs[1..]), live := multiset(libs[1..]))
  {
    FirstLeaves(libs);
    assert libs[0] in f.live && libs[0].handle in f.opens;
  }

  lemma FirstLeaves(libs: seq<Lib>)
    requires libs != []
    ensures multiset(libs) - multiset{libs[0]} == multiset(libs[1..])
    ensures Handles(libs) - multiset{libs[0].handle} == Handles(libs[1..])
    ensures libs[0] in multiset(libs) && libs[0].handle in Handles(libs)
  {
    MultisetByHead(libs);
    assert multiset(libs) - multiset{libs[0]} == multiset(libs[1..]);
  }

  lemma MultisetByHead(libs: seq<Lib>)
    requires libs != []
    ensures multiset(libs) == multiset{libs[0]} + multiset(libs[1..])
  {
    assert libs == [libs[0]] + libs[1..];
  }

  /** Loading and destroying at once leaves the ledger as it was. */
  lemma LoadThenDestroy(f: Foreign, libs: seq<Lib>, l: Lib)
    requires Balanced(f, libs) && l !in libs && !HasSession(f, l)
    ensures LibraryDestroyed(DeviceInitialized(DlOpen(f, l.handle), l), l) == f
  {
    assert l !in multiset(libs);
    assert f.live + multiset{l} - multiset{l} == f.live;
    assert f.opens + multiset{l.handle} - multiset{l.handle} == f.opens;
  }

  lemma LibraryLoadBalances(f: Foreign, libs: seq<Lib>, prefix: string, a: LoadAnswer)
    requires Balanced(f, libs) && f.sessions == map[]
    ensures var r := LibraryLoad(f, libs, prefix, a);
            && Balanced(r.f, r.libs) && libs <= r.libs && (r.lib.Ok? ==> r.lib.value in r.libs)
            && r.f == f.(opens := r.f.opens, live := r.f.live)
            && (r.lib.Err? ==> r.f == f && r.libs == libs && r.lib.error != Success)
            && (r.lib.Ok? ==> a.handle.Some? && r.lib.value == Lib(a.handle.value, prefix))
            && (r.lib.Ok? ==> r.libs == if r.lib.value in libs then libs else libs + [r.lib.value])
  {
    if a.makeOk && a.handle.Some? {
      var lib := Lib(a.handle.value, prefix);
      var r := LibraryLoad(f, libs, prefix, a);
      OpenThenClose(f, lib.handle);
      if lib in libs {
        assert r == LoadResult(f, libs, Ok(lib));
      } else if !a.symbolsOk || !a.initOk {
        assert r == LoadResult(f, libs, Err(Fatal));
      } else if !a.growOk {
        LoadThenDestroy(f, libs, lib);
        assert r == LoadResult(f, libs, Err(OutOfMem));
      } else {
        LoadedJoins(f, libs, lib);
        assert r == LoadResult(DeviceInitialized(DlOpen(f, lib.handle), lib), libs + [lib], Ok(lib));
        LoadedKeepsRest(f, lib);
      }
    }
  }

  lemma LoadedKeepsRest(f: Foreign, l: Lib)
    requires !f.faulty && l !in f.live
    ensures var g := DeviceInitialized(DlOpen(f, l.handle), l);
            g == f.(opens := g.opens, live := g.live)
  {
  }

  lemma {:induction false} DestroyingBalances(f: Foreign, libs: seq<Lib>)
    requires Balanced(f, libs) && f.sessions == map[]
    ensures LibrariesDestroyed(f, libs) == f.(opens := multiset{}, live := multiset{})
    decreases |libs|
  {
    if libs != [] {
      DestroyedLeaves(f, libs);
      DestroyingBalances(LibraryDestroyed(f, libs[0]), libs[1..]);
    }
  }

  predicate ConfiguredInv(configured: seq<Configured>, libs: seq<Lib>) {
    && (forall i | 0 <= i < |configured| :: configured[i].lib in libs)
    && forall i, j | 0 <= i < j < |configured| :: configured[i].id != configured[j].id
  }

  function ConfiguredIds(configured: seq<Configured>): (ids: set<string>) {
    set i | 0 <= i < |configured| :: configured[i].id
  }

  lemma ConfiguredGrows(configured: seq<Configured>, libs: seq<Lib>, more: seq<Lib>, c: Configured)
    requires ConfiguredInv(configured, libs) && libs <= more && c.lib in more && c.id !in ConfiguredIds(configured)
    ensures ConfiguredInv(configured + [c], more)
    ensures ConfiguredInv(configured, more)
  {
    var all := configured + [c];
    assert forall i | 0 <= i < |configured| :: configured[i].id in ConfiguredIds(configured);
    forall i | 0 <= i < |configured| ensures configured[i].lib in more {
      var k :| 0 <= k < |libs| && libs[k] == configured[i].lib;
      assert more[k] == libs[k];
    }
    assert forall i | 0 <= i < |all| :: all[i] == if i < |configured| then configured[i] else c;
  }

  /** What the line loop keeps. */
  predicate LoadInv(f: Foreign, base: Foreign, libs: seq<Lib>, configured: seq<Configured>) {
    && Balanced(f, libs) && base.sessions == map[] && ConfiguredInv(configured, libs)
    && f == base.(opens := f.opens, live := f.live)
  }

  lemma LoadStep(f: Foreign, base: Foreign, libs: seq<Lib>, configured: seq<Configured>, e: Entry, a: LoadAnswer)
    requires LoadInv(f, base, libs, configured) && e.id !in ConfiguredIds(configured)
    ensures var r := LibraryLoad(f, libs, e.prefix, a);
            && LoadInv(r.f, base, r.libs, configured)
            && (r.lib.Ok? ==> LoadInv(r.f, base, r.libs, configured + [Configured(r.lib.value, e.id)]))
  {
    var r := LibraryLoad(f, libs, e.prefix, a);
    LibraryLoadBalances(f, libs, e.prefix, a);
    if r.lib.Ok? {
      ConfiguredGrows(configured, libs, r.libs, Configured(r.lib.value, e.id));
    }
  }

  /** Whatever the environment answers, the ledger stays balanced against the libraries loaded so far. */
  lemma {:induction false} LoadLinesBalances(
      f: Foreign, base: Foreign, libs: seq<Lib>, configured: seq<Configured>, lines: seq<string>,
      answers: seq<LoadAnswer>)
    requires |answers| >= |lines| && LoadInv(f, base, libs, configured)
    ensures var r := LoadLines(f, libs, configured, ConfiguredIds(configured), lines, answers);
            LoadInv(r.f, base, r.libs, r.configured)
    decreases |lines|
  {
    if lines != [] {
      match ReadLine(lines[0]) {
        case Skipped => LoadLinesBalances(f, base, libs, configured, lines[1..], answers[1..]);
        case Malformed =>
        case Parsed(e) =>
          if e.id !in ConfiguredIds(configured) {
            var r := LibraryLoad(f, libs, e.prefix, answers[0]);
            LoadStep(f, base, libs, configured, e, answers[0]);
            if r.lib.Ok? && answers[0].pushOk {
              var c := Configured(r.lib.value, e.id);
              ConfiguredIdsAppend(configured, c);
              LoadLinesBalances(r.f, base, r.libs, configured + [c], lines[1..], answers[1..]);
            }
          }
      }
    }
  }

  lemma ConfiguredIdsAppend(configured: seq<Configured>, c: Configured)
    ensures ConfiguredIds(configured + [c]) == ConfiguredIds(configured) + {c.id}
  {
    var more := configured + [c];
    assert forall i | 0 <= i < |configured| :: more[i] == configured[i];
    assert more[|configured|] == c;
  }

  /** Loading is transactional: on failure, at whatever line and for whatever reason, every library opened is
      finalized and closed again and the ledger is as before; on success it accounts exactly for the libraries
      returned. */
  lemma LoadingIsTransactional(f: Foreign, file: Option<string>, answers: seq<LoadAnswer>)
    requires file.Some? ==> |answers| >= |Lines(file.value)|
    requires Balanced(f, []) && f.sessions == map[]
    ensures var r := InitializeDriver(f, file, answers);
            && (r.code != Success ==> r.f == f && r.libs == [] && r.configured == [])
            && (r.code == Success ==> Balanced(r.f, r.libs) && ConfiguredInv(r.configured, r.libs))
            && r.f == f.(opens := r.f.opens, live := r.f.live)
  {
    if file.Some? {
      var r := LoadLines(f, [], [], {}, Lines(file.value), answers);
      assert ConfiguredIds([]) == {};
      LoadLinesBalances(f, f, [], [], Lines(file.value), answers);
      DestroyingBalances(r.f, r.libs);
    }
  }

  /** An environment in which nothing fails. */
  predicate Well(a: LoadAnswer) {
    a.makeOk && a.handle.Some? && a.symbolsOk && a.initOk && a.growOk && a.pushOk
  }

  predicate AllWell(answers: seq<LoadAnswer>) {
    forall k | 0 <= k < |answers| :: Well(answers[k])
  }

  lemma LibraryLoadCodes(f: Foreign, libs: seq<Lib>, prefix: string, a: LoadAnswer)
    ensures LibraryLoad(f, libs, prefix, a).lib.Err? ==> LibraryLoad(f, libs, prefix, a).lib.error != Success
    ensures Well(a) ==> LibraryLoad(f, libs, prefix, a).lib.Ok?
  {
  }

  lemma IdsAppend(configured: seq<Configured>, lib: Lib, e: Entry, rest: seq<Entry>)
    ensures Ids(configured + [Configured(lib, e.id)]) + EntryIds(rest) == Ids(configured) + EntryIds([e] + rest)
  {
  }

  function Ids(configured: seq<Configured>): (ids: seq<string>)
    ensures |ids| == |configured| && forall i | 0 <= i < |ids| :: ids[i] == configured[i].id
  {
    seq(|configured|, i requires 0 <= i < |configured| => configured[i].id)
  }

  function EntryIds(entries: seq<Entry>): (ids: seq<string>)
    ensures |ids| == |entries| && forall i | 0 <= i < |ids| :: ids[i] == entries[i].id
  {
    seq(|entries|, i requires 0 <= i < |entries| => entries[i].id)
  }

  /** The load can only succeed on a file that reads; it then exposes the ids of the file in order. In an
      environment that never fails it succeeds on every file that reads. */
  lemma {:induction false} LoadFollowsFile(
      f: Foreign, libs: seq<Lib>, configured: seq<Configured>, seen: set<string>, lines: seq<string>,
      answers: seq<LoadAnswer>)
    requires |answers| >= |lines|
    ensures var r := LoadLines(f, libs, configured, seen, lines, answers);
            var entries := ReadEntries(lines, seen);
            && (r.code == Success ==> entries.Some? && Ids(r.configured) == Ids(configured) + EntryIds(entries.value))
            && (AllWell(answers) ==> (r.code == Success <==> entries.Some?))
    decreases |lines|
  {
    if lines != [] {
      match ReadLine(lines[0]) {
        case Skipped => LoadFollowsFile(f, libs, configured, seen, lines[1..], answers[1..]);
        case Malformed =>
        case Parsed(e) =>
          if e.id !in seen {
            var r := LibraryLoad(f, libs, e.prefix, answers[0]);
            LibraryLoadCodes(f, libs, e.prefix, answers[0]);
            assert AllWell(answers) ==> Well(answers[0]) && AllWell(answers[1..]);
            if r.lib.Ok? && answers[0].pushOk {
              LoadFollowsFile(r.f, r.libs, configured + [Configured(r.lib.value, e.id)], seen + {e.id}, lines[1..],
                answers[1..]);
              var rest := ReadEntries(lines[1..], seen + {e.id});
              if rest.Some? {
                IdsAppend(configured, r.lib.value, e, rest.value);
              }
            }
          }
      }
    }
  }

  // ----- which library a configured device gets -----

  /** The loader answers by the name of the library: while a load goes on, one name always has one handle. */
  predicate Follows(lines: seq<string>, answers: seq<LoadAnswer>, loader: map<string, nat>)
    requires |answers| >= |lines|
  {
    forall k | 0 <= k < |lines| && ReadLine(lines[k]).Parsed? && answers[k].handle.Some? ::
      var name := ReadLine(lines[k]).entry.library;
      name in loader && loader[name] == answers[k].handle.value
  }

  lemma FollowsTail(lines: seq<string>, answers: seq<LoadAnswer>, loader: map<string, nat>)
    requires lines != [] && |answers| >= |lines| && Follows(lines, answers, loader)
    ensures Follows(lines[1..], answers[1..], loader)
  {
    forall k | 0 <= k < |lines[1..]| ensures lines[1..][k] == lines[k + 1] && answers[1..][k] == answers[k + 1] {
    }
  }

  predicate Resolves(entries: seq<Entry>, loader: map<string, nat>) {
    forall k | 0 <= k < |entries| :: entries[k].library in loader
  }

  function BoundDevice(e: Entry, loader: map<string, nat>): Configured
    requires e.library in loader
  {
    Configured(Lib(loader[e.library], e.prefix), e.id)
  }

  /** Each entry with the library it names: the handle of its name, with its prefix. */
  function Bound(entries: seq<Entry>, loader: map<string, nat>): (configured: seq<Configured>)
    requires Resolves(entries, loader)
    ensures |configured| == |entries|
    ensures forall k | 0 <= k < |configured| :: configured[k] == BoundDevice(entries[k], loader)
  {
    seq(|entries|, k requires 0 <= k < |entries| => BoundDevice(entries[k], loader))
  }

  lemma BoundCons(e: Entry, rest: seq<Entry>, loader: map<string, nat>)
    requires e.library in loader && Resolves(rest, loader)
    ensures Resolves([e] + rest, loader) && Bound([e] + rest, loader) == [BoundDevice(e, loader)] + Bound(rest, loader)
  {
  }

  /** The libraries that configured devices point at. */
  function Used(configured: seq<Configured>): (used: set<Lib>) {
    set k | 0 <= k < |configured| :: configured[k].lib
  }

  function LibSet(libs: seq<Lib>): (s: set<Lib>) {
    set k | 0 <= k < |libs| :: libs[k]
  }

  lemma UsedAppend(configured: seq<Configured>, c: Configured)
    ensures Used(configured + [c]) == Used(configured) + {c.lib}
  {
    var more := configured + [c];
    assert forall k | 0 <= k < |configured| :: more[k] == configured[k];
    assert more[|configured|] == c;
  }

  lemma LibSetAppend(libs: seq<Lib>, l: Lib)
    ensures LibSet(libs + [l]) == LibSet(libs) + {l}
  {
    var more := libs + [l];
    assert forall k | 0 <= k < |libs| :: more[k] == libs[k];
    assert more[|libs|] == l;
  }

  lemma LoadedLibrary(f: Foreign, libs: seq<Lib>, prefix: string, a: LoadAnswer)
    ensures var r := LibraryLoad(f, libs, prefix, a);
            r.lib.Ok? ==>
              && a.handle.Some? && r.lib.value == Lib(a.handle.value, prefix)
              && LibSet(r.libs) == LibSet(libs) + {r.lib.value}
  {
    var r := LibraryLoad(f, libs, prefix, a);
    if r.lib.Ok? {
      LibSetAppend(libs, r.lib.value);
    }
  }

  /** A load that succeeds gives every entry of the file, in order, the library of its own name and prefix, and
      loads nothing that no device points at. */
  lemma {:induction false} LoadBindsLibraries(
    f: Foreign, libs: seq<Lib>, configured: seq<Configured>, seen: set<string>,
    lines: seq<string>, answers: seq<LoadAnswer>, loader: map<string, nat>)
    requires |answers| >= |lines| && Follows(lines, answers, loader) && LibSet(libs) == Used(configured)
    ensures var r, entries := LoadLines(f, libs, configured, seen, lines, answers), ReadEntries(lines, seen);
            r.code == Success ==>
              && entries.Some? && Resolves(entries.value, loader)
              && r.configured == configured + Bound(entries.value, loader)
              && LibSet(r.libs) == Used(r.configured)
    decreases |lines|
  {
    if lines != [] {
      FollowsTail(lines, answers, loader);
      match ReadLine(lines[0]) {
        case Skipped => LoadBindsLibraries(f, libs, configured, seen, lines[1..], answers[1..], loader);
        case Malformed =>
        case Parsed(e) =>
          var r := LibraryLoad(f, libs, e.prefix, answers[0]);
          LibraryLoadCodes(f, libs, e.prefix, answers[0]);
          LoadedLibrary(f, libs, e.prefix, answers[0]);
          if e.id !in seen && r.lib.Ok? && answers[0].pushOk {
            var c := Configured(r.lib.value, e.id);
            UsedAppend(configured, c);
            assert c == BoundDevice(e, loader);
            LoadBindsLibraries(r.f, r.libs, configured + [c], seen + {e.id}, lines[1..], answers[1..], loader);
            BindingStep(configured, e, ReadEntries(lines[1..], seen + {e.id}), loader);
          }
      }
    }
  }

  lemma BindingStep(configured: seq<Configured>, e: Entry, rest: Option<seq<Entry>>, loader: map<string, nat>)
    requires e.library in loader
    ensures rest.Some? && Resolves(rest.value, loader) ==>
              && Resolves([e] + rest.value, loader)
              && configured + [BoundDevice(e, loader)] + Bound(rest.value, loader) ==
                   configured + Bound([e] + rest.value, loader)
  {
    if rest.Some? && Resolves(rest.value, loader) {
      BoundCons(e, rest.value, loader);
    }
  }

  /** Different libraries only: as many as there are different ones. */
  lemma {:induction false} DistinctCount(libs: seq<Lib>)
    requires Distinct(libs)
    ensures |libs| == |LibSet(libs)|
  {
    if libs != [] {
      var front, last := libs[..|libs| - 1], libs[|libs| - 1];
      DistinctCount(front);
      LibSetAppend(front, last);
      assert front + [last] == libs;
      assert last !in LibSet(front);
    }
  }
}
