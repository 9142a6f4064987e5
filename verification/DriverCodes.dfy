/** The return codes of the example driver: for every call and every code, exactly when it is returned. */
module DriverCodes {
  import opened Outcomes
  import opened Config
  import opened Driver
  import opened Sessions
  import opened DriverRuns

  // ----- loading -----

  /** A library that is loaded already is only opened once more; a new one has to resolve, initialize and be listed. */
  lemma LoadCodes(f: Foreign, libs: seq<Lib>, prefix: string, a: LoadAnswer)
    ensures var r := LibraryLoad(f, libs, prefix, a).lib;
            var opens := a.makeOk && a.handle.Some?;
            var isNew := opens && Lib(a.handle.value, prefix) !in libs;
            && (r == Err(OutOfMem) <==> !a.makeOk || (isNew && a.symbolsOk && a.initOk && !a.growOk))
            && (r == Err(Fatal) <==> (a.makeOk && a.handle == None) || (isNew && !(a.symbolsOk && a.initOk)))
            && (r.Ok? <==> opens && (isNew ==> a.symbolsOk && a.initOk && a.growOk))
  {
  }

  /** A load that fails reports missing memory only where memory is missing, and a fatal error only for a line that
      is malformed or repeats an id, or for a library that does not open, resolve or initialize. */
  lemma {:induction false} FileCodes(
    f: Foreign, libs: seq<Lib>, configured: seq<Configured>, seen: set<string>, lines: seq<string>,
      answers: seq<LoadAnswer>)
    requires |answers| >= |lines|
    ensures var r := LoadLines(f, libs, configured, seen, lines, answers);
            && r.code in {Success, Fatal, OutOfMem}
            && (r.code == OutOfMem ==>
                  exists k :: 0 <= k < |lines| && !(answers[k].makeOk && answers[k].growOk && answers[k].pushOk))
            && (r.code == Fatal ==>
                  || ReadEntries(lines, seen) == None
                  || exists k ::
                    0 <= k < |lines| && !(answers[k].handle.Some? && answers[k].symbolsOk && answers[k].initOk))
    decreases |lines|
  {
    if lines != [] {
      match ReadLine(lines[0]) {
        case Skipped =>
          FileCodes(f, libs, configured, seen, lines[1..], answers[1..]);
          Tail(lines, answers);
        case Malformed =>
        case Parsed(e) =>
          LoadCodes(f, libs, e.prefix, answers[0]);
          var r := LibraryLoad(f, libs, e.prefix, answers[0]);
          if e.id !in seen && r.lib.Ok? && answers[0].pushOk {
            var more := configured + [Configured(r.lib.value, e.id)];
            FileCodes(r.f, r.libs, more, seen + {e.id}, lines[1..], answers[1..]);
            Tail(lines, answers);
          }
      }
    }
  }

  lemma Tail(lines: seq<string>, answers: seq<LoadAnswer>)
    requires lines != [] && |answers| >= |lines|
    ensures forall k | 0 <= k < |lines[1..]| :: answers[1..][k] == answers[k + 1]
  {
  }

  // ----- sessions -----

  /** An allocation needs a place for the handle and memory; the first one needs a file that loads, every other
      nothing more. A new session is allocated, without devices and token, and read-only. */
  lemma AllocCodes(w: World, hasPointer: bool, allocOk: bool, file: Option<string>, answers: seq<LoadAnswer>)
    requires file.Some? ==> |answers| >= |Lines(file.value)|
    ensures var code, after := SessionAlloc(w, hasPointer, allocOk, file, answers).code,
                               SessionAlloc(w, hasPointer, allocOk, file, answers).w;
            && (code == Success ==>
                 w.next in after.live && after.live[w.next] == Session(Allocated, [], None, ReadOnly))
            && (code == InvalidArgument <==> !hasPointer)
            && (hasPointer && !allocOk ==> code == OutOfMem)
            && (hasPointer && allocOk && w.sessions > 0 ==> code == Success)
            && (hasPointer && allocOk && w.sessions == 0 && file == None ==> code == Fatal)
            && code in {Success, InvalidArgument, Fatal, OutOfMem}
  {
    if file.Some? {
      FileCodes(w.f, [], [], {}, Lines(file.value), answers);
    }
  }

  /** A token is stored exactly for an allocated session, as the given text without its last character; without a
      value the call only asks whether the parameter is supported. Everything else leaves the session as it was. */
  lemma TokenCodes(s: Session, param: SessionParameter, size: nat, value: Option<string>)
    requires value.Some? ==> |value.value| == size
    ensures var c := SetParameter(s, param, size, value);
            && (c.code == Success <==> s.status == Allocated && param == TokenParameter && (value == None || size > 0))
            && (c.code == BadState <==>
                  s.status == Initialized && param in {TokenParameter, OtherParameter} && (value == None || size > 0))
            && (c.code == NotSupported <==>
                  s.status == Allocated && param == OtherParameter && (value == None || size > 0))
            && c.code in {Success, BadState, NotSupported, InvalidArgument}
            && (c.code != Success || value == None ==> c.session == s)
  {
  }

  /** Setting a token and reading it: exactly the text before the terminator. */
  lemma TokenRoundTrip(s: Session, token: string, terminator: char)
    requires s.status == Allocated
    ensures SetParameter(s, TokenParameter, |token| + 1, Some(token + [terminator])) ==
            SessionChange(s.(token := Some(token)), Success)
  {
    assert (token + [terminator])[..|token|] == token;
  }

  /** Opening one device ends with the code of the first step that fails; not supporting a token is no failure. */
  lemma OpenCodes(a: DeviceAnswer)
    ensures OpenError(a) == None <==>
            a.makeOk && a.alloc == Success && a.token in {Success, NotSupported} && a.init == Success && a.growOk
    ensures !a.makeOk ==> OpenError(a) == Some(OutOfMem)
    ensures a.makeOk && a.alloc != Success ==> OpenError(a) == Some(a.alloc)
    ensures a.makeOk && a.alloc == Success && a.token !in {Success, NotSupported} ==> OpenError(a) == Some(a.token)
    ensures a.makeOk && a.alloc == Success && a.token in {Success, NotSupported} && a.init != Success ==>
              OpenError(a) == Some(a.init)
    ensures a.makeOk && a.alloc == Success && a.token in {Success, NotSupported} && a.init == Success && !a.growOk ==>
              OpenError(a) == Some(OutOfMem)
  {
  }

  /** The device loop ends with the error of the first device that does not open. */
  lemma {:induction false} FirstFailureDecides(
    f: Foreign, base: Foreign, configured: seq<Configured>, answers: seq<DeviceAnswer>, devices: seq<Device>, k: nat)
    requires |devices| <= k < |configured| <= |answers| && Opened(configured, devices) && OpenInv(f, base, devices)
    requires forall s | s in base.sessions :: s < base.next
    requires forall i | 0 <= i < |configured| :: configured[i].lib in base.live
    requires OpenError(answers[k]).Some? && forall i | |devices| <= i < k :: OpenError(answers[i]) == None
    ensures OpenAll(f, configured, answers, devices).devices == Err(OpenError(answers[k]).value)
    decreases k - |devices|
  {
    var n := |devices|;
    var r := OpenDevice(f, configured[n], answers[n]);
    OpeningDevice(f, configured[n], answers[n]);
    if n < k {
      OpenStep(f, base, devices, configured[n], answers[n]);
      assert Opened(configured, devices + [r.device.value]);
      FirstFailureDecides(r.f, base, configured, answers, devices + [r.device.value], k);
    }
  }

  /** Initializing needs an allocated session, then a token; after that the first device that does not open decides
      the code. */
  lemma InitCodes(w: World, s: nat, answers: seq<DeviceAnswer>, k: nat)
    requires WorldInv(w) && s in w.live && |w.configured| <= |answers|
    ensures var r, was := SessionInit(w.f, w.configured, w.live[s], answers), w.live[s];
            && (was.status == Initialized ==> r.code == BadState)
            && (was.status == Allocated && was.token == None ==> r.code == PermissionDenied)
            && (was.status == Allocated && was.token.Some? && k < |w.configured| &&
                OpenError(answers[k]).Some? && (forall i | 0 <= i < k :: OpenError(answers[i]) == None) ==>
                  r.code == OpenError(answers[k]).value)
  {
    if k < |w.configured| && OpenError(answers[k]).Some? && forall i | 0 <= i < k :: OpenError(answers[i]) == None {
      assert Held([]) == {};
      forall i | 0 <= i < |w.configured| ensures w.configured[i].lib in w.f.live {
        assert w.configured[i].lib in w.libraries;
      }
      FirstFailureDecides(w.f, w.f, w.configured, answers, [], k);
    }
  }

  /** Creating a job: a place for the handle, the right to write and memory are asked for in this order, then the
      library decides. A job is created exactly on success, and holds what the library handed out. */
  lemma JobCodes(w: World, s: nat, k: nat, hasPointer: bool, allocOk: bool, a: JobAnswer)
    requires WorldInv(w) && s in w.live && k < |w.live[s].devices|
    ensures var r := CreateJob(w, s, k, hasPointer, allocOk, a);
            && (!hasPointer ==> r.code == InvalidArgument)
            && (hasPointer && w.live[s].mode == ReadOnly ==> r.code == PermissionDenied)
            && (hasPointer && w.live[s].mode == ReadWrite && !allocOk ==> r.code == OutOfMem)
            && (hasPointer && w.live[s].mode == ReadWrite && allocOk ==> r.code == a.code)
            && (hasPointer && w.live[s].mode == ReadWrite && allocOk && a.given ==>
                  w.f.next in r.w.f.jobs && r.w.f.jobs[w.f.next] == w.live[s].devices[k].lib)
            && (!hasPointer || w.live[s].mode == ReadOnly || !allocOk ==> r.w == w)
            && (r.code == Success ==>
                  && w.next !in w.jobs && w.next in r.w.jobs
                  && r.w.jobs[w.next] == ClientJob(s, k, if a.given then Some(w.f.next) else None))
  {
    NewHandlesAreFree(w);
  }

  // ----- the ledger sees misuse -----

  /** Every call out of order leaves the ledger faulty, and nothing mends it. */
  lemma MisuseIsSeen(f: Foreign, l: Lib, handle: nat, session: nat, job: nat)
    ensures handle !in f.opens ==> DlClose(f, handle).faulty
    ensures l in f.live || l.handle !in f.opens ==> DeviceInitialized(f, l).faulty
    ensures l !in f.live || l.handle !in f.opens ==> DeviceFinalize(f, l).faulty
    ensures session in f.sessions && f.sessions[session] == l ==> DeviceFinalize(f, l).faulty
    ensures l !in f.live ==>
            DeviceSessionGiven(f, l).faulty && DeviceSessionUsed(f, l, None).faulty && DeviceJobGiven(f, l).faulty
    ensures session !in f.sessions ==>
            DeviceSessionUsed(f, l, Some(session)).faulty && DeviceSessionFree(f, l, session).faulty
    ensures session in f.sessions && f.sessions[session] != l ==> DeviceSessionFree(f, l, session).faulty
    ensures job !in f.jobs || f.jobs[job] != l || l !in f.live ==> DeviceJobFree(f, l, Some(job)).faulty
    ensures f.faulty ==>
              && DlOpen(f, handle).faulty && DlClose(f, handle).faulty && DeviceInitialized(f, l).faulty
              && DeviceFinalize(f, l).faulty && DeviceSessionGiven(f, l).faulty &&
                   DeviceSessionFree(f, l, session).faulty
              && DeviceJobGiven(f, l).faulty && DeviceJobFree(f, l, Some(job)).faulty
  {
    if session in f.sessions && f.sessions[session] == l {
      assert HasSession(f, l);
    }
  }
}
