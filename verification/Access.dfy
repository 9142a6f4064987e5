/** What the devices of a session are, over every run of the driver: which library each of them uses, and who may
    create jobs. */
module Access {
  import opened Outcomes
  import opened Config
  import opened Driver
  import opened Sessions
  import opened DriverRuns

  // ----- every device uses the library its line names -----

  /** A configuration file and how the environment answered while it was loaded. */
  datatype Load = Load(file: string, answers: seq<LoadAnswer>)

  /** The load that is in force after a call: an allocation that finds no session and succeeds loads anew. */
  function NextLoad(w: World, c: Call, was: Option<Load>): Option<Load> {
    if c.AllocCall? && Possible(w, c) && w.sessions == 0 && c.file.Some? && Step(w, c).sessions > 0
    then Some(Load(c.file.value, c.loads))
    else was
  }

  /** The load that is in force after a run. */
  function LastLoad(w: World, calls: seq<Call>, was: Option<Load>): Option<Load>
    decreases |calls|
  {
    if calls == [] then was else LastLoad(Step(w, calls[0]), calls[1..], NextLoad(w, calls[0], was))
  }

  predicate ValidLoad(load: Load) {
    |load.answers| >= |Lines(load.file)|
  }

  /** While sessions live, the configuration is that of the load in force, if the loader answered by name. */
  predicate LoadInv(w: World, load: Option<Load>, loader: map<string, nat>) {
    w.sessions > 0 ==>
      && load.Some? && ValidLoad(load.value)
      && (Follows(Lines(load.value.file), load.value.answers, loader) ==> ConfiguredBy(w, load.value.file, loader))
  }

  /** Only the first allocation and the last free touch the configuration. */
  lemma OtherCallsKeepConfiguration(w: World, c: Call)
    requires WorldInv(w) && w.sessions > 0 && Step(w, c).sessions > 0
    ensures Step(w, c).configured == w.configured && Step(w, c).libraries == w.libraries
  {
    if Possible(w, c) {
      match c {
        case AllocCall(_, _, _, _) => AllocKeepsConfiguration(w, c);
        case SetParameterCall(_, _, _, _) =>
        case InitCall(_, _) =>
        case FreeCall(s) => FreeKeepsConfiguration(w, s);
        case CreateJobCall(_, _, _, _, _) => CreateJobKeepsConfiguration(w, c);
        case FreeJobCall(_) =>
      }
    }
  }

  lemma AllocKeepsConfiguration(w: World, c: Call)
    requires c.AllocCall? && Possible(w, c) && w.sessions > 0
    ensures Step(w, c).configured == w.configured && Step(w, c).libraries == w.libraries
  {
  }

  lemma FreeKeepsConfiguration(w: World, s: nat)
    requires s in w.live && w.sessions > 1
    ensures SessionFree(w, s).configured == w.configured && SessionFree(w, s).libraries == w.libraries
  {
  }

  lemma CreateJobKeepsConfiguration(w: World, c: Call)
    requires c.CreateJobCall? && Possible(w, c)
    ensures Step(w, c).configured == w.configured && Step(w, c).libraries == w.libraries
  {
  }

  lemma OnlyAllocOpens(w: World, c: Call)
    requires WorldInv(w) && w.sessions == 0 && Step(w, c).sessions > 0
    ensures c.AllocCall? && Possible(w, c) && c.file.Some? && c.hasPointer && c.allocOk
    ensures SessionAlloc(w, true, true, c.file, c.loads).code == Success
  {
  }

  lemma StepKeepsLoad(w: World, c: Call, was: Option<Load>, loader: map<string, nat>)
    requires WorldInv(w) && LoadInv(w, was, loader)
    ensures LoadInv(Step(w, c), NextLoad(w, c, was), loader)
  {
    if Step(w, c).sessions > 0 {
      if w.sessions > 0 {
        OtherCallsKeepConfiguration(w, c);
      } else {
        OnlyAllocOpens(w, c);
        FirstSessionLoadsFile(w, c.file.value, c.loads, loader);
      }
    }
  }

  lemma {:induction false} RunKeepsLoad(w: World, calls: seq<Call>, was: Option<Load>, loader: map<string, nat>)
    requires WorldInv(w) && LoadInv(w, was, loader)
    ensures LoadInv(Run(w, calls), LastLoad(w, calls, was), loader)
    decreases |calls|
  {
    if calls != [] {
      StepKeeps(w, calls[0]);
      StepKeepsLoad(w, calls[0], was, loader);
      RunKeepsLoad(Step(w, calls[0]), calls[1..], NextLoad(w, calls[0], was), loader);
    }
  }

  lemma LiveSessionsAreCounted(w: World, s: nat)
    requires LibrariesInv(w) && s in w.live
    ensures w.sessions > 0
  {
    assert s in w.live.Keys;
  }

  /** Device `k` of a session is entry `k` of the file: its id, on the library of its name and prefix. */
  predicate DevicesFollow(devices: seq<Device>, entries: seq<Entry>, loader: map<string, nat>)
    requires Resolves(entries, loader)
  {
    && |devices| == |entries|
    && forall k | 0 <= k < |devices| ::
         devices[k].id == entries[k].id && devices[k].lib == Lib(loader[entries[k].library], entries[k].prefix)
  }

  /** In every run, the devices of every initialized session are the entries of the file loaded last, in order,
      each on the library its line names; the loaded libraries are exactly those, one for each different handle and
      prefix. */
  lemma DevicesUseTheirLibraries(calls: seq<Call>, s: nat, loader: map<string, nat>)
    requires s in Run(START, calls).live && Run(START, calls).live[s].status == Initialized
    ensures var w, load := Run(START, calls), LastLoad(START, calls, None);
            && load.Some? && ValidLoad(load.value)
            && (Follows(Lines(load.value.file), load.value.answers, loader) ==>
                  && ConfiguredBy(w, load.value.file, loader)
                  && DevicesFollow(w.live[s].devices, ReadEntries(Lines(load.value.file), {}).value, loader))
  {
    var w := Run(START, calls);
    EveryRunIsBalanced(calls);
    RunKeepsLoad(START, calls, None, loader);
    LiveSessionsAreCounted(w, s);
    assert SessionInv(w.f, w.configured, w.live[s]);
  }

  // ----- the access rule -----

  /** A token decides the mode of an initialized session. */
  predicate TokenDecides(s: Session) {
    s.status == Initialized ==> s.token.Some? && (s.mode == ReadWrite <==> s.token.value != [])
  }

  predicate TokensDecide(live: map<nat, Session>) {
    forall s | s in live :: TokenDecides(live[s])
  }

  predicate MayCreateJobs(s: Session) {
    s.status == Initialized && s.mode == ReadWrite
  }

  predicate AccessInv(w: World) {
    && TokensDecide(w.live)
    && (forall j | j in w.jobs :: w.jobs[j].session in w.live && MayCreateJobs(w.live[w.jobs[j].session]))
  }

  lemma SetParameterKeepsTokens(s: Session, param: SessionParameter, size: nat, value: Option<string>)
    requires value.Some? ==> |value.value| == size
    requires TokenDecides(s)
    ensures TokenDecides(SetParameter(s, param, size, value).session)
  {
  }

  lemma InitKeepsTokens(w: World, c: Call)
    requires c.InitCall? && Possible(w, c) && TokenDecides(w.live[c.s])
    ensures TokenDecides(SessionInit(w.f, w.configured, w.live[c.s], c.opens).session)
  {
  }

  /** A session that lives on and was initialized is the same, so its jobs keep their right. */
  lemma JobsKeepRight(w: World, after: World)
    requires AccessInv(w) && WorldInv(after) && WorldLater(w, after)
    requires after.jobs == w.jobs
    ensures forall j | j in after.jobs ::
              after.jobs[j].session in after.live && MayCreateJobs(after.live[after.jobs[j].session])
  {
    forall j | j in after.jobs
      ensures after.jobs[j].session in after.live && MayCreateJobs(after.live[after.jobs[j].session])
    {
      assert ClientJobInv(after, after.jobs[j]);
    }
  }

  lemma AllocKeepsTokens(w: World, c: Call)
    requires c.AllocCall? && Possible(w, c) && TokensDecide(w.live)
    ensures TokensDecide(Step(w, c).live)
  {
    var after := Step(w, c);
    assert after.live == w.live || after.live == w.live[w.next := NEW_SESSION];
  }

  lemma SessionsKeepTokens(w: World, c: Call)
    requires TokensDecide(w.live)
    ensures TokensDecide(Step(w, c).live)
  {
    if Possible(w, c) {
      match c {
        case AllocCall(_, _, _, _) => AllocKeepsTokens(w, c);
        case SetParameterCall(s, param, size, value) => SetParameterKeepsTokens(w.live[s], param, size, value);
        case InitCall(_, _) => InitKeepsTokens(w, c);
        case FreeCall(s) => assert Step(w, c).live == w.live - {s};
        case CreateJobCall(_, _, _, _, _) => assert Step(w, c).live == w.live;
        case FreeJobCall(_) =>
      }
    }
  }

  lemma JobsAfterCreate(w: World, c: Call)
    requires c.CreateJobCall? && Possible(w, c)
    ensures Step(w, c).jobs == w.jobs ||
            (w.live[c.s].mode == ReadWrite && Step(w, c).jobs.Keys == w.jobs.Keys + {w.next} &&
             Step(w, c).jobs[w.next].session == c.s && forall j | j in w.jobs && j != w.next ::
               Step(w, c).jobs[j] == w.jobs[j])
  {
  }

  /** Only a session with devices has one to create a job on, so it is initialized. */
  lemma CreateJobNeedsRight(w: World, c: Call)
    requires WorldInv(w) && AccessInv(w) && c.CreateJobCall? && Possible(w, c)
    ensures forall j | j in Step(w, c).jobs ::
              Step(w, c).jobs[j].session in w.live && MayCreateJobs(w.live[Step(w, c).jobs[j].session])
  {
    assert SessionInv(w.f, w.configured, w.live[c.s]);
    JobsAfterCreate(w, c);
  }

  lemma StepKeepsAccess(w: World, c: Call)
    requires WorldInv(w) && AccessInv(w)
    ensures AccessInv(Step(w, c))
  {
    SessionsKeepTokens(w, c);
    StepKeeps(w, c);
    if !Possible(w, c) {
    } else if c.CreateJobCall? {
      CreateJobNeedsRight(w, c);
    } else if c.FreeJobCall? {
    } else {
      OtherCallsKeepJobs(w, c);
      JobsKeepRight(w, Step(w, c));
    }
  }

  lemma {:induction false} RunKeepsAccess(w: World, calls: seq<Call>)
    requires WorldInv(w) && AccessInv(w)
    ensures AccessInv(Run(w, calls))
    decreases |calls|
  {
    if calls != [] {
      StepKeeps(w, calls[0]);
      StepKeepsAccess(w, calls[0]);
      RunKeepsAccess(Step(w, calls[0]), calls[1..]);
    }
  }

  lemma ReadOnlyCreatesNothing(w: World, c: Call)
    requires WorldInv(w) && TokensDecide(w.live) && c.CreateJobCall? && Possible(w, c) && w.live[c.s].token == Some([])
    ensures Step(w, c) == w
  {
    assert SessionInv(w.f, w.configured, w.live[c.s]);
    assert TokenDecides(w.live[c.s]);
  }

  /** The access rule, over every run: an initialized session has a token, and may write exactly when the token is
      not empty; every client job belongs to an initialized session that may write. With an empty token, creating a
      job changes nothing. */
  lemma EveryRunObeysAccess(calls: seq<Call>, c: Call)
    ensures var w := Run(START, calls);
            && AccessInv(w)
            && (c.CreateJobCall? && Possible(w, c) && w.live[c.s].token == Some([]) ==> Step(w, c) == w)
  {
    RunKeepsAccess(START, calls);
    EveryRunIsBalanced(calls);
    var w := Run(START, calls);
    if c.CreateJobCall? && Possible(w, c) && w.live[c.s].token == Some([]) {
      ReadOnlyCreatesNothing(w, c);
    }
  }
}
