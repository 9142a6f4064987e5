/** The state of every job, and of the device they share, read off the calls alone. */
module History {
  import opened Outcomes
  import opened Results
  import opened StateVectors
  import opened ResultWriters
  import opened Jobs

  function Front(calls: seq<Call>): seq<Call>
    requires calls != []
  {
    calls[..|calls| - 1]
  }

  function Last(calls: seq<Call>): Call
    requires calls != []
  {
    calls[|calls| - 1]
  }

  // ----- what the calls say -----

  /** How many jobs were created. */
  function CreatedCount(calls: seq<Call>): nat {
    if calls == [] then 0 else CreatedCount(Front(calls)) + (if Last(calls) == CreateCall(true) then 1 else 0)
  }

  /** Handle `h` was handed out, as the number of jobs created before, and not freed since. */
  predicate Alive(calls: seq<Call>, h: nat) {
    calls != [] &&
    if Last(calls) == CreateCall(true) then Alive(Front(calls), h) || h == CreatedCount(Front(calls))
    else Alive(Front(calls), h) && Last(calls) != FreeCall(h)
  }

  /** A program as the formats demand it: text programs, of the formats 0 and 2, have their only NUL at the end. */
  predicate GoodProgram(format: int, program: Option<seq<byte>>) {
    match program
    case None => false
    case Some(p) =>
      |p| > 0 && (format == 0 || format == 2 ==> p[|p| - 1] == 0 && forall i | 0 <= i < |p| - 1 :: p[i] != 0)
  }

  /** A call that stores programs, if the job can still be changed. */
  predicate StoresPrograms(c: Call, h: nat) {
    && c.SetProgramsCall? && c.h == h && c.programs.Some? && c.hasSizes
    && c.count > 0 && |c.programs.value| == c.count && c.format in {0, 2, 3}
    && (c.memory == Enough || (c.memory.CopyFails? && c.memory.at >= c.count))
    && forall k | 0 <= k < c.count :: GoodProgram(c.format, c.programs.value[k])
  }

  /** Nothing has submitted or ended the live job yet. */
  predicate Open(calls: seq<Call>, h: nat)
    decreases |calls|, 2
  {
    Alive(calls, h) && FirstEnd(calls, h) == None && AcceptedSubmit(calls, h) == None
  }

  /** The last call that stored programs in the job. */
  function LastPrograms(calls: seq<Call>, h: nat): (c: Option<Call>)
    ensures c.Some? ==> StoresPrograms(c.value, h)
    decreases |calls|, 0
  {
    if calls == [] then None
    else if StoresPrograms(Last(calls), h) && Open(Front(calls), h) then Some(Last(calls))
    else LastPrograms(Front(calls), h)
  }

  function ProgramCount(calls: seq<Call>, h: nat): nat
    decreases |calls|, 1
  {
    match LastPrograms(calls, h)
    case None => 0
    case Some(c) => c.count
  }

  /** A call that sets the shot count, if the job can still be changed: a value of eight bytes. */
  predicate SetsShots(c: Call, h: nat) {
    c.SetParameterCall? && c.h == h && c.param == ShotsNum && c.psize == 8 && c.value.Some?
  }

  /** The shot count of the job: that of the last call that set it, or 0. */
  function ShotCount(calls: seq<Call>, h: nat): nat {
    if calls == [] then 0
    else if SetsShots(Last(calls), h) && Open(Front(calls), h) then Last(calls).value.value
    else ShotCount(Front(calls), h)
  }

  /** After `calls`, the call `c` submits job `h`: it can still be submitted, has programs, and no exception is
      thrown for one of them. */
  predicate Submitting(calls: seq<Call>, c: Call, h: nat)
    decreases |calls|, 3
  {
    && c.SubmitCall? && c.h == h && Open(calls, h)
    && 0 < ProgramCount(calls, h) <= |c.draws| && (forall k | 0 <= k < |c.draws| :: ValidDraw(c.draws[k]))
    && (c.fault.Some? ==> c.fault.value.at >= ProgramCount(calls, h) && c.fault.value.code in {OutOfMem, Fatal})
  }

  /** The call that submitted the job. */
  function AcceptedSubmit(calls: seq<Call>, h: nat): (c: Option<Call>)
    ensures c.Some? ==> c.value.SubmitCall?
    decreases |calls|, 0
  {
    if calls == [] then None
    else if Submitting(Front(calls), Last(calls), h) then Some(Last(calls))
    else AcceptedSubmit(Front(calls), h)
  }

  /** After `calls`, the call `c` would end job `h`: a cancel, a wait, or a check with a true bit of a job that was
      submitted. */
  predicate Ending(calls: seq<Call>, c: Call, h: nat)
    decreases |calls|, 1
  {
    Alive(calls, h) &&
    (c == CancelCall(h) || c == WaitCall(h) || (c == CheckCall(h, true) && AcceptedSubmit(calls, h).Some?))
  }

  /** The first call that ended the job. */
  function FirstEnd(calls: seq<Call>, h: nat): (c: Option<Call>)
    ensures c.Some? ==> c.value in {CancelCall(h), WaitCall(h), CheckCall(h, true)}
    decreases |calls|, 0
  {
    if calls == [] then None
    else if FirstEnd(Front(calls), h).Some? then FirstEnd(Front(calls), h)
    else if Ending(Front(calls), Last(calls), h) then Some(Last(calls))
    else None
  }

  /** A call that makes the device idle or takes it offline, whatever it was: initializing, finalizing, a cancel of
      a job that is not done, a wait or a finishing check of a job that has not ended. */
  predicate Quieting(calls: seq<Call>, c: Call) {
    match c
    case Initialize => true
    case Finalize => true
    case CancelCall(h) => Alive(calls, h) && FirstEnd(calls, h) in {None, Some(CancelCall(h))}
    case WaitCall(h) => Alive(calls, h) && FirstEnd(calls, h) == None
    case CheckCall(h, bit) => Alive(calls, h) && FirstEnd(calls, h) == None && bit && AcceptedSubmit(calls, h).Some?
    case _ => false
  }

  // ----- the state follows -----

  /** The status: the first call that ended the job decides; before, it is running from the submit on. */
  predicate StatusMatches(calls: seq<Call>, h: nat, status: Status) {
    match FirstEnd(calls, h)
    case Some(c) => status == if c == CancelCall(h) then Canceled else Done
    case None => status == if AcceptedSubmit(calls, h).Some? then Running else Created
  }

  predicate ProgramsMatch(calls: seq<Call>, h: nat, j: Job) {
    match LastPrograms(calls, h)
    case None => j.programs == [] && j.format == FORMAT_MAX
    case Some(c) =>
      && j.format == c.format && |j.programs| == c.count
      && forall k | 0 <= k < c.count :: c.programs.value[k] == Some(j.programs[k])
  }

  /** One result per program, its vector the amplitudes drawn for it, divided by their root. */
  predicate ResultsMatch(calls: seq<Call>, h: nat, j: Job) {
    match AcceptedSubmit(calls, h)
    case None => j.results == []
    case Some(c) =>
      && |j.results| == |j.programs| <= |c.draws|
      && forall i | 0 <= i < |j.results| ::
           c.draws[i].root > 0.0 && j.results[i].stateVec == Scaled(c.draws[i].raw, c.draws[i].root)
  }

  predicate JobMatches(calls: seq<Call>, h: nat, j: Job) {
    && StatusMatches(calls, h, j.status) && j.numShots == ShotCount(calls, h)
    && ProgramsMatch(calls, h, j) && ResultsMatch(calls, h, j)
  }

  predicate JobAgrees(calls: seq<Call>, h: nat, w: World) {
    (h in w.jobs <==> Alive(calls, h)) && (h in w.jobs ==> JobMatches(calls, h, w.jobs[h]))
  }

  lemma RunSnoc(w: World, calls: seq<Call>, c: Call)
    ensures Run(w, calls + [c]) == Step(Run(w, calls), c)
    decreases |calls|
  {
    if calls == [] {
      assert calls + [c] == [c] && [c][1..] == [];
      assert Run(w, [c]) == Run(Step(w, c), []);
    } else {
      assert (calls + [c])[1..] == calls[1..] + [c];
      RunSnoc(Step(w, calls[0]), calls[1..], c);
    }
  }

  lemma Unsnoc(calls: seq<Call>, c: Call)
    ensures Front(calls + [c]) == calls && Last(calls + [c]) == c
  {
  }

  /** A handle that has never been given out has no history. */
  lemma {:induction false} NoHistory(calls: seq<Call>, h: nat)
    requires h >= CreatedCount(calls)
    ensures !Alive(calls, h) && LastPrograms(calls, h) == None && ShotCount(calls, h) == 0
    ensures AcceptedSubmit(calls, h) == None && FirstEnd(calls, h) == None
    decreases |calls|
  {
    if calls != [] {
      NoHistory(Front(calls), h);
    }
  }

  /** A call that does not name the job leaves its history as it was. */
  lemma OtherCall(calls: seq<Call>, c: Call, h: nat)
    requires c.Initialize? || c.Finalize? || c.CreateCall? || c.h != h
    ensures LastPrograms(calls + [c], h) == LastPrograms(calls, h) && ShotCount(calls + [c], h) == ShotCount(calls, h)
    ensures AcceptedSubmit(calls + [c], h) == AcceptedSubmit(calls, h) && FirstEnd(calls + [c], h) == FirstEnd(calls, h)
  {
    Unsnoc(calls, c);
  }

  lemma OtherCallAlive(calls: seq<Call>, c: Call, h: nat)
    requires !c.CreateCall? && c != FreeCall(h)
    ensures Alive(calls + [c], h) <==> Alive(calls, h)
  {
    Unsnoc(calls, c);
  }

  lemma CreateAgrees(calls: seq<Call>, w: World, initialized: bool, h: nat)
    requires WorldInv(w) && w.next == CreatedCount(calls) && JobAgrees(calls, h, w)
    ensures JobAgrees(calls + [CreateCall(initialized)], h, Step(w, CreateCall(initialized)))
  {
    Unsnoc(calls, CreateCall(initialized));
    OtherCall(calls, CreateCall(initialized), h);
    if h == w.next {
      NoHistory(calls, h);
    }
  }

  lemma FreeAgrees(calls: seq<Call>, w: World, g: nat, h: nat)
    requires JobAgrees(calls, h, w)
    ensures JobAgrees(calls + [FreeCall(g)], h, Step(w, FreeCall(g)))
  {
    Unsnoc(calls, FreeCall(g));
  }

  lemma SetParameterAgrees(calls: seq<Call>, w: World, c: Call, h: nat)
    requires WorldInv(w) && JobAgrees(calls, h, w) && c.SetParameterCall? && c.h == h
    ensures JobAgrees(calls + [c], h, Step(w, c))
  {
    Unsnoc(calls, c);
    OtherCallAlive(calls, c, h);
  }

  lemma GoodIsValid(format: int, program: Option<seq<byte>>)
    requires format in {0, 2, 3}
    ensures GoodProgram(format, program) <==> ValidProgram(format, program)
  {
    if program.Some? && program.value != [] {
      var p := program.value;
      assert forall i | 0 <= i < |p| - 1 :: p[..|p| - 1][i] == p[i];
    }
  }

  lemma SetProgramsAgrees(calls: seq<Call>, w: World, c: Call, h: nat)
    requires WorldInv(w) && JobAgrees(calls, h, w) && c.SetProgramsCall? && c.h == h
    ensures JobAgrees(calls + [c], h, Step(w, c))
  {
    Unsnoc(calls, c);
    OtherCallAlive(calls, c, h);
    if h in w.jobs && Possible(w, c) {
      SetProgramsIsAtomic(w.jobs[h], c.format, c.count, c.hasSizes, c.programs, c.memory);
      StoresIff(w.jobs[h], c, h);
    }
  }

  /** Programs are stored exactly by the calls that say so. */
  lemma StoresIff(j: Job, c: Call, h: nat)
    requires c.SetProgramsCall? && c.h == h && (c.programs.Some? && c.hasSizes ==> |c.programs.value| == c.count)
    ensures j.status == Created && StoresPrograms(c, h) <==>
            SetPrograms(j, c.format, c.count, c.hasSizes, c.programs, c.memory).code == Success && c.programs.Some?
  {
    SetProgramsIsAtomic(j, c.format, c.count, c.hasSizes, c.programs, c.memory);
    if c.programs.Some? && SupportedFormat(c.format) {
      forall k | 0 <= k < |c.programs.value|
        ensures GoodProgram(c.format, c.programs.value[k]) <==> ValidProgram(c.format, c.programs.value[k])
      {
        GoodIsValid(c.format, c.programs.value[k]);
      }
    }
  }

  lemma SubmitHistory(calls: seq<Call>, c: Call, h: nat)
    requires c.SubmitCall?
    ensures AcceptedSubmit(calls + [c], h) == if Submitting(calls, c, h) then Some(c) else AcceptedSubmit(calls, h)
    ensures LastPrograms(calls + [c], h) == LastPrograms(calls, h) && ShotCount(calls + [c], h) == ShotCount(calls, h)
    ensures FirstEnd(calls + [c], h) == FirstEnd(calls, h) && (Alive(calls + [c], h) <==> Alive(calls, h))
  {
    Unsnoc(calls, c);
  }

  lemma EndHistory(calls: seq<Call>, c: Call, h: nat)
    requires c.CancelCall? || c.CheckCall? || c.WaitCall?
    ensures FirstEnd(calls + [c], h) ==
            if FirstEnd(calls, h) == None && Ending(calls, c, h) then Some(c) else FirstEnd(calls, h)
    ensures LastPrograms(calls + [c], h) == LastPrograms(calls, h) && ShotCount(calls + [c], h) == ShotCount(calls, h)
    ensures AcceptedSubmit(calls + [c], h) == AcceptedSubmit(calls, h) && (Alive(calls + [c], h) <==> Alive(calls, h))
  {
    Unsnoc(calls, c);
  }

  /** The guards of a submit, on the job and in the history. */
  lemma SubmittingIff(calls: seq<Call>, w: World, c: Call, h: nat)
    requires WorldInv(w) && JobAgrees(calls, h, w) && c.SubmitCall? && c.h == h && h in w.jobs
    ensures ProgramCount(calls, h) == |w.jobs[h].programs|
    ensures Submitting(calls, c, h) <==>
            && Possible(w, c) && w.jobs[h].status == Created && w.jobs[h].programs != []
            && (c.fault == None || c.fault.value.at >= |w.jobs[h].programs|)
  {
    ProgramsAreNotEmpty(w.jobs[h]);
  }

  lemma SubmitAgrees(calls: seq<Call>, w: World, c: Call, h: nat)
    requires WorldInv(w) && JobAgrees(calls, h, w) && c.SubmitCall? && c.h == h
    ensures JobAgrees(calls + [c], h, Step(w, c))
  {
    SubmitHistory(calls, c, h);
    if h in w.jobs {
      SubmittingIff(calls, w, c, h);
      var j := Step(w, c).jobs[h];
      if Submitting(calls, c, h) {
        assert j.results == ResultsOf(w.jobs[h], c.draws) && j.status == Running;
        forall i | 0 <= i < |j.results|
          ensures c.draws[i].root > 0.0 && j.results[i].stateVec == Scaled(c.draws[i].raw, c.draws[i].root)
        {
          assert ValidDraw(c.draws[i]) && j.results[i] == ResultOf(w.jobs[h], i, c.draws[i]);
        }
        assert ResultsMatch(calls + [c], h, j);
      } else {
        assert j == w.jobs[h];
      }
    }
  }

  lemma EndAgrees(calls: seq<Call>, w: World, c: Call, h: nat)
    requires WorldInv(w) && JobAgrees(calls, h, w) && (c.CancelCall? || c.CheckCall? || c.WaitCall?) && c.h == h
    ensures JobAgrees(calls + [c], h, Step(w, c))
  {
    EndHistory(calls, c, h);
    if h in w.jobs {
      var was, j := w.jobs[h], Step(w, c).jobs[h];
      assert j == was.(status := j.status);
      EndStatus(calls, w, c, h);
    }
  }

  lemma EndStatus(calls: seq<Call>, w: World, c: Call, h: nat)
    requires h in w.jobs && Alive(calls, h) && StatusMatches(calls, h, w.jobs[h].status)
    requires (c.CancelCall? || c.CheckCall? || c.WaitCall?) && c.h == h
    ensures StatusMatches(calls + [c], h, Step(w, c).jobs[h].status)
  {
    EndHistory(calls, c, h);
    var was := w.jobs[h].status;
    if FirstEnd(calls, h).Some? {
      assert was == Done || was == Canceled;
      assert Step(w, c).jobs[h].status == was;
    } else if c.CancelCall? {
      assert Step(w, c).jobs[h].status == Canceled;
    } else if c.WaitCall? {
      assert Step(w, c).jobs[h].status == Done;
    } else {
      assert Step(w, c).jobs[h].status == if was == Running && c.bit then Done else was;
    }
  }

  lemma OtherAgrees(calls: seq<Call>, w: World, c: Call, h: nat)
    requires WorldInv(w) && JobAgrees(calls, h, w) && !c.CreateCall? && !c.FreeCall?
    requires c.Initialize? || c.Finalize? || c.h != h
    ensures JobAgrees(calls + [c], h, Step(w, c))
  {
    OtherCall(calls, c, h);
    OtherCallAlive(calls, c, h);
  }

  lemma StepAgrees(calls: seq<Call>, w: World, c: Call, h: nat)
    requires WorldInv(w) && w.next == CreatedCount(calls) && JobAgrees(calls, h, w)
    ensures JobAgrees(calls + [c], h, Step(w, c))
  {
    if c.CreateCall? {
      CreateAgrees(calls, w, c.initialized, h);
    } else if c.FreeCall? {
      FreeAgrees(calls, w, c.h, h);
    } else if c.Initialize? || c.Finalize? || c.h != h {
      OtherAgrees(calls, w, c, h);
    } else if c.SetParameterCall? {
      SetParameterAgrees(calls, w, c, h);
    } else if c.SetProgramsCall? {
      SetProgramsAgrees(calls, w, c, h);
    } else if c.SubmitCall? {
      SubmitAgrees(calls, w, c, h);
    } else {
      EndAgrees(calls, w, c, h);
    }
  }

  // ----- over every run -----

  /** Submitting makes the device busy and the job running. */
  lemma SubmitIsBusy(calls: seq<Call>, w: World, c: Call)
    requires WorldInv(w) && c.SubmitCall? && JobAgrees(calls, c.h, w)
    ensures Submitting(calls, c, c.h) ==>
              && Step(w, c).device == Busy
              && c.h in Step(w, c).jobs && Step(w, c).jobs[c.h].status == Running
    ensures !Submitting(calls, c, c.h) ==> Step(w, c).device == w.device
  {
    if c.h in w.jobs {
      SubmittingIff(calls, w, c, c.h);
      if Possible(w, c) {
        var o := Submit(w.jobs[c.h], w.device, c.draws, c.fault);
        assert Step(w, c).device == o.device && Step(w, c).jobs[c.h] == o.job;
      }
    } else {
      assert !Submitting(calls, c, c.h);
    }
  }

  lemma DeviceStep(calls: seq<Call>, w: World, c: Call)
    requires WorldInv(w) && forall h: nat :: JobAgrees(calls, h, w)
    ensures Step(w, c).device ==
            if Quieting(calls, c) then (if c.Finalize? then Offline else Idle)
            else if c.SubmitCall? && Submitting(calls, c, c.h) then Busy
            else w.device
  {
    if !c.Initialize? && !c.Finalize? && !c.CreateCall? {
      assert JobAgrees(calls, c.h, w);
      if c.SubmitCall? {
        SubmitIsBusy(calls, w, c);
      }
    }
  }

  /** The status of the device: what the last call that touched it left. */
  function DeviceOf(calls: seq<Call>): DeviceStatus {
    if calls == [] then Offline
    else
      var front, c := Front(calls), Last(calls);
      if Quieting(front, c) then (if c.Finalize? then Offline else Idle)
      else if c.SubmitCall? && Submitting(front, c, c.h) then Busy
      else DeviceOf(front)
  }

  lemma NextCounts(w: World, calls: seq<Call>, c: Call)
    requires w.next == CreatedCount(calls)
    ensures Step(w, c).next == CreatedCount(calls + [c])
  {
    Unsnoc(calls, c);
  }

  lemma {:induction false} HistoryAgrees(calls: seq<Call>)
    ensures var w := Run(START, calls);
            && w.next == CreatedCount(calls) && w.device == DeviceOf(calls)
            && forall h: nat :: JobAgrees(calls, h, w)
    decreases |calls|
  {
    if calls != [] {
      var front, c := Front(calls), Last(calls);
      var w := Run(START, front);
      HistoryAgrees(front);
      EveryRunIsSafe(front);
      assert front + [c] == calls;
      RunSnoc(START, front, c);
      NextCounts(w, front, c);
      DeviceStep(front, w, c);
      forall h: nat ensures JobAgrees(calls, h, Step(w, c)) {
        StepAgrees(front, w, c, h);
      }
    }
  }

  /** The status, the shot count, the programs and the amplitudes of every job are what the calls say, over every
      run on any number of jobs: of all calls that can end a job the first decides, a cancel for CANCELED, a wait
      or a finishing check for DONE; before, a job is running exactly from its submit on. The shot count is that of
      the last call that set it in time. */
  lemma JobsFollowCalls(calls: seq<Call>, h: nat)
    ensures var w := Run(START, calls);
            && (h in w.jobs <==> Alive(calls, h))
            && (h in w.jobs ==>
                  && (w.jobs[h].status == Canceled <==> FirstEnd(calls, h) == Some(CancelCall(h)))
                  && (w.jobs[h].status == Done <==> FirstEnd(calls, h) in {Some(WaitCall(h)), Some(CheckCall(h, true))})
                  && (w.jobs[h].status == Running <==> FirstEnd(calls, h) == None && AcceptedSubmit(calls, h).Some?)
                  && (w.jobs[h].status == Created <==> FirstEnd(calls, h) == None && AcceptedSubmit(calls, h) == None)
                  && w.jobs[h].numShots == ShotCount(calls, h)
                  && ProgramsMatch(calls, h, w.jobs[h]) && ResultsMatch(calls, h, w.jobs[h]))
  {
    HistoryAgrees(calls);
    assert JobAgrees(calls, h, Run(START, calls));
  }

  /** What happened before place `k` is seen in any longer list of calls. */
  lemma EarlierCalls(calls: seq<Call>, k: nat)
    requires calls != [] && k < |calls|
    ensures forall m | 0 <= m < k :: calls[..m] == Front(calls)[..m] && calls[m] == Front(calls)[m]
    ensures calls[..|calls| - 1] == Front(calls) && calls[..k] == Front(calls)[..k]
  {
  }

  lemma EarlierEnds(calls: seq<Call>, h: nat, k: nat)
    requires calls != [] && k < |calls|
    ensures NoEndBefore(calls, h, k) <==> NoEndBefore(Front(calls), h, k)
  {
    EarlierCalls(calls, k);
    forall m | 0 <= m < k ensures Ending(calls[..m], calls[m], h) <==> Ending(Front(calls)[..m], Front(calls)[m], h) {
      assert calls[..m] == Front(calls)[..m] && calls[m] == Front(calls)[m];
    }
  }

  lemma {:induction false} NoEndIff(calls: seq<Call>, h: nat)
    ensures FirstEnd(calls, h) == None <==> NoEndBefore(calls, h, |calls|)
    decreases |calls|
  {
    if calls != [] {
      var n := |calls| - 1;
      NoEndIff(Front(calls), h);
      EarlierEnds(calls, h, n);
      EarlierCalls(calls, n);
      assert NoEndBefore(calls, h, |calls|) <==> NoEndBefore(calls, h, n) && !Ending(Front(calls), calls[n], h);
    }
  }

  /** The call at `k` ends the job, and none did before. */
  predicate EndsFirst(calls: seq<Call>, h: nat, k: nat)
    requires k < |calls|
  {
    Ending(calls[..k], calls[k], h) && NoEndBefore(calls, h, k)
  }

  lemma EndsFirstEarlier(calls: seq<Call>, h: nat, k: nat)
    requires calls != [] && k < |calls| - 1
    ensures EndsFirst(calls, h, k) <==> EndsFirst(Front(calls), h, k)
  {
    EarlierCalls(calls, k);
    EarlierEnds(calls, h, k);
  }

  /** `FirstEnd` is the first one: a call that ends the job, with none before it. */
  lemma {:induction false} FirstEndIsFirst(calls: seq<Call>, h: nat, c: Call)
    ensures FirstEnd(calls, h) == Some(c) <==> exists k :: 0 <= k < |calls| && EndsFirst(calls, h, k) && calls[k] == c
    ensures FirstEnd(calls, h) == None <==> NoEndBefore(calls, h, |calls|)
    decreases |calls|
  {
    NoEndIff(calls, h);
    if calls != [] {
      var front, n := Front(calls), |calls| - 1;
      FirstEndIsFirst(front, h, c);
      NoEndIff(front, h);
      EarlierEnds(calls, h, n);
      EarlierCalls(calls, n);
      assert EndsFirst(calls, h, n) <==> Ending(front, calls[n], h) && FirstEnd(front, h) == None;
      forall k | 0 <= k < n ensures EndsFirst(calls, h, k) <==> EndsFirst(front, h, k) {
        EndsFirstEarlier(calls, h, k);
      }
      if FirstEnd(front, h) == Some(c) {
        var k :| 0 <= k < |front| && EndsFirst(front, h, k) && front[k] == c;
        assert EndsFirst(calls, h, k) && calls[k] == c;
      }
      if k :| 0 <= k < |calls| && EndsFirst(calls, h, k) && calls[k] == c {
        if k < n {
          assert EndsFirst(front, h, k) && front[k] == c;
        }
      }
    }
  }

  predicate NoEndBefore(calls: seq<Call>, h: nat, k: nat)
    requires k <= |calls|
  {
    forall m | 0 <= m < k :: !Ending(calls[..m], calls[m], h)
  }

  /** The call at `k` is a submit that goes through, and the job runs then. */
  predicate SubmitsAt(calls: seq<Call>, k: nat)
    requires k < |calls|
  {
    calls[k].SubmitCall? && Submitting(calls[..k], calls[k], calls[k].h)
  }

  predicate QuietAt(calls: seq<Call>, k: nat)
    requires k < |calls|
  {
    Quieting(calls[..k], calls[k])
  }

  /** A submit went through at `k`, and no call since quieted the device. */
  predicate BusySince(calls: seq<Call>, k: nat)
    requires k < |calls|
  {
    SubmitsAt(calls, k) && forall m | k < m < |calls| :: !QuietAt(calls, m)
  }

  lemma BusySinceEarlier(calls: seq<Call>, k: nat)
    requires calls != [] && k < |calls| - 1
    ensures BusySince(calls, k) <==> BusySince(Front(calls), k) && !Quieting(Front(calls), Last(calls))
  {
    var front, n := Front(calls), |calls| - 1;
    EarlierCalls(calls, n);
    forall m | 0 <= m < n
      ensures (SubmitsAt(calls, m) <==> SubmitsAt(front, m)) && (QuietAt(calls, m) <==> QuietAt(front, m))
    {
      assert calls[..m] == front[..m] && calls[m] == front[m];
    }
    assert QuietAt(calls, n) <==> Quieting(front, Last(calls));
  }

  lemma {:induction false} BusyDevice(calls: seq<Call>)
    ensures DeviceOf(calls) == Busy <==> exists k :: 0 <= k < |calls| && BusySince(calls, k)
    decreases |calls|
  {
    if calls != [] {
      var front, n := Front(calls), |calls| - 1;
      BusyDevice(front);
      EarlierCalls(calls, n);
      assert BusySince(calls, n) <==> SubmitsAt(calls, n);
      forall k | 0 <= k < n ensures BusySince(calls, k) <==> BusySince(front, k) && !Quieting(front, Last(calls)) {
        BusySinceEarlier(calls, k);
      }
      if DeviceOf(calls) == Busy && !SubmitsAt(calls, n) {
        var k :| 0 <= k < n && BusySince(front, k);
        assert BusySince(calls, k);
      }
      if k :| 0 <= k < |calls| && BusySince(calls, k) {
        assert k < n ==> BusySince(front, k);
      }
    }
  }

  /** Exactly when the device is busy, over every run: some submit went through, and no call since made the device idle
      or took it offline. */
  lemma DeviceIsBusyIff(calls: seq<Call>)
    ensures Run(START, calls).device == Busy <==>
            exists k :: 0 <= k < |calls| && SubmitsAt(calls, k) && forall m | k < m < |calls| :: !QuietAt(calls, m)
  {
    HistoryAgrees(calls);
    BusyDevice(calls);
    if k :| 0 <= k < |calls| && BusySince(calls, k) {
      assert SubmitsAt(calls, k) && forall m | k < m < |calls| :: !QuietAt(calls, m);
    }
    if k :| 0 <= k < |calls| && SubmitsAt(calls, k) && forall m | k < m < |calls| :: !QuietAt(calls, m) {
      assert BusySince(calls, k);
    }
  }

  /** What a submit that goes through does, at its step of any run: the device is busy and the job running. */
  lemma SubmittedJobRuns(calls: seq<Call>, c: Call)
    requires c.SubmitCall? && Submitting(calls, c, c.h)
    ensures var w := Run(START, calls + [c]);
            w.device == Busy && c.h in w.jobs && w.jobs[c.h].status == Running
  {
    HistoryAgrees(calls);
    EveryRunIsSafe(calls);
    assert JobAgrees(calls, c.h, Run(START, calls));
    RunSnoc(START, calls, c);
    SubmitIsBusy(calls, Run(START, calls), c);
  }

  /** Checking a running job: with a true bit it is done, and reported so, and the device idle; with a false one
      nothing changes. */
  lemma CheckOfRunning(calls: seq<Call>, h: nat, bit: bool)
    requires h in Run(START, calls).jobs && Run(START, calls).jobs[h].status == Running
    ensures var w, after := Run(START, calls), Run(START, calls + [CheckCall(h, bit)]);
            && h in after.jobs && after.jobs[h].status == (if bit then Done else Running)
            && after.device == (if bit then Idle else w.device)
            && Check(w.jobs[h], w.device, bit).job.status == after.jobs[h].status
  {
    RunSnoc(START, calls, CheckCall(h, bit));
  }

  /** The shots of a submitted job: every result has as many as the last call in time asked for. */
  lemma ResultsHaveShotCount(calls: seq<Call>, h: nat, i: nat)
    requires h in Run(START, calls).jobs && i < |Run(START, calls).jobs[h].results|
    ensures |Run(START, calls).jobs[h].results[i].shots| == ShotCount(calls, h)
  {
    JobsFollowCalls(calls, h);
    EveryRunIsSafe(calls);
    ResultsAreWellFormed(Run(START, calls).jobs[h], i);
  }
}
