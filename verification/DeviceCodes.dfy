/** The return codes of the example device: for every call and every code, exactly when it is returned, and what a
    refused call leaves as it was. */
module DeviceCodes {
  import opened Outcomes
  import opened Results
  import opened StateVectors
  import opened ResultWriters
  import opened Jobs
  import opened History
  import opened Submitted

  /** A shot count is accepted, and stored, exactly for a job that is still created and a value of eight bytes;
      without a value the call only asks whether the parameter is supported. Everything else leaves the job as it
      was. */
  lemma ParameterCodes(j: Job, param: Parameter, size: nat, value: Option<nat>)
    ensures var c := SetParameter(j, param, size, value);
            && (c.code == Success <==> j.status == Created && param == ShotsNum && (value == None || size == 8))
            && (c.code == BadState <==>
                  j.status != Created && param in {ShotsNum, OtherParameter} && (value == None || size > 0))
            && (c.code == NotSupported <==>
                  j.status == Created && param == OtherParameter && (value == None || size > 0))
            && c.code in {Success, BadState, NotSupported, InvalidArgument}
            && (if c.code == Success && value.Some? then c.job == j.(numShots := value.value) else c.job == j)
  {
  }

  /** Programs are refused as an argument, by the status, by the format, at the first bad program or for memory, in
      this order. */
  lemma ProgramCodes(j: Job, c: Call, h: nat)
    requires c.SetProgramsCall? && c.h == h && (c.programs.Some? && c.hasSizes ==> |c.programs.value| == c.count)
    ensures var r := SetPrograms(j, c.format, c.count, c.hasSizes, c.programs, c.memory);
            var sound := c.count > 0 && (0 <= c.format < 10 || 999999995 <= c.format <= 999999999);
            var ready := c.count > 0 && j.status == Created && c.format in {0, 2, 3};
            && (r.code == Success <==> ready && (c.programs == None || StoresPrograms(c, h)))
            && (r.code == BadState <==> sound && j.status != Created)
            && (r.code == NotSupported <==> sound && j.status == Created && c.format !in {0, 2, 3})
            && (r.code == OutOfMem <==> ready && c.programs.Some? && c.hasSizes && NoMemory(c))
            && r.code in {Success, BadState, NotSupported, OutOfMem, InvalidArgument}
            && (r.code != Success ==> r.job == j)
  {
    StoresIff(j.(status := Created), c, h);
    SetProgramsIsAtomic(j, c.format, c.count, c.hasSizes, c.programs, c.memory);
    if c.programs.Some? && c.hasSizes && c.format in {0, 2, 3} {
      CopyCodes(c.format, c.programs.value, c.memory, 0);
    }
  }

  /** There is no memory for the list of programs, or for one of them, and all up to it are good. */
  predicate NoMemory(c: Call)
    requires c.SetProgramsCall? && c.programs.Some?
  {
    match c.memory
    case Enough => false
    case ReserveFails(tooLong) => !tooLong
    case CopyFails(at) => at < |c.programs.value| && forall k | 0 <= k <= at ::
      GoodProgram(c.format, c.programs.value[k])
  }

  /** Copying stops at the first program that is bad or for which there is no memory. */
  lemma {:induction false} CopyCodes(format: int, programs: seq<Option<seq<byte>>>, memory: Memory, i: nat)
    requires format in {0, 2, 3}
    ensures CopyError(format, programs, memory, i) in {None, Some(InvalidArgument), Some(OutOfMem)}
    ensures CopyError(format, programs, memory, i) == Some(OutOfMem) <==>
              memory.CopyFails? && i <= memory.at < |programs| &&
              forall k | i <= k <= memory.at :: GoodProgram(format, programs[k])
    decreases |programs| - i
  {
    if i < |programs| {
      CopyCodes(format, programs, memory, i + 1);
      GoodIsValid(format, programs[i]);
    }
  }

  lemma ReadCodes(j: Job, index: nat, size: nat, hasData: bool)
    ensures var r := GetProgram(j, index, size, hasData);
            && (r.code == BadState <==> |j.programs| == 0)
            && (r.code == OutOfRange <==> 0 < |j.programs| <= index)
            && (r.code == InvalidArgument <==> index < |j.programs| && hasData && size < |j.programs[index]|)
            && (r.code == Success <==> index < |j.programs| && (!hasData || |j.programs[index]| <= size))
            && (r.code != Success ==> r.sizeRet == None && r.written == [])
            && (r.code == Success ==> r.sizeRet == Some(|j.programs[index]|))
            && (r.code == Success ==> r.written == if hasData then j.programs[index] else [])
  {
  }

  /** A submit is refused once the job is no longer created, without programs, and when an exception is thrown for
      one of them; then the job and the device stay as they were. */
  lemma SubmitCodes(j: Job, device: DeviceStatus, draws: seq<Draw>, fault: Option<Fault>)
    requires Programmed(j) && |draws| >= |j.programs| && forall k | 0 <= k < |draws| :: ValidDraw(draws[k])
    requires fault.Some? ==> fault.value.code in {OutOfMem, Fatal}
    ensures var o := Submit(j, device, draws, fault);
            var thrown := fault.Some? && fault.value.at < |j.programs|;
            && (o.code == InvalidArgument <==> j.status != Created)
            && (o.code == BadState <==> j.status == Created && |j.programs| == 0)
            && (o.code in {OutOfMem, Fatal} <==> j.status == Created && thrown)
            && (j.status == Created && thrown ==> o.code == fault.value.code)
            && (o.code == Success <==> j.status == Created && |j.programs| > 0 && !thrown)
            && (o.code != Success ==> o.job == j && o.device == device)
  {
  }

  /** Only a job that is done cannot be canceled; waiting and checking always succeed. */
  lemma EndCodes(j: Job, device: DeviceStatus, bit: bool)
    ensures Cancel(j, device).code == if j.status == Done then InvalidArgument else Success
    ensures j.status == Done ==> Cancel(j, device).job == j && Cancel(j, device).device == device
    ensures Wait(j, device).code == Success && Check(j, device, bit).code == Success
  {
  }

  /** Reading a result: every code but the undefined answers. A buffer is refused when it is smaller than the size
      in `ByteSize`; a refused read writes nothing, and reports a size only for the histogram. */
  lemma ResultCodes(j: Job, i: nat, kind: Kind, size: nat, hasData: bool)
    requires JobInv(j)
    ensures var r := GetResults(j, i, kind, size, hasData);
            var refused := kind == InvalidKind || (hasData && size == 0);
            var small := hasData && i < |j.results| &&
              size < ByteSize(kind, j.numShots, |Support(j.results[i].stateVec)|);
            && (r.code == OutOfRange <==> !refused && i >= |j.programs|)
            && (r.code == BadState <==> !refused && i < |j.programs| && j.status != Done)
            && (r.code == NotSupported <==> !refused && i < |j.results| && j.status == Done && kind == CustomKind)
            && (r.code == InvalidArgument <==> refused || (i < |j.results| && j.status == Done && small))
            && (r.code != Success ==> r.written == [])
            && (r.code == InvalidArgument ==>
                  r.sizeRet == if refused || kind !in {HistKeys, HistValues} then None
                               else Some(ByteSize(kind, j.numShots, |Support(j.results[i].stateVec)|)))
  {
    if i < |j.results| {
      ResultsAreWellFormed(j, i);
      if Supported(kind) {
        ContentBytes(j, i, kind);
        QueryReportsSize(j.results[i], kind, size, QUBITS);
        RefusedReply(j.results[i], kind, size, QUBITS);
      }
    }
  }

  lemma RefusedReply(r: ResultData, kind: Kind, size: nat, n: nat)
    requires WellFormed(r, n) && Supported(kind) && ReportsSize(r, kind, size)
    ensures var reply, req := ResultReply(r, kind, size, true), |Content(r, kind)| * ElementSize(kind);
            && reply.code in {Success, InvalidArgument, Undefined}
            && (reply.code == InvalidArgument <==> size < req)
            && (reply.code != Success ==> reply.written == [])
            && (reply.code == InvalidArgument ==>
                 reply.sizeRet == if kind in {HistKeys, HistValues} then Some(req) else None)
  {
  }

  /** Without shots, the shot text and the histogram are empty: any buffer is accepted and left as it is. */
  lemma NoShots(j: Job, i: nat, kind: Kind, size: nat, hasData: bool)
    requires JobInv(j) && i < |j.results| && j.status == Done && j.numShots == 0 &&
             kind in {Shots, HistKeys, HistValues}
    requires hasData ==> size > 0
    ensures GetResults(j, i, kind, size, hasData) == Reply(Success, Some(0), [])
  {
    ResultsAreWellFormed(j, i);
    assert j.results[i].shots == [];
  }
}
