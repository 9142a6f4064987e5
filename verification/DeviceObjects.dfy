/** The example device as objects: jobs and the shared device state, updated in place by the functions of the job
    interface. Each method is proved against the state machine of module `Jobs`. */
module DeviceObjects {
  import opened Outcomes
  import opened Results
  import opened StateVectors
  import opened ResultWriters
  import opened Jobs

  /** `CXX_QDMI_Device_Job_impl_d` */
  class DeviceJob {
    var format: int
    var programs: seq<seq<byte>>
    var status: Status
    var numShots: nat
    var results: seq<ResultData>

    constructor ()
      ensures View() == NEW_JOB
    {
      format := FORMAT_MAX;
      programs := [];
      status := Created;
      numShots := 0;
      results := [];
    }

    function View(): Job
      reads this
    {
      Job(format, programs, status, numShots, results)
    }
  }

  /** The bytes behind a caller's program pointer. */
  function Pointed(p: array?<byte>, size: nat): (bytes: Option<seq<byte>>)
    requires p != null ==> size <= p.Length
    reads p
  {
    if p == null then None else Some(p[..size])
  }

  function PointedAll(programs: seq<array?<byte>>, sizes: seq<nat>): (all: seq<Option<seq<byte>>>)
    requires |sizes| == |programs|
    requires forall k | 0 <= k < |programs| :: programs[k] != null ==> sizes[k] <= programs[k].Length
    reads set k | 0 <= k < |programs| :: programs[k]
    ensures |all| == |programs| && forall k | 0 <= k < |all| :: all[k] == Pointed(programs[k], sizes[k])
  {
    if programs == [] then []
    else
      var last := |programs| - 1;
      PointedAll(programs[..last], sizes[..last]) + [Pointed(programs[last], sizes[last])]
  }

  /** The functions of the job interface, with the device state they share. */
  class Device {
    var status: DeviceStatus

    constructor ()
      ensures status == Offline
    {
      status := Offline;
    }

    method DeviceInitialize() returns (code: Code)
      modifies this
      ensures code == Success && status == Idle
    {
      status := Idle;
      return Success;
    }

    method DeviceFinalize() returns (code: Code)
      modifies this
      ensures code == Success && status == Offline
    {
      status := Offline;
      return Success;
    }

    /** `initialized` tells the status of the session, which must not be null. */
    method CreateDeviceJob(initialized: bool) returns (code: Code, job: DeviceJob?)
      ensures initialized ==> code == Success && job != null && fresh(job) && job.View() == NEW_JOB
      ensures !initialized ==> code == BadState && job == null
    {
      if !initialized {
        return BadState, null;
      }
      job := new DeviceJob();
      return Success, job;
    }

    method JobSetParameter(job: DeviceJob?, param: Parameter, size: nat, value: Option<nat>) returns (code: Code)
      modifies job
      ensures job == null ==> code == InvalidArgument
      ensures job != null ==> Change(job.View(), code) == SetParameter(old(job.View()), param, size, value)
    {
      if job == null || (value.Some? && size == 0) || param == InvalidParameter {
        return InvalidArgument;
      }
      if job.status != Created {
        return BadState;
      }
      match param {
        case ShotsNum =>
          if value.Some? {
            if size != WORD {
              return InvalidArgument;
            }
            job.numShots := value.value;
          }
          return Success;
        case _ =>
          return NotSupported;
      }
    }

    method JobSetPrograms(
        job: DeviceJob?, format: int, count: nat, sizes: Option<seq<nat>>, programs: Option<seq<array?<byte>>>,
        memory: Memory)
      returns (code: Code)
      requires sizes.Some? ==> |sizes.value| == count
      requires programs.Some? ==> |programs.value| == count
      requires programs.Some? && sizes.Some? ==>
                 forall k | 0 <= k < count :: programs.value[k] != null ==> sizes.value[k] <= programs.value[k].Length
      modifies job
      ensures job == null ==> code == InvalidArgument
      ensures job != null ==>
                Change(job.View(), code) ==
                SetPrograms(old(job.View()), format, count, sizes.Some?,
                            if programs == None then None
                            else if sizes == None then Some([])
                            else Some(PointedAll(programs.value, sizes.value)),
                            memory)
    {
      if job == null || count == 0 || !ValidFormat(format) {
        return InvalidArgument;
      }
      if job.status != Created {
        return BadState;
      }
      if !SupportedFormat(format) {
        return NotSupported;
      }
      if programs == None {
        return Success;
      }
      if sizes == None {
        return InvalidArgument;
      }
      if memory.ReserveFails? {
        return if memory.tooLong then InvalidArgument else OutOfMem;
      }
      ghost var all := PointedAll(programs.value, sizes.value);
      var newPrograms: seq<seq<byte>> := [];
      for i := 0 to count
        invariant |newPrograms| == i && forall k | 0 <= k < i :: Some(newPrograms[k]) == all[k]
        invariant CopyError(format, all, memory, 0) == CopyError(format, all, memory, i)
        invariant job.View() == old(job.View())
      {
        assert all[i] == Pointed(programs.value[i], sizes.value[i]);
        if !ValidProgram(format, Pointed(programs.value[i], sizes.value[i])) {
          return InvalidArgument;
        }
        if memory == CopyFails(i) {
          return OutOfMem;
        }
        newPrograms := newPrograms + [programs.value[i][..sizes.value[i]]];
      }
      CopySucceeds(format, all, memory, 0);
      assert newPrograms == Bytes(all);
      job.format := format;
      job.programs := newPrograms;
      return Success;
    }

    method JobGetProgram(
        job: DeviceJob?, index: nat, size: nat, data: array?<byte>) returns (code: Code, sizeRet: Option<nat>)
      requires data != null ==> data.Length == size
      modifies data
      ensures job == null ==> code == InvalidArgument && sizeRet == None
      ensures job != null ==>
                var reply := GetProgram(job.View(), index, size, data != null);
                && (code, sizeRet) == (reply.code, reply.sizeRet)
                && (data != null ==>
                     |reply.written| <= size && data[..] == reply.written + old(data[..])[|reply.written|..])
    {
      if job == null {
        return InvalidArgument, None;
      }
      if job.programs == [] {
        return BadState, None;
      }
      if index >= |job.programs| {
        return OutOfRange, None;
      }
      var program := job.programs[index];
      if data != null {
        if size < |program| {
          return InvalidArgument, None;
        }
        forall i | 0 <= i < |program| {
          data[i] := program[i];
        }
      }
      return Success, Some(|program|);
    }

    /** Reading every program of a job: ask for its size, then fill a buffer of that size. */
    method ReadPrograms(job: DeviceJob) returns (copies: seq<seq<byte>>)
      ensures copies == job.programs
    {
      copies := [];
      for i := 0 to |job.programs|
        invariant copies == job.programs[..i]
      {
        var code, size := JobGetProgram(job, i, 0, null);
        var copy := new byte[size.value](_ => 0);
        code, size := JobGetProgram(job, i, copy.Length, copy);
        assert copy[..] == job.programs[i];
        assert job.programs[..i + 1] == job.programs[..i] + [job.programs[i]];
        copies := copies + [copy[..]];
      }
    }

    /** The programs of a job are copies: whatever the caller does to all its buffers afterwards, every program is
        read back as the bytes its buffer held when the programs were set. */
    method SetOverwriteGet(job: DeviceJob, format: int, buffers: seq<array<byte>>, scratch: byte, memory: Memory)
      returns (code: Code, copies: seq<seq<byte>>)
      modifies job, buffers
      ensures code == Success ==>
                && |copies| == |buffers| > 0
                && (forall k | 0 <= k < |buffers| :: copies[k] == old(buffers[k][..]))
                && (forall k, i | 0 <= k < |buffers| && 0 <= i < buffers[k].Length :: buffers[k][i] == scratch)
      ensures code != Success ==>
              job.View() == old(job.View()) && forall k | 0 <= k < |buffers| :: buffers[k][..] == old(buffers[k][..])
    {
      var sizes := seq(|buffers|, k requires 0 <= k < |buffers| reads buffers => buffers[k].Length);
      ghost var all := PointedAll(buffers, sizes);
      code := JobSetPrograms(job, format, |buffers|, Some(sizes), Some(buffers), memory);
      SetProgramsIsAtomic(old(job.View()), format, |buffers|, true, Some(all), memory);
      if code != Success {
        return code, [];
      }
      assert forall k | 0 <= k < |buffers| :: job.programs[k] == old(buffers[k][..]);
      Overwrite(buffers, scratch);
      copies := ReadPrograms(job);
    }

    method Overwrite(buffers: seq<array<byte>>, scratch: byte)
      modifies buffers
      ensures forall k, i | 0 <= k < |buffers| && 0 <= i < buffers[k].Length :: buffers[k][i] == scratch
    {
      for n := 0 to |buffers|
        invariant forall k, i | 0 <= k < n && 0 <= i < buffers[k].Length :: buffers[k][i] == scratch
      {
        forall i | 0 <= i < buffers[n].Length {
          buffers[n][i] := scratch;
        }
      }
    }

    /** The sum of the squared moduli. */
    method SquaredNorm(raw: seq<Complex>) returns (norm: real)
      ensures norm == Total(Probabilities(raw))
    {
      norm := 0.0;
      for i := 0 to |raw|
        invariant norm == Total(Probabilities(raw[..i]))
      {
        norm := norm + Norm(raw[i]);
        assert raw[..i + 1][..i] == raw[..i];
        ghost var p := Probabilities(raw[..i + 1]);
        assert p == Probabilities(raw[..i]) + [Norm(raw[i])];
        assert p[..i] == Probabilities(raw[..i]);
      }
      assert raw[..|raw|] == raw;
    }

    /** The state vector of one program: add up the squared moduli, then divide by their root. */
    method Normalized(d: Draw) returns (stateVec: seq<Complex>)
      requires ValidDraw(d)
      ensures stateVec == Scaled(d.raw, d.root)
    {
      var norm := SquaredNorm(d.raw);
      assert norm == Times(d.root, d.root);
      stateVec := [];
      for i := 0 to |d.raw|
        invariant stateVec == Scaled(d.raw, d.root)[..i]
      {
        stateVec := stateVec + [Complex(d.raw[i].re / d.root, d.raw[i].im / d.root)];
      }
    }

    /** The output index of one program. */
    method OutputIndex(format: int, program: seq<byte>, several: bool) returns (outputIndex: nat)
      requires program != []
      ensures outputIndex < |OUTPUTS|
      ensures seq(QUBITS - |OUTPUTS[outputIndex]|, _ => '0') + OUTPUTS[outputIndex] ==
              ShotText(format, program, several)
    {
      outputIndex := 0;
      if several {
        var marker := program[|program| - (if format != QIR_BASE_MODULE && |program| > 1 then 2 else 1)];
        outputIndex := marker % |OUTPUTS|;
      }
      OutputLengths();
    }

    lemma OutputLengths()
      ensures forall o | 0 <= o < |OUTPUTS| :: |OUTPUTS[o]| == 2
    {
    }

    /** The program loop of `submit`, filling a local list of results. */
    method RunPrograms(
        job: DeviceJob, draws: seq<Draw>, fault: Option<Fault>) returns (results: seq<ResultData>,
        error: Option<Code>)
      requires Programmed(job.View()) && |draws| >= |job.programs|
      requires forall k | 0 <= k < |draws| :: ValidDraw(draws[k])
      ensures error == if fault.Some? && fault.value.at < |job.programs| then Some(fault.value.code) else None
      ensures error == None ==> results == ResultsOf(job.View(), draws)
    {
      results := [];
      ghost var all := ResultsOf(job.View(), draws);
      for i := 0 to |job.programs|
        invariant results == all[..i]
        invariant fault.Some? ==> i <= fault.value.at || fault.value.at >= |job.programs|
      {
        if fault.Some? && fault.value.at == i {
          return results, Some(fault.value.code);
        }
        var result := RunProgram(job, i, draws[i]);
        assert all[i] == result;
        assert all[..i + 1] == all[..i] + [all[i]];
        results := results + [result];
      }
      return results, None;
    }

    /** One round of the program loop. */
    method RunProgram(job: DeviceJob, i: nat, d: Draw) returns (result: ResultData)
      requires i < |job.programs| && job.programs[i] != [] && ValidDraw(d)
      ensures result == ResultOf(job.View(), i, d)
    {
      var outputIndex := OutputIndex(job.format, job.programs[i], |job.programs| > 1);
      var shot := seq(QUBITS - |OUTPUTS[outputIndex]|, _ => '0') + OUTPUTS[outputIndex];
      var stateVec := Normalized(d);
      result := ResultData(Repeated(shot, job.numShots), stateVec);
    }

    method JobSubmit(job: DeviceJob?, draws: seq<Draw>, fault: Option<Fault>) returns (code: Code)
      requires job != null ==> JobInv(job.View()) && |draws| >= |job.programs|
      requires forall k | 0 <= k < |draws| :: ValidDraw(draws[k])
      modifies this, job
      ensures job == null ==> code == InvalidArgument && status == old(status)
      ensures job != null ==>
                Programmed(old(job.View())) &&
                Outcome(job.View(), status, code) == Submit(old(job.View()), old(status), draws, fault)
    {
      if job == null {
        return InvalidArgument;
      }
      ProgramsAreNotEmpty(job.View());
      if job.status != Created {
        return InvalidArgument;
      }
      if job.programs == [] {
        return BadState;
      }
      var results, error := RunPrograms(job, draws, fault);
      if error.Some? {
        return error.value;
      }
      job.results := results;
      status := Busy;
      job.status := Running;
      return Success;
    }

    method JobCancel(job: DeviceJob?) returns (code: Code)
      modifies this, job
      ensures job == null ==> code == InvalidArgument && status == old(status)
      ensures job != null ==> Outcome(job.View(), status, code) == Cancel(old(job.View()), old(status))
    {
      if job == null || job.status == Done {
        return InvalidArgument;
      }
      job.status := Canceled;
      status := Idle;
      return Success;
    }

    /** `bit` is the random bit drawn when the job is running; a null pointer for the status is passed as
        `hasStatus == false`. */
    method JobCheck(job: DeviceJob?, hasStatus: bool, bit: bool) returns (code: Code, reported: Option<Status>)
      modifies this, job
      ensures job == null || !hasStatus ==> code == InvalidArgument && reported == None && status == old(status)
      ensures job != null && !hasStatus ==> job.View() == old(job.View())
      ensures job != null && hasStatus ==>
                Outcome(job.View(), status, code) == Check(old(job.View()), old(status), bit) &&
                  reported == Some(job.status)
    {
      if job == null || !hasStatus {
        return InvalidArgument, None;
      }
      if job.status == Running && bit {
        status := Idle;
        job.status := Done;
      }
      return Success, Some(job.status);
    }

    method JobWait(job: DeviceJob?) returns (code: Code)
      modifies this, job
      ensures job == null ==> code == InvalidArgument && status == old(status)
      ensures job != null ==> Outcome(job.View(), status, code) == Wait(old(job.View()), old(status))
    {
      if job == null {
        return InvalidArgument;
      }
      if job.status == Done || job.status == Canceled || job.status == Failed {
        return Success;
      }
      job.status := Done;
      status := Idle;
      return Success;
    }

    /** `data` is null or a buffer of `size` bytes, seen as elements of the kind asked for. */
    method JobGetResults(
        job: DeviceJob?, index: nat, kind: Kind, size: nat, data: array?<Cell>) returns (code: Code,
        sizeRet: Option<nat>)
      requires job != null ==> JobInv(job.View())
      requires data != null ==> data.Length == size / ElementSize(kind)
      modifies data
      ensures job == null ==> code == InvalidArgument && (data != null ==> data[..] == old(data[..]))
      ensures job != null ==>
                var reply := GetResults(job.View(), index, kind, size, data != null);
                && code == reply.code
                && (code != Undefined ==> sizeRet == reply.sizeRet)
                && (code != Undefined && data != null ==>
                      |reply.written| <= data.Length && data[..] == Patched(old(data[..]), reply.written))
    {
      if job == null || (data != null && size == 0) || kind == InvalidKind {
        return InvalidArgument, None;
      }
      if index >= |job.programs| {
        return OutOfRange, None;
      }
      if job.status != Done {
        return BadState, None;
      }
      if index >= |job.results| {
        return Undefined, None;
      }
      var programResult := job.results[index];
      assert ResultInv(job.View(), index);
      ResultsAreWellFormed(job.View(), index);
      match kind {
        case Shots => code, sizeRet := GetResultsShots(programResult, size, data);
        case HistKeys => code, sizeRet := GetResultsHist(programResult, kind, size, data);
        case HistValues => code, sizeRet := GetResultsHist(programResult, kind, size, data);
        case StateDense => code, sizeRet := GetResultsStatevector(programResult, size, data);
        case StateSparseKeys => code, sizeRet := GetResultsSparse(programResult, kind, size, data);
        case StateSparseValues => code, sizeRet := GetResultsSparse(programResult, kind, size, data);
        case ProbabilitiesSparseKeys => code, sizeRet := GetResultsSparse(programResult, kind, size, data);
        case ProbabilitiesSparseValues => code, sizeRet := GetResultsSparse(programResult, kind, size, data);
        case ProbabilitiesDense => code, sizeRet := GetResultsProbabilities(programResult, size, data);
        case _ => return NotSupported, None;
      }
    }
  }
}
