/** The jobs of the example device as a state machine on values: what each call does, and what every run keeps. */
module Jobs {
  import opened Outcomes
  import opened Results
  import opened StateVectors
  import opened ResultWriters

  type byte = x: int | 0 <= x < 256

  datatype Status = Created | Submitted | Queued | Running | Done | Canceled | Failed

  datatype DeviceStatus = Offline | Idle | Busy | Error | Maintenance | Calibration

  const QASM2 := 0
  const QIR_BASE_STRING := 2
  const QIR_BASE_MODULE := 3
  const FORMAT_MAX := 10
  const FORMAT_CUSTOM1 := 999999995
  const FORMAT_CUSTOM5 := 999999999

  /** The device has five qubits; the two last ones carry the simulated outcome. */
  const QUBITS := 5
  const OUTPUTS := ["01", "10", "11", "00"]

  /** A job. Before any `set_programs` its format is the maximum value of the enumeration. */
  datatype Job = Job(format: int, programs: seq<seq<byte>>, status: Status, numShots: nat, results: seq<ResultData>)

  const NEW_JOB := Job(FORMAT_MAX, [], Created, 0, [])

  // ----- configuring a job -----

  predicate ValidFormat(format: int) {
    0 <= format < FORMAT_MAX || FORMAT_CUSTOM1 <= format <= FORMAT_CUSTOM5
  }

  predicate SupportedFormat(format: int) {
    format == QASM2 || format == QIR_BASE_STRING || format == QIR_BASE_MODULE
  }

  predicate TextFormat(format: int) {
    format == QASM2 || format == QIR_BASE_STRING
  }

  /** The bytes behind a program pointer, if it is not null. */
  predicate ValidProgram(format: int, program: Option<seq<byte>>) {
    program.Some? && program.value != [] &&
    (TextFormat(format) ==>
       var bytes := program.value;
       bytes[|bytes| - 1] == 0 && 0 !in bytes[..|bytes| - 1])
  }

  datatype Parameter = ShotsNum | OtherParameter | InvalidParameter

  datatype Change = Change(job: Job, code: Code)

  function SetParameter(j: Job, param: Parameter, size: nat, value: Option<nat>): Change {
    if (value.Some? && size == 0) || param == InvalidParameter then Change(j, InvalidArgument)
    else if j.status != Created then Change(j, BadState)
    else if param == ShotsNum then
      if value == None then Change(j, Success)
      else if size != WORD then Change(j, InvalidArgument)
      else Change(j.(numShots := value.value), Success)
    else Change(j, NotSupported)
  }

  /** Where copying the programs fails: nowhere, when reserving a list that is too long or finds no memory, or at
      one program. */
  datatype Memory = Enough | ReserveFails(tooLong: bool) | CopyFails(at: nat)

  function ReserveError(memory: Memory): Code
    requires memory.ReserveFails?
  {
    if memory.tooLong then InvalidArgument else OutOfMem
  }

  /** The error of the copy loop from program `i` on. */
  function CopyError(format: int, programs: seq<Option<seq<byte>>>, memory: Memory, i: nat): Option<Code>
    decreases |programs| - i
  {
    if i >= |programs| then None
    else if !ValidProgram(format, programs[i]) then Some(InvalidArgument)
    else if memory == CopyFails(i) then Some(OutOfMem)
    else CopyError(format, programs, memory, i + 1)
  }

  lemma {:induction false} CopySucceeds(format: int, programs: seq<Option<seq<byte>>>, memory: Memory, i: nat)
    ensures CopyError(format, programs, memory, i) == None <==>
            forall k | i <= k < |programs| :: ValidProgram(format, programs[k]) && memory != CopyFails(k)
    decreases |programs| - i
  {
    if i < |programs| {
      CopySucceeds(format, programs, memory, i + 1);
    }
  }

  function Bytes(programs: seq<Option<seq<byte>>>): (bytes: seq<seq<byte>>)
    requires forall k | 0 <= k < |programs| :: programs[k].Some?
    ensures |bytes| == |programs| && forall k | 0 <= k < |bytes| :: bytes[k] == programs[k].value
  {
    seq(|programs|, k requires 0 <= k < |programs| => programs[k].value)
  }

  /** `programs` is absent for a support probe; `hasSizes` tells whether the array of sizes is not null. */
  function SetPrograms(
      j: Job, format: int, count: nat, hasSizes: bool, programs: Option<seq<Option<seq<byte>>>>, memory: Memory): Change
    requires programs.Some? && hasSizes ==> |programs.value| == count
  {
    if count == 0 || !ValidFormat(format) then Change(j, InvalidArgument)
    else if j.status != Created then Change(j, BadState)
    else if !SupportedFormat(format) then Change(j, NotSupported)
    else if programs == None then Change(j, Success)
    else if !hasSizes then Change(j, InvalidArgument)
    else if memory.ReserveFails? then Change(j, ReserveError(memory))
    else
      var failure := CopyError(format, programs.value, memory, 0);
      if failure.Some? then Change(j, failure.value)
      else
        CopySucceeds(format, programs.value, memory, 0);
        Change(j.(format := format, programs := Bytes(programs.value)), Success)
  }

  datatype ProgramReply = ProgramReply(code: Code, sizeRet: Option<nat>, written: seq<byte>)

  function GetProgram(j: Job, index: nat, size: nat, hasData: bool): ProgramReply {
    if j.programs == [] then ProgramReply(BadState, None, [])
    else if index >= |j.programs| then ProgramReply(OutOfRange, None, [])
    else if hasData && size < |j.programs[index]| then ProgramReply(InvalidArgument, None, [])
    else ProgramReply(Success, Some(|j.programs[index]|), if hasData then j.programs[index] else [])
  }

  /** `set_programs` is atomic: it changes the job only when it succeeds with programs, and then to exactly the
      given format and programs, byte for byte and in order. */
  lemma SetProgramsIsAtomic(
      j: Job, format: int, count: nat, hasSizes: bool, programs: Option<seq<Option<seq<byte>>>>, memory: Memory)
    requires programs.Some? && hasSizes ==> |programs.value| == count
    ensures var c := SetPrograms(j, format, count, hasSizes, programs, memory);
            && (c.code != Success || programs == None ==> c.job == j)
            && (c.code == Success && programs.Some? ==>
                  && c.job == j.(format := format, programs := c.job.programs)
                  && |c.job.programs| == count > 0
                  && forall k | 0 <= k < count ::
                       programs.value[k] == Some(c.job.programs[k]) && ValidProgram(format, programs.value[k]))
            && (c.code == Success <==>
                  && count > 0 && SupportedFormat(format) && j.status == Created
                  && (programs == None ||
                        (hasSizes && !memory.ReserveFails? &&
                         forall k | 0 <= k < count ::
                             ValidProgram(format, programs.value[k]) && memory != CopyFails(k))))
  {
    if programs.Some? && hasSizes {
      CopySucceeds(format, programs.value, memory, 0);
      CopyErrorIsError(format, programs.value, memory, 0);
    }
  }

  lemma {:induction false} CopyErrorIsError(format: int, programs: seq<Option<seq<byte>>>, memory: Memory, i: nat)
    ensures CopyError(format, programs, memory, i) != Some(Success)
    decreases |programs| - i
  {
    if i < |programs| {
      CopyErrorIsError(format, programs, memory, i + 1);
    }
  }

  /** Every stored program can be read back whole: ask for its size, then fill a buffer of that size. */
  lemma ProgramsRoundTrip(j: Job, format: int, count: nat, programs: seq<Option<seq<byte>>>, memory: Memory, k: nat)
    requires |programs| == count && k < count
    requires SetPrograms(j, format, count, true, Some(programs), memory).code == Success
    ensures var after := SetPrograms(j, format, count, true, Some(programs), memory).job;
            var size := GetProgram(after, k, 0, false).sizeRet;
            && size.Some? && size.value > 0
            && GetProgram(after, k, size.value, true).code == Success
            && Some(GetProgram(after, k, size.value, true).written) == programs[k]
            && GetProgram(after, k, size.value - 1, true) == ProgramReply(InvalidArgument, None, [])
  {
    SetProgramsIsAtomic(j, format, count, true, Some(programs), memory);
  }

  // ----- running a job -----

  /** Random amplitudes for one program and a square root of their squared norm. */
  datatype Draw = Draw(raw: seq<Complex>, root: real)

  predicate ValidDraw(d: Draw) {
    |d.raw| == Pow2(QUBITS) && d.root > 0.0 && Times(d.root, d.root) == Total(Probabilities(d.raw))
  }

  /** The byte that selects the outcome of one program among several. */
  function MarkerIndex(format: int, program: seq<byte>): (i: nat)
    requires program != []
    ensures i < |program|
  {
    |program| - (if format != QIR_BASE_MODULE && |program| > 1 then 2 else 1)
  }

  function ShotText(format: int, program: seq<byte>, several: bool): string
    requires program != []
  {
    var outputIndex := if several then program[MarkerIndex(format, program)] % 4 else 0;
    seq(QUBITS - 2, _ => '0') + OUTPUTS[outputIndex]
  }

  function Repeated(shot: string, n: nat): (shots: seq<string>)
    ensures |shots| == n && forall i | 0 <= i < n :: shots[i] == shot
  {
    seq(n, _ => shot)
  }

  function ResultOf(j: Job, i: nat, d: Draw): ResultData
    requires i < |j.programs| && j.programs[i] != [] && ValidDraw(d)
  {
    ResultData(Repeated(ShotText(j.format, j.programs[i], |j.programs| > 1), j.numShots), Scaled(d.raw, d.root))
  }

  /** An exception thrown while the result of program `at` is computed, as the code it is reported with. */
  datatype Fault = Fault(at: nat, code: Code)

  datatype Outcome = Outcome(job: Job, device: DeviceStatus, code: Code)

  predicate Programmed(j: Job) {
    forall i | 0 <= i < |j.programs| :: j.programs[i] != []
  }

  function ResultsOf(j: Job, draws: seq<Draw>): (results: seq<ResultData>)
    requires Programmed(j) && |draws| >= |j.programs| && forall k | 0 <= k < |draws| :: ValidDraw(draws[k])
    ensures |results| == |j.programs| && forall i | 0 <= i < |results| :: results[i] == ResultOf(j, i, draws[i])
  {
    seq(|j.programs|, i requires 0 <= i < |j.programs| => ResultOf(j, i, draws[i]))
  }

  function Submit(j: Job, device: DeviceStatus, draws: seq<Draw>, fault: Option<Fault>): Outcome
    requires Programmed(j) && |draws| >= |j.programs| && forall k | 0 <= k < |draws| :: ValidDraw(draws[k])
  {
    if j.status != Created then Outcome(j, device, InvalidArgument)
    else if j.programs == [] then Outcome(j, device, BadState)
    else if fault.Some? && fault.value.at < |j.programs| then Outcome(j, device, fault.value.code)
    else Outcome(j.(results := ResultsOf(j, draws), status := Running), Busy, Success)
  }

  function Cancel(j: Job, device: DeviceStatus): Outcome {
    if j.status == Done then Outcome(j, device, InvalidArgument)
    else Outcome(j.(status := Canceled), Idle, Success)
  }

  /** The status reported is the status of the job afterwards. */
  function Check(j: Job, device: DeviceStatus, bit: bool): Outcome {
    if j.status == Running && bit then Outcome(j.(status := Done), Idle, Success)
    else Outcome(j, device, Success)
  }

  function Wait(j: Job, device: DeviceStatus): Outcome {
    if j.status == Done || j.status == Canceled || j.status == Failed then Outcome(j, device, Success)
    else Outcome(j.(status := Done), Idle, Success)
  }

  function GetResults(j: Job, index: nat, kind: Kind, size: nat, hasData: bool): Reply
    requires JobInv(j)
  {
    if (hasData && size == 0) || kind == InvalidKind then Reply(InvalidArgument, None, [])
    else if index >= |j.programs| then Reply(OutOfRange, None, [])
    else if j.status != Done then Reply(BadState, None, [])
    else if index >= |j.results| then Reply(Undefined, None, [])
    else
      assert ResultInv(j, index);
      ResultReply(j.results[index], kind, size, hasData)
  }

  // ----- what every job keeps -----

  /** The result of program `i` is determined by the program, the format and the shot count, up to the amplitudes, which
      are normalized. */
  predicate ResultInv(j: Job, i: nat)
    requires i < |j.programs| && i < |j.results| && j.programs[i] != []
  {
    var r := j.results[i];
    && r.shots == Repeated(ShotText(j.format, j.programs[i], |j.programs| > 1), j.numShots)
    && |r.stateVec| == Pow2(QUBITS) && Support(r.stateVec) != []
    && Total(Probabilities(r.stateVec)) == 1.0
  }

  predicate JobInv(j: Job) {
    && j.status in {Created, Running, Done, Canceled}
    && (if j.programs == [] then j.format == FORMAT_MAX else SupportedFormat(j.format))
    && (forall i | 0 <= i < |j.programs| :: ValidProgram(j.format, Some(j.programs[i])))
    && (j.status == Created ==> j.results == [])
    && (j.status == Running ==> j.results != [])
    && (j.results != [] ==> |j.results| == |j.programs| && forall i | 0 <= i < |j.results| :: ResultInv(j, i))
  }

  /** How a job may look later. */
  predicate Later(a: Job, b: Job) {
    && (a.status != Created ==> b == a.(status := b.status))
    && (a.results != [] ==> b.results == a.results)
    && (a.status in {Done, Canceled} ==> b.status == a.status)
    && (a.status == Running ==> b.status in {Running, Done, Canceled})
  }

  lemma LaterIsTransitive(a: Job, b: Job, c: Job)
    requires JobInv(a) && Later(a, b) && Later(b, c)
    ensures Later(a, c)
  {
  }

  lemma ShotTextShape(format: int, program: seq<byte>, several: bool)
    requires program != []
    ensures |ShotText(format, program, several)| == QUBITS
    ensures forall i | 0 <= i < QUBITS :: ShotText(format, program, several)[i] in {'0', '1'}
  {
    assert forall o | 0 <= o < 4 :: |OUTPUTS[o]| == 2 && OUTPUTS[o][0] in {'0', '1'} && OUTPUTS[o][1] in {'0', '1'};
  }

  lemma ResultsAreWellFormed(j: Job, i: nat)
    requires JobInv(j) && i < |j.results|
    ensures i < |j.programs| && WellFormed(j.results[i], QUBITS)
    ensures forall k | 0 <= k < |j.results[i].shots| ::
            |j.results[i].shots[k]| == QUBITS && '\0' !in j.results[i].shots[k]
    ensures |j.results[i].shots| == j.numShots
  {
    assert ResultInv(j, i) && ValidProgram(j.format, Some(j.programs[i]));
    ShotTextShape(j.format, j.programs[i], |j.programs| > 1);
  }

  lemma SubmitKeepsInvariant(j: Job, device: DeviceStatus, draws: seq<Draw>, fault: Option<Fault>)
    requires JobInv(j) && |draws| >= |j.programs| && forall k | 0 <= k < |draws| :: ValidDraw(draws[k])
    requires Programmed(j)
    ensures JobInv(Submit(j, device, draws, fault).job) && Later(j, Submit(j, device, draws, fault).job)
  {
    var o := Submit(j, device, draws, fault);
    if o.code == Success && o.job != j {
      forall i | 0 <= i < |j.programs| ensures ResultInv(o.job, i) {
        assert ValidDraw(draws[i]);
        ComputedResult(j, o.job, i, draws[i]);
      }
    }
  }

  lemma ComputedResult(j: Job, after: Job, i: nat, d: Draw)
    requires i < |j.programs| && j.programs[i] != [] && ValidDraw(d)
    requires after.programs == j.programs && after.format == j.format && after.numShots == j.numShots
    requires i < |after.results| && after.results[i] == ResultOf(j, i, d)
    ensures ResultInv(after, i)
  {
    NormalizationGivesProbabilities(d.raw, d.root);
  }

  lemma StatusKeepsInvariant(j: Job, status: Status)
    requires JobInv(j) && status in {Done, Canceled}
    ensures JobInv(j.(status := status))
  {
    var after := j.(status := status);
    forall i | 0 <= i < |after.results| ensures i < |after.programs| && ResultInv(after, i) {
      assert ResultInv(j, i);
    }
  }

  lemma SetProgramsKeepsInvariant(
      j: Job, format: int, count: nat, hasSizes: bool, programs: Option<seq<Option<seq<byte>>>>, memory: Memory)
    requires JobInv(j) && (programs.Some? && hasSizes ==> |programs.value| == count)
    ensures JobInv(SetPrograms(j, format, count, hasSizes, programs, memory).job)
    ensures Later(j, SetPrograms(j, format, count, hasSizes, programs, memory).job)
  {
    if programs.Some? && hasSizes {
      CopySucceeds(format, programs.value, memory, 0);
    }
  }

  lemma ProgramsAreNotEmpty(j: Job)
    requires JobInv(j)
    ensures Programmed(j)
  {
    assert forall i | 0 <= i < |j.programs| :: ValidProgram(j.format, Some(j.programs[i]));
  }

  /** With two or more programs, the shots of result `i` depend only on program `i`, the format and the shot count. */
  lemma ShotsDependOnOwnProgram(j: Job, k: Job, i: nat)
    requires JobInv(j) && JobInv(k) && i < |j.results| && i < |k.results|
    requires |j.programs| > 1 && |k.programs| > 1
    requires j.programs[i] == k.programs[i] && j.format == k.format && j.numShots == k.numShots
    ensures j.results[i].shots == k.results[i].shots
  {
    assert ResultInv(j, i) && ResultInv(k, i);
    assert ValidProgram(j.format, Some(j.programs[i]));
    assert j.results[i].shots == k.results[i].shots;
  }

  /** The protocol of `get_results` on a submitted job that is done: the null query reports the size of the content
      in bytes; a buffer of at least that size receives exactly the content, a smaller one is refused and keeps its
      bytes. For the sparse probability values this holds exactly when no amplitude is zero. */
  lemma GetResultsProtocol(j: Job, index: nat, kind: Kind, size: nat)
    requires JobInv(j) && j.status == Done && j.results != [] && index < |j.programs| && Supported(kind)
    ensures var r := j.results[index];
            var req := |Content(r, kind)| * ElementSize(kind);
            && GetResults(j, index, kind, 0, false) == Reply(Success, Some(req), [])
            && (0 < size < req ==>
                  GetResults(j, index, kind, size, true).code == InvalidArgument &&
                    GetResults(j, index, kind, size, true).written == [])
            && (size >= req > 0 ==>
                  (GetResults(j, index, kind, size, true) == Reply(Success, Some(req), Content(r, kind)) <==>
                   kind != ProbabilitiesSparseValues || NoZeros(r.stateVec)))
  {
    var r := j.results[index];
    ResultsAreWellFormed(j, index);
    QueryReportsSize(r, kind, 0, QUBITS);
    if Content(r, kind) != [] {
      QueryThenFill(r, kind, size, QUBITS);
    }
  }

  /** What a client reads back from the buffers of one result over `n` qubits. */
  predicate ReadsBack(r: ResultData, shots: nat, n: nat) {
    |r.shots| == shots && (r.shots != [] ==> ShotsReadBack(r.shots, n)) && StateReadsBack(r.stateVec, n)
  }

  /** The shot text gives the shots in order; the two histogram buffers give their multiset. */
  predicate ShotsReadBack(shots: seq<string>, n: nat)
    requires shots != []
  {
    var h := Histogram(shots);
    && ReadCsv(CsvText(shots)) == shots && |CsvText(shots)| == |shots| * (n + 1)
    && h != []
    && var keys := ReadCsv(CsvText(Keys(h)));
       && |keys| == |Counts(h)| && Tally(Paired(keys, Counts(h))) == multiset(shots) && Sum(Counts(h)) == |shots|
       && forall i, j | 0 <= i < j < |keys| :: Less(keys[i], keys[j])
  }

  /** The dense list gives the vector; so do the sparse keys with the sparse values. The sparse keys with the
      sparse probability values give the dense probabilities: the others are zero. */
  predicate StateReadsBack(v: seq<Complex>, n: nat) {
    && ReadComplex(Interleave(v)) == v
    && Support(v) != []
    && (var indices, values := ReadKeys(ReadCsv(CsvText(SparseKeys(v, n)))), ReadComplex(Interleave(Amplitudes(v)));
        var p, q := Probabilities(Amplitudes(v)), Probabilities(v);
        && |indices| == |values| == |p| && Rebuild(indices, values, Pow2(n)) == v
        && (forall k | 0 <= k < |indices| :: indices[k] < |q| && p[k] == q[indices[k]] > 0.0)
        && (forall i | 0 <= i < |q| :: i in indices || q[i] == 0.0))
    && Total(Probabilities(v)) == 1.0
  }

  lemma StateReading(v: seq<Complex>, n: nat)
    requires |v| == Pow2(n) && Support(v) != [] && Total(Probabilities(v)) == 1.0
    ensures StateReadsBack(v, n)
  {
    SparseRoundTrip(v, n);
    InterleaveRoundTrip(v);
    InterleaveRoundTrip(Amplitudes(v));
    SparseKeysShape(v, n);
    CsvRoundTrip(SparseKeys(v, n));
    SparseKeysDecode(v, n);
    SparseProbabilitiesRead(v);
  }

  lemma ShotsReading(shots: seq<string>, n: nat)
    requires shots != [] && EqualLengths(shots) && CommaFree(shots) && |shots[0]| == n
    requires forall i | 0 <= i < |shots| :: '\0' !in shots[i]
    ensures ShotsReadBack(shots, n)
  {
    ShotsRoundTrip(shots);
    HistogramRoundTrip(shots);
  }

  /** All buffers of a submitted job read back: the shot text splits into `num_shots` bit strings of the register
      length, keys and values of the histogram give the multiset of shots, sparse keys with sparse values give the
      state vector and with sparse probability values the probabilities, which add up to 1. */
  lemma SubmittedResultsReadBack(j: Job, index: nat)
    requires JobInv(j) && index < |j.results|
    ensures ReadsBack(j.results[index], j.numShots, QUBITS)
  {
    var r := j.results[index];
    ResultsAreWellFormed(j, index);
    assert ResultInv(j, index);
    if r.shots != [] {
      ShotsReading(r.shots, QUBITS);
    }
    StateReading(r.stateVec, QUBITS);
  }

  // ----- runs over any number of jobs -----

  /** The device status is shared by all jobs. `latest` is the job submitted last; handles are never reused. */
  datatype World = World(device: DeviceStatus, jobs: map<nat, Job>, next: nat, latest: Option<nat>)

  datatype Call =
    | Initialize
    | Finalize
    | CreateCall(initialized: bool)
    | SetParameterCall(h: nat, param: Parameter, psize: nat, value: Option<nat>)
    | SetProgramsCall(
        h: nat, format: int, count: nat, hasSizes: bool, programs: Option<seq<Option<seq<byte>>>>, memory: Memory)
    | SubmitCall(h: nat, draws: seq<Draw>, fault: Option<Fault>)
    | CancelCall(h: nat)
    | CheckCall(h: nat, bit: bool)
    | WaitCall(h: nat)
    | FreeCall(h: nat)

  const START := World(Offline, map[], 0, None)

  /** The call can be made: its arguments fit together, and so do the random values with the number of programs. */
  predicate Possible(w: World, c: Call) {
    match c
    case SetProgramsCall(_, _, count, hasSizes, programs, _) => programs.Some? && hasSizes ==> |programs.value| == count
    case SubmitCall(h, draws, fault) =>
      && (h in w.jobs ==> Programmed(w.jobs[h]) && |draws| >= |w.jobs[h].programs|)
      && (forall k | 0 <= k < |draws| :: ValidDraw(draws[k]))
      && (fault.Some? ==> fault.value.code in {OutOfMem, Fatal})
    case _ => true
  }

  /** One call. A handle that names no job stands for a null pointer: such a call changes nothing, as does one that
      cannot be made. */
  function Step(w: World, c: Call): World {
    if !Possible(w, c) then w
    else match c
      case Initialize => w.(device := Idle)
      case Finalize => w.(device := Offline)
      case CreateCall(initialized) =>
        if initialized then w.(jobs := w.jobs[w.next := NEW_JOB], next := w.next + 1) else w
      case SetParameterCall(h, param, size, value) =>
        if h in w.jobs then w.(jobs := w.jobs[h := SetParameter(w.jobs[h], param, size, value).job]) else w
      case SetProgramsCall(h, format, count, hasSizes, programs, memory) =>
        if h in w.jobs
          then w.(jobs := w.jobs[h := SetPrograms(w.jobs[h], format, count, hasSizes, programs, memory).job]) else w
      case SubmitCall(h, draws, fault) =>
        if h in w.jobs then
          var o := Submit(w.jobs[h], w.device, draws, fault);
          Updated(w, h, o).(latest := if o.code == Success then Some(h) else w.latest)
        else w
      case CancelCall(h) => if h in w.jobs then Updated(w, h, Cancel(w.jobs[h], w.device)) else w
      case CheckCall(h, bit) => if h in w.jobs then Updated(w, h, Check(w.jobs[h], w.device, bit)) else w
      case WaitCall(h) => if h in w.jobs then Updated(w, h, Wait(w.jobs[h], w.device)) else w
      case FreeCall(h) => w.(jobs := w.jobs - {h})
  }

  function Updated(w: World, h: nat, o: Outcome): World {
    w.(jobs := w.jobs[h := o.job], device := o.device)
  }

  function Run(w: World, calls: seq<Call>): World
    decreases |calls|
  {
    if calls == [] then w else Run(Step(w, calls[0]), calls[1..])
  }

  /** If the device is busy, the job submitted last is still running, unless its handle was freed. */
  predicate WorldInv(w: World) {
    && (forall h | h in w.jobs :: h < w.next && JobInv(w.jobs[h]))
    && (w.latest.Some? ==> w.latest.value < w.next)
    && w.device in {Offline, Idle, Busy}
    && (w.device == Busy ==> w.latest.Some? && (w.latest.value in w.jobs ==> w.jobs[w.latest.value].status == Running))
  }

  predicate WorldLater(a: World, b: World) {
    && a.next <= b.next
    && (forall h | h in a.jobs && h in b.jobs :: Later(a.jobs[h], b.jobs[h]))
    && (forall h | h in b.jobs && h < a.next :: h in a.jobs)
  }

  /** A call on one job keeps the invariant of all, if it keeps the job's and leaves the device busy only for a
      running job. */
  lemma JobStepKeeps(w: World, h: nat, j: Job, device: DeviceStatus, latest: Option<nat>)
    requires WorldInv(w) && h in w.jobs && JobInv(j) && Later(w.jobs[h], j)
    requires device in {Offline, Idle, Busy} && latest in {w.latest, Some(h)}
    requires device == Busy ==> (latest == Some(h) && j.status == Running) || (latest == w.latest && w.device == Busy)
    requires device == Busy && latest == Some(h) ==> j.status == Running
    ensures var after := World(device, w.jobs[h := j], w.next, latest);
            WorldInv(after) && WorldLater(w, after)
  {
  }

  lemma JobCallKeeps(w: World, h: nat, c: Call)
    requires WorldInv(w) && Possible(w, c) && h in w.jobs
    requires c.CancelCall? || c.CheckCall? || c.WaitCall?
    requires c.h == h
    ensures WorldInv(Step(w, c)) && WorldLater(w, Step(w, c))
  {
    var j := w.jobs[h];
    StatusKeepsInvariant(j, Done);
    StatusKeepsInvariant(j, Canceled);
    var o :=
      if c.CancelCall? then Cancel(j, w.device)
      else if c.CheckCall? then Check(j, w.device, c.bit)
      else Wait(j, w.device);
    JobStepKeeps(w, h, o.job, o.device, w.latest);
  }

  lemma SetProgramsCallKeeps(w: World, h: nat, c: Call)
    requires WorldInv(w) && Possible(w, c) && h in w.jobs && c.SetProgramsCall? && c.h == h
    ensures WorldInv(Step(w, c)) && WorldLater(w, Step(w, c))
  {
    SetProgramsKeepsInvariant(w.jobs[h], c.format, c.count, c.hasSizes, c.programs, c.memory);
    var j := SetPrograms(w.jobs[h], c.format, c.count, c.hasSizes, c.programs, c.memory).job;
    JobStepKeeps(w, h, j, w.device, w.latest);
  }

  lemma SubmitCallKeeps(w: World, h: nat, c: Call)
    requires WorldInv(w) && Possible(w, c) && h in w.jobs && c.SubmitCall? && c.h == h
    ensures WorldInv(Step(w, c)) && WorldLater(w, Step(w, c))
  {
    var o := Submit(w.jobs[h], w.device, c.draws, c.fault);
    SubmitKeepsInvariant(w.jobs[h], w.device, c.draws, c.fault);
    JobStepKeeps(w, h, o.job, o.device, if o.code == Success then Some(h) else w.latest);
  }

  lemma StepKeeps(w: World, c: Call)
    requires WorldInv(w)
    ensures WorldInv(Step(w, c)) && WorldLater(w, Step(w, c))
  {
    if Possible(w, c) && (c.Initialize? || c.Finalize? || c.CreateCall? || c.FreeCall? || c.h in w.jobs) {
      match c {
        case SetParameterCall(h, param, size, value) =>
          JobStepKeeps(w, h, SetParameter(w.jobs[h], param, size, value).job, w.device, w.latest);
        case SetProgramsCall(h, _, _, _, _, _) => SetProgramsCallKeeps(w, h, c);
        case SubmitCall(h, _, _) => SubmitCallKeeps(w, h, c);
        case CancelCall(h) => JobCallKeeps(w, h, c);
        case CheckCall(h, _) => JobCallKeeps(w, h, c);
        case WaitCall(h) => JobCallKeeps(w, h, c);
        case _ =>
      }
    }
  }

  lemma {:induction false} RunKeeps(w: World, calls: seq<Call>)
    requires WorldInv(w)
    ensures WorldInv(Run(w, calls)) && WorldLater(w, Run(w, calls))
    decreases |calls|
  {
    if calls != [] {
      var mid, end := Step(w, calls[0]), Run(w, calls);
      StepKeeps(w, calls[0]);
      RunKeeps(mid, calls[1..]);
      forall h | h in w.jobs && h in end.jobs ensures Later(w.jobs[h], end.jobs[h]) {
        assert h < mid.next && h in mid.jobs;
        LaterIsTransitive(w.jobs[h], mid.jobs[h], end.jobs[h]);
      }
    }
  }

  /** Every state reached from the start by any calls on any jobs, failing ones included. */
  lemma EveryRunIsSafe(calls: seq<Call>)
    ensures WorldInv(Run(START, calls))
  {
    RunKeeps(START, calls);
  }

  /** After a successful wait, every later check of the job reports the same terminal status, and its results never
      change. */
  lemma WaitIsFinal(w: World, h: nat, calls: seq<Call>, bit: bool)
    requires WorldInv(w) && h in w.jobs
    ensures var waited := Step(w, WaitCall(h));
            var end := Run(waited, calls);
            && waited.jobs[h].status in {Done, Canceled}
            && (h in end.jobs ==> Check(end.jobs[h], end.device, bit).job == waited.jobs[h])
  {
    StepKeeps(w, WaitCall(h));
    RunKeeps(Step(w, WaitCall(h)), calls);
  }

  /** After a successful submit, in every later state of the job: one result per program, `num_shots` shots each,
      so that reading a result of a finished job, of whatever kind, never leaves the result list; the programs, the
      format and the results stay. */
  lemma SubmittedStaysReadable(
    w: World, h: nat, draws: seq<Draw>, fault: Option<Fault>, calls: seq<Call>,
    index: nat, kind: Kind, size: nat, hasData: bool)
    requires WorldInv(w) && h in w.jobs && Possible(w, SubmitCall(h, draws, fault))
    requires Submit(w.jobs[h], w.device, draws, fault).code == Success
    ensures var end := Run(Step(w, SubmitCall(h, draws, fault)), calls);
            h in end.jobs ==>
              var j := end.jobs[h];
              && JobInv(j) && j.status in {Running, Done, Canceled}
              && j.programs == w.jobs[h].programs && j.format == w.jobs[h].format && j.numShots == w.jobs[h].numShots
              && |j.results| == |j.programs| > 0
              && (GetResults(j, index, kind, size, hasData).code == Undefined ==>
                   Overrun(j, index, kind, size, hasData))
  {
    StepKeeps(w, SubmitCall(h, draws, fault));
    var mid := Step(w, SubmitCall(h, draws, fault));
    assert mid.jobs[h].status == Running;
    RunKeeps(mid, calls);
    if h in Run(mid, calls).jobs {
      ReadableResults(Run(mid, calls).jobs[h], index, kind, size, hasData);
    }
  }

  /** Reading a job with results stays inside its result list. */
  lemma ReadableResults(j: Job, index: nat, kind: Kind, size: nat, hasData: bool)
    requires JobInv(j)
    ensures j.results != [] && GetResults(j, index, kind, size, hasData).code == Undefined ==>
              Overrun(j, index, kind, size, hasData)
  {
    if ReadsResult(j, index, kind, size, hasData) && j.results != [] {
      ResultsAreWellFormed(j, index);
      ReplyIsUndefinedIff(j, index, kind, size, hasData);
    }
  }

  /** A failed submit leaves the job and the device unchanged. */
  lemma FailedSubmitChangesNothing(j: Job, device: DeviceStatus, draws: seq<Draw>, fault: Option<Fault>)
    requires Programmed(j) && |draws| >= |j.programs| && forall k | 0 <= k < |draws| :: ValidDraw(draws[k])
    requires fault.Some? ==> fault.value.code in {OutOfMem, Fatal}
    ensures Submit(j, device, draws, fault).code != Success <==> Submit(j, device, draws, fault).job == j
    ensures Submit(j, device, draws, fault).code != Success ==> Submit(j, device, draws, fault).device == device
  {
  }

  // ----- when reading a result is undefined -----

  /** The call submits job `h` with success. */
  predicate Submits(w: World, c: Call, h: nat) {
    && c.SubmitCall? && c.h == h && Possible(w, c)
    && h in w.jobs && Submit(w.jobs[h], w.device, c.draws, c.fault).code == Success
  }

  /** Some call of the run submits job `h` with success. */
  predicate SubmittedIn(w: World, calls: seq<Call>, h: nat)
    decreases |calls|
  {
    calls != [] && (Submits(w, calls[0], h) || SubmittedIn(Step(w, calls[0]), calls[1..], h))
  }

  lemma StepResults(w: World, c: Call, h: nat)
    requires WorldInv(w) && h in Step(w, c).jobs
    ensures Step(w, c).jobs[h].results != [] <==> (h in w.jobs && w.jobs[h].results != []) || Submits(w, c, h)
  {
  }

  /** A job has results exactly when it was submitted with success. */
  lemma {:induction false} ResultsIffSubmitted(w: World, calls: seq<Call>, h: nat)
    requires WorldInv(w) && h in Run(w, calls).jobs
    ensures Run(w, calls).jobs[h].results != [] <==>
            (h in w.jobs && w.jobs[h].results != []) || SubmittedIn(w, calls, h)
    decreases |calls|
  {
    if calls != [] {
      var mid := Step(w, calls[0]);
      StepKeeps(w, calls[0]);
      RunKeeps(mid, calls[1..]);
      ResultsIffSubmitted(mid, calls[1..], h);
      if h in mid.jobs {
        StepResults(w, calls[0], h);
      }
    }
  }

  /** The call passes every check of `get_results` before the result list is read. */
  predicate ReadsResult(j: Job, index: nat, kind: Kind, size: nat, hasData: bool) {
    !(hasData && size == 0) && kind != InvalidKind && index < |j.programs| && j.status == Done
  }

  /** A buffer that is large enough for the reported size of the sparse probability values and too small for all
      amplitudes. */
  predicate Overrun(j: Job, index: nat, kind: Kind, size: nat, hasData: bool) {
    && kind == ProbabilitiesSparseValues && hasData && index < |j.results|
    && |Support(j.results[index].stateVec)| * WORD <= size < |j.results[index].stateVec| * WORD
  }

  /** Exactly when reading a result is undefined, over every run on any number of jobs and for every kind, index
      and buffer: the checks pass, and either no call ever submitted the job with success, or the sparse
      probability values overrun. */
  lemma ReadIsUndefinedIff(calls: seq<Call>, h: nat, index: nat, kind: Kind, size: nat, hasData: bool)
    requires h in Run(START, calls).jobs
    ensures var j := Run(START, calls).jobs[h];
            && JobInv(j)
            && (GetResults(j, index, kind, size, hasData).code == Undefined <==>
                  ReadsResult(j, index, kind, size, hasData) &&
                  (!SubmittedIn(START, calls, h) || Overrun(j, index, kind, size, hasData)))
            && (j.status == Done && index < |j.programs| ==> (index < |j.results| <==> SubmittedIn(START, calls, h)))
  {
    var j := Run(START, calls).jobs[h];
    EveryRunIsSafe(calls);
    ResultsIffSubmitted(START, calls, h);
    if ReadsResult(j, index, kind, size, hasData) && index < |j.results| {
      ResultsAreWellFormed(j, index);
      ReplyIsUndefinedIff(j, index, kind, size, hasData);
    }
  }

  lemma ReplyIsUndefinedIff(j: Job, index: nat, kind: Kind, size: nat, hasData: bool)
    requires index < |j.results| && WellFormed(j.results[index], QUBITS) && kind != InvalidKind
    ensures ResultReply(j.results[index], kind, size, hasData).code == Undefined <==>
            Overrun(j, index, kind, size, hasData)
  {
  }

  // ----- two runs with an undefined read -----

  /** One program on one job. */
  const PROGRAMMED := [Initialize, CreateCall(true), SetProgramsCall(0, QASM2, 1, true, Some([Some([0])]), Enough)]

  const PROGRAMMED_JOB := NEW_JOB.(format := QASM2, programs := [[0]])

  lemma RunUnfolds(w: World, c: Call, rest: seq<Call>)
    ensures Run(w, [c] + rest) == Run(Step(w, c), rest)
  {
  }

  lemma ProgrammedRun(rest: seq<Call>)
    ensures Run(START, PROGRAMMED + rest) == Run(World(Idle, map[0 := PROGRAMMED_JOB], 1, None), rest)
  {
    var w1 := World(Idle, map[], 0, None);
    var w2 := World(Idle, map[0 := NEW_JOB], 1, None);
    RunUnfolds(START, PROGRAMMED[0], PROGRAMMED[1..] + rest);
    RunUnfolds(w1, PROGRAMMED[1], PROGRAMMED[2..] + rest);
    RunUnfolds(w2, PROGRAMMED[2], rest);
    assert PROGRAMMED + rest == [PROGRAMMED[0]] + (PROGRAMMED[1..] + rest);
    assert PROGRAMMED[1..] + rest == [PROGRAMMED[1]] + (PROGRAMMED[2..] + rest);
    assert PROGRAMMED[2..] + rest == [PROGRAMMED[2]] + rest;
    assert Step(w2, PROGRAMMED[2]) == World(Idle, map[0 := PROGRAMMED_JOB], 1, None) by {
      CopySucceeds(QASM2, [Some([0])], Enough, 0);
      assert Bytes([Some([0])]) == [[0]];
    }
  }

  /** Waiting for a job that was never submitted makes it done without results; reading one is then undefined. */
  lemma WaitWithoutSubmit()
    ensures var end := Run(START, PROGRAMMED + [WaitCall(0)]);
            0 in end.jobs && JobInv(end.jobs[0]) && end.jobs[0].status == Done &&
            GetResults(end.jobs[0], 0, Shots, 0, false).code == Undefined
  {
    ProgrammedRun([WaitCall(0)]);
    RunUnfolds(World(Idle, map[0 := PROGRAMMED_JOB], 1, None), WaitCall(0), []);
    EveryRunIsSafe(PROGRAMMED + [WaitCall(0)]);
  }

  /** A draw in which all amplitudes but the first are zero. */
  function OneAmplitude(root: real): (d: Draw)
    ensures |d.raw| == Pow2(QUBITS) && d.root == root && d.raw[0] == Complex(root, 0.0)
    ensures forall i | 1 <= i < |d.raw| :: d.raw[i] == Complex(0.0, 0.0)
  {
    Draw([Complex(root, 0.0)] + seq(Pow2(QUBITS) - 1, _ => Complex(0.0, 0.0)), root)
  }

  lemma {:induction false} TotalOfFirst(p: seq<real>)
    requires p != [] && forall i | 1 <= i < |p| :: p[i] == 0.0
    ensures Total(p) == p[0]
  {
    if |p| > 1 {
      TotalOfFirst(p[..|p| - 1]);
    }
  }

  lemma RealNorm(c: Complex, n: real)
    requires n == Norm(c) && c.im == 0.0
    ensures n == Times(c.re, c.re) && (c.re == 0.0 ==> n == 0.0)
  {
    TimesSign(c.im, c.im);
    TimesSign(c.re, c.re);
  }

  lemma OneAmplitudeTotal(raw: seq<Complex>, x: real, p: seq<real>)
    requires raw != [] && raw[0] == Complex(x, 0.0) && forall i | 1 <= i < |raw| :: raw[i] == Complex(0.0, 0.0)
    requires |p| == |raw| && forall i | 0 <= i < |p| :: p[i] == Norm(raw[i])
    ensures Total(p) == Times(x, x)
  {
    RealNorm(raw[0], p[0]);
    forall i | 1 <= i < |p| ensures p[i] == 0.0 {
      RealNorm(raw[i], p[i]);
    }
    TotalOfFirst(p);
  }

  lemma OneAmplitudeIsValid(root: real)
    requires root > 0.0
    ensures ValidDraw(OneAmplitude(root))
  {
    OneAmplitudeTotal(OneAmplitude(root).raw, root, Probabilities(OneAmplitude(root).raw));
  }

  lemma SubmittedRun(d: Draw)
    requires ValidDraw(d)
    ensures Run(START, PROGRAMMED + [SubmitCall(0, [d], None), WaitCall(0)]).jobs ==
            map[0 := PROGRAMMED_JOB.(results := ResultsOf(PROGRAMMED_JOB, [d]), status := Done)]
  {
    var calls := [SubmitCall(0, [d], None), WaitCall(0)];
    var w3 := World(Idle, map[0 := PROGRAMMED_JOB], 1, None);
    ProgrammedRun(calls);
    assert calls == [calls[0]] + [calls[1]] && [calls[1]] == [calls[1]] + [];
    RunUnfolds(w3, calls[0], [calls[1]]);
    RunUnfolds(Step(w3, calls[0]), calls[1], []);
  }

  lemma SubmittedResult(d: Draw, j: Job)
    requires ValidDraw(d) && j.results == ResultsOf(PROGRAMMED_JOB, [d])
    ensures |j.results| == 1 && j.results[0].stateVec == Scaled(d.raw, d.root)
  {
  }

  /** Asking for the size of the sparse probability values, and then for the values with a buffer of that size,
      leaves the buffer. */
  predicate QueryThenOverrun(j: Job, index: nat)
    requires JobInv(j)
  {
    var query := GetResults(j, index, ProbabilitiesSparseValues, 0, false);
    && query.code == Success && query.sizeRet.Some? && query.sizeRet.value > 0
    && GetResults(j, index, ProbabilitiesSparseValues, query.sizeRet.value, true).code == Undefined
  }

  lemma DoneJobOverruns(j: Job, index: nat)
    requires JobInv(j) && j.status == Done && index < |j.results| && !NoZeros(j.results[index].stateVec)
    ensures QueryThenOverrun(j, index)
  {
    ResultsAreWellFormed(j, index);
    QueryReportsSize(j.results[index], ProbabilitiesSparseValues, 0, QUBITS);
    SparseProbabilitiesOverrun(j.results[index], QUBITS);
  }

  lemma WithZeroOverruns(d: Draw, j: Job)
    requires ValidDraw(d) && !NoZeros(d.raw)
    requires JobInv(j) && j.status == Done && j.results == ResultsOf(PROGRAMMED_JOB, [d])
    ensures QueryThenOverrun(j, 0)
  {
    SubmittedResult(d, j);
    ZeroStays(d.raw, d.root);
    DoneJobOverruns(j, 0);
  }

  /** For every draw with a zero amplitude, a run to a submitted job that is done, on which the two calls overrun
      the buffer. */
  lemma SparseProbabilitiesOverrunReached(d: Draw)
    requires ValidDraw(d) && !NoZeros(d.raw)
    ensures var end := Run(START, PROGRAMMED + [SubmitCall(0, [d], None), WaitCall(0)]);
            0 in end.jobs && JobInv(end.jobs[0]) && QueryThenOverrun(end.jobs[0], 0)
  {
    var calls := PROGRAMMED + [SubmitCall(0, [d], None), WaitCall(0)];
    EveryRunIsSafe(calls);
    SubmittedRun(d);
    WithZeroOverruns(d, Run(START, calls).jobs[0]);
  }

  lemma ZeroStays(v: seq<Complex>, root: real)
    requires root > 0.0 && !NoZeros(v)
    ensures !NoZeros(Scaled(v, root))
  {
    var k :| 0 <= k < |v| && !Nonzero(v[k]);
    ScaledZero(root);
    assert Scaled(v, root)[k] == Complex(0.0 / root, 0.0 / root);
  }

  lemma ScaledZero(root: real)
    requires root > 0.0
    ensures 0.0 / root == 0.0
  {
  }

  lemma OneAmplitudeHasZero(root: real)
    ensures !NoZeros(OneAmplitude(root).raw)
  {
    assert Pow2(QUBITS) == 2 * Pow2(4) > 1;
    assert !Nonzero(OneAmplitude(root).raw[1]);
  }

  /** Such a draw exists. */
  lemma SparseProbabilitiesOverrunExample()
    ensures ValidDraw(OneAmplitude(0.5))
    ensures var end := Run(START, PROGRAMMED + [SubmitCall(0, [OneAmplitude(0.5)], None), WaitCall(0)]);
            0 in end.jobs && JobInv(end.jobs[0]) && QueryThenOverrun(end.jobs[0], 0)
  {
    OneAmplitudeIsValid(0.5);
    OneAmplitudeHasZero(0.5);
    SparseProbabilitiesOverrunReached(OneAmplitude(0.5));
  }
}
