/** What a client sees of a submitted job, in numbers and characters. */
module Submitted {
  import opened Outcomes
  import opened Results
  import opened StateVectors
  import opened ResultWriters
  import opened Jobs
  import opened History

  // ----- the outcome of a program -----

  /** The last byte of a program that is not its terminator: a text program of two bytes or more ends with a NUL. */
  function Marker(format: int, program: seq<byte>): byte
    requires program != []
  {
    if format == 3 || |program| == 1 then program[|program| - 1] else program[|program| - 2]
  }

  /** The five characters of every shot: of the only program, or by the marker of one among several. */
  lemma ShotCharacters(j: Job, i: nat, k: nat)
    requires JobInv(j) && i < |j.results| && k < |j.results[i].shots|
    ensures i < |j.programs| && j.programs[i] != []
    ensures var m := Marker(j.format, j.programs[i]);
            j.results[i].shots[k] ==
            if |j.programs| == 1 || m % 4 == 0 then "00001"
            else if m % 4 == 1 then "00010"
            else if m % 4 == 2 then "00011"
            else "00000"
  {
    assert ResultInv(j, i) && ValidProgram(j.format, Some(j.programs[i]));
    var m := Marker(j.format, j.programs[i]);
    assert MarkerIndex(j.format, j.programs[i]) == |j.programs[i]| -
           (if j.format == 3 || |j.programs[i]| == 1 then 1 else 2);
    assert seq(QUBITS - 2, _ => '0') == "000";
    OutcomeTexts();
  }

  lemma OutcomeTexts()
    ensures "000" + OUTPUTS[0] == "00001" && "000" + OUTPUTS[1] == "00010"
    ensures "000" + OUTPUTS[2] == "00011" && "000" + OUTPUTS[3] == "00000"
  {
  }

  // ----- the state vector -----

  /** Of the 32 stored amplitudes the products `re * re + im * im` add up to 1, and they are the dense
      probabilities; the dense state holds their parts, alternating. */
  lemma StoredStateIsNormalized(j: Job, i: nat)
    requires JobInv(j) && i < |j.results|
    ensures var v := j.results[i].stateVec;
            && |v| == 32 && Total(Moduli(v)) == 1.0
            && |Content(j.results[i], ProbabilitiesDense)| == 32 && |Content(j.results[i], StateDense)| == 64
            && forall k | 0 <= k < 32 ::
                 && Content(j.results[i], ProbabilitiesDense)[k] == Double(v[k].re * v[k].re + v[k].im * v[k].im)
                 && Content(j.results[i], StateDense)[2 * k] == Double(v[k].re)
                 && Content(j.results[i], StateDense)[2 * k + 1] == Double(v[k].im)
  {
    assert ResultInv(j, i);
    var r := j.results[i];
    assert Pow2(5) == 32;
    ProbabilitiesAreModuli(r.stateVec);
    InterleaveRoundTrip(r.stateVec);
    forall k | 0 <= k < 32
      ensures Content(r, ProbabilitiesDense)[k] ==
              Double(r.stateVec[k].re * r.stateVec[k].re + r.stateVec[k].im * r.stateVec[k].im)
    {
      assert Moduli(r.stateVec)[k] == r.stateVec[k].re * r.stateVec[k].re + r.stateVec[k].im * r.stateVec[k].im;
    }
  }

  /** Amplitude `k`, times the root, is the one drawn. */
  predicate IsDrawn(v: seq<Complex>, d: Draw, k: nat)
    requires k < |v|
  {
    |d.raw| == |v| && v[k].re * d.root == d.raw[k].re && v[k].im * d.root == d.raw[k].im
  }

  lemma ScaledIsDrawn(v: seq<Complex>, d: Draw, k: nat)
    requires d.root > 0.0 && v == Scaled(d.raw, d.root) && k < |v|
    ensures IsDrawn(v, d, k)
  {
    ScaledBack(d.raw, d.root, k);
  }

  /** Every stored amplitude of every job of a run is the one drawn for its program by the call that submitted the job,
      up to the root. */
  lemma AmplitudesAreDrawn(calls: seq<Call>, h: nat, i: nat, k: nat)
    requires h in Run(START, calls).jobs && i < |Run(START, calls).jobs[h].results|
    requires k < |Run(START, calls).jobs[h].results[i].stateVec|
    ensures var v, c := Run(START, calls).jobs[h].results[i].stateVec, AcceptedSubmit(calls, h);
            c.Some? && i < |c.value.draws| && IsDrawn(v, c.value.draws[i], k)
  {
    JobsFollowCalls(calls, h);
    ScaledIsDrawn(Run(START, calls).jobs[h].results[i].stateVec, AcceptedSubmit(calls, h).value.draws[i], k);
  }

  // ----- the histogram -----

  lemma {:induction false} HistogramOfRepeated(shot: string, n: nat)
    requires n > 0
    ensures Histogram(Repeated(shot, n)) == [Bin(shot, n)]
  {
    var shots := Repeated(shot, n);
    assert shots[..n - 1] == Repeated(shot, n - 1);
    if n > 1 {
      HistogramOfRepeated(shot, n - 1);
      assert Bump([Bin(shot, n - 1)], shot) == [Bin(shot, n)];
    } else {
      assert Histogram([]) == [] && shots == [shot] && shots[..0] == [];
      assert Bump([], shot) == [Bin(shot, 1)];
    }
  }

  /** All shots of a program are the same, so its histogram has one key, with the shot count as its value. */
  lemma HistogramOfJob(j: Job, i: nat)
    requires JobInv(j) && i < |j.results| && j.numShots > 0
    ensures |j.results[i].shots| == j.numShots && |j.results[i].shots[0]| == 5
    ensures Histogram(j.results[i].shots) == [Bin(j.results[i].shots[0], j.numShots)]
    ensures Content(j.results[i], HistKeys) == TextCells(j.results[i].shots[0] + "\0")
    ensures Content(j.results[i], HistValues) == [Count(j.numShots)]
  {
    assert ResultInv(j, i);
    ShotCharacters(j, i, 0);
    var shot := j.results[i].shots[0];
    assert j.results[i].shots == Repeated(shot, j.numShots);
    HistogramOfRepeated(shot, j.numShots);
    assert Keys([Bin(shot, j.numShots)]) == [shot] && Counts([Bin(shot, j.numShots)]) == [j.numShots];
    assert CsvText([shot]) == shot + "\0";
  }

  // ----- sizes -----

  /** The size in bytes of every result of a submitted job: six characters for each shot, each histogram key and
      each sparse key, eight bytes for each number. */
  function ByteSize(kind: Kind, shots: nat, nonzero: nat): nat {
    match kind
    case Shots => 6 * shots
    case HistKeys => if shots == 0 then 0 else 6
    case HistValues => if shots == 0 then 0 else 8
    case StateDense => 512
    case ProbabilitiesDense => 256
    case StateSparseKeys => 6 * nonzero
    case ProbabilitiesSparseKeys => 6 * nonzero
    case StateSparseValues => 16 * nonzero
    case ProbabilitiesSparseValues => 8 * nonzero
    case CustomKind => 0
    case InvalidKind => 0
  }

  lemma TextSizes(j: Job, i: nat)
    requires JobInv(j) && i < |j.results|
    ensures var r := j.results[i];
            && |Content(r, Shots)| == 6 * j.numShots
            && |Content(r, HistKeys)| == (if j.numShots == 0 then 0 else 6)
            && |Content(r, HistValues)| == (if j.numShots == 0 then 0 else 1)
  {
    var r := j.results[i];
    ResultsAreWellFormed(j, i);
    if j.numShots > 0 {
      HistogramOfJob(j, i);
      CsvLength(r.shots);
    } else {
      assert r.shots == [];
    }
  }

  lemma SparseSizes(j: Job, i: nat)
    requires JobInv(j) && i < |j.results|
    ensures var r := j.results[i];
            && |Content(r, StateSparseKeys)| == 6 * |Support(r.stateVec)| == |Content(r, ProbabilitiesSparseKeys)|
            && |Content(r, StateSparseValues)| == 2 * |Support(r.stateVec)|
            && |Content(r, ProbabilitiesSparseValues)| == |Support(r.stateVec)|
  {
    ResultsAreWellFormed(j, i);
    FloorLog2OfPow2(QUBITS);
    SparseTextLength(j.results[i].stateVec, QUBITS);
  }

  /** Asking for the size of a result of a job that is done, over every run: the answer depends on the shot count
      and on the number of nonzero amplitudes alone. */
  lemma ReportedSize(calls: seq<Call>, h: nat, i: nat, kind: Kind)
    requires h in Run(START, calls).jobs && i < |Run(START, calls).jobs[h].results| && Supported(kind)
    requires Run(START, calls).jobs[h].status == Done
    ensures var j := Run(START, calls).jobs[h];
            && JobInv(j)
            && GetResults(j, i, kind, 0, false) ==
               Reply(Success, Some(ByteSize(kind, ShotCount(calls, h), |Support(j.results[i].stateVec)|)), [])
  {
    EveryRunIsSafe(calls);
    JobsFollowCalls(calls, h);
    var j := Run(START, calls).jobs[h];
    GetResultsProtocol(j, i, kind, 0);
    ContentBytes(j, i, kind);
  }

  lemma ContentBytes(j: Job, i: nat, kind: Kind)
    requires JobInv(j) && i < |j.results| && Supported(kind)
    ensures |Content(j.results[i], kind)| * ElementSize(kind) ==
            ByteSize(kind, j.numShots, |Support(j.results[i].stateVec)|)
  {
    TextSizes(j, i);
    SparseSizes(j, i);
    StoredStateIsNormalized(j, i);
  }

  // ----- the buffers, cell by cell -----

  function Characters(cells: seq<Cell>): (s: string)
    requires forall k | 0 <= k < |cells| :: cells[k].Char?
    ensures |s| == |cells| && forall k | 0 <= k < |s| :: s[k] == cells[k].c
  {
    seq(|cells|, k requires 0 <= k < |cells| => cells[k].c)
  }

  function Reals(cells: seq<Cell>): (s: seq<real>)
    requires forall k | 0 <= k < |cells| :: cells[k].Double?
    ensures |s| == |cells| && forall k | 0 <= k < |s| :: s[k] == cells[k].d
  {
    seq(|cells|, k requires 0 <= k < |cells| => cells[k].d)
  }

  lemma CharactersOfText(s: string)
    ensures Characters(TextCells(s)) == s
  {
  }

  lemma RealsOfCells(s: seq<real>)
    ensures Reals(RealCells(s)) == s
  {
  }

  /** The sparse buffers of a result as a client reads them: both kinds of keys are the same text; decoded, paired
      with the values and filled with zeros they give the stored vector. */
  lemma SparseBuffersReadBack(j: Job, i: nat)
    requires JobInv(j) && i < |j.results|
    ensures var r := j.results[i];
            var keys, values := Content(r, StateSparseKeys), Content(r, StateSparseValues);
            && keys == Content(r, ProbabilitiesSparseKeys) && keys != []
            && (forall k | 0 <= k < |keys| :: keys[k].Char?) && (forall k | 0 <= k < |values| :: values[k].Double?)
            && var indices, v := ReadKeys(ReadCsv(Characters(keys))), ReadComplex(Reals(values));
               |indices| == |v| && Rebuild(indices, v, 32) == r.stateVec
  {
    SparseContents(j, i);
    var v := j.results[i].stateVec;
    SparseRoundTrip(v, QUBITS);
    CharactersOfText(CsvText(SparseKeys(v, QUBITS)));
    RealsOfCells(Interleave(Amplitudes(v)));
  }

  lemma SparseContents(j: Job, i: nat)
    requires JobInv(j) && i < |j.results|
    ensures var r := j.results[i];
            && |r.stateVec| == 32 == Pow2(QUBITS) && Support(r.stateVec) != []
            && Content(r, StateSparseKeys) == TextCells(CsvText(SparseKeys(r.stateVec, QUBITS)))
            && Content(r, ProbabilitiesSparseKeys) == Content(r, StateSparseKeys)
            && Content(r, StateSparseValues) == RealCells(Interleave(Amplitudes(r.stateVec)))
  {
    ResultsAreWellFormed(j, i);
    StoredStateIsNormalized(j, i);
    FloorLog2OfPow2(QUBITS);
  }

  /** The shot buffer of a result as a client reads it. */
  lemma ShotBufferReadsBack(j: Job, i: nat)
    requires JobInv(j) && i < |j.results| && j.numShots > 0
    ensures var text := Content(j.results[i], Shots);
            && text != [] && (forall k | 0 <= k < |text| :: text[k].Char?)
            && ReadCsv(Characters(text)) == j.results[i].shots
  {
    SubmittedResultsReadBack(j, i);
    CharactersOfText(CsvText(j.results[i].shots));
  }
}
