/** The result writers of the example device: they fill a caller's buffer in place. */
module ResultWriters {
  import opened Outcomes
  import opened Text
  import opened Results
  import opened StateVectors

  /** One element of a caller's buffer: a `char`, a `double` or a `size_t`. */
  datatype Cell = Char(c: char) | Double(d: real) | Count(n: nat)

  /** `sizeof(double)` and `sizeof(size_t)`. */
  const WORD := 8

  datatype Kind =
    | Shots
    | HistKeys
    | HistValues
    | StateDense
    | ProbabilitiesDense
    | StateSparseKeys
    | StateSparseValues
    | ProbabilitiesSparseKeys
    | ProbabilitiesSparseValues
    | CustomKind
    | InvalidKind

  /** The size in bytes of one element of a result. */
  function ElementSize(kind: Kind): nat {
    if kind in {Shots, HistKeys, StateSparseKeys, ProbabilitiesSparseKeys} then 1 else WORD
  }

  function TextCells(s: string): (cells: seq<Cell>)
    ensures |cells| == |s| && forall i | 0 <= i < |s| :: cells[i] == Char(s[i])
  {
    seq(|s|, i requires 0 <= i < |s| => Char(s[i]))
  }

  function RealCells(s: seq<real>): (cells: seq<Cell>)
    ensures |cells| == |s| && forall i | 0 <= i < |s| :: cells[i] == Double(s[i])
  {
    seq(|s|, i requires 0 <= i < |s| => Double(s[i]))
  }

  function CountCells(s: seq<nat>): (cells: seq<Cell>)
    ensures |cells| == |s| && forall i | 0 <= i < |s| :: cells[i] == Count(s[i])
  {
    seq(|s|, i requires 0 <= i < |s| => Count(s[i]))
  }

  lemma TextCellsAppend(s: string, t: string)
    ensures TextCells(s + t) == TextCells(s) + TextCells(t)
  {
  }

  /** The content of a result, as the buffer of a client that asks with enough room. */
  function Content(r: ResultData, kind: Kind): seq<Cell> {
    var n := if |r.stateVec| > 0 then FloorLog2(|r.stateVec|) else 0;
    match kind
    case Shots => if r.shots == [] then [] else TextCells(CsvText(r.shots))
    case HistKeys => if Histogram(r.shots) == [] then [] else TextCells(CsvText(Keys(Histogram(r.shots))))
    case HistValues => CountCells(Counts(Histogram(r.shots)))
    case StateDense => RealCells(Interleave(r.stateVec))
    case ProbabilitiesDense => RealCells(Probabilities(r.stateVec))
    case StateSparseKeys => if Support(r.stateVec) == [] then [] else TextCells(CsvText(SparseKeys(r.stateVec, n)))
    case ProbabilitiesSparseKeys =>
      if Support(r.stateVec) == [] then [] else TextCells(CsvText(SparseKeys(r.stateVec, n)))
    case StateSparseValues => RealCells(Interleave(Amplitudes(r.stateVec)))
    case ProbabilitiesSparseValues => RealCells(Probabilities(Amplitudes(r.stateVec)))
    case _ => []
  }

  /** What one call answers: the code, the value stored through `size_ret` if any, and the cells written from the start
      of the buffer. */
  datatype Reply = Reply(code: Code, sizeRet: Option<nat>, written: seq<Cell>)

  function ShotsReply(r: ResultData, size: nat, hasData: bool): Reply {
    if r.shots == [] then Reply(Success, Some(0), [])
    else
      var req := |r.shots| * (|r.shots[0]| + 1);
      if hasData && size < req then Reply(InvalidArgument, None, [])
      else Reply(Success, Some(req), if hasData then TextCells(CsvText(r.shots)) else [])
  }

  function HistReply(r: ResultData, kind: Kind, size: nat, hasData: bool): Reply {
    var h := Histogram(r.shots);
    if kind == HistKeys then
      var req := |h| * ((if r.shots == [] then 0 else |r.shots[0]|) + 1);
      if hasData && h != [] then
        if size < req then Reply(InvalidArgument, Some(req), [])
        else Reply(Success, Some(req), TextCells(CsvText(Keys(h))))
      else Reply(Success, Some(req), [])
    else
      var req := |h| * WORD;
      if hasData && size < req then Reply(InvalidArgument, Some(req), [])
      else Reply(Success, Some(req), if hasData then CountCells(Counts(h)) else [])
  }

  function StateReply(r: ResultData, size: nat, hasData: bool): Reply {
    var req := |r.stateVec| * 2 * WORD;
    if hasData && size < req then Reply(InvalidArgument, None, [])
    else Reply(Success, Some(req), if hasData then RealCells(Interleave(r.stateVec)) else [])
  }

  function SparseReply(r: ResultData, kind: Kind, size: nat, hasData: bool): Reply
    requires r.stateVec != []
  {
    var v, count := r.stateVec, |Support(r.stateVec)|;
    var n := FloorLog2(|v|);
    match kind
    case StateSparseKeys => SparseKeysReply(v, n, size, hasData)
    case ProbabilitiesSparseKeys => SparseKeysReply(v, n, size, hasData)
    case StateSparseValues =>
      var req := count * 2 * WORD;
      if hasData && size < req then Reply(InvalidArgument, None, [])
      else Reply(Success, Some(req), if hasData then RealCells(Interleave(Amplitudes(v))) else [])
    case _ =>
      // the size counts the nonzero amplitudes, the loop writes one value for each amplitude
      var req := count * WORD;
      if hasData && size < req then Reply(InvalidArgument, None, [])
      else if hasData && size / WORD < |v| then Reply(Undefined, None, [])
      else Reply(Success, Some(req), if hasData then RealCells(Probabilities(v)) else [])
  }

  function SparseKeysReply(v: seq<Complex>, n: nat, size: nat, hasData: bool): Reply {
    var req := |Support(v)| * (n + 1);
    if hasData && size < req then Reply(InvalidArgument, None, [])
    else if hasData && Support(v) == [] then
      // the last comma is looked for before the buffer
      Reply(Undefined, None, [])
    else Reply(Success, Some(req), if hasData then TextCells(CsvText(SparseKeys(v, n))) else [])
  }

  function ProbabilitiesReply(r: ResultData, size: nat, hasData: bool): Reply {
    var req := |r.stateVec| * WORD;
    if hasData && size < req then Reply(InvalidArgument, None, [])
    else Reply(Success, Some(req), if hasData then RealCells(Probabilities(r.stateVec)) else [])
  }

  function ResultReply(r: ResultData, kind: Kind, size: nat, hasData: bool): Reply
    requires r.stateVec != []
  {
    match kind
    case Shots => ShotsReply(r, size, hasData)
    case HistKeys => HistReply(r, kind, size, hasData)
    case HistValues => HistReply(r, kind, size, hasData)
    case StateDense => StateReply(r, size, hasData)
    case StateSparseKeys => SparseReply(r, kind, size, hasData)
    case StateSparseValues => SparseReply(r, kind, size, hasData)
    case ProbabilitiesSparseKeys => SparseReply(r, kind, size, hasData)
    case ProbabilitiesSparseValues => SparseReply(r, kind, size, hasData)
    case ProbabilitiesDense => ProbabilitiesReply(r, size, hasData)
    case CustomKind => Reply(NotSupported, None, [])
    case InvalidKind => Reply(InvalidArgument, None, [])
  }

  // ----- asking for the size, then filling -----

  /** The result of one program over `n` qubits. */
  predicate WellFormed(r: ResultData, n: nat) {
    && EqualLengths(r.shots) && CommaFree(r.shots)
    && |r.stateVec| == Pow2(n) && Support(r.stateVec) != []
  }

  predicate Supported(kind: Kind) { kind != CustomKind && kind != InvalidKind }

  predicate ReportsSize(r: ResultData, kind: Kind, size: nat)
    requires r.stateVec != []
  {
    ResultReply(r, kind, size, false) == Reply(Success, Some(|Content(r, kind)| * ElementSize(kind)), [])
  }

  /** A query without a buffer reports exactly the bytes of the content. */
  lemma QueryReportsSize(r: ResultData, kind: Kind, size: nat, n: nat)
    requires WellFormed(r, n) && Supported(kind)
    ensures ReportsSize(r, kind, size)
  {
    match kind {
      case Shots => ShotsSize(r, size);
      case HistKeys => HistKeysSize(r, size);
      case HistValues => HistValuesSize(r, size);
      case StateDense => DenseSize(r, size);
      case ProbabilitiesDense => DenseSize(r, size);
      case StateSparseValues => SparseValuesSize(r, size);
      case ProbabilitiesSparseValues => SparseValuesSize(r, size);
      case StateSparseKeys => SparseKeysSize(r, n, size);
      case ProbabilitiesSparseKeys => SparseKeysSize(r, n, size);
    }
  }

  lemma ShotsSize(r: ResultData, size: nat)
    requires r.stateVec != [] && EqualLengths(r.shots)
    ensures ReportsSize(r, Shots, size)
  {
    if r.shots != [] { CsvLength(r.shots); }
  }

  lemma HistKeysSize(r: ResultData, size: nat)
    requires r.stateVec != [] && EqualLengths(r.shots)
    ensures ReportsSize(r, HistKeys, size)
    ensures r.shots == [] <==> Histogram(r.shots) == []
  {
    if r.shots != [] {
      HistogramKeyShape(r.shots);
      CsvLength(Keys(Histogram(r.shots)));
    }
  }

  lemma HistValuesSize(r: ResultData, size: nat)
    requires r.stateVec != []
    ensures ReportsSize(r, HistValues, size)
  {
  }

  lemma DenseSize(r: ResultData, size: nat)
    requires r.stateVec != []
    ensures ReportsSize(r, StateDense, size) && ReportsSize(r, ProbabilitiesDense, size)
  {
  }

  lemma SparseValuesSize(r: ResultData, size: nat)
    requires r.stateVec != []
    ensures ReportsSize(r, StateSparseValues, size) && ReportsSize(r, ProbabilitiesSparseValues, size)
  {
  }

  lemma SparseKeysSize(r: ResultData, n: nat, size: nat)
    requires WellFormed(r, n)
    ensures ReportsSize(r, StateSparseKeys, size) && ReportsSize(r, ProbabilitiesSparseKeys, size)
  {
    FloorLog2OfPow2(n);
    SparseKeysSizeOf(r, StateSparseKeys, n, size);
    SparseKeysSizeOf(r, ProbabilitiesSparseKeys, n, size);
  }

  lemma SparseKeysSizeOf(r: ResultData, kind: Kind, n: nat, size: nat)
    requires r.stateVec != [] && FloorLog2(|r.stateVec|) == n && Support(r.stateVec) != []
    requires kind == StateSparseKeys || kind == ProbabilitiesSparseKeys
    ensures ReportsSize(r, kind, size)
  {
    SparseKeysReplySize(r.stateVec, n, size);
    SparseReplyIsKeysReply(r, n, size);
  }

  lemma SparseReplyIsKeysReply(r: ResultData, n: nat, size: nat)
    requires r.stateVec != [] && FloorLog2(|r.stateVec|) == n && Support(r.stateVec) != []
    ensures ResultReply(r, StateSparseKeys, size, false) == SparseKeysReply(r.stateVec, n, size, false)
    ensures ResultReply(r, ProbabilitiesSparseKeys, size, false) == SparseKeysReply(r.stateVec, n, size, false)
    ensures Content(r, StateSparseKeys) == TextCells(CsvText(SparseKeys(r.stateVec, n))) ==
            Content(r, ProbabilitiesSparseKeys)
  {
  }

  lemma SparseKeysReplySize(v: seq<Complex>, n: nat, size: nat)
    requires Support(v) != []
    ensures SparseKeysReply(v, n, size, false) == Reply(Success, Some(|TextCells(CsvText(SparseKeys(v, n)))|), [])
  {
    SparseTextLength(v, n);
  }

  lemma SparseTextLength(v: seq<Complex>, n: nat)
    requires Support(v) != []
    ensures |CsvText(SparseKeys(v, n))| == |Support(v)| * (n + 1)
  {
    SparseKeysShape(v, n);
    CsvLength(SparseKeys(v, n));
  }

  /** The query-then-fill protocol. For every result and kind but one: a fill with at least the reported size
      writes exactly the content; a smaller one is refused and writes nothing. For the sparse probability values
      this holds exactly when no amplitude is zero. */
  lemma QueryThenFill(r: ResultData, kind: Kind, size: nat, n: nat)
    requires WellFormed(r, n) && Supported(kind) && Content(r, kind) != []
    ensures var req := |Content(r, kind)| * ElementSize(kind);
            && (size < req ==> ResultReply(r, kind, size, true).code == InvalidArgument)
            && (size < req ==> ResultReply(r, kind, size, true).written == [])
            && (size >= req && kind != ProbabilitiesSparseValues ==>
                  ResultReply(r, kind, size, true) == Reply(Success, Some(req), Content(r, kind)))
            && (size >= req && kind == ProbabilitiesSparseValues ==>
                  (ResultReply(r, kind, size, true) == Reply(Success, Some(req), Content(r, kind)) <==>
                    NoZeros(r.stateVec)))
  {
    QueryReportsSize(r, kind, size, n);
    if kind == ProbabilitiesSparseValues {
      SparseProbabilitiesFill(r, size);
    } else {
      OtherFills(r, kind, size, n);
    }
  }

  /** The reply to a fill, given the size that a query reports. */
  predicate Fills(r: ResultData, kind: Kind, size: nat, req: nat)
    requires r.stateVec != []
  {
    var reply := ResultReply(r, kind, size, true);
    if size < req then reply.code == InvalidArgument && reply.written == []
    else reply == Reply(Success, Some(req), Content(r, kind))
  }

  lemma OtherFills(r: ResultData, kind: Kind, size: nat, n: nat)
    requires WellFormed(r, n) && Supported(kind) && kind != ProbabilitiesSparseValues && Content(r, kind) != []
    requires ReportsSize(r, kind, size)
    ensures Fills(r, kind, size, |Content(r, kind)| * ElementSize(kind))
  {
    match kind {
      case StateSparseKeys => SparseKeysFill(r, kind, size);
      case ProbabilitiesSparseKeys => SparseKeysFill(r, kind, size);
      case _ =>
    }
  }

  lemma SparseKeysFill(r: ResultData, kind: Kind, size: nat)
    requires kind == StateSparseKeys || kind == ProbabilitiesSparseKeys
    requires r.stateVec != [] && Support(r.stateVec) != [] && ReportsSize(r, kind, size)
    ensures Fills(r, kind, size, |Content(r, kind)| * ElementSize(kind))
  {
  }

  lemma SparseProbabilitiesFill(r: ResultData, size: nat)
    requires r.stateVec != [] && ReportsSize(r, ProbabilitiesSparseValues, size)
    ensures var req := |Content(r, ProbabilitiesSparseValues)| * WORD;
            var reply := ResultReply(r, ProbabilitiesSparseValues, size, true);
            && (size < req ==> reply.code == InvalidArgument && reply.written == [])
            && (size >= req ==>
                 (reply == Reply(Success, Some(req), Content(r, ProbabilitiesSparseValues)) <==> NoZeros(r.stateVec)))
  {
    FullSupport(r.stateVec);
    SparseProbabilitiesAreDense(r.stateVec);
    assert |RealCells(Probabilities(r.stateVec))| == |r.stateVec|;
  }

  /** With a zero amplitude, a buffer of exactly the reported size is overrun. */
  lemma SparseProbabilitiesOverrun(r: ResultData, n: nat)
    requires WellFormed(r, n)
    ensures var req := |Content(r, ProbabilitiesSparseValues)| * WORD;
            ResultReply(r, ProbabilitiesSparseValues, req, true).code == Undefined <==> !NoZeros(r.stateVec)
  {
    FullSupport(r.stateVec);
    QueryReportsSize(r, ProbabilitiesSparseValues, 0, n);
  }

  // ----- the writers -----

  /** A buffer after its first cells have been overwritten. */
  function Patched(before: seq<Cell>, written: seq<Cell>): (after: seq<Cell>)
    requires |written| <= |before|
    ensures |after| == |before|
  {
    written + before[|written|..]
  }

  lemma PatchedNext(before: seq<Cell>, written: seq<Cell>, cell: Cell)
    requires |written| < |before|
    ensures Patched(before, written)[|written| := cell] == Patched(before, written + [cell])
  {
  }

  /** `std::ranges::copy` of a string to the write position. */
  method CopyText(
      text: string, data: array<Cell>, pos: nat, ghost before: seq<Cell>, ghost done: string) returns (next: nat)
    requires pos == |done| && pos + |text| <= data.Length == |before|
    requires data[..] == Patched(before, TextCells(done))
    modifies data
    ensures next == pos + |text|
    ensures data[..] == Patched(before, TextCells(done + text))
  {
    next := pos;
    assert done + text[..0] == done;
    for i := 0 to |text|
      invariant next == pos + i
      invariant data[..] == Patched(before, TextCells(done + text[..i]))
    {
      data[next] := Char(text[i]);
      TextStep(before, done + text[..i], text[i], done + text[..i + 1]);
      next := next + 1;
    }
    assert text[..|text|] == text;
  }

  lemma TextStep(before: seq<Cell>, done: string, c: char, more: string)
    requires more == done + [c] && |more| <= |before|
    ensures Patched(before, TextCells(done))[|done| := Char(c)] == Patched(before, TextCells(more))
  {
    TextCellsAppend(done, [c]);
    PatchedNext(before, TextCells(done), Char(c));
    assert TextCells([c]) == [Char(c)];
  }

  /** `*data_ptr++ = c` */
  method PutChar(c: char, data: array<Cell>, pos: nat, ghost before: seq<Cell>, ghost done: string) returns (next: nat)
    requires pos == |done| && pos < data.Length == |before|
    requires data[..] == Patched(before, TextCells(done))
    modifies data
    ensures next == pos + 1
    ensures data[..] == Patched(before, TextCells(done + [c]))
  {
    data[pos] := Char(c);
    TextStep(before, done, c, done + [c]);
    next := pos + 1;
  }

  lemma ListedStep(keys: seq<string>, i: nat)
    requires i < |keys|
    ensures Listed(keys[..i + 1]) == Listed(keys[..i]) + keys[i] + ","
  {
    assert keys[..i + 1][..i] == keys[..i];
  }

  lemma Multiples(i: nat, m: nat, w: nat)
    requires i <= m
    ensures i * w <= m * w && (i < m ==> i * w + w <= m * w)
  {
    assert m * w == i * w + (m - i) * w;
    if i < m {
      assert (m - i) * w == w + (m - i - 1) * w;
    }
  }

  lemma ListedFits(keys: seq<string>, i: nat, n: nat)
    requires i <= |keys| && forall k | 0 <= k < |keys| :: |keys[k]| == n
    ensures |Listed(keys[..i])| == i * (n + 1) <= |keys| * (n + 1)
    ensures i < |keys| ==> |Listed(keys[..i])| + n + 1 <= |keys| * (n + 1)
  {
    ListedLength(keys[..i], n);
    Multiples(i, |keys|, n + 1);
  }

  lemma JoinFromListed(keys: seq<string>)
    requires keys != []
    ensures Join(keys, ",") == Listed(keys[..|keys| - 1]) + keys[|keys| - 1]
  {
    ListedIsJoin(keys);
    var a, b := Join(keys, ","), Listed(keys[..|keys| - 1]) + keys[|keys| - 1];
    assert a + "," == b + ",";
    assert (a + ",")[..|a|] == a && (b + ",")[..|b|] == b;
  }

  /** The text with the last comma overwritten by a NUL. */
  lemma LastCommaReplaced(before: seq<Cell>, keys: seq<string>)
    requires keys != [] && |Listed(keys)| <= |before|
    ensures |Listed(keys)| > 0 && |CsvText(keys)| == |Listed(keys)|
    ensures Patched(before, TextCells(Listed(keys)))[|Listed(keys)| - 1 := Char('\0')] ==
            Patched(before, TextCells(CsvText(keys)))
  {
    ListedIsJoin(keys);
    var body := Join(keys, ",");
    assert Listed(keys) == body + "," && CsvText(keys) == body + "\0";
  }

  /** The text written after `i` shots. */
  function ShotsWritten(shots: seq<string>, i: nat): string
    requires shots != [] && i <= |shots|
  {
    if i == |shots| then CsvText(shots) else Listed(shots[..i])
  }

  lemma ShotStep(shots: seq<string>, n: nat, i: nat)
    requires (forall k | 0 <= k < |shots| :: |shots[k]| == n) && i < |shots|
    ensures ShotsWritten(shots, i + 1) == ShotsWritten(shots, i) + shots[i] + (if i + 1 != |shots| then "," else "\0")
    ensures |ShotsWritten(shots, i)| + n + 1 <= |shots| * (n + 1)
  {
    ListedFits(shots, i, n);
    if i + 1 != |shots| {
      ListedStep(shots, i);
    } else {
      JoinFromListed(shots);
    }
  }

  /** The shot loop: a comma behind each shot but the last, a NUL behind that. */
  method WriteShots(shots: seq<string>, n: nat, data: array<Cell>)
    requires shots != [] && (forall k | 0 <= k < |shots| :: |shots[k]| == n) && |shots| * (n + 1) <= data.Length
    modifies data
    ensures |CsvText(shots)| <= data.Length && data[..] == Patched(old(data[..]), TextCells(CsvText(shots)))
  {
    ghost var before, done := data[..], "";
    var pos := 0;
    for i := 0 to |shots|
      invariant done == ShotsWritten(shots, i) && pos == |done| <= data.Length
      invariant data[..] == Patched(before, TextCells(done))
    {
      ShotStep(shots, n, i);
      pos := CopyText(shots[i], data, pos, before, done);
      var separator := if i + 1 != |shots| then ',' else '\0';
      pos := PutChar(separator, data, pos, before, done + shots[i]);
      done := done + shots[i] + [separator];
    }
  }

  method GetResultsShots(r: ResultData, size: nat, data: array?<Cell>) returns (code: Code, sizeRet: Option<nat>)
    requires data != null ==> data.Length == size
    requires EqualLengths(r.shots)
    modifies data
    ensures var reply := ShotsReply(r, size, data != null);
            && (code, sizeRet) == (reply.code, reply.sizeRet)
            && (data != null ==> |reply.written| <= size && data[..] == Patched(old(data[..]), reply.written))
  {
    if r.shots == [] {
      return Success, Some(0);
    }
    var n := |r.shots[0]|;
    var reqSize := |r.shots| * (n + 1);
    if data != null {
      if size < reqSize {
        return InvalidArgument, None;
      }
      WriteShots(r.shots, n, data);
    }
    return Success, Some(reqSize);
  }

  method GetResultsHist(
      r: ResultData, kind: Kind, size: nat, data: array?<Cell>) returns (code: Code, sizeRet: Option<nat>)
    requires kind == HistKeys || kind == HistValues
    requires data != null ==> data.Length == size / ElementSize(kind)
    requires EqualLengths(r.shots)
    modifies data
    ensures var reply := HistReply(r, kind, size, data != null);
            && (code, sizeRet) == (reply.code, reply.sizeRet)
            && (data != null ==> |reply.written| <= data.Length && data[..] == Patched(old(data[..]), reply.written))
  {
    var hist: seq<Bin> := [];
    for i := 0 to |r.shots|
      invariant hist == Histogram(r.shots[..i])
    {
      hist := Bump(hist, r.shots[i]);
      assert r.shots[..i + 1][..i] == r.shots[..i];
    }
    assert r.shots[..|r.shots|] == r.shots;
    if kind == HistKeys {
      var bitstringSize := if r.shots == [] then 0 else |r.shots[0]|;
      var reqSize := |hist| * (bitstringSize + 1);
      sizeRet := Some(reqSize);
      if data != null && hist != [] {
        if size < reqSize {
          return InvalidArgument, sizeRet;
        }
        HistogramKeyShape(r.shots);
        WriteKeys(Keys(hist), bitstringSize, data);
      }
    } else {
      var reqSize := |hist| * WORD;
      sizeRet := Some(reqSize);
      if data != null {
        if size < reqSize {
          return InvalidArgument, sizeRet;
        }
        WriteCounts(hist, data);
      }
    }
    return Success, sizeRet;
  }

  /** The value loop of the histogram. */
  method WriteCounts(hist: seq<Bin>, data: array<Cell>)
    requires |hist| <= data.Length
    modifies data
    ensures data[..] == Patched(old(data[..]), CountCells(Counts(hist)))
  {
    ghost var before, cells := data[..], CountCells(Counts(hist));
    for i := 0 to |hist|
      invariant data[..] == Patched(before, cells[..i])
    {
      data[i] := Count(hist[i].count);
      PatchedNext(before, cells[..i], cells[i]);
      assert cells[..i + 1] == cells[..i] + [cells[i]];
    }
    assert cells[..|hist|] == cells;
  }

  /** The key loop of the histogram: each key and a comma, then the last comma becomes a NUL. */
  method WriteKeys(keys: seq<string>, n: nat, data: array<Cell>)
    requires keys != [] && (forall k | 0 <= k < |keys| :: |keys[k]| == n) && |keys| * (n + 1) <= data.Length
    modifies data
    ensures |CsvText(keys)| == |keys| * (n + 1)
    ensures data[..] == Patched(old(data[..]), TextCells(CsvText(keys)))
  {
    ghost var before := data[..];
    var pos := 0;
    for i := 0 to |keys|
      invariant pos == |Listed(keys[..i])| <= data.Length
      invariant data[..] == Patched(before, TextCells(Listed(keys[..i])))
    {
      ghost var done := Listed(keys[..i]);
      ListedFits(keys, i, n);
      ListedStep(keys, i);
      pos := CopyText(keys[i], data, pos, before, done);
      pos := PutChar(',', data, pos, before, done + keys[i]);
    }
    assert keys[..|keys|] == keys;
    LastCommaReplaced(before, keys);
    ListedFits(keys, |keys|, n);
    data[pos - 1] := Char('\0');
  }

  method GetResultsStatevector(r: ResultData, size: nat, data: array?<Cell>) returns (code: Code, sizeRet: Option<nat>)
    requires data != null ==> data.Length == size / WORD
    modifies data
    ensures var reply := StateReply(r, size, data != null);
            && (code, sizeRet) == (reply.code, reply.sizeRet)
            && (data != null ==> |reply.written| <= data.Length && data[..] == Patched(old(data[..]), reply.written))
  {
    var reqSize := |r.stateVec| * 2 * WORD;
    if data != null {
      if size < reqSize {
        return InvalidArgument, None;
      }
      var cells := RealCells(Interleave(r.stateVec));
      forall i | 0 <= i < |cells| {
        data[i] := cells[i];
      }
    }
    return Success, Some(reqSize);
  }

  /** The probability loop, one value for each amplitude; it fails when it would run past the end of the buffer. */
  method FillProbabilities(v: seq<Complex>, data: array<Cell>) returns (filled: bool)
    modifies data
    ensures filled <==> |v| <= data.Length
    ensures filled ==> data[..] == Patched(old(data[..]), RealCells(Probabilities(v)))
  {
    ghost var before, cells := data[..], RealCells(Probabilities(v));
    for i := 0 to |v|
      invariant i <= data.Length && data[..] == Patched(before, cells[..i])
    {
      if i == data.Length {
        return false;
      }
      data[i] := Double(Norm(v[i]));
      PatchedNext(before, cells[..i], cells[i]);
      assert cells[..i + 1] == cells[..i] + [cells[i]];
    }
    assert cells[..|v|] == cells;
    return true;
  }

  method GetResultsProbabilities(
      r: ResultData, size: nat, data: array?<Cell>) returns (code: Code, sizeRet: Option<nat>)
    requires data != null ==> data.Length == size / WORD
    modifies data
    ensures var reply := ProbabilitiesReply(r, size, data != null);
            && (code, sizeRet) == (reply.code, reply.sizeRet)
            && (data != null ==> |reply.written| <= data.Length && data[..] == Patched(old(data[..]), reply.written))
  {
    var reqSize := |r.stateVec| * WORD;
    if data != null {
      if size < reqSize {
        return InvalidArgument, None;
      }
      var filled := FillProbabilities(r.stateVec, data);
    }
    return Success, Some(reqSize);
  }

  lemma SupportStep(v: seq<Complex>, i: nat)
    requires i < |v|
    ensures Support(v[..i + 1]) == Support(v[..i]) + (if Nonzero(v[i]) then [i] else [])
  {
    assert v[..i + 1][..i] == v[..i];
  }

  lemma {:induction false} SupportPrefix(v: seq<Complex>, i: nat)
    requires i <= |v|
    ensures Support(v[..i]) <= Support(v)
    ensures i < |v| && Nonzero(v[i]) ==> |Support(v[..i])| < |Support(v)|
    decreases |v| - i
  {
    if i == |v| {
      assert v[..i] == v;
    } else {
      SupportPrefix(v, i + 1);
      SupportStep(v, i);
    }
  }

  method CountNonzero(v: seq<Complex>) returns (count: nat)
    ensures count == |Support(v)|
  {
    count := 0;
    for i := 0 to |v|
      invariant count == |Support(v[..i])|
    {
      SupportStep(v, i);
      if Nonzero(v[i]) {
        count := count + 1;
      }
    }
    assert v[..|v|] == v;
  }

  method GetResultsSparse(
      r: ResultData, kind: Kind, size: nat, data: array?<Cell>) returns (code: Code, sizeRet: Option<nat>)
    requires kind in {StateSparseKeys, ProbabilitiesSparseKeys, StateSparseValues, ProbabilitiesSparseValues}
    requires data != null ==> data.Length == size / ElementSize(kind)
    requires r.stateVec != []
    modifies data
    ensures var reply := SparseReply(r, kind, size, data != null);
            && code == reply.code
            && (code != Undefined ==> sizeRet == reply.sizeRet)
            && (code != Undefined && data != null ==>
                  |reply.written| <= data.Length && data[..] == Patched(old(data[..]), reply.written))
  {
    var v := r.stateVec;
    var count := CountNonzero(v);
    var numQubits := FloorLog2(|v|);
    sizeRet := None;
    match kind {
      case StateSparseKeys =>
        code, sizeRet := GetResultsSparseKeys(v, numQubits, count, size, data);
      case ProbabilitiesSparseKeys =>
        code, sizeRet := GetResultsSparseKeys(v, numQubits, count, size, data);
      case StateSparseValues =>
        var reqSize := count * 2 * WORD;
        if data != null {
          if size < reqSize {
            return InvalidArgument, None;
          }
          WriteAmplitudes(v, data);
        }
        return Success, Some(reqSize);
      case ProbabilitiesSparseValues =>
        var reqSize := count * WORD;
        if data != null {
          if size < reqSize {
            return InvalidArgument, None;
          }
          var filled := FillProbabilities(v, data);
          if !filled {
            return Undefined, None;
          }
        }
        return Success, Some(reqSize);
    }
  }

  method GetResultsSparseKeys(v: seq<Complex>, n: nat, count: nat, size: nat, data: array?<Cell>)
    returns (code: Code, sizeRet: Option<nat>)
    requires count == |Support(v)| && (data != null ==> data.Length == size)
    modifies data
    ensures var reply := SparseKeysReply(v, n, size, data != null);
            && code == reply.code
            && (code != Undefined ==> sizeRet == reply.sizeRet)
            && (code != Undefined && data != null ==>
                  |reply.written| <= size && data[..] == Patched(old(data[..]), reply.written))
  {
    var reqSize := count * (n + 1);
    if data != null {
      if size < reqSize {
        return InvalidArgument, None;
      }
      var filled := FillSparseKeys(v, n, data);
      if !filled {
        return Undefined, None;
      }
    }
    return Success, Some(reqSize);
  }

  /** Keys and commas, then a NUL over the last comma, if there is one. */
  method FillSparseKeys(v: seq<Complex>, n: nat, data: array<Cell>) returns (filled: bool)
    requires |Support(v)| * (n + 1) <= data.Length
    modifies data
    ensures filled <==> Support(v) != []
    ensures filled ==> |CsvText(SparseKeys(v, n))| <= data.Length &&
                       data[..] == Patched(old(data[..]), TextCells(CsvText(SparseKeys(v, n))))
  {
    var pos := WriteSparseKeys(v, n, data);
    EmptyListing(SparseKeys(v, n));
    if pos == 0 {
      return false;
    }
    LastCommaReplaced(old(data[..]), SparseKeys(v, n));
    data[pos - 1] := Char('\0');
    return true;
  }

  /** The key loop: every nonzero index and a comma. */
  method WriteSparseKeys(v: seq<Complex>, n: nat, data: array<Cell>) returns (pos: nat)
    requires |Support(v)| * (n + 1) <= data.Length
    modifies data
    ensures pos == |Listed(SparseKeys(v, n))| <= data.Length
    ensures data[..] == Patched(old(data[..]), TextCells(Listed(SparseKeys(v, n))))
  {
    ghost var before, keys, k := data[..], SparseKeys(v, n), 0;
    pos := 0;
    for i := 0 to |v|
      invariant k == |Support(v[..i])| <= |keys|
      invariant pos == |Listed(keys[..k])| <= data.Length
      invariant data[..] == Patched(before, TextCells(Listed(keys[..k])))
    {
      SupportAt(v, i);
      if Nonzero(v[i]) {
        pos := WriteSparseKey(i, keys, k, n, data, pos, before);
        k := k + 1;
      }
    }
    assert v[..|v|] == v && keys[..k] == keys;
  }

  /** One key and its comma. */
  method WriteSparseKey(
      i: nat, ghost keys: seq<string>, ghost k: nat, n: nat, data: array<Cell>, pos: nat, ghost before: seq<Cell>)
    returns (next: nat)
    requires k < |keys| && keys[k] == Bits(i, n) && (forall j | 0 <= j < |keys| :: |keys[j]| == n)
    requires |keys| * (n + 1) <= data.Length == |before| && pos == |Listed(keys[..k])| <= data.Length
    requires data[..] == Patched(before, TextCells(Listed(keys[..k])))
    modifies data
    ensures next == |Listed(keys[..k + 1])| <= data.Length
    ensures data[..] == Patched(before, TextCells(Listed(keys[..k + 1])))
  {
    ghost var done := Listed(keys[..k]);
    ListedFits(keys, k, n);
    ListedStep(keys, k);
    next := WriteBits(i, n, data, pos, before, done);
    next := PutChar(',', data, next, before, done + keys[k]);
  }

  /** The next nonzero amplitude is the next entry of the support. */
  lemma SupportAt(v: seq<Complex>, i: nat)
    requires i < |v|
    ensures var k := |Support(v[..i])|;
            if Nonzero(v[i]) then k < |Support(v)| && Support(v)[k] == i && |Support(v[..i + 1])| == k + 1
            else |Support(v[..i + 1])| == k
  {
    SupportStep(v, i);
    SupportPrefix(v, i + 1);
    assert Support(v[..i + 1]) <= Support(v);
  }

  lemma EmptyListing(keys: seq<string>)
    ensures Listed(keys) == [] <==> keys == []
  {
  }

  /** The bit loop of one sparse key. */
  method WriteBits(
      i: nat, n: nat, data: array<Cell>, pos: nat, ghost before: seq<Cell>, ghost done: string) returns (next: nat)
    requires pos == |done| && pos + n <= data.Length == |before|
    requires data[..] == Patched(before, TextCells(done))
    modifies data
    ensures next == pos + n
    ensures data[..] == Patched(before, TextCells(done + Bits(i, n)))
  {
    next := pos;
    assert done + Bits(i, n)[..0] == done;
    for j := 0 to n
      invariant next == pos + j
      invariant data[..] == Patched(before, TextCells(done + Bits(i, n)[..j]))
    {
      BitsAt(i, n, j);
      data[next] := Char(BitChar(Bit(i, n - j - 1)));
      TextStep(before, done + Bits(i, n)[..j], Bits(i, n)[j], done + Bits(i, n)[..j + 1]);
      next := next + 1;
    }
    assert Bits(i, n)[..n] == Bits(i, n);
  }

  /** The value loop: real and imaginary part of every nonzero amplitude. */
  method WriteAmplitudes(v: seq<Complex>, data: array<Cell>)
    requires 2 * |Support(v)| <= data.Length
    modifies data
    ensures data[..] == Patched(old(data[..]), RealCells(Interleave(Amplitudes(v))))
  {
    ghost var before, a, k := data[..], Amplitudes(v), 0;
    var pos := 0;
    assert a[..0] == [];
    for i := 0 to |v|
      invariant k == |Support(v[..i])| <= |a| && pos == 2 * k
      invariant data[..] == Patched(before, RealCells(Interleave(a[..k])))
    {
      SupportAt(v, i);
      if Nonzero(v[i]) {
        NextAmplitude(v, i, k);
        pos := PutComplex(v[i], data, pos, before, a[..k]);
        k := k + 1;
      }
    }
    assert v[..|v|] == v && a[..k] == a;
  }

  lemma NextAmplitude(v: seq<Complex>, i: nat, k: nat)
    requires i < |v| && k < |Support(v)| && Support(v)[k] == i
    ensures Amplitudes(v)[..k + 1] == Amplitudes(v)[..k] + [v[i]]
  {
    assert Amplitudes(v)[k] == v[i];
  }

  /** `*data_ptr++ = c.real(); *data_ptr++ = c.imag();` */
  method PutComplex(
      c: Complex, data: array<Cell>, pos: nat, ghost before: seq<Cell>, ghost done: seq<Complex>) returns (next: nat)
    requires pos == 2 * |done| && pos + 2 <= data.Length == |before|
    requires data[..] == Patched(before, RealCells(Interleave(done)))
    modifies data
    ensures next == pos + 2
    ensures data[..] == Patched(before, RealCells(Interleave(done + [c])))
  {
    InterleaveStep(before, done, c);
    data[pos] := Double(c.re);
    data[pos + 1] := Double(c.im);
    next := pos + 2;
  }

  lemma InterleaveStep(before: seq<Cell>, a: seq<Complex>, c: Complex)
    requires 2 * |a| + 2 <= |before|
    ensures Patched(before, RealCells(Interleave(a)))[2 * |a| := Double(c.re)][2 * |a| + 1 := Double(c.im)] ==
            Patched(before, RealCells(Interleave(a + [c])))
  {
    var s := Interleave(a);
    InterleaveSnoc(a, c);
    RealCellsPair(s, c.re, c.im);
    PatchedNext(before, RealCells(s), Double(c.re));
    PatchedNext(before, RealCells(s) + [Double(c.re)], Double(c.im));
  }

  lemma RealCellsPair(s: seq<real>, x: real, y: real)
    ensures RealCells(s + [x, y]) == RealCells(s) + [Double(x)] + [Double(y)]
  {
  }

  lemma InterleaveSnoc(a: seq<Complex>, c: Complex)
    ensures Interleave(a + [c]) == Interleave(a) + [c.re, c.im]
  {
    assert (a + [c])[..|a|] == a;
  }
}
