/** Structured circuits over at most two qubits, their printed form, and what the pass does to it. */
module Circuits {
  import opened Outcomes
  import opened Text
  import opened Substitution
  import opened Tool
  import opened Pieces

  datatype Instruction =
    | Gate(head: string, qubits: seq<nat>)                     // `rx(0.5) q[0];`, `cx q[0], q[1];`, `barrier q[0];`
    | GateAll(head: string)                                    // `h q;`, on the whole register
    | Measure(qubit: nat, register: string, bit: nat)          // `measure q[0] -> c[1];`
    | MeasureAll(register: string)                             // `measure q -> c;`
    | Classical(register: string, size: nat)                   // `creg c[2];`

  /** A circuit over one quantum register named `q`. */
  datatype Circuit = Circuit(width: nat, body: seq<Instruction>)

  const HEADER := "OPENQASM 2.0;\ninclude \"qelib1.inc\";\n"

  predicate EndsInQ(register: string) {
    register != [] && register[|register| - 1] == 'q'
  }

  /** A register reference `name[index]`. The pass cannot tell it from a qubit when the name ends in `q`. */
  function RegisterPiece(before: string, register: string, index: nat): Piece {
    if EndsInQ(register) then Ref(before + register[..|register| - 1], index)
    else Lit(before + register + "[" + Decimal(index) + "]")
  }

  function OperandPieces(qubits: seq<nat>): (ps: seq<Piece>)
    ensures |ps| == |qubits|
    ensures forall k | 0 <= k < |ps| :: ps[k] == Ref(if k == 0 then "" else ", ", qubits[k])
  {
    seq(|qubits|, k requires 0 <= k < |qubits| => Ref(if k == 0 then "" else ", ", qubits[k]))
  }

  function InstructionPieces(i: Instruction): seq<Piece> {
    match i
    case Gate(head, qubits) => [Lit(head + " ")] + OperandPieces(qubits) + [Lit(";\n")]
    case GateAll(head) => [Lit(head + " q;\n")]
    case MeasureAll(register) => [Lit("measure q -> " + (register + ";\n"))]
    case Measure(qubit, register, bit) =>
      [Lit("measure "), Ref("", qubit), RegisterPiece(" -> ", register, bit), Lit(";\n")]
    case Classical(register, size) => [RegisterPiece("creg ", register, size), Lit(";\n")]
  }

  function BodyPieces(body: seq<Instruction>): seq<Piece> {
    if body == [] then [] else InstructionPieces(body[0]) + BodyPieces(body[1..])
  }

  function CircuitPieces(c: Circuit): seq<Piece> {
    HeadPieces(c.width) + BodyPieces(c.body)
  }

  function HeadPieces(width: nat): seq<Piece> {
    [Lit(HEADER), Declaration(width), Lit("\n")]
  }

  function Print(c: Circuit): string { Flatten(CircuitPieces(c)) }

  /** A name, and parameters in parentheses, if any. */
  predicate IsHead(head: string) {
    exists k :: 0 < k <= |head| && IsName(head[..k]) && (k == |head| || IsParameterList(head[k..]))
  }

  predicate IsParameterList(s: string) {
    |s| >= 2 && s[0] == '(' && s[|s| - 1] == ')' && ';' !in s
  }

  predicate ValidInstruction(i: Instruction, width: nat) {
    match i
    case Gate(head, qubits) =>
      IsHead(head) && Inert(head + " ") && qubits != [] && forall k | 0 <= k < |qubits| :: qubits[k] < width
    case GateAll(head) => IsHead(head) && Inert(head + " ")
    case MeasureAll(register) => IsName(register)
    case Measure(qubit, register, _) => qubit < width && IsName(register)
    case Classical(register, _) => IsName(register)
  }

  predicate ValidBody(c: Circuit) {
    forall k | 0 <= k < |c.body| :: ValidInstruction(c.body[k], c.width)
  }

  predicate ValidCircuit(c: Circuit) {
    c.width <= 2 && ValidBody(c)
  }

  function RelabelInstruction(i: Instruction, t: Target): Instruction {
    match i
    case Gate(head, qubits) => Gate(head, seq(|qubits|, k requires 0 <= k < |qubits| => Relabel(t, qubits[k])))
    case Measure(qubit, register, bit) => Measure(Relabel(t, qubit), register, bit)
    case _ => i
  }

  function RelabelBody(body: seq<Instruction>, t: Target): (r: seq<Instruction>)
    ensures |r| == |body| && forall k | 0 <= k < |body| :: r[k] == RelabelInstruction(body[k], t)
  {
    seq(|body|, k requires 0 <= k < |body| => RelabelInstruction(body[k], t))
  }

  /** The circuit on the device's register, with its qubits moved to the chosen edge. */
  function RelabelCircuit(c: Circuit, t: Target): Circuit {
    Circuit(t.qubits, RelabelBody(c.body, t))
  }

  /** A classical reference that the pass mistakes for a qubit and moves. */
  predicate Captured(i: Instruction, t: Target) {
    match i
    case Measure(_, register, bit) => EndsInQ(register) && Relabel(t, bit) != bit
    case Classical(register, size) => EndsInQ(register) && Relabel(t, size) != size
    case _ => false
  }

  predicate NoCapture(body: seq<Instruction>, t: Target) {
    forall k | 0 <= k < |body| :: !Captured(body[k], t)
  }

  /** A name followed by a bracket is inert unless it ends in `q`; up to that `q` it is inert before a reference. */
  lemma NameIsInert(before: string, name: string, tail: string)
    requires IsName(name) && 'q' !in before && 'q' !in tail && tail != [] && tail[0] == '['
    ensures !EndsInQ(name) ==> Inert(before + name + tail)
    ensures EndsInQ(name) ==> InertBefore(before + name[..|name| - 1])
  {
    var n, b := |name|, |before|;
    if !EndsInQ(name) {
      var s := before + name + tail;
      assert forall i | 0 <= i < b :: s[i] == before[i] != 'q';
      assert forall i | b + n <= i < |s| :: s[i] == tail[i - b - n] != 'q';
      forall i | 0 <= i < |s| && s[i] == 'q' ensures Blocked(s, i) {
        assert b <= i < b + n - 1;
        assert IsWordChar(name[i + 1 - b]);
        var d := if i + 4 < b + n then 4 else b + n - i;
        assert s[i + d] == if d == 4 && i + 4 < b + n then name[i + 4 - b] else '[';
        assert s[i + d] != QREG[d];
      }
    } else {
      var x := before + name[..n - 1];
      var s := x + "q";
      assert s == before + name;
      assert forall i | 0 <= i < b :: s[i] == before[i] != 'q';
      forall i | 0 <= i < |x| && s[i] == 'q' ensures Blocked(s, i) {
        assert b <= i;
        assert IsWordChar(name[i + 1 - b]);
        var d := if i + 4 < b + n then 4 else b + n - 1 - i;
        assert s[i + d] == name[i + d - b];
        assert s[i + d] != QREG[d];
      }
    }
  }

  lemma DecimalHasNoQ(n: nat)
    ensures 'q' !in "[" + Decimal(n) + "]"
  {
  }

  lemma InstructionIsValid(i: Instruction, width: nat)
    requires ValidInstruction(i, width)
    ensures ValidPieces(InstructionPieces(i), width)
  {
    assert Inert(";\n") && Inert("measure ") && InertBefore("");
    match i
    case Gate(head, qubits) =>
      assert InertBefore(", ");
    case GateAll(head) => WholeGateIsInert(head);
    case MeasureAll(register) => WholeMeasureIsInert(register);
    case Measure(_, register, bit) => RegisterIsValid(" -> ", register, bit, width);
    case Classical(register, size) => RegisterIsValid("creg ", register, size, width);
  }

  lemma WholeGateIsInert(head: string)
    requires Inert(head + " ")
    ensures Inert(head + " q;\n")
  {
    var s := head + " q;\n";
    assert s == (head + " ") + "q;\n";
    forall i | 0 <= i < |s| ensures Blocked(s, i) {
      if i <= |head| {
        BlockedExtends(head + " ", "q;\n", i);
      } else if i == |head| + 1 {
        assert s[i + 1] == ';' != QREG[1];
      }
    }
  }

  lemma WholeMeasureIsInert(register: string)
    requires IsName(register)
    ensures Inert("measure q -> " + (register + ";\n"))
  {
    var s, n := "measure q -> " + (register + ";\n"), |register|;
    assert forall k | 0 <= k < n :: s[13 + k] == register[k] && IsWordChar(register[k]);
    assert s[13 + n] == ';';
    forall i | 0 <= i < |s| && s[i] == 'q' ensures Blocked(s, i) {
      if i < 13 {
        assert i == 8 && s[9] == ' ' != QREG[1];
      } else {
        var d := if i + 4 < 13 + n then 4 else 13 + n - i;
        assert s[i + d] != QREG[d];
        assert s[i + 1] != '[';
      }
    }
  }

  lemma RegisterIsValid(before: string, register: string, index: nat, width: nat)
    requires IsName(register) && 'q' !in before
    ensures ValidPiece(RegisterPiece(before, register, index), width)
  {
    DecimalHasNoQ(index);
    NameIsInert(before, register, "[" + Decimal(index) + "]");
    if EndsInQ(register) {
    } else {
      assert before + register + "[" + Decimal(index) + "]" == before + register + ("[" + Decimal(index) + "]");
    }
  }

  lemma {:induction false} BodyIsValid(body: seq<Instruction>, width: nat)
    requires forall k | 0 <= k < |body| :: ValidInstruction(body[k], width)
    ensures ValidPieces(BodyPieces(body), width) && Declared(BodyPieces(body)) == []
  {
    if body != [] {
      InstructionIsValid(body[0], width);
      BodyIsValid(body[1..], width);
      NothingDeclared(InstructionPieces(body[0]));
      DeclaredAppend(InstructionPieces(body[0]), BodyPieces(body[1..]));
    }
  }

  lemma {:induction false} DeclaredAppend(ps: seq<Piece>, qs: seq<Piece>)
    ensures Declared(ps + qs) == Declared(ps) + Declared(qs)
  {
    if ps == [] {
      assert ps + qs == qs;
    } else {
      DeclaredAppend(ps[1..], qs);
      HeadAndTail(ps, qs);
      Assoc(PieceSizes(ps[0]), Declared(ps[1..]), Declared(qs));
    }
  }

  lemma {:induction false} NothingDeclared(ps: seq<Piece>)
    requires forall k | 0 <= k < |ps| :: PieceSizes(ps[k]) == []
    ensures Declared(ps) == []
  {
    if ps != [] {
      NothingDeclared(ps[1..]);
    }
  }

  lemma HeadIsValid(width: nat)
    ensures ValidPieces(HeadPieces(width), width) && Declared(HeadPieces(width)) == [width]
  {
    HeaderIsInert();
    var head := HeadPieces(width);
    assert head[1..] == [Declaration(width), Lit("\n")];
    assert head[1..][1..] == [Lit("\n")];
    NothingDeclared([Lit("\n")]);
    assert Declared(head[1..]) == [width] + Declared([Lit("\n")]);
  }

  lemma CircuitIsValid(c: Circuit)
    requires ValidBody(c)
    ensures ValidPieces(CircuitPieces(c), c.width) && Declared(CircuitPieces(c)) == [c.width]
  {
    BodyIsValid(c.body, c.width);
    HeadIsValid(c.width);
    DeclaredAppend(HeadPieces(c.width), BodyPieces(c.body));
  }

  lemma HeaderIsInert()
    ensures Inert(HEADER) && Inert("\n")
  {
    assert HEADER[23] == 'q' && HEADER[24] == 'e' && HEADER[24] != QREG[1];
    assert forall i | 0 <= i < |HEADER| && i != 23 :: HEADER[i] != 'q';
  }

  /** Relabelling the pieces and printing the relabelled circuit differ only at captured references. */
  lemma InstructionPiecesRelabel(i: Instruction, t: Target)
    ensures SameSkeleton(RelabelPieces(InstructionPieces(i), t), InstructionPieces(RelabelInstruction(i, t)))
    ensures RelabelPieces(InstructionPieces(i), t) == InstructionPieces(RelabelInstruction(i, t)) <==> !Captured(i, t)
  {
    var ps, qs := RelabelPieces(InstructionPieces(i), t), InstructionPieces(RelabelInstruction(i, t));
    match i {
      case Gate(head, qubits) =>
        assert ps == qs;
      case GateAll(_) =>
        assert ps == qs;
      case MeasureAll(_) =>
        assert ps == qs;
      case Measure(qubit, register, bit) =>
        assert ps[2] == RelabelPiece(RegisterPiece(" -> ", register, bit), t);
        assert qs[2] == RegisterPiece(" -> ", register, bit);
        assert ps == [ps[0], ps[1], ps[2], ps[3]] && qs == [qs[0], qs[1], qs[2], qs[3]];
      case Classical(register, size) =>
        assert ps[0] == RelabelPiece(RegisterPiece("creg ", register, size), t);
        assert qs[0] == RegisterPiece("creg ", register, size);
        assert ps == [ps[0], ps[1]] && qs == [qs[0], qs[1]];
    }
  }

  lemma {:induction false} BodyPiecesRelabel(body: seq<Instruction>, t: Target)
    ensures SameSkeleton(RelabelPieces(BodyPieces(body), t), BodyPieces(RelabelBody(body, t)))
    ensures RelabelPieces(BodyPieces(body), t) == BodyPieces(RelabelBody(body, t)) <==>
            NoCapture(body, t)
  {
    if body != [] {
      NoCaptureByHead(body, t);
      var ps, qs := InstructionPieces(body[0]), BodyPieces(body[1..]);
      var out := RelabelBody(body, t);
      assert out[1..] == RelabelBody(body[1..], t);
      InstructionPiecesRelabel(body[0], t);
      BodyPiecesRelabel(body[1..], t);
      RelabelPiecesAppend(ps, qs, t);
      ConcatsAgree(RelabelPieces(ps, t), RelabelPieces(qs, t), InstructionPieces(out[0]), BodyPieces(out[1..]));
    }
  }

  lemma NoCaptureByHead(body: seq<Instruction>, t: Target)
    requires body != []
    ensures NoCapture(body, t) <==> !Captured(body[0], t) && NoCapture(body[1..], t)
  {
    assert forall k | 1 <= k < |body| :: body[k] == body[1..][k - 1];
    assert forall k | 0 <= k < |body[1..]| :: body[1..][k] == body[k + 1];
  }

  lemma RelabelPiecesAppend(ps: seq<Piece>, qs: seq<Piece>, t: Target)
    ensures RelabelPieces(ps + qs, t) == RelabelPieces(ps, t) + RelabelPieces(qs, t)
  {
  }

  lemma ConcatsAgree(a: seq<Piece>, b: seq<Piece>, c: seq<Piece>, d: seq<Piece>)
    requires |a| == |c|
    ensures a + b == c + d <==> a == c && b == d
    ensures SameSkeleton(a, c) && SameSkeleton(b, d) ==> SameSkeleton(a + b, c + d)
  {
    if a + b == c + d {
      assert (a + b)[..|a|] == a && (a + b)[|a|..] == b;
      assert (c + d)[..|c|] == c && (c + d)[|c|..] == d;
    }
  }

  /** For every circuit over at most two qubits and every device with a coupled edge, the pass accepts the printed text,
      and its result is the printed relabelled circuit exactly when no classical reference is captured. */
  lemma CompilingIsRelabelling(c: Circuit, t: Target)
    requires ValidCircuit(c) && t.qubits >= 2
    ensures Compiled(Print(c), t).Ok?
    ensures Compiled(Print(c), t) == Ok(Print(RelabelCircuit(c, t))) <==>
            NoCapture(c.body, t)
  {
    CircuitIsValid(c);
    WideRegistersAreIgnored(CircuitPieces(c), c.width, t);
    CircuitPiecesRelabel(c, t);
  }

  /** The size of the register alone decides whether a printed circuit is accepted, and with which error it is
      refused: a size of two digits is not seen as a declaration at all. */
  lemma WidthDecides(c: Circuit, t: Target)
    requires ValidBody(c) && t.qubits >= 2
    ensures Compiled(Print(c), t).Ok? <==> c.width <= 2
    ensures 3 <= c.width < 10 ==> Compiled(Print(c), t) == Err(TooManyQubits)
    ensures c.width >= 10 ==> Compiled(Print(c), t) == Err(NoRegister)
  {
    CircuitIsValid(c);
    assert forall k | 0 <= k < |CircuitPieces(c)| :: ValidPiece(CircuitPieces(c)[k], c.width);
    DeclarationsDecide(CircuitPieces(c), t);
  }

  lemma CircuitPiecesRelabel(c: Circuit, t: Target)
    ensures Flatten(RelabelPieces(CircuitPieces(c), t)) == Print(RelabelCircuit(c, t)) <==>
            NoCapture(c.body, t)
  {
    var a, b := RelabelPieces(BodyPieces(c.body), t), BodyPieces(RelabelBody(c.body, t));
    BodyPiecesRelabel(c.body, t);
    RelabelPiecesAppend(HeadPieces(c.width), BodyPieces(c.body), t);
    RelabelHead(c.width, t);
    SameTexts(HeadPieces(t.qubits), a, b);
  }

  lemma RelabelHead(width: nat, t: Target)
    ensures RelabelPieces(HeadPieces(width), t) == HeadPieces(t.qubits)
  {
  }

  lemma SameTexts(head: seq<Piece>, a: seq<Piece>, b: seq<Piece>)
    requires SameSkeleton(a, b)
    ensures Flatten(head + a) == Flatten(head + b) <==> a == b
  {
    ConcatsAgree(head, a, head, b);
    if Flatten(head + a) == Flatten(head + b) {
      SameSkeletonAsItself(head);
      FlattenInjective(head + a, head + b);
    }
  }

  lemma SameSkeletonAsItself(ps: seq<Piece>)
    ensures SameSkeleton(ps, ps)
  {
  }

  /** The qubits of every gate over two different qubits become the two ends of the edge. */
  lemma GatesLandOnTheEdge(c: Circuit, t: Target, k: nat)
    requires ValidCircuit(c) && k < |c.body| && c.body[k].Gate?
    requires |c.body[k].qubits| == 2 && c.body[k].qubits[0] != c.body[k].qubits[1]
    ensures var out := RelabelCircuit(c, t).body[k];
            out.head == c.body[k].head && out.qubits in {[t.id0, t.id1], [t.id1, t.id0]}
  {
    var qs, out := c.body[k].qubits, RelabelCircuit(c, t).body[k].qubits;
    assert ValidInstruction(c.body[k], c.width);
    assert out == [Relabel(t, qs[0]), Relabel(t, qs[1])];
  }

  /** With two different edge ends, circuits are relabelled to the same one exactly when they have the same
      instructions: of a circuit only the width of its register is lost. */
  lemma RelabellingIsInjective(c: Circuit, d: Circuit, t: Target)
    requires ValidCircuit(c) && ValidCircuit(d) && t.id0 != t.id1
    ensures RelabelCircuit(c, t) == RelabelCircuit(d, t) <==> c.body == d.body
  {
    if RelabelCircuit(c, t) == RelabelCircuit(d, t) {
      assert RelabelBody(c.body, t) == RelabelBody(d.body, t);
      forall k | 0 <= k < |c.body| ensures c.body[k] == d.body[k] {
        assert RelabelBody(c.body, t)[k] == RelabelBody(d.body, t)[k];
        assert ValidInstruction(c.body[k], c.width) && ValidInstruction(d.body[k], d.width);
        InstructionInjective(c.body[k], c.width, d.body[k], d.width, t);
      }
    }
  }

  lemma InstructionInjective(i: Instruction, m: nat, j: Instruction, n: nat, t: Target)
    requires m <= 2 && n <= 2 && ValidInstruction(i, m) && ValidInstruction(j, n) && t.id0 != t.id1
    requires RelabelInstruction(i, t) == RelabelInstruction(j, t)
    ensures i == j
  {
    if i.Gate? {
      var a, b := RelabelInstruction(i, t).qubits, RelabelInstruction(j, t).qubits;
      forall k | 0 <= k < |i.qubits| ensures i.qubits[k] == j.qubits[k] {
        assert a[k] == Relabel(t, i.qubits[k]) && b[k] == Relabel(t, j.qubits[k]);
      }
    }
  }

  /** A classical register named `cq` is renamed with the qubits. */
  lemma ClassicalRegisterIsCaptured()
    ensures var c := Circuit(2, [Measure(0, "cq", 0)]);
            Compiled(Print(c), Target(5, 3, 4)) != Ok(Print(RelabelCircuit(c, Target(5, 3, 4))))
  {
    var c := Circuit(2, [Measure(0, "cq", 0)]);
    assert Captured(c.body[0], Target(5, 3, 4));
    CompilingIsRelabelling(c, Target(5, 3, 4));
  }

  // ----- operands that are the whole register -----

  /** The indexed instructions that an instruction on the whole register stands for, on a register of the given
      width. */
  function Expand(i: Instruction, width: nat): (parts: seq<Instruction>)
    ensures i.GateAll? || i.MeasureAll? ==> |parts| == width
  {
    match i
    case GateAll(head) => seq(width, k requires 0 <= k < width => Gate(head, [k]))
    case MeasureAll(register) => seq(width, k requires 0 <= k < width => Measure(k, register, k))
    case _ => [i]
  }

  /** After the pass, on the register of the device, every instruction stands for the indexed ones it stood for
      before, with their qubits moved to the edge. The order within one instruction does not matter. */
  predicate KeepsMeaning(c: Circuit, t: Target) {
    forall k | 0 <= k < |c.body| :: InstructionKeepsMeaning(c.body[k], c.width, t)
  }

  predicate InstructionKeepsMeaning(i: Instruction, width: nat, t: Target) {
    multiset(Expand(RelabelInstruction(i, t), t.qubits)) == multiset(RelabelBody(Expand(i, width), t))
  }

  /** What a caller can look at: a gate on the whole register needs a device of the same width, and a measurement
      of the whole register an edge from the first to the second qubit, too. */
  predicate WholeFits(i: Instruction, width: nat, t: Target) {
    match i
    case GateAll(_) => width == t.qubits
    case MeasureAll(_) => width == t.qubits && t.id0 == 0
    case _ => true
  }

  /** The ends of an edge are two different sites of the device. */
  predicate IsEdge(t: Target) {
    t.id0 < t.qubits && t.id1 < t.qubits && t.id0 != t.id1
  }

  lemma ExpandTwo(i: Instruction, t: Target)
    requires i.GateAll? || i.MeasureAll?
    ensures var parts, out := Expand(i, 2), RelabelBody(Expand(i, 2), t);
            parts == [parts[0], parts[1]] && out == [RelabelInstruction(parts[0], t), RelabelInstruction(parts[1], t)]
  {
  }

  lemma RelabelledGate(head: string, k: nat, t: Target)
    ensures RelabelInstruction(Gate(head, [k]), t) == Gate(head, [Relabel(t, k)])
  {
    assert RelabelInstruction(Gate(head, [k]), t).qubits == [Relabel(t, k)];
  }

  lemma WholeGateIff(head: string, width: nat, t: Target)
    requires width <= 2 && IsEdge(t)
    ensures InstructionKeepsMeaning(GateAll(head), width, t) <==> width == t.qubits
  {
    var i := GateAll(head);
    assert |multiset(Expand(i, t.qubits))| == t.qubits && |multiset(RelabelBody(Expand(i, width), t))| == width;
    if width == t.qubits {
      ExpandTwo(i, t);
      RelabelledGate(head, 0, t);
      RelabelledGate(head, 1, t);
    }
  }

  lemma WholeMeasureIff(register: string, width: nat, t: Target)
    requires width <= 2 && IsEdge(t)
    ensures InstructionKeepsMeaning(MeasureAll(register), width, t) <==> width == t.qubits && t.id0 == 0
  {
    var i := MeasureAll(register);
    assert |multiset(Expand(i, t.qubits))| == t.qubits && |multiset(RelabelBody(Expand(i, width), t))| == width;
    if width == t.qubits {
      ExpandTwo(i, t);
      if t.id0 == 1 {
        assert Measure(0, register, 0) in multiset(Expand(i, 2));
        assert Measure(0, register, 0) !in RelabelBody(Expand(i, 2), t);
      }
    }
  }

  /** Exactly when the pass keeps the meaning of a circuit, for all circuits over at most two qubits and every
      coupled edge: it always does on indexed operands; an operand that is the whole register comes to mean all
      qubits of the device. */
  lemma MeaningKeptIff(c: Circuit, t: Target)
    requires ValidCircuit(c) && IsEdge(t)
    ensures KeepsMeaning(c, t) <==> forall k | 0 <= k < |c.body| :: WholeFits(c.body[k], c.width, t)
  {
    forall k | 0 <= k < |c.body|
      ensures InstructionKeepsMeaning(c.body[k], c.width, t) <==> WholeFits(c.body[k], c.width, t)
    {
      InstructionMeaningIff(c.body[k], c.width, t);
    }
  }

  lemma InstructionMeaningIff(i: Instruction, width: nat, t: Target)
    requires width <= 2 && IsEdge(t)
    ensures InstructionKeepsMeaning(i, width, t) <==> WholeFits(i, width, t)
  {
    match i {
      case GateAll(head) => WholeGateIff(head, width, t);
      case MeasureAll(register) => WholeMeasureIff(register, width, t);
      case _ =>
        assert RelabelBody([i], t) == [RelabelInstruction(i, t)];
    }
  }

  /** A circuit as in the repository's own tests. */
  function BellCircuit(): Circuit {
    Circuit(2, [Classical("c", 2), Gate("h", [0]), Gate("cx", [0, 1]), MeasureAll("c")])
  }

  lemma BellIsValid(t: Target)
    ensures ValidCircuit(BellCircuit()) && NoCapture(BellCircuit().body, t)
  {
    assert IsName("c") && IsName("h"[..1]) && IsName("cx"[..2]) && Inert("h ") && Inert("cx ");
  }

  /** It is accepted, but on a device of five qubits its measurement of two qubits becomes one of five. */
  lemma WholeMeasurementIsWidened(c: Circuit, t: Target)
    requires c == BellCircuit() && IsEdge(t) && t.qubits == 5
    ensures Compiled(Print(c), t) == Ok(Print(RelabelCircuit(c, t))) && !KeepsMeaning(c, t)
  {
    BellIsValid(t);
    CompilingIsRelabelling(c, t);
    MeaningKeptIff(c, t);
    assert c.body[3] == MeasureAll("c") && !WholeFits(c.body[3], c.width, t);
  }
}
