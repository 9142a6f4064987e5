/** The declaration pattern `qreg \w+\[(\d)\];` against its own text: the characters spelled out, and what it finds. */
module Pattern {
  import opened Outcomes
  import opened Text
  import opened Substitution
  import opened Tool
  import opened Pieces
  import opened Circuits
  import opened Registers

  const LOWER := "abcdefghijklmnopqrstuvwxyz"
  const UPPER := "ABCDEFGHIJKLMNOPQRSTUVWXYZ"
  const DIGITS := "0123456789"

  predicate IsWord(c: char) {
    c in LOWER || c in UPPER || c in DIGITS || c == '_'
  }

  lemma LowerIff(c: char)
    ensures c in LOWER <==> 'a' <= c <= 'z'
  {
    assert forall i | 0 <= i < 26 :: LOWER[i] == 'a' + i as char;
    if 'a' <= c <= 'z' {
      assert LOWER[(c - 'a') as int] == c;
    }
  }

  lemma UpperIff(c: char)
    ensures c in UPPER <==> 'A' <= c <= 'Z'
  {
    assert forall i | 0 <= i < 26 :: UPPER[i] == 'A' + i as char;
    if 'A' <= c <= 'Z' {
      assert UPPER[(c - 'A') as int] == c;
    }
  }

  lemma DigitIff(c: char)
    ensures c in DIGITS <==> IsDigit(c)
    ensures IsDigit(c) ==> DIGITS[DigitValue(c)] == c
  {
    assert forall i | 0 <= i < 10 :: DIGITS[i] == '0' + i as char;
  }

  lemma WordIff(c: char)
    ensures IsWord(c) <==> IsWordChar(c)
  {
    LowerIff(c);
    UpperIff(c);
    DigitIff(c);
  }

  /** A match at the start of the text, written out: the digit is that of `size`. */
  predicate Matches(s: string, name: string, size: nat, rest: string) {
    && name != [] && (forall i | 0 <= i < |name| :: IsWord(name[i])) && size < 10
    && s == "qreg " + name + "[" + [DIGITS[size]] + "];" + rest
  }

  lemma MatchIsDecl(s: string, name: string, size: nat, rest: string)
    requires Matches(s, name, size, rest)
    ensures IsName(name) && s == NamedDecl(name, size) + rest
  {
    forall i | 0 <= i < |name| ensures IsWordChar(name[i]) {
      WordIff(name[i]);
    }
    DigitIff(DIGITS[size]);
    assert DIGITS[size] == DigitChar(size);
    assert Decimal(size) == [DIGITS[size]];
  }

  /** Every declaration of a nonempty name and a size of one digit is found, and its size. */
  lemma MatchIsFound(s: string, name: string, size: nat, rest: string)
    requires Matches(s, name, size, rest)
    ensures DeclLength(s) == |name| + 9 && DeclDigits(s) == [size] + DeclDigits(rest)
  {
    MatchIsDecl(s, name, size, rest);
    NamedDeclChars(name, size, rest);
    NamedDeclarationLength(name, size, rest);
    NamedDeclarationDigit(name, size, rest);
  }

  /** Nothing else is found at the start of a text. */
  lemma FoundIsMatch(s: string) returns (name: string, size: nat, rest: string)
    requires DeclLength(s) > 0
    ensures Matches(s, name, size, rest)
  {
    var w := WordRun(s[5..]);
    name, rest := s[5..5 + w], s[w + 9..];
    size := DigitValue(s[6 + w]);
    var tail := s[5 + w..];
    assert s[..5] == "qreg ";
    assert tail[1] == s[6 + w] && tail[2] == s[7 + w] && tail[3] == s[8 + w];
    DigitIff(s[6 + w]);
    forall i | 0 <= i < |name| ensures IsWord(name[i]) {
      assert name[i] == s[5..][i];
      WordIff(name[i]);
    }
    MatchParts(s, w);
  }

  lemma MatchParts(s: string, w: nat)
    requires w + 9 <= |s| && s[..5] == "qreg " && s[5 + w] == '[' && s[7 + w] == ']' && s[8 + w] == ';'
    ensures s == "qreg " + s[5..5 + w] + "[" + [s[6 + w]] + "];" + s[w + 9..]
  {
    assert s == s[..5] + s[5..5 + w] + s[5 + w..6 + w] + s[6 + w..7 + w] + s[7 + w..w + 9] + s[w + 9..];
  }

  /** With any other character in the name nothing is found. */
  lemma OtherCharacterIsNotFound(name: string, c: char, more: string)
    requires (forall i | 0 <= i < |name| :: IsWord(name[i])) && !IsWord(c) && c != '['
    ensures DeclLength("qreg " + name + [c] + more) == 0
  {
    var s := "qreg " + name + [c] + more;
    forall i | 0 <= i < |name| ensures IsWordChar(name[i]) {
      WordIff(name[i]);
    }
    WordIff(c);
    assert s == "qreg " + (name + ([c] + more)) && s[5..] == name + ([c] + more);
    WordRunOf(name, [c] + more);
    assert s[5 + |name|..] == [c] + more;
  }

  /** A text that declares one register, of any name, in front of a rest that declares none: accepted up to the
      size of two and of the device. */
  lemma OneRegister(s: string, name: string, size: nat, rest: string, t: Target)
    requires Matches(s, name, size, rest) && DeclDigits(rest) == []
    ensures Compiled(s, t).Ok? <==> size <= 2 && size <= t.qubits
    ensures Compiled(s, t) == Err(TooManyQubits) <==> size > 2
    ensures Compiled(s, t) == Err(DeviceTooSmall) <==> t.qubits < size <= 2
  {
    MatchIsFound(s, name, size, rest);
  }

  /** A register `my_reg` and a gate on it: accepted and returned unchanged. */
  lemma UnderscoreIsAccepted(s: string, t: Target)
    requires s == "qreg my_reg[2];" + "\nh my_reg[0];\n" && t.qubits >= 2
    ensures Compiled(s, t) == Ok(s)
  {
    var rest := "\nh my_reg[0];\n";
    WithoutQNoDigits(rest);
    UnderscoreName();
    UnderscoreParts();
    OneRegister(s, "my_reg", 2, rest, t);
    UnderscoreText(s);
    OtherRegisterIsKept(s, t);
  }

  lemma UnderscoreText(s: string)
    requires s == "qreg my_reg[2];" + "\nh my_reg[0];\n"
    ensures !Contains(s, "q[")
  {
    assert forall i | 0 < i < |s| :: s[i] != 'q';
    assert s[1] == 'r';
    AbsentPair(s, 'q', '[');
  }

  lemma UnderscoreParts()
    ensures "qreg my_reg[2];" == "qreg " + "my_reg" + "[" + [DIGITS[2]] + "];"
  {
    assert DIGITS[2] == '2';
  }

  lemma UnderscoreName()
    ensures forall i | 0 <= i < |"my_reg"| :: IsWord("my_reg"[i])
  {
    var n := "my_reg";
    assert LOWER[12] == n[0] && LOWER[24] == n[1] && n[2] == '_' && LOWER[17] == n[3] && LOWER[4] == n[4] &&
      LOWER[6] == n[5];
  }

  // ----- one circuit, character by character -----

  lemma {:induction false} FlattenAppend(ps: seq<Piece>, qs: seq<Piece>)
    ensures Flatten(ps + qs) == Flatten(ps) + Flatten(qs)
  {
    if ps == [] {
      assert ps + qs == qs;
    } else {
      FlattenAppend(ps[1..], qs);
      HeadAndTail(ps, qs);
      Assoc(PieceText(ps[0]), Flatten(ps[1..]), Flatten(qs));
    }
  }

  lemma FlattenOne(p: Piece)
    ensures Flatten([p]) == PieceText(p)
  {
    assert [p][1..] == [];
  }

  lemma OneQubitGate(head: string, k: nat)
    ensures Flatten(InstructionPieces(Gate(head, [k]))) == head + " " + Qubit(k) + ";\n"
  {
    var a, b, c := Lit(head + " "), Ref("", k), Lit(";\n");
    assert InstructionPieces(Gate(head, [k])) == [a] + [b] + [c];
    FlattenAppend([a] + [b], [c]);
    FlattenAppend([a], [b]);
    FlattenOne(a);
    FlattenOne(b);
    FlattenOne(c);
    assert "" + Qubit(k) == Qubit(k);
  }

  lemma TwoQubitGate(head: string, k: nat, m: nat)
    ensures Flatten(InstructionPieces(Gate(head, [k, m]))) == head + " " + Qubit(k) + (", " + Qubit(m)) + ";\n"
  {
    var a, b, c, d := Lit(head + " "), Ref("", k), Ref(", ", m), Lit(";\n");
    assert InstructionPieces(Gate(head, [k, m])) == [a] + [b] + [c] + [d];
    FlattenAppend([a] + [b] + [c], [d]);
    FlattenAppend([a] + [b], [c]);
    FlattenAppend([a], [b]);
    FlattenOne(a);
    FlattenOne(b);
    FlattenOne(c);
    FlattenOne(d);
    assert "" + Qubit(k) == Qubit(k);
  }

  /** A Hadamard gate and a controlled NOT. */
  function PairOf(width: nat, i: nat, j: nat): Circuit {
    Circuit(width, [Gate("h", [i]), Gate("cx", [i, j])])
  }

  lemma PairText(width: nat, i: nat, j: nat)
    ensures Print(PairOf(width, i, j)) ==
            HEADER + Decl(width) + "\n" +
            ("h " + Qubit(i) + ";\n" + ("cx " + Qubit(i) + (", " + Qubit(j)) + ";\n"))
  {
    var c := PairOf(width, i, j);
    var g, b := InstructionPieces(c.body[0]), InstructionPieces(c.body[1]);
    OneQubitGate("h", i);
    TwoQubitGate("cx", i, j);
    assert c.body[1..] == [c.body[1]] && [c.body[1]][1..] == [];
    assert BodyPieces([c.body[1]]) == b + [] == b;
    assert BodyPieces(c.body) == g + b;
    FlattenAppend(g, b);
    HeadText(width);
    FlattenAppend(HeadPieces(width), BodyPieces(c.body));
    assert "h" + " " == "h " && "cx" + " " == "cx ";
  }

  lemma HeadText(width: nat)
    ensures Flatten(HeadPieces(width)) == HEADER + Decl(width) + "\n"
  {
    var a, b, c := Lit(HEADER), Declaration(width), Lit("\n");
    assert HeadPieces(width) == [a] + [b] + [c];
    FlattenAppend([a] + [b], [c]);
    FlattenAppend([a], [b]);
    FlattenOne(a);
    FlattenOne(b);
    FlattenOne(c);
  }

  lemma PairIsValid(t: Target)
    ensures ValidCircuit(PairOf(2, 0, 1)) && NoCapture(PairOf(2, 0, 1).body, t)
    ensures RelabelCircuit(PairOf(2, 0, 1), t) == PairOf(t.qubits, t.id0, t.id1)
  {
    assert IsName("h"[..1]) && IsName("cx"[..2]) && Inert("h ") && Inert("cx ");
    var out := RelabelCircuit(PairOf(2, 0, 1), t);
    assert out.body[0].qubits == [t.id0] && out.body[1].qubits == [t.id0, t.id1];
  }

  lemma Numerals()
    ensures Decimal(0) == "0" && Decimal(1) == "1" && Decimal(2) == "2" && Decimal(3) == "3"
    ensures Decimal(10) == "10" && Decimal(12) == "12"
  {
    assert Decimal(10) == Decimal(1) + [DigitChar(0)] && Decimal(12) == Decimal(1) + [DigitChar(2)];
  }

  lemma DeclLines()
    ensures Decl(2) + "\n" == "qreg q[2];\n" && Decl(12) + "\n" == "qreg q[12];\n"
  {
    Numerals();
  }

  lemma GateLines()
    ensures "h " + Qubit(0) + ";\n" == "h q[0];\n" && "h " + Qubit(3) + ";\n" == "h q[3];\n"
  {
    Numerals();
  }

  lemma NotLines()
    ensures "cx " + Qubit(0) + (", " + Qubit(1)) + ";\n" == "cx q[0], q[1];\n"
    ensures "cx " + Qubit(3) + (", " + Qubit(10)) + ";\n" == "cx q[3], q[10];\n"
  {
    Numerals();
  }

  /** A circuit as in the repository's own test of the tool, on a device of twelve qubits with an edge from 3 to
      10, line by line. */
  lemma CompiledPair(s: string, r: string)
    requires s == HEADER + "qreg q[2];\n" + ("h q[0];\n" + "cx q[0], q[1];\n")
    requires r == HEADER + "qreg q[12];\n" + ("h q[3];\n" + "cx q[3], q[10];\n")
    ensures Compiled(s, Target(12, 3, 10)) == Ok(r)
  {
    PairText(2, 0, 1);
    PairText(12, 3, 10);
    DeclLines();
    GateLines();
    NotLines();
    Assoc(HEADER, Decl(2), "\n");
    Assoc(HEADER, Decl(12), "\n");
    PairIsValid(Target(12, 3, 10));
    CompilingIsRelabelling(PairOf(2, 0, 1), Target(12, 3, 10));
  }
}
