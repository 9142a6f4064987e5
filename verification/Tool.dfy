/** The qubit-renaming pass of the example tool. */
module Tool {
  import opened Outcomes
  import opened Text
  import opened Substitution

  datatype CompileError = NoRegister | SeveralRegisters | TooManyQubits | DeviceTooSmall

  /** What the pass learns from the device: its qubit count and the two ends of the chosen coupled edge. */
  datatype Target = Target(qubits: nat, id0: nat, id1: nat)

  // ----- replace_all_occurrences -----

  /** `std::string::find`: the first position at or behind `pos` where `from` starts. */
  method Find(str: string, from: string, pos: nat) returns (at: Option<nat>)
    requires pos <= |str|
    ensures at.Some? ==> pos <= at.value <= |str| && from <= str[at.value..]
    ensures forall i | pos <= i < (if at.Some? then at.value else |str| + 1) :: !(from <= str[i..])
  {
    var i := pos;
    while i <= |str|
      invariant pos <= i <= |str| + 1
      invariant forall j | pos <= j < i :: !(from <= str[j..])
    {
      if from <= str[i..] {
        return Some(i);
      }
      i := i + 1;
    }
    return None;
  }

  lemma ReplaceSkips(x: string, y: string, from: string, to: string)
    requires from != [] && forall i | 0 <= i < |x| :: !(from <= (x + y)[i..])
    ensures Replace(x + y, from, to) == x + Replace(y, from, to)
  {
    var rules := [Rule(from, to)];
    forall i | 0 <= i < |x| ensures FirstMatch((x + y)[i..], rules) == |rules| {
      assert rules[0].from == from;
    }
    SubstituteSkips(x, y, rules);
  }

  method ReplaceAllOccurrences(text: string, from: string, to: string) returns (str: string)
    requires from != []
    ensures str == Replace(text, from, to)
    ensures str == Join(Split(text, from), to)
  {
    str := text;
    var startPos := 0;
    while true
      invariant 0 <= startPos <= |str|
      invariant str[..startPos] + Replace(str[startPos..], from, to) == Replace(text, from, to)
      decreases |str| - startPos
    {
      ghost var was := str;
      var found := Find(str, from, startPos);
      if found == None {
        NothingLeft(str, from, to, startPos);
        break;
      }
      var at := found.value;
      assert from == str[at..][..|from|] == str[at..at + |from|];
      str := str[..at] + to + str[at + |from|..];
      FoundStep(was, from, to, startPos, at);
      startPos := at + |to|;
    }
    ReplaceIsJoinOfSplit(text, from, to);
  }

  /** Without another occurrence the rest stays. */
  lemma NothingLeft(str: string, from: string, to: string, startPos: nat)
    requires from != [] && startPos <= |str| && forall i | startPos <= i <= |str| :: !(from <= str[i..])
    ensures str[..startPos] + Replace(str[startPos..], from, to) == str
  {
    var rest := str[startPos..];
    forall i | 0 <= i < |rest| ensures !(from <= (rest + "")[i..]) {
      assert (rest + "")[i..] == str[startPos + i..];
    }
    ReplaceSkips(rest, "", from, to);
    assert rest + "" == rest;
  }

  /** Up to the first occurrence the text is copied, then the image is written. */
  lemma ReplaceFirst(x: string, from: string, tail: string, to: string)
    requires from != [] && forall i | 0 <= i < |x| :: !(from <= (x + (from + tail))[i..])
    ensures Replace(x + (from + tail), from, to) == x + (to + Replace(tail, from, to))
  {
    ReplaceSkips(x, from + tail, from, to);
    assert FirstMatch(from + tail, [Rule(from, to)]) == 0;
    SubstituteFires(from, tail, [Rule(from, to)], 0);
  }

  /** One round of the loop keeps: what is done, followed by the replaced rest. */
  lemma FoundStep(str: string, from: string, to: string, startPos: nat, at: nat)
    requires from != [] && startPos <= at && at + |from| <= |str|
    requires from == str[at..at + |from|]
    requires forall i | startPos <= i < at :: !(from <= str[i..])
    ensures var next := str[..at] + to + str[at + |from|..];
            next[..at + |to|] + Replace(next[at + |to|..], from, to) ==
            str[..startPos] + Replace(str[startPos..], from, to)
  {
    var x, tail := str[startPos..at], str[at + |from|..];
    var next := str[..at] + to + tail;
    assert x + (from + tail) == str[startPos..];
    forall i | 0 <= i < |x| ensures !(from <= (x + (from + tail))[i..]) {
      assert (x + (from + tail))[i..] == str[startPos + i..];
    }
    ReplaceFirst(x, from, tail, to);
    SplitAt(str, startPos, at, to, tail);
    Regroup(str[..startPos], x, to, Replace(tail, from, to));
  }

  lemma SplitAt(str: string, startPos: nat, at: nat, to: string, tail: string)
    requires startPos <= at <= |str|
    ensures var next := str[..at] + to + tail;
            next[at + |to|..] == tail && next[..at + |to|] == str[..startPos] + str[startPos..at] + to
  {
  }

  lemma Regroup(a: string, b: string, c: string, d: string)
    ensures a + b + c + d == a + (b + (c + d))
  {
  }

  // ----- the register declaration -----

  predicate IsWordChar(c: char) {
    'a' <= c <= 'z' || 'A' <= c <= 'Z' || IsDigit(c) || c == '_'
  }

  function WordRun(s: string): (n: nat)
    ensures n <= |s|
    ensures forall i | 0 <= i < n :: IsWordChar(s[i])
    ensures n < |s| ==> !IsWordChar(s[n])
  {
    if s == [] || !IsWordChar(s[0]) then 0 else 1 + WordRun(s[1..])
  }

  /** The length of the match of `qreg \w+\[(\d)\];` at the start of `s`, or 0. */
  function DeclLength(s: string): (n: nat)
    ensures n <= |s|
    ensures n > 0 ==> "qreg " <= s && n >= 10 && IsDigit(s[n - 3])
  {
    if !("qreg " <= s) then 0
    else
      var w := WordRun(s[5..]);
      var rest := s[5 + w..];
      if w > 0 && |rest| >= 4 && rest[0] == '[' && IsDigit(rest[1]) && rest[2] == ']' && rest[3] == ';' then 5 + w + 4
      else 0
  }

  /** The digits captured by all matches of the declaration pattern, left to right. */
  function DeclDigits(s: string): seq<nat> {
    if s == [] then []
    else
      var n := DeclLength(s);
      if n > 0 then [DigitValue(s[n - 3])] + DeclDigits(s[n..]) else DeclDigits(s[1..])
  }

  /** The checks made before any text is changed; on success the declared number of qubits. */
  function CheckDeclaration(text: string, qubits: nat): Result<nat, CompileError> {
    var digits := DeclDigits(text);
    if |digits| == 0 then Err(NoRegister)
    else if |digits| > 1 then Err(SeveralRegisters)
    else if digits[0] > 2 then Err(TooManyQubits)
    else if digits[0] > qubits then Err(DeviceTooSmall)
    else Ok(digits[0])
  }

  // ----- compile -----

  function Qubit(i: nat): string { "q[" + Decimal(i) + "]" }
  function Decl(n: nat): string { "qreg " + Qubit(n) + ";" }
  const AUX := "q[aux]"

  /** The four replacements of the pass, one after the other. */
  function Chain(text: string, n: nat, t: Target): string {
    var widened := Replace(text, Decl(n), Decl(t.qubits));
    var parked := Replace(widened, Qubit(0), AUX);
    var second := Replace(parked, Qubit(1), Qubit(t.id1));
    Replace(second, AUX, Qubit(t.id0))
  }

  /** The result of the pass: a thrown error, or the text after the four replacements. */
  function Compiled(qasm: string, t: Target): Result<string, CompileError> {
    match CheckDeclaration(qasm, t.qubits)
    case Err(e) => Err(e)
    case Ok(n) => Ok(Chain(qasm, n, t))
  }

  method Compile(qasm: string, t: Target) returns (r: Result<string, CompileError>)
    ensures r == Compiled(qasm, t)
    ensures t.qubits >= 2 && !Contains(qasm, AUX) && r.Ok? ==>
            r.value == Substitute(qasm, Renaming(DeclDigits(qasm)[0], t))
  {
    var checked := CheckDeclaration(qasm, t.qubits);
    if checked.Err? {
      return Err(checked.error);
    }
    var n := checked.value;
    var result := ReplaceAllOccurrences(qasm, Decl(n), Decl(t.qubits));
    result := ReplaceAllOccurrences(result, Qubit(0), AUX);
    result := ReplaceAllOccurrences(result, Qubit(1), Qubit(t.id1));
    result := ReplaceAllOccurrences(result, AUX, Qubit(t.id0));
    if t.qubits >= 2 {
      ChainIsSimultaneous(qasm, n, t);
    }
    return Ok(result);
  }

  // ----- the chain is one simultaneous substitution -----

  /** What the pass is meant to do, in one scan. */
  function Renaming(n: nat, t: Target): (rules: seq<Rule>)
    ensures Rules(rules)
  {
    [Rule(Decl(n), Decl(t.qubits)), Rule(Qubit(0), Qubit(t.id0)), Rule(Qubit(1), Qubit(t.id1))]
  }

  /** What it does on every text: the placeholder is renamed too, and a widened declaration can be hit again. */
  function ActualRenaming(n: nat, t: Target): (rules: seq<Rule>)
    ensures Rules(rules)
  {
    var decl := if t.qubits == 0 then Decl(t.id0) else if t.qubits == 1 then Decl(t.id1) else Decl(t.qubits);
    [Rule(Decl(n), decl), Rule(Qubit(0), Qubit(t.id0)), Rule(Qubit(1), Qubit(t.id1)), Rule(AUX, Qubit(t.id0))]
  }

  /** Two qubit references are equal or differ before either ends. */
  lemma QubitsDiverge(i: nat, j: nat)
    requires i != j
    ensures Diverge(Qubit(i), Qubit(j)) && Diverge(Decl(i), Decl(j))
  {
    var a, b := Qubit(i), Qubit(j);
    if !Diverge(a, b) {
      if |a| <= |b| {
        assert a == b[..|a|];
        assert a + b[|a|..] == b + "";
        QubitPrefix(i, j, b[|a|..], "");
      } else {
        assert b == a[..|b|];
        assert b + a[|b|..] == a + "";
        QubitPrefix(j, i, a[|b|..], "");
      }
    }
    var k :| 0 <= k < |a| && k < |b| && a[k] != b[k];
    assert Decl(i)[5 + k] == a[k] && Decl(j)[5 + k] == b[k];
  }

  lemma QubitPrefix(i: nat, j: nat, x: string, y: string)
    requires Qubit(i) + x == Qubit(j) + y
    ensures i == j && x == y
  {
    assert (Qubit(i) + x)[2..] == Decimal(i) + "]" + x;
    assert (Qubit(j) + y)[2..] == Decimal(j) + "]" + y;
    BracketedNumeralsAgree(i, j, x, y);
  }

  lemma QubitVersusAux(i: nat)
    ensures Diverge(Qubit(i), AUX) && Diverge(AUX, Qubit(i))
  {
    assert IsDigit(Qubit(i)[2]);
    assert AUX[2] == 'a';
  }

  /** The patterns searched for after the declaration has been widened. */
  predicate IsReference(p: string) {
    p == Qubit(0) || p == Qubit(1) || p == AUX
  }

  lemma ReferenceShape(p: string)
    requires IsReference(p)
    ensures Marked(p, 'q') && |p| >= 4 && '[' in p
    ensures ']' !in p[..|p| - 1] && ' ' !in p[..|p| - 1] && ';' !in p[..|p| - 1]
  {
    assert Qubit(0) == "q[0]" && Qubit(1) == "q[1]";
    assert p[1] == '[';
    assert p[1..] == "[0]" || p[1..] == "[1]" || p[1..] == "[aux]";
    assert p[..|p| - 1] == "q[0" || p[..|p| - 1] == "q[1" || p[..|p| - 1] == "q[aux";
  }

  lemma QubitShape(i: nat)
    ensures Marked(Qubit(i), 'q') && StartsWithMarker(Decl(i), 'q')
    ensures Qubit(i)[|Qubit(i)| - 1] == ']' && Decl(i)[|Decl(i)| - 1] == ';'
  {
    assert Qubit(i)[1..] == "[" + Decimal(i) + "]";
    assert forall k | 0 <= k < |Qubit(i)| - 1 :: Qubit(i)[1..][k] != 'q';
  }

  lemma SealedByLast(x: string, p: string)
    requires IsReference(p)
    requires x != [] && x[|x| - 1] in {']', ' ', ';'}
    ensures Sealed(x, p)
  {
    ReferenceShape(p);
  }

  lemma ReplaceInQubit(i: nat, p: string, to: string)
    requires IsReference(p)
    ensures Replace(Qubit(i), p, to) == if p == Qubit(i) then to else Qubit(i)
  {
    var q := Qubit(i);
    QubitShape(i);
    if p == q {
      ReplaceWhole(p, to);
    } else {
      assert Diverge(q, p) by {
        if p == AUX { QubitVersusAux(i); }
        else if p == Qubit(0) { QubitsDiverge(i, 0); }
        else { QubitsDiverge(i, 1); }
      }
      ReferenceShape(p);
      DivergeNoPrefix(q, p);
      AbsentByChar(q[1..], p, 'q');
      ReplaceAbsent(q, p, to);
    }
  }

  lemma ReplaceWhole(p: string, to: string)
    requires p != []
    ensures Replace(p, p, to) == to
  {
    SubstituteFires(p, "", [Rule(p, to)], 0);
    assert p + "" == p;
  }

  /** A replacement of references works inside a declaration. */
  lemma ReplaceInDecl(x: string, p: string, to: string)
    requires IsReference(p) && x != [] && x[|x| - 1] == ']'
    ensures Replace("qreg " + x + ";", p, to) == "qreg " + Replace(x, p, to) + ";"
    ensures Sealed("qreg " + x + ";", p)
  {
    ReferenceShape(p);
    SealedByLast("qreg ", p);
    SealedByLast(x, p);
    ReplaceAcross("qreg ", x + ";", p, to);
    ReplaceAcross(x, ";", p, to);
    AbsentByChar("qreg ", p, '[');
    AbsentByChar(";", p, '[');
    ReplaceAbsent("qreg ", p, to);
    ReplaceAbsent(";", p, to);
    assert "qreg " + (x + ";") == "qreg " + x + ";";
    SealedByLast("qreg " + x + ";", p);
  }

  /** The placeholder is hit by no replacement but its own. */
  lemma ReplaceInAux(p: string, to: string)
    requires IsReference(p)
    ensures Replace(AUX, p, to) == if p == AUX then to else AUX
  {
    if p == AUX {
      ReplaceWhole(p, to);
    } else {
      assert p == "q[0]" || p == "q[1]";
      if p == "q[0]" { AbsentByChar(AUX, p, '0'); } else { AbsentByChar(AUX, p, '1'); }
      ReplaceAbsent(AUX, p, to);
    }
  }

  // ----- the four stages -----

  /** The bracketed part of the widened declaration after `k` replacements of references. */
  function DeclaredAt(t: Target, k: nat): string {
    if t.qubits == 0 && k > 0 then (if k == 3 then Qubit(t.id0) else AUX)
    else if t.qubits == 1 && k > 1 then Qubit(t.id1)
    else Qubit(t.qubits)
  }

  /** The single-scan rules equal to the first `k + 1` replacements of the chain. */
  function StageRules(n: nat, t: Target, k: nat): (rules: seq<Rule>)
    requires k <= 3
    ensures Rules(rules)
  {
    var decl := Rule(Decl(n), "qreg " + DeclaredAt(t, k) + ";");
    if k == 0 then [decl]
    else if k == 1 then [decl, Rule(Qubit(0), AUX)]
    else if k == 2 then [decl, Rule(Qubit(0), AUX), Rule(Qubit(1), Qubit(t.id1))]
    else [decl, Rule(Qubit(0), Qubit(t.id0)), Rule(Qubit(1), Qubit(t.id1)), Rule(AUX, Qubit(t.id0))]
  }

  function StageFrom(k: nat): string { if k == 0 then Qubit(0) else if k == 1 then Qubit(1) else AUX }

  function StageTo(t: Target, k: nat): string { if k == 0 then AUX else if k == 1 then Qubit(t.id1) else Qubit(t.id0) }

  lemma DeclaredStep(t: Target, k: nat)
    requires k < 3
    ensures Replace(DeclaredAt(t, k), StageFrom(k), StageTo(t, k)) == DeclaredAt(t, k + 1)
  {
    var x, p, to := DeclaredAt(t, k), StageFrom(k), StageTo(t, k);
    if x == AUX {
      ReplaceInAux(p, to);
      QubitVersusAux(t.qubits);
      QubitVersusAux(1);
    } else {
      var i := if t.qubits == 1 && k > 1 then t.id1 else t.qubits;
      ReplaceInQubit(i, p, to);
      QubitVersusAux(i);
      if i != 0 { QubitsDiverge(i, 0); }
      if i != 1 { QubitsDiverge(i, 1); }
    }
  }

  lemma StageIsMarked(n: nat, t: Target, k: nat)
    requires k < 3
    ensures MarkedRules(StageRules(n, t, k), 'q')
    ensures forall j | 0 <= j < |StageRules(n, t, k)| :: Sealed(StageRules(n, t, k)[j].to, StageFrom(k))
  {
    var rules := StageRules(n, t, k);
    forall j | 0 <= j < |rules|
      ensures StartsWithMarker(rules[j].from, 'q') && StartsWithMarker(rules[j].to, 'q') &&
              Sealed(rules[j].to, StageFrom(k))
    {
      StageRuleIsMarked(n, t, k, j);
    }
  }

  lemma StageRuleIsMarked(n: nat, t: Target, k: nat, j: nat)
    requires k < 3 && j <= k
    ensures var rule := StageRules(n, t, k)[j];
            StartsWithMarker(rule.from, 'q') && StartsWithMarker(rule.to, 'q') && Sealed(rule.to, StageFrom(k))
  {
    if j == 0 {
      QubitShape(n);
      DeclaredEnds(t, k);
      ReplaceInDecl(DeclaredAt(t, k), StageFrom(k), "");
    } else if j == 1 {
      QubitShape(0);
      SealedByLast(AUX, StageFrom(k));
    } else {
      QubitShape(1);
      QubitShape(t.id1);
      SealedByLast(Qubit(t.id1), StageFrom(k));
    }
  }

  /** Each replacement takes the image of rule `j` to its image in the next stage. */
  lemma StageImage(n: nat, t: Target, k: nat, j: nat)
    requires k < 3 && j <= k
    ensures StageRules(n, t, k)[j].from == StageRules(n, t, k + 1)[j].from
    ensures Replace(StageRules(n, t, k)[j].to, StageFrom(k), StageTo(t, k)) == StageRules(n, t, k + 1)[j].to
  {
    if j == 0 {
      DeclaredEnds(t, k);
      ReplaceInDecl(DeclaredAt(t, k), StageFrom(k), StageTo(t, k));
      DeclaredStep(t, k);
    } else if j == 1 {
      ReplaceInAux(StageFrom(k), StageTo(t, k));
      QubitVersusAux(1);
    } else {
      ReplaceInQubit(t.id1, AUX, Qubit(t.id0));
      QubitVersusAux(t.id1);
    }
  }

  lemma StageImages(n: nat, t: Target, k: nat)
    requires k < 3
    ensures Fused(StageRules(n, t, k), StageFrom(k), StageTo(t, k)) == StageRules(n, t, k + 1)
  {
    var rules, next := StageRules(n, t, k), StageRules(n, t, k + 1);
    var fused := Fused(rules, StageFrom(k), StageTo(t, k));
    assert |rules| == k + 1 && |next| == k + 2;
    forall j | 0 <= j <= k ensures fused[j] == next[j] {
      StageImage(n, t, k, j);
      assert fused[j] == Rule(rules[j].from, Replace(rules[j].to, StageFrom(k), StageTo(t, k)));
    }
    assert next[k + 1] == Rule(StageFrom(k), StageTo(t, k));
    assert fused == next;
  }

  lemma DeclaredEnds(t: Target, k: nat)
    ensures var x := DeclaredAt(t, k); x != [] && x[|x| - 1] == ']'
  {
    QubitShape(t.qubits);
    QubitShape(t.id0);
    QubitShape(t.id1);
  }

  lemma StageFuses(text: string, n: nat, t: Target, k: nat)
    requires k < 3
    ensures Replace(Substitute(text, StageRules(n, t, k)), StageFrom(k), StageTo(t, k)) ==
            Substitute(text, StageRules(n, t, k + 1))
  {
    StageIsMarked(n, t, k);
    ReferenceShape(StageFrom(k));
    Fusion(text, StageRules(n, t, k), 'q', StageFrom(k), StageTo(t, k));
    StageImages(n, t, k);
  }

  /** On every text the chain is a single scan with the rules of `ActualRenaming`. */
  lemma ChainIsOneScan(text: string, n: nat, t: Target)
    ensures Chain(text, n, t) == Substitute(text, ActualRenaming(n, t))
  {
    StageFuses(text, n, t, 0);
    StageFuses(text, n, t, 1);
    StageFuses(text, n, t, 2);
    assert StageRules(n, t, 3) == ActualRenaming(n, t);
  }

  /** When the widened declaration is not itself renamed. */
  predicate DeclarationSurvives(t: Target) {
    (t.qubits == 0 ==> t.id0 == 0) && (t.qubits == 1 ==> t.id1 == 1)
  }

  lemma AuxAndDeclStandAlone(n: nat, t: Target)
    requires n <= 2
    ensures NeverSwallowed(ActualRenaming(n, t), 0) && NeverSwallowed(ActualRenaming(n, t), 3)
  {
    var rules := ActualRenaming(n, t);
    assert Qubit(0) == "q[0]" && Qubit(1) == "q[1]" && AUX == "q[aux]";
    assert Decimal(n) == [DigitChar(n)];
    forall j, i, k | 0 <= j < 4 && 0 <= i < |rules[j].from| && k in {0, 3} && (j != k || i != 0)
      ensures Diverge(rules[j].from[i..], rules[k].from)
    {
      var a, p := rules[j].from[i..], rules[k].from;
      if a[0] != 'q' {
        assert a[0] != p[0];
      } else if k == 0 {
        assert a[1] != p[1];
      } else if i == 0 && j == 0 {
        assert a[1] != p[1];
      } else {
        assert IsDigit(a[2]) && a[2] != p[2];
      }
    }
  }

  lemma RenamingIsMarked(n: nat, t: Target)
    ensures MarkedRules(Renaming(n, t), 'q')
    ensures forall k | 0 <= k < 3 :: Sealed(Renaming(n, t)[k].to, AUX)
  {
    QubitShape(n);
    QubitShape(t.qubits);
    QubitShape(t.id0);
    QubitShape(t.id1);
    QubitShape(0);
    QubitShape(1);
    SealedByLast(Decl(t.qubits), AUX);
    SealedByLast(Qubit(t.id0), AUX);
    SealedByLast(Qubit(t.id1), AUX);
  }

  lemma RenamingsCompare(n: nat, t: Target)
    ensures Comparable(ActualRenaming(n, t), Renaming(n, t) + [Rule(AUX, AUX)])
    ensures ActualRenaming(n, t)[0].to == Renaming(n, t)[0].to <==> DeclarationSurvives(t)
    ensures ActualRenaming(n, t)[3].to != AUX
  {
    var rules, others := ActualRenaming(n, t), Renaming(n, t) + [Rule(AUX, AUX)];
    QubitVersusAux(t.id0);
    if t.id0 != t.qubits { QubitsDiverge(t.id0, t.qubits); }
    if t.id1 != t.qubits { QubitsDiverge(t.id1, t.qubits); }
    assert rules[1] == others[1] && rules[2] == others[2];
  }

  /** Exactly when the four sequential replacements are the intended simultaneous one: for every text, every declared
      size up to two, every edge and every device. */
  lemma ChainIsSimultaneousIff(text: string, n: nat, t: Target)
    requires n <= 2
    ensures Chain(text, n, t) == Substitute(text, Renaming(n, t)) <==>
            !Contains(text, AUX) && (Contains(text, Decl(n)) ==> DeclarationSurvives(t))
  {
    var rules, others := ActualRenaming(n, t), Renaming(n, t) + [Rule(AUX, AUX)];
    ChainIsOneScan(text, n, t);
    RenamingIsMarked(n, t);
    ReferenceShape(AUX);
    IdentityRule(text, Renaming(n, t), 'q', AUX);
    RenamingsCompare(n, t);
    SubstituteAgrees(text, rules, others);
    AuxAndDeclStandAlone(n, t);
    FiresWhereContained(text, rules, 0);
    FiresWhereContained(text, rules, 3);
    assert rules[1] == others[1] && rules[2] == others[2] && others[3].to == AUX;
  }

  /** The promised case: a device with a coupled edge, and a text without the placeholder. */
  lemma ChainIsSimultaneous(text: string, n: nat, t: Target)
    requires t.qubits >= 2
    ensures !Contains(text, AUX) && n <= 2 ==> Chain(text, n, t) == Substitute(text, Renaming(n, t))
  {
    if n <= 2 {
      ChainIsSimultaneousIff(text, n, t);
    }
  }

  /** For every device with two or more qubits and every text that is accepted: the pass is the intended renaming
      exactly when the text does not hold the placeholder. */
  lemma CompiledIsRenamingIff(text: string, t: Target)
    requires t.qubits >= 2 && Compiled(text, t).Ok?
    ensures |DeclDigits(text)| == 1
    ensures Compiled(text, t) == Ok(Substitute(text, Renaming(DeclDigits(text)[0], t))) <==> !Contains(text, AUX)
  {
    ChainIsSimultaneousIff(text, DeclDigits(text)[0], t);
  }

  /** The condition on the declaration is needed: with one qubit, and an edge from it to itself, the declaration is
      renamed. */
  lemma DeclarationIsRenamed()
    ensures Chain(Decl(1), 1, Target(1, 0, 0)) != Substitute(Decl(1), Renaming(1, Target(1, 0, 0)))
  {
    ChainIsSimultaneousIff(Decl(1), 1, Target(1, 0, 0));
  }

  // ----- registers with other names -----

  lemma ContainsPart(s: string, p: string, part: string)
    requires Contains(s, p) && Contains(p, part)
    ensures Contains(s, part)
  {
    var i := ContainsWhere(s, p);
    var j := ContainsWhere(p, part);
    assert part == p[j..][..|part|] == s[i..][j..][..|part|];
    assert s[i..][j..] == s[i + j..];
    ContainsAt(s, part, i + j);
  }

  lemma PatternsHoldBracket(i: nat)
    ensures Contains(Qubit(i), "q[") && Contains(Decl(i), "q[") && Contains(AUX, "q[")
  {
    assert "q[" <= Decl(i)[5..];
    ContainsAt(Decl(i), "q[", 5);
  }

  /** A text in which no `q[` occurs is returned as it is whenever it is accepted: a register with a name that does
      not end in `q` is neither widened nor renamed. */
  lemma OtherRegisterIsKept(text: string, t: Target)
    requires !Contains(text, "q[")
    ensures Compiled(text, t).Ok? ==> Compiled(text, t) == Ok(text)
  {
    forall n: nat ensures !Contains(text, Decl(n)) && !Contains(text, Qubit(n)) && !Contains(text, AUX) {
      PatternsHoldBracket(n);
      if Contains(text, Decl(n)) { ContainsPart(text, Decl(n), "q["); }
      if Contains(text, Qubit(n)) { ContainsPart(text, Qubit(n), "q["); }
      if Contains(text, AUX) { ContainsPart(text, AUX, "q["); }
    }
    match CheckDeclaration(text, t.qubits) {
      case Err(_) =>
      case Ok(n) =>
        ReplaceAbsent(text, Decl(n), Decl(t.qubits));
        ReplaceAbsent(text, Qubit(0), AUX);
        ReplaceAbsent(text, Qubit(1), Qubit(t.id1));
        ReplaceAbsent(text, AUX, Qubit(t.id0));
    }
  }

  /** What the pass is meant to do to references. */
  function References(t: Target): (rules: seq<Rule>)
    ensures Rules(rules)
  {
    [Rule(Qubit(0), Qubit(t.id0)), Rule(Qubit(1), Qubit(t.id1))]
  }

  /** Parking and unparking the first qubit is the identity exactly on texts without the placeholder. */
  lemma ParkingRoundTrip(text: string)
    ensures Replace(Replace(text, Qubit(0), AUX), AUX, Qubit(0)) == text <==> !Contains(text, AUX)
  {
    var q0 := Qubit(0);
    var rules, others := [Rule(q0, q0), Rule(AUX, q0)], [Rule(q0, q0), Rule(AUX, AUX)];
    ParkingIsOneScan(text, rules);
    UnparkedIsIdentity(text, others);
    QubitVersusAux(0);
    SubstituteAgrees(text, rules, others);
    ParkingStandsAlone(rules);
    FiresWhereContained(text, rules, 1);
  }

  lemma ParkingIsOneScan(text: string, rules: seq<Rule>)
    requires rules == [Rule(Qubit(0), Qubit(0)), Rule(AUX, Qubit(0))]
    ensures Replace(Replace(text, Qubit(0), AUX), AUX, Qubit(0)) == Substitute(text, rules)
  {
    var q0, r := Qubit(0), [Rule(Qubit(0), AUX)];
    QubitShape(0);
    ReferenceShape(AUX);
    SealedByLast(AUX, AUX);
    Fusion(text, r, 'q', AUX, q0);
    ReplaceWhole(AUX, q0);
    assert Fused(r, AUX, q0) == rules;
  }

  lemma UnparkedIsIdentity(text: string, others: seq<Rule>)
    requires others == [Rule(Qubit(0), Qubit(0)), Rule(AUX, AUX)]
    ensures Substitute(text, others) == text
  {
    var q0 := Qubit(0);
    QubitShape(0);
    ReferenceShape(AUX);
    SealedByLast(q0, AUX);
    IdentityRule(text, [Rule(q0, q0)], 'q', AUX);
    assert [Rule(q0, q0)] + [Rule(AUX, AUX)] == others;
    ReplaceBySame(text, q0);
  }

  lemma ParkingStandsAlone(rules: seq<Rule>)
    requires rules == [Rule(Qubit(0), Qubit(0)), Rule(AUX, Qubit(0))]
    ensures NeverSwallowed(rules, 1)
  {
    forall j, i | 0 <= j < 2 && 0 <= i < |rules[j].from| && (j != 1 || i != 0)
      ensures Diverge(rules[j].from[i..], rules[1].from)
    {
      var a := rules[j].from[i..];
      assert Qubit(0) == "q[0]" && AUX == "q[aux]";
      if i == 0 {
        assert a[2] != AUX[2];
      } else {
        assert a[0] != AUX[0];
      }
    }
  }
}
