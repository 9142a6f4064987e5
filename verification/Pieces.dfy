/** Texts made of inert stretches, qubit references and declarations, and what the pass does to them piece by piece. */
module Pieces {
  import opened Outcomes
  import opened Text
  import opened Substitution
  import opened Tool

  datatype Piece =
    | Lit(text: string)
    | Ref(before: string, index: nat)
    | Declaration(width: nat)                       // of a register named `q`
    | OtherDeclaration(name: string, size: nat)     // of a register with another name

  const QREG := "qreg "

  /** No reference and no declaration starts at position `i`, whatever follows `s`. */
  predicate Blocked(s: string, i: nat)
    requires i < |s|
  {
    s[i] == 'q' ==>
      i + 1 < |s| && s[i + 1] != '[' && exists d | 1 <= d < 5 && i + d < |s| :: s[i + d] != QREG[d]
  }

  predicate Inert(s: string) {
    forall i | 0 <= i < |s| :: Blocked(s, i)
  }

  /** Inert when a `q` follows. */
  predicate InertBefore(s: string) {
    forall i | 0 <= i < |s| :: Blocked(s + "q", i)
  }

  predicate IsName(s: string) {
    s != [] && forall i | 0 <= i < |s| :: IsWordChar(s[i])
  }

  /** The declaration of a register with any name. */
  function NamedDecl(name: string, n: nat): string { QREG + (name + ("[" + Decimal(n) + "];")) }

  /** A piece that holds nothing else than what it says. */
  predicate SoundPiece(p: Piece) {
    match p
    case Lit(x) => Inert(x)
    case Ref(before, _) => InertBefore(before)
    case Declaration(_) => true
    case OtherDeclaration(name, _) => IsName(name) && name != "q"
  }

  predicate SoundPieces(ps: seq<Piece>) {
    forall k | 0 <= k < |ps| :: SoundPiece(ps[k])
  }

  /** A register named `q` has the given width; the size of any other has two digits or more. */
  predicate ValidPiece(p: Piece, width: nat) {
    SoundPiece(p) && (p.Declaration? ==> p.width == width) && (p.OtherDeclaration? ==> p.size >= 10)
  }

  predicate ValidPieces(ps: seq<Piece>, width: nat) {
    forall k | 0 <= k < |ps| :: ValidPiece(ps[k], width)
  }

  function PieceText(p: Piece): string {
    match p
    case Lit(x) => x
    case Ref(before, i) => before + Qubit(i)
    case Declaration(n) => Decl(n)
    case OtherDeclaration(name, n) => NamedDecl(name, n)
  }

  function Flatten(ps: seq<Piece>): string {
    if ps == [] then [] else PieceText(ps[0]) + Flatten(ps[1..])
  }

  /** The qubit each index is renamed to. */
  function Relabel(t: Target, i: nat): nat {
    if i == 0 then t.id0 else if i == 1 then t.id1 else i
  }

  function RelabelPiece(p: Piece, t: Target): Piece {
    match p
    case Lit(x) => p
    case Ref(before, i) => Ref(before, Relabel(t, i))
    case Declaration(n) => Declaration(t.qubits)
    case OtherDeclaration(_, _) => p
  }

  function RelabelPieces(ps: seq<Piece>, t: Target): (qs: seq<Piece>)
    ensures |qs| == |ps| && forall k | 0 <= k < |ps| :: qs[k] == RelabelPiece(ps[k], t)
  {
    seq(|ps|, k requires 0 <= k < |ps| => RelabelPiece(ps[k], t))
  }

  /** The declared sizes, left to right. */
  function Declared(ps: seq<Piece>): seq<nat> {
    if ps == [] then [] else PieceSizes(ps[0]) + Declared(ps[1..])
  }

  function PieceSizes(p: Piece): seq<nat> {
    match p
    case Declaration(n) => [n]
    case OtherDeclaration(_, n) => [n]
    case _ => []
  }

  /** The sizes of one digit. */
  function OneDigit(sizes: seq<nat>): seq<nat> {
    if sizes == [] then [] else (if sizes[0] < 10 then [sizes[0]] else []) + OneDigit(sizes[1..])
  }

  lemma {:induction false} OneDigitAppend(a: seq<nat>, b: seq<nat>)
    ensures OneDigit(a + b) == OneDigit(a) + OneDigit(b)
  {
    if a == [] {
      assert a + b == b;
    } else {
      OneDigitAppend(a[1..], b);
      HeadAndTail(a, b);
      Assoc(if a[0] < 10 then [a[0]] else [], OneDigit(a[1..]), OneDigit(b));
    }
  }

  lemma BlockedExtends(s: string, more: string, i: nat)
    requires i < |s| && Blocked(s, i)
    ensures Blocked(s + more, i)
  {
    if s[i] == 'q' {
      var d :| 1 <= d < 5 && i + d < |s| && s[i + d] != QREG[d];
      assert (s + more)[i + d] == s[i + d];
    }
  }

  /** At a blocked position nothing the pass looks for can start. */
  lemma BlockedStarts(s: string, i: nat, n: nat, t: Target)
    requires i < |s| && Blocked(s, i)
    ensures FirstMatch(s[i..], Renaming(n, t)) == 3
    ensures !(AUX <= s[i..]) && DeclLength(s[i..]) == 0
  {
    var u := s[i..];
    assert Qubit(0)[0] == 'q' && Qubit(1)[0] == 'q' && Decl(n)[0] == 'q' && AUX[0] == 'q';
    assert Qubit(0)[1] == '[' && Qubit(1)[1] == '[' && AUX[1] == '[';
    if s[i] == 'q' {
      var d :| 1 <= d < 5 && i + d < |s| && s[i + d] != QREG[d];
      assert u[1] != '[' && u[d] != QREG[d] == Decl(n)[d];
    }
    assert u[0] == s[i];
    assert !(QREG <= u);
  }

  /** The declarations of a text behind a blocked stretch are those of the rest. */
  lemma {:induction false} DeclDigitsSkips(x: string, rest: string)
    requires forall i | 0 <= i < |x| :: DeclLength((x + rest)[i..]) == 0
    ensures DeclDigits(x + rest) == DeclDigits(rest)
  {
    var s := x + rest;
    if x == [] {
      assert s == rest;
    } else {
      assert s[0..] == s && s[1..] == x[1..] + rest;
      forall i | 0 <= i < |x[1..]| ensures DeclLength((x[1..] + rest)[i..]) == 0 {
        assert (x[1..] + rest)[i..] == s[i + 1..];
      }
      DeclDigitsSkips(x[1..], rest);
    }
  }

  lemma BlockedStretch(x: string, rest: string, n: nat, t: Target)
    requires forall i | 0 <= i < |x| :: Blocked(x + rest, i)
    ensures Substitute(x + rest, Renaming(n, t)) == x + Substitute(rest, Renaming(n, t))
    ensures DeclDigits(x + rest) == DeclDigits(rest)
    ensures Contains(x + rest, AUX) <==> Contains(rest, AUX)
  {
    var s := x + rest;
    forall i | 0 <= i < |x|
      ensures FirstMatch(s[i..], Renaming(n, t)) == 3 && !(AUX <= s[i..]) && DeclLength(s[i..]) == 0
    {
      BlockedStarts(s, i, n, t);
    }
    SubstituteSkips(x, rest, Renaming(n, t));
    DeclDigitsSkips(x, rest);
    ContainsBehind(s, |x|, AUX);
    assert s[|x|..] == rest;
  }

  /** A reference is renamed, declares nothing and is not the placeholder. */
  lemma ReferencePiece(i: nat, rest: string, n: nat, t: Target)
    ensures Substitute(Qubit(i) + rest, Renaming(n, t)) == Qubit(Relabel(t, i)) + Substitute(rest, Renaming(n, t))
    ensures DeclDigits(Qubit(i) + rest) == DeclDigits(rest)
    ensures Contains(Qubit(i) + rest, AUX) <==> Contains(rest, AUX)
  {
    var q, rules := Qubit(i), Renaming(n, t);
    var s := q + rest;
    QubitShape(i);
    assert s[0..] == s && q[1] == '[' && IsDigit(q[2]);
    assert Decl(n)[1] == 'r';
    forall k | 0 <= k < |q|
      ensures !(AUX <= s[k..]) && DeclLength(s[k..]) == 0
      ensures k > 0 ==> FirstMatch(s[k..], rules) == 3
    {
      var u := s[k..];
      if k > 0 {
        assert u[0] == q[k] == q[1..][k - 1] != 'q';
        BlockedStarts(s, k, n, t);
      } else {
        assert u[1] == '[' && u[2] == q[2];
        assert AUX[2] == 'a';
        assert !(QREG <= u) by { assert QREG[1] == 'r'; }
      }
    }
    DeclDigitsSkips(q, rest);
    ContainsBehind(s, |q|, AUX);
    assert s[|q|..] == rest;
    ReferenceMatch(i, 0, rest);
    ReferenceMatch(i, 1, rest);
    assert !(Decl(n) <= s) by { assert s[1] == '['; }
    if i == 0 {
      SubstituteFires(q, rest, rules, 1);
    } else if i == 1 {
      SubstituteFires(q, rest, rules, 2);
    } else {
      assert FirstMatch(s, rules) == 3;
      SubstituteSkips(q, rest, rules);
    }
  }

  lemma ReferenceMatch(i: nat, j: nat, rest: string)
    ensures Qubit(j) <= Qubit(i) + rest <==> i == j
  {
    var s := Qubit(i) + rest;
    if Qubit(j) <= s {
      assert s == Qubit(j) + s[|Qubit(j)|..];
      QubitPrefix(i, j, rest, s[|Qubit(j)|..]);
    }
  }

  lemma AuxStart(s: string, k: nat)
    requires k <= |s|
    ensures AUX <= s[k..] ==> k + 2 < |s| && s[k] == 'q' && s[k + 1] == '[' && s[k + 2] == 'a'
  {
    if AUX <= s[k..] {
      assert s[k..][0] == AUX[0] && s[k..][1] == AUX[1] && s[k..][2] == AUX[2];
    }
  }

  lemma DeclarationChars(n: nat, rest: string)
    requires n < 10
    ensures var s := Decl(n) + rest;
            |Decl(n)| == 10 && s[..5] == QREG && s[5] == 'q' && s[6] == '[' &&
            s[7] == DigitChar(n) && s[8] == ']' && s[9] == ';' && s[10..] == rest
  {
    assert Decimal(n) == [DigitChar(n)];
    assert Decl(n) == QREG + ['q', '[', DigitChar(n), ']', ';'];
  }

  lemma {:induction false} WordRunOf(name: string, rest: string)
    requires (forall i | 0 <= i < |name| :: IsWordChar(name[i])) && rest != [] && !IsWordChar(rest[0])
    ensures WordRun(name + rest) == |name|
  {
    if name == [] {
      assert name + rest == rest;
    } else {
      HeadAndTail(name, rest);
      WordRunOf(name[1..], rest);
    }
  }

  /** The declaration up to its closing bracket, whatever follows. */
  lemma NamedDeclChars(name: string, n: nat, rest: string)
    ensures var s, d := NamedDecl(name, n) + rest, Decimal(n);
            && |NamedDecl(name, n)| == 8 + |name| + |d|
            && QREG <= s && s[5..] == name + ("[" + d + "];" + rest)
            && s[5 + |name|..] == "[" + d + "];" + rest
            && s[8 + |name| + |d|..] == rest
  {
    var tail := "[" + Decimal(n) + "];" + rest;
    assert NamedDecl(name, n) + rest == QREG + (name + tail);
  }

  lemma NamedDeclarationLength(name: string, n: nat, rest: string)
    requires IsName(name)
    ensures DeclLength(NamedDecl(name, n) + rest) == if n < 10 then |NamedDecl(name, n)| else 0
    ensures n < 10 ==> |Decimal(n)| == 1 && (NamedDecl(name, n) + rest)[|name| + 6] == DigitChar(n)
  {
    var tail := "[" + Decimal(n) + "];" + rest;
    NamedDeclChars(name, n, rest);
    WordRunOf(name, tail);
    assert tail[1] == Decimal(n)[0];
    if n < 10 {
      assert tail[2] == ']' && tail[3] == ';';
    } else {
      assert |Decimal(n)| >= 2 && tail[2] == Decimal(n)[1];
    }
  }

  lemma DigitsBehind(s: string, length: nat, n: nat, rest: string)
    requires DeclLength(s) == length > 0 && n < 10 && s[length - 3] == DigitChar(n) && s[length..] == rest
    ensures DeclDigits(s) == [n] + DeclDigits(rest)
  {
    assert DigitValue(DigitChar(n)) == n;
  }

  /** The pattern finds a declaration with a size of one digit, for any name of the register. */
  lemma NamedDeclarationDigit(name: string, n: nat, rest: string)
    requires IsName(name) && n < 10
    ensures DeclDigits(NamedDecl(name, n) + rest) == [n] + DeclDigits(rest)
  {
    NamedDeclChars(name, n, rest);
    NamedDeclarationLength(name, n, rest);
    DigitsBehind(NamedDecl(name, n) + rest, |name| + 9, n, rest);
  }

  /** Inside a declaration no further one starts. */
  lemma InsideNamed(name: string, n: nat, rest: string, k: nat)
    requires IsName(name) && 0 < k < |NamedDecl(name, n)|
    ensures DeclLength((NamedDecl(name, n) + rest)[k..]) == 0
  {
    var d := NamedDecl(name, n);
    var u := (d + rest)[k..];
    assert u[0] == d[k];
    if d[k] == 'q' {
      QInsideNamed(name, n, k);
      assert u[4] == d[k + 4] != ' ' == QREG[4];
    }
    assert !(QREG <= u) by { assert QREG[0] == 'q'; }
  }

  /** Behind the keyword, a `q` can only stand in the name, and four characters on there is no space. */
  lemma QInsideNamed(name: string, n: nat, k: nat)
    requires IsName(name) && 0 < k < |NamedDecl(name, n)| && NamedDecl(name, n)[k] == 'q'
    ensures 5 <= k < 5 + |name| && k + 4 < |NamedDecl(name, n)| && NamedDecl(name, n)[k + 4] != ' '
  {
    var d, m := NamedDecl(name, n), |name|;
    assert forall i | 0 < i < 5 :: d[i] == QREG[i] != 'q';
    assert forall i | 0 <= i < m :: d[5 + i] == name[i] && IsWordChar(name[i]);
    assert forall i | 5 + m <= i < |d| :: d[i] == ("[" + Decimal(n) + "];")[i - 5 - m];
    TailChars(n);
  }

  lemma TailChars(n: nat)
    ensures var tail := "[" + Decimal(n) + "];";
            |tail| >= 4 && forall i | 0 <= i < |tail| :: tail[i] != 'q' && tail[i] != ' '
  {
  }

  /** A size of two or more digits is not matched by the pattern. */
  lemma WideNamedDeclaration(name: string, n: nat, rest: string)
    requires IsName(name) && n >= 10
    ensures DeclDigits(NamedDecl(name, n) + rest) == DeclDigits(rest)
  {
    var d := NamedDecl(name, n);
    forall k | 0 <= k < |d| ensures DeclLength((d + rest)[k..]) == 0 {
      if k == 0 {
        assert (d + rest)[0..] == d + rest;
        NamedDeclarationLength(name, n, rest);
      } else {
        InsideNamed(name, n, rest, k);
      }
    }
    DeclDigitsSkips(d, rest);
  }

  lemma DeclIsNamed(n: nat)
    ensures Decl(n) == NamedDecl("q", n) && IsName("q")
  {
  }

  /** The declaration is found, widened, and is not the placeholder. */
  lemma DeclarationPiece(n: nat, rest: string, t: Target)
    requires n <= 2
    ensures Substitute(Decl(n) + rest, Renaming(n, t)) == Decl(t.qubits) + Substitute(rest, Renaming(n, t))
    ensures DeclDigits(Decl(n) + rest) == [n] + DeclDigits(rest)
    ensures Contains(Decl(n) + rest, AUX) <==> Contains(rest, AUX)
  {
    DeclarationFires(n, rest, t);
    DeclarationDigit(n, rest);
    NoAuxInDeclaration(n, rest);
  }

  lemma DeclarationFires(n: nat, rest: string, t: Target)
    ensures Substitute(Decl(n) + rest, Renaming(n, t)) == Decl(t.qubits) + Substitute(rest, Renaming(n, t))
  {
    SubstituteFires(Decl(n), rest, Renaming(n, t), 0);
  }

  lemma DeclarationDigit(n: nat, rest: string)
    requires n < 10
    ensures DeclDigits(Decl(n) + rest) == [n] + DeclDigits(rest)
  {
    DeclIsNamed(n);
    NamedDeclarationDigit("q", n, rest);
  }

  lemma NoAuxInDeclaration(n: nat, rest: string)
    requires n <= 2
    ensures Contains(Decl(n) + rest, AUX) <==> Contains(rest, AUX)
  {
    var s := Decl(n) + rest;
    DeclarationChars(n, rest);
    assert s[1] == QREG[1] && s[2] == QREG[2] && s[3] == QREG[3] && s[4] == QREG[4];
    forall k | 0 <= k < 10 ensures !(AUX <= s[k..]) {
      AuxStart(s, k);
    }
    ContainsBehind(s, 10, AUX);
  }

  /** At no position of such a declaration a pattern of the pass starts. */
  lemma NothingInOtherDeclaration(name: string, m: nat, rest: string, k: nat, n: nat, t: Target)
    requires IsName(name) && name != "q" && m >= 10 && k < |NamedDecl(name, m)|
    ensures FirstMatch((NamedDecl(name, m) + rest)[k..], Renaming(n, t)) == 3
    ensures !(AUX <= (NamedDecl(name, m) + rest)[k..])
  {
    var d := NamedDecl(name, m);
    var u := (d + rest)[k..];
    assert u[0] == d[k] && Qubit(0) == "q[0]" && Qubit(1) == "q[1]";
    if k == 0 {
      assert u == d + rest;
      OtherDeclarationDiffers(name, m, rest, n);
      assert u[1] == QREG[1] == 'r';
    } else if d[k] == 'q' {
      QInsideNamed(name, m, k);
      assert u[4] == d[k + 4] != ' ' == Decl(n)[4];
      QBehindName(name, m, k);
      assert u[1] == d[k + 1];
      if u[1] == '[' {
        assert u[2] == d[k + 2] && u[3] == d[k + 3];
      }
    }
  }

  lemma OtherDeclarationDiffers(name: string, m: nat, rest: string, n: nat)
    requires IsName(name) && name != "q"
    ensures !(Decl(n) <= NamedDecl(name, m) + rest)
  {
    var s := NamedDecl(name, m) + rest;
    assert s[5] == name[0] && s[6] == if |name| > 1 then name[1] else '[';
    assert Decl(n)[5] == 'q' && Decl(n)[6] == '[';
    if name[0] == 'q' {
      assert |name| > 1 && IsWordChar(name[1]);
    }
  }

  /** A `q` of the name is followed by a word character or, at its end, by a bracket and two digits. */
  lemma QBehindName(name: string, m: nat, k: nat)
    requires IsName(name) && m >= 10 && 5 <= k < 5 + |name|
    ensures var d := NamedDecl(name, m);
            && k + 3 < |d|
            && (d[k + 1] == '[' ==> IsDigit(d[k + 2]) && IsDigit(d[k + 3]))
  {
    var d, digits := NamedDecl(name, m), Decimal(m);
    assert |digits| >= 2;
    assert d[k + 1] == if k + 1 < 5 + |name| then name[k - 4] else '[';
    if k + 1 == 5 + |name| {
      assert d[k + 2] == digits[0] && d[k + 3] == digits[1];
    } else {
      assert IsWordChar(name[k - 4]);
    }
  }

  /** A wide declaration of another register is seen by no pattern. */
  lemma OtherDeclarationPiece(name: string, m: nat, rest: string, n: nat, t: Target)
    requires IsName(name) && name != "q" && m >= 10
    ensures Substitute(NamedDecl(name, m) + rest, Renaming(n, t)) ==
            NamedDecl(name, m) + Substitute(rest, Renaming(n, t))
    ensures DeclDigits(NamedDecl(name, m) + rest) == DeclDigits(rest)
    ensures Contains(NamedDecl(name, m) + rest, AUX) <==> Contains(rest, AUX)
  {
    var d := NamedDecl(name, m);
    forall k | 0 <= k < |d|
      ensures FirstMatch((d + rest)[k..], Renaming(n, t)) == |Renaming(n, t)| && !(AUX <= (d + rest)[k..])
    {
      NothingInOtherDeclaration(name, m, rest, k, n, t);
    }
    WideNamedDeclaration(name, m, rest);
    SubstituteSkips(d, rest, Renaming(n, t));
    ContainsBehind(d + rest, |d|, AUX);
    assert (d + rest)[|d|..] == rest;
  }

  /** On a text of valid pieces the pass finds the declarations of one digit, no placeholder, and renames piece by
      piece. */
  lemma {:induction false} PiecewiseRenaming(ps: seq<Piece>, n: nat, t: Target)
    requires n <= 2 && ValidPieces(ps, n)
    ensures Substitute(Flatten(ps), Renaming(n, t)) == Flatten(RelabelPieces(ps, t))
    ensures !Contains(Flatten(ps), AUX)
  {
    if ps != [] {
      PiecewiseRenaming(ps[1..], n, t);
      assert ValidPiece(ps[0], n);
      assert RelabelPieces(ps, t)[1..] == RelabelPieces(ps[1..], t);
      PieceRenaming(ps[0], Flatten(ps[1..]), n, t);
    }
  }

  lemma PieceRenaming(p: Piece, rest: string, n: nat, t: Target)
    requires n <= 2 && ValidPiece(p, n)
    ensures Substitute(PieceText(p) + rest, Renaming(n, t)) ==
            PieceText(RelabelPiece(p, t)) + Substitute(rest, Renaming(n, t))
    ensures Contains(PieceText(p) + rest, AUX) <==> Contains(rest, AUX)
  {
    match p {
      case Lit(x) => LiteralPiece(x, rest, n, t);
      case Ref(before, i) => PrefixedReference(before, i, rest, n, t);
      case Declaration(_) => DeclarationPiece(n, rest, t);
      case OtherDeclaration(name, m) => OtherDeclarationPiece(name, m, rest, n, t);
    }
  }

  /** Of all declarations, of registers with any names, the pattern finds those with a size of one digit. */
  lemma {:induction false} DigitsOfPieces(ps: seq<Piece>)
    requires SoundPieces(ps)
    ensures DeclDigits(Flatten(ps)) == OneDigit(Declared(ps))
  {
    if ps != [] {
      DigitsOfPieces(ps[1..]);
      assert SoundPiece(ps[0]);
      PieceDigits(ps[0], Flatten(ps[1..]));
      OneDigitAppend(PieceSizes(ps[0]), Declared(ps[1..]));
    }
  }

  lemma PieceDigits(p: Piece, rest: string)
    requires SoundPiece(p)
    ensures DeclDigits(PieceText(p) + rest) == OneDigit(PieceSizes(p)) + DeclDigits(rest)
  {
    match p {
      case Lit(x) => LiteralPiece(x, rest, 0, Target(0, 0, 0));
      case Ref(before, i) => PrefixedReference(before, i, rest, 0, Target(0, 0, 0));
      case Declaration(n) =>
        DeclIsNamed(n);
        NamedDigits("q", n, rest);
      case OtherDeclaration(name, n) => NamedDigits(name, n, rest);
    }
  }

  lemma NamedDigits(name: string, n: nat, rest: string)
    requires IsName(name)
    ensures DeclDigits(NamedDecl(name, n) + rest) == OneDigit([n]) + DeclDigits(rest)
  {
    if n < 10 {
      NamedDeclarationDigit(name, n, rest);
    } else {
      WideNamedDeclaration(name, n, rest);
    }
  }

  lemma LiteralPiece(x: string, rest: string, n: nat, t: Target)
    requires Inert(x)
    ensures Substitute(x + rest, Renaming(n, t)) == x + Substitute(rest, Renaming(n, t))
    ensures DeclDigits(x + rest) == DeclDigits(rest)
    ensures Contains(x + rest, AUX) <==> Contains(rest, AUX)
  {
    forall i | 0 <= i < |x| ensures Blocked(x + rest, i) {
      BlockedExtends(x, rest, i);
    }
    BlockedStretch(x, rest, n, t);
  }

  lemma PrefixedReference(before: string, i: nat, rest: string, n: nat, t: Target)
    requires InertBefore(before)
    ensures Substitute(before + Qubit(i) + rest, Renaming(n, t)) ==
            before + Qubit(Relabel(t, i)) + Substitute(rest, Renaming(n, t))
    ensures DeclDigits(before + Qubit(i) + rest) == DeclDigits(rest)
    ensures Contains(before + Qubit(i) + rest, AUX) <==> Contains(rest, AUX)
  {
    var tail, out := Qubit(i) + rest, Substitute(rest, Renaming(n, t));
    StretchBeforeReference(before, tail, n, t);
    ReferencePiece(i, rest, n, t);
    Assoc(before, Qubit(i), rest);
    Assoc(before, Qubit(Relabel(t, i)), out);
  }

  lemma StretchBeforeReference(before: string, tail: string, n: nat, t: Target)
    requires InertBefore(before) && tail != [] && tail[0] == 'q'
    ensures Substitute(before + tail, Renaming(n, t)) == before + Substitute(tail, Renaming(n, t))
    ensures DeclDigits(before + tail) == DeclDigits(tail)
    ensures Contains(before + tail, AUX) <==> Contains(tail, AUX)
  {
    assert before + "q" + tail[1..] == before + tail;
    forall k | 0 <= k < |before| ensures Blocked(before + tail, k) {
      BlockedExtends(before + "q", tail[1..], k);
    }
    BlockedStretch(before, tail, n, t);
  }

  /** Same skeleton: only the indices of references and declarations may differ. */
  predicate SameShape(p: Piece, q: Piece) {
    match (p, q)
    case (Lit(x), Lit(y)) => x == y
    case (Ref(b, _), Ref(c, _)) => b == c
    case (Declaration(_), Declaration(_)) => true
    case (OtherDeclaration(_, _), OtherDeclaration(_, _)) => p == q
    case _ => false
  }

  predicate SameSkeleton(ps: seq<Piece>, qs: seq<Piece>) {
    |ps| == |qs| && forall k | 0 <= k < |ps| :: SameShape(ps[k], qs[k])
  }

  lemma PieceInjective(p: Piece, q: Piece, x: string, y: string)
    requires SameShape(p, q) && PieceText(p) + x == PieceText(q) + y
    ensures p == q && x == y
  {
    match (p, q) {
      case (Lit(a), Lit(_)) => SamePrefix(a, x, y);
      case (Ref(b, i), Ref(_, j)) => ReferenceInjective(b, i, j, x, y);
      case (Declaration(i), Declaration(j)) => DeclarationInjective(i, j, x, y);
      case (OtherDeclaration(name, n), OtherDeclaration(_, _)) => SamePrefix(NamedDecl(name, n), x, y);
    }
  }

  lemma SamePrefix(a: string, x: string, y: string)
    requires a + x == a + y
    ensures x == y
  {
    assert (a + x)[|a|..] == x && (a + y)[|a|..] == y;
  }

  lemma ReferenceInjective(b: string, i: nat, j: nat, x: string, y: string)
    requires b + Qubit(i) + x == b + Qubit(j) + y
    ensures i == j && x == y
  {
    assert b + Qubit(i) + x == b + (Qubit(i) + x) && b + Qubit(j) + y == b + (Qubit(j) + y);
    SamePrefix(b, Qubit(i) + x, Qubit(j) + y);
    QubitPrefix(i, j, x, y);
  }

  lemma DeclarationInjective(i: nat, j: nat, x: string, y: string)
    requires Decl(i) + x == Decl(j) + y
    ensures i == j && x == y
  {
    assert Decl(i) + x == QREG + Qubit(i) + (";" + x) && Decl(j) + y == QREG + Qubit(j) + (";" + y);
    ReferenceInjective(QREG, i, j, ";" + x, ";" + y);
    SamePrefix(";", x, y);
  }

  /** Printing is injective on texts with the same skeleton. */
  lemma {:induction false} FlattenInjective(ps: seq<Piece>, qs: seq<Piece>)
    requires SameSkeleton(ps, qs) && Flatten(ps) == Flatten(qs)
    ensures ps == qs
  {
    if ps != [] {
      assert SameShape(ps[0], qs[0]);
      PieceInjective(ps[0], qs[0], Flatten(ps[1..]), Flatten(qs[1..]));
      FlattenInjective(ps[1..], qs[1..]);
      assert ps == [ps[0]] + ps[1..] && qs == [qs[0]] + qs[1..];
    }
  }

  // ----- acceptance -----

  /** Which texts are accepted, for any list of declarations of registers with any names: those with exactly one
      size of one digit, which is at most two and at most that of the device. Registers of ten qubits and more are
      not seen, neither as a second register nor as too large. */
  lemma DeclarationsDecide(ps: seq<Piece>, t: Target)
    requires SoundPieces(ps)
    ensures var sizes, r := OneDigit(Declared(ps)), Compiled(Flatten(ps), t);
            && (r.Ok? <==> |sizes| == 1 && sizes[0] <= 2 && sizes[0] <= t.qubits)
            && (r == Err(NoRegister) <==> sizes == [])
            && (r == Err(SeveralRegisters) <==> |sizes| > 1)
            && (r == Err(TooManyQubits) <==> |sizes| == 1 && sizes[0] > 2)
            && (r == Err(DeviceTooSmall) <==> |sizes| == 1 && t.qubits < sizes[0] <= 2)
  {
    DigitsOfPieces(ps);
  }

  /** A text with one register `q` of up to two qubits and any number of wide registers is accepted; the wide ones
      stay as they are, although the device may not have that many qubits. */
  lemma WideRegistersAreIgnored(ps: seq<Piece>, n: nat, t: Target)
    requires n <= 2 <= t.qubits && ValidPieces(ps, n) && OneDigit(Declared(ps)) == [n]
    ensures Compiled(Flatten(ps), t) == Ok(Flatten(RelabelPieces(ps, t)))
  {
    assert forall k | 0 <= k < |ps| :: ValidPiece(ps[k], n);
    DigitsOfPieces(ps);
    PiecewiseRenaming(ps, n, t);
    ChainIsSimultaneous(Flatten(ps), n, t);
  }

  /** A register `q` of two qubits beside a register `r` of twelve. */
  lemma SecondRegisterIsAccepted(ps: seq<Piece>, t: Target)
    requires ps == [Declaration(2), OtherDeclaration("r", 12)] && t.qubits >= 2
    ensures Flatten(ps) == Decl(2) + NamedDecl("r", 12)
    ensures Compiled(Flatten(ps), t) == Ok(Decl(t.qubits) + NamedDecl("r", 12))
  {
    var out := RelabelPieces(ps, t);
    assert IsName("r") && out == [Declaration(t.qubits), OtherDeclaration("r", 12)];
    FlattenTwo(ps);
    FlattenTwo(out);
    DeclaredTwo(ps);
    assert PieceSizes(ps[0]) == [2] && PieceSizes(ps[1]) == [12];
    OneDigitAppend([2], [12]);
    WideRegistersAreIgnored(ps, 2, t);
  }

  lemma DeclaredTwo(ps: seq<Piece>)
    requires |ps| == 2
    ensures Declared(ps) == PieceSizes(ps[0]) + PieceSizes(ps[1])
  {
    var rest := ps[1..];
    assert rest == [ps[1]] && rest[1..] == [];
    assert Declared(rest[1..]) == [];
    assert Declared(rest) == PieceSizes(rest[0]) + Declared(rest[1..]);
    assert Declared(ps) == PieceSizes(ps[0]) + Declared(rest);
  }

  lemma FlattenTwo(ps: seq<Piece>)
    requires |ps| == 2
    ensures Flatten(ps) == PieceText(ps[0]) + PieceText(ps[1])
  {
    var rest := ps[1..];
    assert rest == [ps[1]] && rest[1..] == [];
    assert Flatten(rest[1..]) == [];
    assert Flatten(rest) == PieceText(rest[0]) + Flatten(rest[1..]);
    assert Flatten(ps) == PieceText(ps[0]) + Flatten(rest);
  }
}
