/** Accepted texts that are not circuits on a register named `q`: registers with other names, and the placeholder. */
module Registers {
  import opened Outcomes
  import opened Text
  import opened Substitution
  import opened Tool
  import opened Pieces

  lemma {:induction false} NoDigits(s: string)
    requires forall i | 0 <= i < |s| :: !(QREG <= s[i..])
    ensures DeclDigits(s) == []
  {
    if s != [] {
      assert s[0..] == s;
      forall i | 0 <= i < |s[1..]| ensures !(QREG <= s[1..][i..]) {
        assert s[1..][i..] == s[i + 1..];
      }
      NoDigits(s[1..]);
    }
  }

  /** A declared text that already holds the placeholder is accepted, and changed where it should not be. */
  lemma PlaceholderIsRenamed()
    ensures var text, t := Decl(2) + "\nbarrier q[aux];", Target(5, 3, 4);
            Compiled(text, t).Ok? && Compiled(text, t) != Ok(Substitute(text, Renaming(2, t)))
  {
    var rest := "\nbarrier q[aux];";
    PlaceholderTail(rest);
    DeclarationDigit(2, rest);
    NoAuxInDeclaration(2, rest);
    assert DeclDigits(Decl(2) + rest) == [2];
    CompiledIsRenamingIff(Decl(2) + rest, Target(5, 3, 4));
  }

  lemma PlaceholderTail(rest: string)
    requires rest == "\nbarrier q[aux];"
    ensures DeclDigits(rest) == [] && Contains(rest, AUX)
  {
    assert rest[9..] == "q[aux];";
    forall i | 0 <= i < |rest| ensures !(QREG <= rest[i..]) {
      assert rest[i..][0] == rest[i];
      if i == 9 {
        assert rest[i..][1] == '[' != QREG[1];
      }
    }
    NoDigits(rest);
    ContainsAt(rest, AUX, 9);
  }

  /** A register with another name, in a text without `q[`, is accepted like one named `q` and returned unchanged. */
  lemma OtherNameIsKept(name: string, n: nat, rest: string, t: Target)
    requires IsName(name) && n <= 2 <= t.qubits && DeclDigits(rest) == []
    requires !Contains(NamedDecl(name, n) + rest, "q[")
    ensures Compiled(NamedDecl(name, n) + rest, t) == Ok(NamedDecl(name, n) + rest)
  {
    NamedDeclarationDigit(name, n, rest);
    OtherRegisterIsKept(NamedDecl(name, n) + rest, t);
  }

  lemma WithoutQNoDigits(s: string)
    requires 'q' !in s
    ensures DeclDigits(s) == []
  {
    forall i | 0 <= i < |s| ensures !(QREG <= s[i..]) {
      assert s[i..][0] == s[i] != QREG[0];
    }
    NoDigits(s);
  }

  /** The character `a` is never followed by `b`. */
  lemma {:induction false} AbsentPair(s: string, a: char, b: char)
    requires forall i | 0 <= i < |s| - 1 :: s[i] == a ==> s[i + 1] != b
    ensures !Contains(s, [a, b])
  {
    if s != [] {
      AbsentPair(s[1..], a, b);
      FirstTwo([a, b], s);
    }
  }

  lemma FirstTwo(p: string, s: string)
    requires |p| >= 2
    ensures p <= s ==> |s| >= 2 && s[0] == p[0] && s[1] == p[1]
  {
    if p <= s {
      assert s[..|p|] == p;
    }
  }

  /** A register `r` and a gate on it: accepted, neither widened nor renamed. */
  lemma RegisterRIsKept(s: string, t: Target)
    requires s == "qreg r[2];\nh r[0];\n" && t.qubits >= 2
    ensures Compiled(s, t) == Ok(s)
  {
    var rest := s[10..];
    assert rest == "\nh r[0];\n";
    WithoutQNoDigits(rest);
    RegisterRText(s);
    OtherNameIsKept("r", 2, rest, t);
  }

  lemma RegisterRText(s: string)
    requires s == "qreg r[2];\nh r[0];\n"
    ensures s == NamedDecl("r", 2) + "\nh r[0];\n" && !Contains(s, "q[")
  {
    assert Decimal(2) == "2";
    AbsentPair(s, 'q', '[');
  }

  // ----- references are renamed without the declaration -----

  /** References inside a declaration are renamed, too. */
  lemma ReferencesInDecl(n: nat, rest: string, t: Target)
    ensures Substitute(Decl(n) + rest, References(t)) == Decl(Relabel(t, n)) + Substitute(rest, References(t))
  {
    var rules := References(t);
    ReferencesAreBracketed(t);
    DeclParts(n, rest);
    SkipsQreg(Qubit(n) + (";" + rest), rules);
    ReferencesAtQubit(n, ";" + rest, t);
    SkipsOne(";", rest, rules);
    DeclParts(Relabel(t, n), Substitute(rest, rules));
  }

  lemma DeclParts(n: nat, rest: string)
    ensures Decl(n) + rest == QREG + (Qubit(n) + (";" + rest))
  {
  }

  lemma ReferencesAreBracketed(t: Target)
    ensures Bracketed(References(t))
  {
  }

  /** Every pattern starts like a reference. */
  predicate Bracketed(rules: seq<Rule>) {
    forall k | 0 <= k < |rules| :: |rules[k].from| >= 2 && rules[k].from[0] == 'q' && rules[k].from[1] == '['
  }

  lemma NoMatchAt(s: string, rules: seq<Rule>)
    requires Bracketed(rules) && s != [] && (s[0] != 'q' || (|s| > 1 && s[1] != '['))
    ensures FirstMatch(s, rules) == |rules|
  {
    forall k | 0 <= k < |rules| ensures !(rules[k].from <= s) {
      FirstTwo(rules[k].from, s);
    }
  }

  lemma SkipsQreg(tail: string, rules: seq<Rule>)
    requires Rules(rules) && Bracketed(rules)
    ensures Substitute(QREG + tail, rules) == QREG + Substitute(tail, rules)
  {
    var s := QREG + tail;
    forall i | 0 <= i < |QREG| ensures FirstMatch(s[i..], rules) == |rules| {
      assert s[i..][0] == QREG[i];
      assert i == 0 ==> s[i..][1] == 'r';
      NoMatchAt(s[i..], rules);
    }
    SubstituteSkips(QREG, tail, rules);
  }

  lemma SkipsOne(x: string, rest: string, rules: seq<Rule>)
    requires Rules(rules) && Bracketed(rules) && |x| == 1 && x[0] != 'q'
    ensures Substitute(x + rest, rules) == x + Substitute(rest, rules)
  {
    NoMatchAt(x + rest, rules);
    SubstituteCopies(x + rest, rules);
    assert (x + rest)[1..] == rest && [(x + rest)[0]] == x;
  }

  lemma ReferencesAtQubit(n: nat, rest: string, t: Target)
    ensures Substitute(Qubit(n) + rest, References(t)) == Qubit(Relabel(t, n)) + Substitute(rest, References(t))
  {
    var q, rules := Qubit(n), References(t);
    ReferenceMatch(n, 0, rest);
    ReferenceMatch(n, 1, rest);
    if n <= 1 {
      assert FirstMatch(q + rest, rules) == n;
      SubstituteFires(q, rest, rules, n);
    } else {
      QubitShape(n);
      forall i | 0 <= i < |q| ensures FirstMatch((q + rest)[i..], rules) == |rules| {
        if i > 0 {
          assert (q + rest)[i..][0] == q[i] == q[1..][i - 1] != 'q';
          NoMatchAt((q + rest)[i..], rules);
        } else {
          assert (q + rest)[0..] == q + rest;
        }
      }
      SubstituteSkips(q, rest, rules);
    }
  }

  /** Renaming the references, with the declaration treated as they treat it. */
  function WithDecl(n: nat, t: Target): (rules: seq<Rule>)
    ensures Rules(rules)
  {
    [Rule(Decl(n), Decl(Relabel(t, n)))] + References(t)
  }

  lemma {:induction false} DeclRuleIsImplied(s: string, n: nat, t: Target)
    ensures Substitute(s, WithDecl(n, t)) == Substitute(s, References(t))
  {
    var rules, all := References(t), WithDecl(n, t);
    if s != [] {
      assert all[1..] == rules;
      if Decl(n) <= s {
        var rest := s[|Decl(n)|..];
        assert s == Decl(n) + rest;
        ReferencesInDecl(n, rest, t);
        SubstituteFires(Decl(n), rest, all, 0);
        DeclRuleIsImplied(rest, n, t);
      } else {
        var k := FirstMatch(s, rules);
        assert FirstMatch(s, all) == k + 1;
        DeclRuleIsImplied(if k < |rules| then s[|rules[k].from|..] else s[1..], n, t);
      }
    }
  }

  lemma DeclStandsAlone(n: nat, t: Target)
    requires n <= 2
    ensures NeverSwallowed(Renaming(n, t), 0)
  {
    AuxAndDeclStandAlone(n, t);
    var rules, all := Renaming(n, t), ActualRenaming(n, t);
    forall j, i | 0 <= j < |rules| && 0 <= i < |rules[j].from| && (j != 0 || i != 0)
      ensures Diverge(rules[j].from[i..], rules[0].from)
    {
      assert rules[j].from == all[j].from && rules[0].from == all[0].from;
    }
  }

  /** Exactly when an accepted text only has its references renamed, those of every register with a name that ends
      in `q`: it does not declare a register named exactly `q`, of the size found, or widening that declaration is
      no change. */
  lemma OnlyReferencesIff(text: string, t: Target)
    requires t.qubits >= 2 && !Contains(text, AUX) && Compiled(text, t).Ok?
    ensures |DeclDigits(text)| == 1
    ensures var n := DeclDigits(text)[0];
            Compiled(text, t) == Ok(Substitute(text, References(t))) <==>
              (Contains(text, Decl(n)) ==> Relabel(t, n) == t.qubits)
  {
    CompiledIsRenamingIff(text, t);
    var n := DeclDigits(text)[0];
    var rules, others := Renaming(n, t), WithDecl(n, t);
    DeclRuleIsImplied(text, n, t);
    WithDeclCompares(n, t);
    SubstituteAgrees(text, rules, others);
    DeclStandsAlone(n, t);
    FiresWhereContained(text, rules, 0);
  }

  lemma WithDeclCompares(n: nat, t: Target)
    ensures var rules, others := Renaming(n, t), WithDecl(n, t);
            && Comparable(rules, others) && rules[1] == others[1] && rules[2] == others[2]
            && (rules[0].to == others[0].to <==> Relabel(t, n) == t.qubits)
  {
    if Relabel(t, n) != t.qubits {
      QubitsDiverge(t.qubits, Relabel(t, n));
    }
  }

  lemma SuffixTextHasNo(s: string)
    requires s == "qreg aq[2];\nh aq[0];\n"
    ensures !Contains(s, AUX) && !Contains(s, Decl(2))
  {
    SuffixTextPairs(s);
    PairsOfPatterns();
    if Contains(s, AUX) { ContainsPart(s, AUX, ['[', 'a']); }
    if Contains(s, Decl(2)) { ContainsPart(s, Decl(2), [' ', 'q']); }
  }

  lemma SuffixTextPairs(s: string)
    requires s == "qreg aq[2];\nh aq[0];\n"
    ensures !Contains(s, ['[', 'a']) && !Contains(s, [' ', 'q'])
  {
    assert forall i | 0 <= i < |s| - 1 :: s[i] == '[' || s[i] == ' ' ==> s[i + 1] in {'a', '2', '0'};
    assert forall i | 0 <= i < |s| - 1 :: s[i] == '[' ==> s[i + 1] != 'a';
    AbsentPair(s, '[', 'a');
    AbsentPair(s, ' ', 'q');
  }

  lemma PairsOfPatterns()
    ensures Contains(AUX, ['[', 'a']) && Contains(Decl(2), [' ', 'q'])
  {
    assert ['[', 'a'] <= AUX[1..] && [' ', 'q'] <= Decl(2)[4..];
    ContainsAt(AUX, ['[', 'a'], 1);
    ContainsAt(Decl(2), [' ', 'q'], 4);
  }

  lemma SkipsPlain(x: string, rest: string, rules: seq<Rule>)
    requires Rules(rules) && Bracketed(rules) && 'q' !in x
    ensures Substitute(x + rest, rules) == x + Substitute(rest, rules)
  {
    forall i | 0 <= i < |x| ensures FirstMatch((x + rest)[i..], rules) == |rules| {
      assert (x + rest)[i..][0] == x[i];
      NoMatchAt((x + rest)[i..], rules);
    }
    SubstituteSkips(x, rest, rules);
  }

  /** A declaration of the register `name`q and a gate on it. */
  function SuffixText(name: string, n: nat, i: nat): string {
    QREG + (name + (Qubit(n) + (";\nh " + (name + (Qubit(i) + ";\n")))))
  }

  /** In such a text the references are renamed, also the one in the declaration. */
  lemma SuffixTextRenamed(name: string, n: nat, i: nat, t: Target)
    requires 'q' !in name
    ensures Substitute(SuffixText(name, n, i), References(t)) == SuffixText(name, Relabel(t, n), Relabel(t, i))
  {
    var rules := References(t);
    ReferencesAreBracketed(t);
    var s3 := name + (Qubit(i) + ";\n");
    var s2 := Qubit(n) + (";\nh " + s3);
    SkipsQreg(name + s2, rules);
    SkipsPlain(name, s2, rules);
    ReferencesAtQubit(n, ";\nh " + s3, t);
    SkipsPlain(";\nh ", s3, rules);
    SkipsPlain(name, Qubit(i) + ";\n", rules);
    ReferencesAtQubit(i, ";\n", t);
    assert ";\n" == ";\n" + "";
    SkipsPlain(";\n", "", rules);
  }

  lemma SuffixTextParts(s: string)
    requires s == "qreg aq[2];\nh aq[0];\n"
    ensures s == SuffixText("a", 2, 0) == NamedDecl("aq", 2) + s[11..] && s[11..] == "\nh aq[0];\n"
  {
    assert Decimal(2) == "2" && Decimal(0) == "0";
    assert Qubit(2) == "q[2]" && Qubit(0) == "q[0]";
  }

  lemma SuffixTextCompiles(s: string, name: string, n: nat, i: nat, t: Target)
    requires s == SuffixText(name, n, i) && 'q' !in name && DeclDigits(s) == [n] && n <= 2 <= t.qubits
    requires !Contains(s, AUX) && !Contains(s, Decl(n))
    ensures Compiled(s, t) == Ok(SuffixText(name, Relabel(t, n), Relabel(t, i)))
  {
    OnlyReferencesIff(s, t);
    SuffixTextRenamed(name, n, i, t);
  }

  lemma SuffixTextDigits(s: string)
    requires s == "qreg aq[2];\nh aq[0];\n"
    ensures DeclDigits(s) == [2]
  {
    SuffixTextParts(s);
    SuffixRestDigits(s[11..]);
    NamedDeclarationDigit("aq", 2, s[11..]);
  }

  /** A register `aq` and a gate on it: accepted, renamed at the reference, and not widened. */
  lemma RegisterAqIsNotWidened(s: string, t: Target)
    requires s == "qreg aq[2];\nh aq[0];\n" && t.qubits >= 2
    ensures Compiled(s, t) == Ok(SuffixText("a", 2, t.id0))
  {
    SuffixTextParts(s);
    SuffixTextDigits(s);
    SuffixTextHasNo(s);
    SuffixTextCompiles(s, "a", 2, 0, t);
  }

  lemma SuffixRestDigits(rest: string)
    requires rest == "\nh aq[0];\n"
    ensures DeclDigits(rest) == []
  {
    forall i | 0 <= i < |rest| ensures !(QREG <= rest[i..]) {
      FirstTwo(QREG, rest[i..]);
      assert rest[i] == 'q' ==> i == 4 && rest[5] == '[';
    }
    NoDigits(rest);
  }
}
