/** Simultaneous left-to-right substitution, and the law that lets one more sequential replacement be fused into it. */
module Substitution {
  import opened Text

  /** Rewrite `from` to `to`. A pattern is never empty. */
  datatype Rule = Rule(from: string, to: string)

  predicate Rules(rules: seq<Rule>) {
    forall k | 0 <= k < |rules| :: rules[k].from != []
  }

  /** The first rule whose pattern starts `s`, or `|rules|`. */
  function FirstMatch(s: string, rules: seq<Rule>): (k: nat)
    ensures k <= |rules|
    ensures k < |rules| ==> rules[k].from <= s
    ensures forall j | 0 <= j < k :: !(rules[j].from <= s)
  {
    if rules == [] then 0
    else if rules[0].from <= s then 0
    else
      assert forall j | 1 <= j < |rules| :: rules[1..][j - 1] == rules[j];
      1 + FirstMatch(s, rules[1..])
  }

  /** One scan over the text: where a pattern starts, write its image and go on behind it; otherwise copy one
      character. */
  function Substitute(s: string, rules: seq<Rule>): string
    requires Rules(rules)
  {
    if s == [] then []
    else
      var k := FirstMatch(s, rules);
      if k < |rules| then rules[k].to + Substitute(s[|rules[k].from|..], rules)
      else [s[0]] + Substitute(s[1..], rules)
  }

  function Replace(s: string, from: string, to: string): string
    requires from != []
  {
    Substitute(s, [Rule(from, to)])
  }

  lemma ReplaceStep(s: string, from: string, to: string)
    requires from != []
    ensures Replace(s, from, to) ==
            if s == [] then []
            else if from <= s then to + Replace(s[|from|..], from, to)
            else [s[0]] + Replace(s[1..], from, to)
  {
    assert [Rule(from, to)][0].from == from;
  }

  /** Replacing is splitting at `from` and joining with `to`. */
  lemma {:induction false} ReplaceIsJoinOfSplit(s: string, from: string, to: string)
    requires from != []
    ensures Replace(s, from, to) == Join(Split(s, from), to)
  {
    ReplaceStep(s, from, to);
    if s == [] {
    } else if from <= s {
      ReplaceIsJoinOfSplit(s[|from|..], from, to);
      assert ([[]] + Split(s[|from|..], from))[1..] == Split(s[|from|..], from);
    } else {
      ReplaceIsJoinOfSplit(s[1..], from, to);
      JoinGrows(s[0], Split(s[1..], from), to);
    }
  }

  lemma {:induction false} ReplaceAbsent(s: string, from: string, to: string)
    requires from != [] && !Contains(s, from)
    ensures Replace(s, from, to) == s
  {
    ReplaceStep(s, from, to);
    if s != [] {
      ReplaceAbsent(s[1..], from, to);
    }
  }

  lemma {:induction false} AbsentByChar(s: string, p: string, c: char)
    requires c in p && c !in s
    ensures !Contains(s, p)
  {
    PrefixChars(p, s, c);
    if s != [] {
      AbsentByChar(s[1..], p, c);
    }
  }

  lemma PrefixChars(p: string, s: string, c: char)
    ensures p <= s && c in p ==> c in s
  {
    if p <= s {
      assert s[..|p|] == p;
    }
  }

  lemma DivergeNoPrefix(a: string, b: string)
    requires Diverge(a, b)
    ensures !(b <= a) && !(a <= b)
  {
  }

  /** No pattern starts in `x`, when `y` follows. */
  predicate NoMatchIn(x: string, y: string, rules: seq<Rule>) {
    forall i | 0 <= i < |x| :: FirstMatch((x + y)[i..], rules) == |rules|
  }

  lemma NoMatchInTail(x: string, y: string, rules: seq<Rule>)
    requires x != [] && NoMatchIn(x, y, rules)
    ensures NoMatchIn(x[1..], y, rules) && FirstMatch(x + y, rules) == |rules|
  {
    forall i | 0 <= i < |x[1..]| ensures FirstMatch((x[1..] + y)[i..], rules) == |rules| {
      assert (x[1..] + y)[i..] == (x + y)[i + 1..];
    }
    assert (x + y)[0..] == x + y;
  }

  /** A stretch in which no pattern starts is copied. */
  lemma {:induction false} SubstituteSkips(x: string, y: string, rules: seq<Rule>)
    requires Rules(rules) && NoMatchIn(x, y, rules)
    ensures Substitute(x + y, rules) == x + Substitute(y, rules)
  {
    if x == [] {
      assert x + y == y;
    } else {
      NoMatchInTail(x, y, rules);
      SubstituteSkips(x[1..], y, rules);
      SubstituteCopies(x + y, rules);
      HeadAndTail(x, y);
      HeadAndTail(x, Substitute(y, rules));
    }
  }

  lemma SubstituteCopies(s: string, rules: seq<Rule>)
    requires Rules(rules) && s != [] && FirstMatch(s, rules) == |rules|
    ensures Substitute(s, rules) == [s[0]] + Substitute(s[1..], rules)
  {
  }

  /** Where a rule fires first, its image is written. */
  lemma SubstituteFires(x: string, y: string, rules: seq<Rule>, k: nat)
    requires Rules(rules) && k < |rules| && x == rules[k].from
    requires FirstMatch(x + y, rules) == k
    ensures Substitute(x + y, rules) == rules[k].to + Substitute(y, rules)
  {
    assert (x + y)[|x|..] == y;
  }

  // ----- fusing one more replacement -----

  /** `p` starts with the marker and holds it nowhere else. */
  predicate Marked(p: string, marker: char) {
    p != [] && p[0] == marker && marker !in p[1..]
  }

  predicate StartsWithMarker(p: string, marker: char) {
    p != [] && p[0] == marker
  }

  /** All patterns and all images start with the marker. */
  predicate MarkedRules(rules: seq<Rule>, marker: char) {
    forall k | 0 <= k < |rules| :: StartsWithMarker(rules[k].from, marker) && StartsWithMarker(rules[k].to, marker)
  }

  /** No match of `from` can begin inside `x` and run past its end. */
  predicate Sealed(x: string, from: string)
    requires from != []
  {
    x != [] ==> x[|x| - 1] !in from[..|from| - 1]
  }

  /** Text without markers is seen by the substitution exactly as it stands in the input. */
  lemma {:induction false} SubstituteKeepsPlainPrefix(s: string, rules: seq<Rule>, marker: char, w: string)
    requires Rules(rules) && MarkedRules(rules, marker) && marker !in w
    ensures w <= Substitute(s, rules) <==> w <= s
    ensures w <= s ==> Substitute(s, rules)[|w|..] == Substitute(s[|w|..], rules)
  {
    if w == [] {
      assert s[0..] == s && Substitute(s, rules)[0..] == Substitute(s, rules);
    } else if s != [] {
      assert w[0] in w;
      var k := FirstMatch(s, rules);
      if k < |rules| {
        assert StartsWithMarker(rules[k].to, marker);
        assert Substitute(s, rules)[0] == marker;
        assert s[0] == marker;
      } else {
        var out := Substitute(s, rules);
        assert out[1..] == Substitute(s[1..], rules) && out[0] == s[0];
        SubstituteKeepsPlainPrefix(s[1..], rules, marker, w[1..]);
        PrefixByHead(w, out);
        PrefixByHead(w, s);
        if w <= s {
          assert out[|w|..] == out[1..][|w| - 1..];
          assert s[|w|..] == s[1..][|w| - 1..];
        }
      }
    }
  }

  lemma PrefixByHead(w: string, s: string)
    requires w != [] && s != []
    ensures w <= s <==> w[0] == s[0] && w[1..] <= s[1..]
  {
    if w[0] == s[0] && w[1..] <= s[1..] {
      assert w == [w[0]] + w[1..];
      assert s == [s[0]] + s[1..];
    }
  }

  lemma SealedEnds(x: string, y: string, from: string)
    requires x != [] && |from| > |x| && from <= x + y
    ensures !Sealed(x, from)
  {
    assert from[..|from| - 1][|x| - 1] == (x + y)[|x| - 1];
  }

  lemma PrefixExtends(p: string, x: string, y: string)
    ensures p <= x ==> p <= x + y
  {
    if p <= x {
      assert (x + y)[..|p|] == x[..|p|];
    }
  }

  /** Replacement distributes over a sealed boundary. */
  lemma {:induction false} ReplaceAcross(x: string, y: string, from: string, to: string)
    requires from != [] && Sealed(x, from)
    ensures Replace(x + y, from, to) == Replace(x, from, to) + Replace(y, from, to)
  {
    if x == [] {
      ReplaceStep(x, from, to);
      assert x + y == y;
    } else if from <= x {
      ReplaceAcross(x[|from|..], y, from, to);
      ReplaceAcrossMatch(x, y, from, to);
    } else {
      ReplaceAcross(x[1..], y, from, to);
      NoMatchAcross(x, y, from);
      ReplaceAcrossCopy(x, y, from, to);
    }
  }

  lemma NoMatchAcross(x: string, y: string, from: string)
    requires from != [] && Sealed(x, from) && x != [] && !(from <= x)
    ensures !(from <= x + y)
  {
    if |from| <= |x| {
      PrefixWithin(from, x, y);
    } else if from <= x + y {
      SealedEnds(x, y, from);
    }
  }

  lemma PrefixWithin(p: string, x: string, y: string)
    requires |p| <= |x|
    ensures p <= x + y <==> p <= x
  {
    assert (x + y)[..|p|] == x[..|p|];
  }

  lemma ReplaceAcrossMatch(x: string, y: string, from: string, to: string)
    requires from != [] && from <= x
    requires Replace(x[|from|..] + y, from, to) == Replace(x[|from|..], from, to) + Replace(y, from, to)
    ensures Replace(x + y, from, to) == Replace(x, from, to) + Replace(y, from, to)
  {
    PrefixExtends(from, x, y);
    assert (x + y)[|from|..] == x[|from|..] + y;
    ReplaceStep(x + y, from, to);
    ReplaceStep(x, from, to);
    Assoc(to, Replace(x[|from|..], from, to), Replace(y, from, to));
  }

  lemma ReplaceAcrossCopy(x: string, y: string, from: string, to: string)
    requires from != [] && x != [] && !(from <= x) && !(from <= x + y)
    requires Replace(x[1..] + y, from, to) == Replace(x[1..], from, to) + Replace(y, from, to)
    ensures Replace(x + y, from, to) == Replace(x, from, to) + Replace(y, from, to)
  {
    assert (x + y)[1..] == x[1..] + y;
    ReplaceStep(x + y, from, to);
    ReplaceStep(x, from, to);
    Assoc([x[0]], Replace(x[1..], from, to), Replace(y, from, to));
  }

  /** The rules after one more replacement: it rewrites every image and joins as the rule tried last. */
  function Fused(rules: seq<Rule>, from: string, to: string): (fused: seq<Rule>)
    requires from != []
    ensures |fused| == |rules| + 1
    ensures forall k | 0 <= k < |rules| :: fused[k] == Rule(rules[k].from, Replace(rules[k].to, from, to))
    ensures fused[|rules|] == Rule(from, to)
  {
    seq(|rules|, k requires 0 <= k < |rules| => Rule(rules[k].from, Replace(rules[k].to, from, to))) + [Rule(from, to)]
  }

  lemma FirstMatchFused(s: string, rules: seq<Rule>, from: string, to: string)
    requires from != []
    ensures FirstMatch(s, Fused(rules, from, to)) ==
            if FirstMatch(s, rules) < |rules| then FirstMatch(s, rules)
            else if from <= s then |rules| else |rules| + 1
  {
    var fused := Fused(rules, from, to);
    var k, j := FirstMatch(s, fused), FirstMatch(s, rules);
    assert forall i | 0 <= i < |rules| :: fused[i].from == rules[i].from;
    if j < |rules| {
      assert fused[j].from <= s;
    }
  }

  /** A replacement done after a substitution is one substitution. */
  lemma {:induction false} Fusion(s: string, rules: seq<Rule>, marker: char, from: string, to: string)
    requires Rules(rules) && MarkedRules(rules, marker) && Marked(from, marker)
    requires forall k | 0 <= k < |rules| :: Sealed(rules[k].to, from)
    ensures Replace(Substitute(s, rules), from, to) == Substitute(s, Fused(rules, from, to))
  {
    var fused := Fused(rules, from, to);
    if s != [] {
      var out, k := Substitute(s, rules), FirstMatch(s, rules);
      FirstMatchFused(s, rules, from, to);
      if k < |rules| {
        var rest := s[|rules[k].from|..];
        Fusion(rest, rules, marker, from, to);
        ReplaceAcross(rules[k].to, Substitute(rest, rules), from, to);
      } else {
        assert out[0] == s[0] && out[1..] == Substitute(s[1..], rules);
        SubstituteKeepsPlainPrefix(s[1..], rules, marker, from[1..]);
        PrefixByHead(from, out);
        PrefixByHead(from, s);
        if from <= s {
          assert out[|from|..] == out[1..][|from| - 1..];
          assert s[|from|..] == s[1..][|from| - 1..];
          Fusion(s[|from|..], rules, marker, from, to);
        } else {
          Fusion(s[1..], rules, marker, from, to);
        }
      }
    }
  }

  // ----- when two rule sets write the same text -----

  lemma ContainsInRest(s: string, n: nat, p: string)
    requires n <= |s|
    ensures Contains(s[n..], p) ==> Contains(s, p)
  {
    if Contains(s[n..], p) {
      var i := ContainsWhere(s[n..], p);
      assert s[n..][i..] == s[n + i..];
      ContainsAt(s, p, n + i);
    }
  }

  /** Rule `k` is applied somewhere in the scan of `s`. */
  predicate Fires(s: string, rules: seq<Rule>, k: nat)
    requires Rules(rules)
  {
    s != [] &&
    var j := FirstMatch(s, rules);
    if j < |rules| then j == k || Fires(s[|rules[j].from|..], rules, k)
    else Fires(s[1..], rules, k)
  }

  /** Neither text is a prefix of the other. */
  predicate Diverge(a: string, b: string) {
    exists i | 0 <= i < |a| && i < |b| :: a[i] != b[i]
  }

  lemma DivergeExtends(a: string, b: string, x: string, y: string)
    requires Diverge(a, b)
    ensures a + x != b + y
  {
    var i :| 0 <= i < |a| && i < |b| && a[i] != b[i];
    assert (a + x)[i] != (b + y)[i];
  }

  /** Same patterns; each pair of images is equal or diverges. */
  predicate Comparable(rules: seq<Rule>, others: seq<Rule>) {
    |rules| == |others| &&
    forall k | 0 <= k < |rules| ::
      rules[k].from == others[k].from && (rules[k].to == others[k].to || Diverge(rules[k].to, others[k].to))
  }

  lemma {:induction false} FirstMatchByPatterns(s: string, rules: seq<Rule>, others: seq<Rule>)
    requires |rules| == |others| && forall k | 0 <= k < |rules| :: rules[k].from == others[k].from
    ensures FirstMatch(s, rules) == FirstMatch(s, others)
  {
    var j, k := FirstMatch(s, rules), FirstMatch(s, others);
    if j < |rules| {
      assert others[j].from <= s;
    }
    if k < |rules| {
      assert rules[k].from <= s;
    }
  }

  /** Two comparable rule sets agree on a text exactly when every rule that fires has the same image in both. */
  lemma {:induction false} SubstituteAgrees(s: string, rules: seq<Rule>, others: seq<Rule>)
    requires Rules(rules) && Rules(others) && Comparable(rules, others)
    ensures Substitute(s, rules) == Substitute(s, others) <==>
            forall k | 0 <= k < |rules| && Fires(s, rules, k) :: rules[k].to == others[k].to
  {
    FirstMatchByPatterns(s, rules, others);
    if s == [] {
    } else {
      var j := FirstMatch(s, rules);
      if j < |rules| {
        var rest := s[|rules[j].from|..];
        SubstituteAgrees(rest, rules, others);
        assert forall k | 0 <= k < |rules| :: Fires(s, rules, k) <==> k == j || Fires(rest, rules, k);
        if rules[j].to == others[j].to {
          assert Substitute(s, rules)[|rules[j].to|..] == Substitute(rest, rules);
          assert Substitute(s, others)[|rules[j].to|..] == Substitute(rest, others);
        } else {
          DivergeExtends(rules[j].to, others[j].to, Substitute(rest, rules), Substitute(rest, others));
        }
      } else {
        SubstituteAgrees(s[1..], rules, others);
        assert forall k | 0 <= k < |rules| :: Fires(s, rules, k) <==> Fires(s[1..], rules, k);
        assert Substitute(s, rules)[1..] == Substitute(s[1..], rules);
        assert Substitute(s, others)[1..] == Substitute(s[1..], others);
      }
    }
  }

  /** A last rule that rewrites a pattern to itself changes nothing. */
  lemma IdentityRule(s: string, rules: seq<Rule>, marker: char, p: string)
    requires Rules(rules) && MarkedRules(rules, marker) && Marked(p, marker)
    requires forall k | 0 <= k < |rules| :: Sealed(rules[k].to, p)
    ensures Substitute(s, rules + [Rule(p, p)]) == Substitute(s, rules)
  {
    Fusion(s, rules, marker, p, p);
    ReplaceBySame(Substitute(s, rules), p);
    forall k | 0 <= k < |rules| ensures Fused(rules, p, p)[k] == rules[k] {
      ReplaceBySame(rules[k].to, p);
    }
    assert Fused(rules, p, p) == rules + [Rule(p, p)];
  }

  lemma ReplaceBySame(s: string, p: string)
    requires p != []
    ensures Replace(s, p, p) == s
  {
    ReplaceIsJoinOfSplit(s, p, p);
    JoinSplit(s, p);
  }

  /** No occurrence of pattern `k` can start inside, or together with, an occurrence of another pattern. */
  predicate NeverSwallowed(rules: seq<Rule>, k: nat)
    requires k < |rules|
  {
    forall j, i | 0 <= j < |rules| && 0 <= i < |rules[j].from| && (j != k || i != 0) ::
      Diverge(rules[j].from[i..], rules[k].from)
  }

  lemma NoStartInside(s: string, rules: seq<Rule>, k: nat, j: nat, i: nat)
    requires k < |rules| && NeverSwallowed(rules, k) && j < |rules|
    requires i < |rules[j].from| && (j != k || i != 0) && rules[j].from <= s
    ensures !(rules[k].from <= s[i..])
  {
    var a := rules[j].from;
    var n :| 0 <= n < |a[i..]| && n < |rules[k].from| && a[i..][n] != rules[k].from[n];
    assert s[i..][n] == s[i + n] == a[i + n] == a[i..][n];
  }

  lemma ContainsBehind(s: string, n: nat, p: string)
    requires n <= |s| && forall i | 0 <= i < n :: !(p <= s[i..])
    ensures Contains(s, p) <==> Contains(s[n..], p)
  {
    if Contains(s, p) {
      var i := ContainsWhere(s, p);
      assert s[n..][i - n..] == s[i..];
      ContainsAt(s[n..], p, i - n);
    }
    ContainsInRest(s, n, p);
  }

  /** A rule whose pattern is never swallowed fires exactly when its pattern occurs. */
  lemma {:induction false} FiresWhereContained(s: string, rules: seq<Rule>, k: nat)
    requires Rules(rules) && k < |rules| && NeverSwallowed(rules, k)
    ensures Fires(s, rules, k) <==> Contains(s, rules[k].from)
  {
    if s != [] {
      var j, p := FirstMatch(s, rules), rules[k].from;
      if j == k {
      } else if j < |rules| {
        var n := |rules[j].from|;
        FiresWhereContained(s[n..], rules, k);
        forall i | 0 <= i < n ensures !(p <= s[i..]) {
          NoStartInside(s, rules, k, j, i);
        }
        ContainsBehind(s, n, p);
      } else {
        FiresWhereContained(s[1..], rules, k);
      }
    }
  }
}
