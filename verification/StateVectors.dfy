/** State vectors: dense and sparse encodings, probabilities, normalization. */
module StateVectors {
  import opened Results

  function Pow2(n: nat): (p: nat)
    ensures p > 0
  {
    if n == 0 then 1 else 2 * Pow2(n - 1)
  }

  /** The whole part of the binary logarithm. */
  function FloorLog2(m: nat): nat
    requires m > 0
  {
    if m == 1 then 0 else 1 + FloorLog2(m / 2)
  }

  lemma {:induction false} FloorLog2OfPow2(n: nat)
    ensures FloorLog2(Pow2(n)) == n
  {
    if n > 0 {
      FloorLog2OfPow2(n - 1);
      assert Pow2(n) / 2 == Pow2(n - 1);
    }
  }

  predicate Nonzero(c: Complex) { c.re != 0.0 || c.im != 0.0 }

  /** Multiplication behind a name, so that the solver keeps products symbolic. */
  function Times(x: real, y: real): real { x * y }

  /** `std::norm`: the squared modulus. */
  function Norm(c: Complex): real { Times(c.re, c.re) + Times(c.im, c.im) }

  lemma TimesSign(x: real, y: real)
    ensures x > 0.0 && y > 0.0 ==> Times(x, y) > 0.0
    ensures x < 0.0 && y < 0.0 ==> Times(x, y) > 0.0
    ensures x == 0.0 ==> Times(x, y) == 0.0
  {
  }

  lemma NormSign(c: Complex, n: real)
    requires n == Norm(c)
    ensures if Nonzero(c) then n > 0.0 else n == 0.0
  {
    TimesSign(c.re, c.re);
    TimesSign(c.im, c.im);
  }

  // ----- keys -----

  /** Bit `k` of `i`. */
  predicate Bit(i: nat, k: nat) {
    if k == 0 then i % 2 == 1 else Bit(i / 2, k - 1)
  }

  function BitChar(b: bool): char { if b then '1' else '0' }

  /** The `n` low bits of `i`, most significant first. */
  function Bits(i: nat, n: nat): (s: string)
    ensures |s| == n && IsBits(s)
  {
    if n == 0 then [] else Bits(i / 2, n - 1) + [BitChar(i % 2 == 1)]
  }

  predicate IsBits(s: string) {
    forall k | 0 <= k < |s| :: s[k] == '0' || s[k] == '1'
  }

  lemma {:induction false} BitsAt(i: nat, n: nat, j: nat)
    requires j < n
    ensures Bits(i, n)[j] == BitChar(Bit(i, n - 1 - j))
  {
    if j < n - 1 {
      BitsAt(i / 2, n - 1, j);
    }
  }

  function BitsValue(s: string): nat {
    if s == [] then 0 else 2 * BitsValue(s[..|s| - 1]) + (if s[|s| - 1] == '1' then 1 else 0)
  }

  lemma {:induction false} BitsRoundTrip(i: nat, n: nat)
    requires i < Pow2(n)
    ensures BitsValue(Bits(i, n)) == i
  {
    if n > 0 {
      BitsRoundTrip(i / 2, n - 1);
      assert Bits(i, n)[..n - 1] == Bits(i / 2, n - 1);
    }
  }

  lemma {:induction false} LessSnoc(a: string, b: string, x: char, y: char)
    requires |a| == |b|
    ensures Less(a + [x], b + [y]) <==> Less(a, b) || (a == b && x < y)
  {
    if a == [] {
      assert a + [x] == [x] && b + [y] == [y];
    } else {
      LessSnoc(a[1..], b[1..], x, y);
      assert (a + [x])[1..] == a[1..] + [x] && (b + [y])[1..] == b[1..] + [y];
      assert a == b <==> a[0] == b[0] && a[1..] == b[1..] by {
        assert a == [a[0]] + a[1..] && b == [b[0]] + b[1..];
      }
    }
  }

  /** Bit strings of one length compare as strings the way their values compare as numbers. */
  lemma {:induction false} ValueOrder(a: string, b: string)
    requires |a| == |b| && IsBits(a) && IsBits(b)
    ensures Less(a, b) <==> BitsValue(a) < BitsValue(b)
    ensures a == b <==> BitsValue(a) == BitsValue(b)
  {
    if a != [] {
      var n := |a| - 1;
      ValueOrder(a[..n], b[..n]);
      LessSnoc(a[..n], b[..n], a[n], b[n]);
      assert a == a[..n] + [a[n]] && b == b[..n] + [b[n]];
      assert a == b <==> a[..n] == b[..n] && a[n] == b[n];
    }
  }

  lemma BitsOrder(i: nat, j: nat, n: nat)
    requires i < Pow2(n) && j < Pow2(n)
    ensures Less(Bits(i, n), Bits(j, n)) <==> i < j
  {
    ValueOrder(Bits(i, n), Bits(j, n));
    BitsRoundTrip(i, n);
    BitsRoundTrip(j, n);
  }

  // ----- the nonzero amplitudes -----

  /** The indices of the nonzero amplitudes, ascending. */
  function Support(v: seq<Complex>): (s: seq<nat>)
    ensures |s| <= |v|
    ensures forall k | 0 <= k < |s| :: s[k] < |v|
  {
    if v == [] then []
    else
      var last := |v| - 1;
      Support(v[..last]) + (if Nonzero(v[last]) then [last] else [])
  }

  lemma {:induction false} SupportAscends(v: seq<Complex>)
    ensures forall j, k | 0 <= j < k < |Support(v)| :: Support(v)[j] < Support(v)[k]
  {
    if v != [] {
      SupportAscends(v[..|v| - 1]);
    }
  }

  lemma {:induction false} SupportIsExact(v: seq<Complex>, i: nat)
    requires i < |v|
    ensures i in Support(v) <==> Nonzero(v[i])
  {
    var last := |v| - 1;
    var front := v[..last];
    if i < last {
      SupportIsExact(front, i);
      assert front[i] == v[i];
    } else {
      assert forall k | 0 <= k < |Support(front)| :: Support(front)[k] != last;
    }
  }

  predicate NoZeros(v: seq<Complex>) {
    forall i | 0 <= i < |v| :: Nonzero(v[i])
  }

  lemma {:induction false} FullSupport(v: seq<Complex>)
    ensures |Support(v)| == |v| <==> NoZeros(v)
    ensures NoZeros(v) ==> forall i | 0 <= i < |v| :: Support(v)[i] == i
  {
    if v != [] {
      var last := |v| - 1;
      var front := v[..last];
      FullSupport(front);
      assert NoZeros(v) <==> NoZeros(front) && Nonzero(v[last]) by {
        assert forall i | 0 <= i < last :: front[i] == v[i];
      }
    }
  }

  function Amplitudes(v: seq<Complex>): (a: seq<Complex>)
    ensures |a| == |Support(v)| && forall k | 0 <= k < |a| :: a[k] == v[Support(v)[k]]
  {
    seq(|Support(v)|, k requires 0 <= k < |Support(v)| => v[Support(v)[k]])
  }

  function SparseKeys(v: seq<Complex>, n: nat): (keys: seq<string>)
    ensures |keys| == |Support(v)| && forall k | 0 <= k < |keys| :: keys[k] == Bits(Support(v)[k], n)
  {
    seq(|Support(v)|, k requires 0 <= k < |Support(v)| => Bits(Support(v)[k], n))
  }

  // ----- lists of complex numbers as lists of reals -----

  /** Real and imaginary parts, alternating. */
  function Interleave(v: seq<Complex>): (s: seq<real>)
    ensures |s| == 2 * |v|
  {
    if v == [] then [] else Interleave(v[..|v| - 1]) + [v[|v| - 1].re, v[|v| - 1].im]
  }

  function ReadComplex(s: seq<real>): seq<Complex> {
    if |s| < 2 then [] else ReadComplex(s[..|s| - 2]) + [Complex(s[|s| - 2], s[|s| - 1])]
  }

  lemma {:induction false} InterleaveRoundTrip(v: seq<Complex>)
    ensures ReadComplex(Interleave(v)) == v
    ensures forall i | 0 <= i < |v| :: Interleave(v)[2 * i] == v[i].re && Interleave(v)[2 * i + 1] == v[i].im
  {
    if v != [] {
      var front, s := v[..|v| - 1], Interleave(v);
      InterleaveRoundTrip(front);
      assert s[..|s| - 2] == Interleave(front);
      assert v == front + [Complex(s[|s| - 2], s[|s| - 1])];
    }
  }

  // ----- rebuilding the dense vector -----

  /** A zero vector with the given amplitudes at the given indices. */
  function Rebuild(indices: seq<nat>, amplitudes: seq<Complex>, size: nat): (v: seq<Complex>)
    requires |indices| == |amplitudes|
    ensures |v| == size
  {
    if indices == [] then seq(size, _ => Complex(0.0, 0.0))
    else
      var last := |indices| - 1;
      var v := Rebuild(indices[..last], amplitudes[..last], size);
      if indices[last] < size then v[indices[last] := amplitudes[last]] else v
  }

  lemma {:induction false} RebuildAt(indices: seq<nat>, amplitudes: seq<Complex>, size: nat, i: nat)
    requires |indices| == |amplitudes| && i < size
    requires forall j, k | 0 <= j < k < |indices| :: indices[j] < indices[k]
    ensures forall k | 0 <= k < |indices| && indices[k] == i :: Rebuild(indices, amplitudes, size)[i] == amplitudes[k]
    ensures i !in indices ==> Rebuild(indices, amplitudes, size)[i] == Complex(0.0, 0.0)
  {
    if indices != [] {
      var last := |indices| - 1;
      RebuildAt(indices[..last], amplitudes[..last], size, i);
      assert forall k | 0 <= k < last :: indices[..last][k] == indices[k] && amplitudes[..last][k] == amplitudes[k];
    }
  }

  function ReadKeys(keys: seq<string>): (indices: seq<nat>)
    ensures |indices| == |keys| && forall k | 0 <= k < |keys| :: indices[k] == BitsValue(keys[k])
  {
    seq(|keys|, k requires 0 <= k < |keys| => BitsValue(keys[k]))
  }

  lemma SparseKeysShape(v: seq<Complex>, n: nat)
    requires Support(v) != []
    ensures var keys := SparseKeys(v, n);
            keys != [] && EqualLengths(keys) && CommaFree(keys) && |keys[0]| == n
  {
  }

  /** Decoding the sparse keys, pairing them with the sparse values and filling zeros elsewhere rebuilds the dense
      vector; the keys strictly increase as strings, and as numbers. */
  lemma SparseRoundTrip(v: seq<Complex>, n: nat)
    requires |v| == Pow2(n) && Support(v) != []
    ensures var keys := ReadCsv(CsvText(SparseKeys(v, n)));
            var values := ReadComplex(Interleave(Amplitudes(v)));
            && |keys| == |values| && Rebuild(ReadKeys(keys), values, Pow2(n)) == v
            && (forall j, k | 0 <= j < k < |keys| :: Less(keys[j], keys[k]) && BitsValue(keys[j]) < BitsValue(keys[k]))
            && forall k | 0 <= k < |keys| :: |keys[k]| == n
  {
    SparseKeysShape(v, n);
    CsvRoundTrip(SparseKeys(v, n));
    InterleaveRoundTrip(Amplitudes(v));
    SparseKeysDecode(v, n);
    RebuildsDense(v);
  }

  lemma SparseKeysDecode(v: seq<Complex>, n: nat)
    requires |v| == Pow2(n)
    ensures var keys := SparseKeys(v, n);
            && ReadKeys(keys) == Support(v)
            && forall j, k | 0 <= j < k < |keys| :: Less(keys[j], keys[k]) && BitsValue(keys[j]) < BitsValue(keys[k])
  {
    var keys, s := SparseKeys(v, n), Support(v);
    SupportAscends(v);
    forall k | 0 <= k < |s| ensures ReadKeys(keys)[k] == s[k] {
      BitsRoundTrip(s[k], n);
    }
    forall j, k | 0 <= j < k < |keys| ensures Less(keys[j], keys[k]) && BitsValue(keys[j]) < BitsValue(keys[k]) {
      BitsOrder(s[j], s[k], n);
      assert ReadKeys(keys)[j] == s[j] && ReadKeys(keys)[k] == s[k];
    }
  }

  lemma RebuildsDense(v: seq<Complex>)
    ensures Rebuild(Support(v), Amplitudes(v), |v|) == v
  {
    var s, w := Support(v), Rebuild(Support(v), Amplitudes(v), |v|);
    SupportAscends(v);
    forall i | 0 <= i < |v| ensures w[i] == v[i] {
      RebuildAt(s, Amplitudes(v), |v|, i);
      SupportIsExact(v, i);
      if i in s {
        var k :| 0 <= k < |s| && s[k] == i;
        assert Amplitudes(v)[k] == v[s[k]];
      }
    }
  }

  // ----- probabilities -----

  function Probabilities(v: seq<Complex>): (p: seq<real>)
    ensures |p| == |v| && forall i | 0 <= i < |v| :: p[i] == Norm(v[i])
  {
    if v == [] then [] else Probabilities(v[..|v| - 1]) + [Norm(v[|v| - 1])]
  }

  function Total(p: seq<real>): real {
    if p == [] then 0.0 else Total(p[..|p| - 1]) + p[|p| - 1]
  }

  function Scaled(v: seq<Complex>, root: real): (w: seq<Complex>)
    requires root > 0.0
    ensures |w| == |v| && forall i | 0 <= i < |v| :: w[i] == Complex(v[i].re / root, v[i].im / root)
  {
    seq(|v|, i requires 0 <= i < |v| => Complex(v[i].re / root, v[i].im / root))
  }

  lemma NormScales(c: Complex, d: Complex, root: real, p: real, q: real)
    requires root > 0.0 && d == Complex(c.re / root, c.im / root) && p == Norm(d) && q == Norm(c)
    ensures Times(p, Times(root, root)) == q
  {
    var x, y := d.re, d.im;
    assert x * root == c.re && y * root == c.im;
    assert (x * x + y * y) * (root * root) == (x * root) * (x * root) + (y * root) * (y * root);
  }

  lemma Distribute(a: real, b: real, r: real)
    ensures Times(a + b, r) == Times(a, r) + Times(b, r)
    ensures Times(0.0, r) == 0.0
  {
  }

  lemma {:induction false} TotalScales(p: seq<real>, q: seq<real>, r: real)
    requires |p| == |q| && forall i | 0 <= i < |p| :: Times(p[i], r) == q[i]
    ensures Times(Total(p), r) == Total(q)
  {
    if p == [] {
      Distribute(0.0, 0.0, r);
    } else {
      var last := |p| - 1;
      TotalScales(p[..last], q[..last], r);
      Distribute(Total(p[..last]), p[last], r);
    }
  }

  lemma CancelFactor(t: real, r: real)
    requires r > 0.0 && Times(t, r) == r
    ensures t == 1.0
  {
    assert (t - 1.0) * r == 0.0;
  }

  lemma {:induction false} TotalOfZeros(p: seq<real>)
    requires forall i | 0 <= i < |p| :: p[i] == 0.0
    ensures Total(p) == 0.0
  {
    if p != [] {
      TotalOfZeros(p[..|p| - 1]);
    }
  }

  /** Dividing by any positive root of the squared norm gives a probability distribution, so some amplitude is
      nonzero. */
  lemma {:induction false} NormalizationGivesProbabilities(v: seq<Complex>, root: real)
    requires root > 0.0 && Times(root, root) == Total(Probabilities(v))
    ensures var w := Scaled(v, root);
            Total(Probabilities(w)) == 1.0 && Support(w) != [] && forall i | 0 <= i < |w| :: Probabilities(w)[i] >= 0.0
  {
    var w := Scaled(v, root);
    forall i | 0 <= i < |w|
      ensures Times(Probabilities(w)[i], Times(root, root)) == Probabilities(v)[i]
    {
      NormScales(v[i], w[i], root, Probabilities(w)[i], Probabilities(v)[i]);
    }
    ListIsDistribution(Probabilities(w), Probabilities(v), root);
    forall i | 0 <= i < |w| ensures Probabilities(w)[i] >= 0.0 && (Probabilities(w)[i] > 0.0 <==> i in Support(w)) {
      PositiveProbability(w, i);
    }
    if Support(w) == [] {
      TotalOfZeros(Probabilities(w));
    }
  }

  lemma {:induction false} PositiveNorm(v: seq<Complex>, i: nat, n: real)
    requires i < |v| && n == Norm(v[i])
    ensures n >= 0.0 && (n > 0.0 <==> i in Support(v))
  {
    SupportIsExact(v, i);
    NormSign(v[i], n);
  }

  lemma {:induction false} PositiveProbability(v: seq<Complex>, i: nat)
    requires i < |v|
    ensures Probabilities(v)[i] >= 0.0 && (Probabilities(v)[i] > 0.0 <==> i in Support(v))
  {
    PositiveNorm(v, i, Probabilities(v)[i]);
  }

  lemma {:induction false} ListIsDistribution(p: seq<real>, q: seq<real>, root: real)
    requires |p| == |q| && root > 0.0 && Total(q) == Times(root, root)
    requires forall i | 0 <= i < |p| :: Times(p[i], Times(root, root)) == q[i]
    ensures Total(p) == 1.0
  {
    TotalScales(p, q, Times(root, root));
    TimesSign(root, root);
    CancelFactor(Total(p), Times(root, root));
  }

  /** The probabilities of the nonzero amplitudes are all the probabilities exactly when no amplitude is zero. */
  lemma SparseProbabilitiesAreDense(v: seq<Complex>)
    ensures Probabilities(Amplitudes(v)) == Probabilities(v) <==> NoZeros(v)
  {
    FullSupport(v);
    if NoZeros(v) {
      assert Amplitudes(v) == v;
    } else {
      assert |Probabilities(Amplitudes(v))| != |Probabilities(v)|;
    }
  }

  /** Cross-query agreement: state `i` has a sparse key exactly when its dense probability is positive, and then
      the norm of its sparse amplitude is that probability. */
  lemma {:induction false} SparseAgreesWithDenseProbabilities(v: seq<Complex>, i: nat)
    requires i < |v|
    ensures Probabilities(v)[i] > 0.0 <==> i in Support(v)
    ensures forall k | 0 <= k < |Support(v)| && Support(v)[k] == i :: Norm(Amplitudes(v)[k]) == Probabilities(v)[i]
  {
    PositiveProbability(v, i);
    assert forall k | 0 <= k < |Support(v)| && Support(v)[k] == i :: Amplitudes(v)[k] == v[i];
  }

  /** The probabilities of the nonzero amplitudes are the positive dense probabilities; all others are zero. */
  lemma {:induction false} SparseProbabilitiesRead(v: seq<Complex>)
    ensures var s, p, q := Support(v), Probabilities(Amplitudes(v)), Probabilities(v);
            && |p| == |s| && |q| == |v|
            && (forall k | 0 <= k < |s| :: p[k] == q[s[k]] > 0.0)
            && (forall i | 0 <= i < |v| :: i in s || q[i] == 0.0)
  {
    var s := Support(v);
    forall k | 0 <= k < |s| ensures Probabilities(Amplitudes(v))[k] == Probabilities(v)[s[k]] > 0.0 {
      assert Amplitudes(v)[k] == v[s[k]];
      PositiveProbability(v, s[k]);
    }
    forall i | 0 <= i < |v| ensures i in s || Probabilities(v)[i] == 0.0 {
      PositiveProbability(v, i);
    }
  }

  // ----- what the squared modulus is -----

  function Product(a: Complex, b: Complex): Complex {
    Complex(a.re * b.re - a.im * b.im, a.re * b.im + a.im * b.re)
  }

  function Conjugate(c: Complex): Complex { Complex(c.re, -c.im) }

  lemma NormIsProducts(c: Complex, n: real)
    requires n == Norm(c)
    ensures n == c.re * c.re + c.im * c.im
  {
  }

  lemma TwoSquares(a: real, b: real, c: real, d: real)
    ensures (a * c - b * d) * (a * c - b * d) + (a * d + b * c) * (a * d + b * c) == (a * a + b * b) * (c * c + d * d)
  {
  }

  /** The squared modulus is multiplicative, the same for the conjugate, the square on real numbers; a product with
      the conjugate is the modulus. */
  lemma NormLaws(a: Complex, b: Complex)
    ensures Norm(Product(a, b)) == Norm(a) * Norm(b)
    ensures Norm(Conjugate(a)) == Norm(a)
    ensures a.im == 0.0 ==> Norm(a) == a.re * a.re
    ensures Product(a, Conjugate(a)) == Complex(Norm(a), 0.0)
  {
    NormIsProducts(a, Norm(a));
    NormIsProducts(b, Norm(b));
    NormIsProducts(Product(a, b), Norm(Product(a, b)));
    NormIsProducts(Conjugate(a), Norm(Conjugate(a)));
    TwoSquares(a.re, a.im, b.re, b.im);
  }

  /** A phase on one amplitude changes no probability. */
  lemma PhaseKeepsProbabilities(v: seq<Complex>, k: nat, phase: Complex)
    requires k < |v| && phase.re * phase.re + phase.im * phase.im == 1.0
    ensures Probabilities(v[k := Product(phase, v[k])]) == Probabilities(v)
  {
    NormIsProducts(phase, Norm(phase));
    NormLaws(phase, v[k]);
    var p, q := Probabilities(v), Probabilities(v[k := Product(phase, v[k])]);
    forall i | 0 <= i < |v| ensures q[i] == p[i] {
      assert i == k ==> q[i] == Norm(Product(phase, v[k])) && p[i] == Norm(v[k]);
    }
  }

  /** The squared moduli of a vector, written out. */
  function Moduli(v: seq<Complex>): (m: seq<real>)
    ensures |m| == |v| && forall i | 0 <= i < |m| :: m[i] == v[i].re * v[i].re + v[i].im * v[i].im
  {
    seq(|v|, i requires 0 <= i < |v| => v[i].re * v[i].re + v[i].im * v[i].im)
  }

  lemma ProbabilitiesAreModuli(v: seq<Complex>)
    ensures Probabilities(v) == Moduli(v)
  {
    forall i | 0 <= i < |v| ensures Probabilities(v)[i] == Moduli(v)[i] {
      NormIsProducts(v[i], Probabilities(v)[i]);
    }
  }

  /** A total is a sum: of one number that number, and of two lists the sum of both totals. */
  lemma {:induction false} TotalIsSum(p: seq<real>, q: seq<real>, x: real)
    ensures Total([]) == 0.0 && Total([x]) == x
    ensures Total(p + q) == Total(p) + Total(q)
    decreases |q|
  {
    assert [x][..0] == [];
    assert Total([x]) == Total([x][..0]) + x;
    if q == [] {
      assert p + q == p;
    } else {
      var last := |q| - 1;
      TotalIsSum(p, q[..last], x);
      assert (p + q)[..|p + q| - 1] == p + q[..last];
    }
  }

  /** Every stored amplitude, times the root, is the amplitude that was drawn. */
  lemma ScaledBack(v: seq<Complex>, root: real, k: nat)
    requires root > 0.0 && k < |v|
    ensures Scaled(v, root)[k].re * root == v[k].re && Scaled(v, root)[k].im * root == v[k].im
  {
    Unscale(v[k].re, root);
    Unscale(v[k].im, root);
  }

  lemma Unscale(x: real, root: real)
    requires root > 0.0
    ensures x / root * root == x
  {
  }

  /** Character `j` of a key is '1' exactly when the index holds the power of two of that place. */
  lemma {:induction false} BitsPositional(i: nat, n: nat, j: nat)
    requires j < n
    ensures Bits(i, n)[j] == if i / Pow2(n - 1 - j) % 2 == 1 then '1' else '0'
  {
    BitsAt(i, n, j);
    BitIsQuotient(i, n - 1 - j);
  }

  lemma {:induction false} BitIsQuotient(i: nat, k: nat)
    ensures Bit(i, k) <==> i / Pow2(k) % 2 == 1
  {
    if k > 0 {
      BitIsQuotient(i / 2, k - 1);
      QuotientTwice(i, Pow2(k - 1));
    }
  }

  lemma QuotientTwice(i: nat, p: nat)
    requires p > 0
    ensures i / (2 * p) == i / 2 / p
  {
    var q, r := i / 2 / p, i / 2 % p;
    assert i == 2 * (q * p + r) + i % 2;
    assert i == q * (2 * p) + (2 * r + i % 2);
    QuotientUnique(i, 2 * p, q, 2 * r + i % 2);
  }

  lemma QuotientUnique(i: nat, d: nat, q: nat, r: nat)
    requires d > 0 && r < d && i == q * d + r
    ensures i / d == q
  {
    var x, y := i / d, i % d;
    assert i == x * d + y;
    assert x * d - q * d == (x - q) * d;
    Multiple(x - q, d);
  }

  lemma Multiple(k: int, d: int)
    requires d > 0
    ensures k > 0 ==> k * d >= d
    ensures k < 0 ==> k * d <= -d
  {
    if k > 0 {
      assert (k - 1) * d >= 0 && k * d == (k - 1) * d + d;
    } else if k < 0 {
      assert (-k - 1) * d >= 0 && k * d == -((-k - 1) * d) - d;
    }
  }
}
