/** Strings: occurrences, splitting and joining, decimal numerals. */
module Text {

  lemma Assoc<T>(a: seq<T>, b: seq<T>, c: seq<T>)
    ensures a + b + c == a + (b + c)
  {
  }

  lemma HeadAndTail<T>(x: seq<T>, y: seq<T>)
    requires x != []
    ensures (x + y)[0] == x[0] && (x + y)[1..] == x[1..] + y
    ensures [x[0]] + (x[1..] + y) == x + y
  {
  }

  /** `p` occurs somewhere in `s`. */
  predicate Contains(s: string, p: string) {
    p <= s || (s != [] && Contains(s[1..], p))
  }

  lemma {:induction false} ContainsAt(s: string, p: string, i: nat)
    requires i <= |s| && p <= s[i..]
    ensures Contains(s, p)
    decreases i
  {
    if i == 0 {
      assert s[0..] == s;
    } else {
      assert s[1..][i - 1..] == s[i..];
      ContainsAt(s[1..], p, i - 1);
    }
  }

  lemma {:induction false} ContainsWhere(s: string, p: string) returns (i: nat)
    requires Contains(s, p)
    ensures i <= |s| && p <= s[i..]
  {
    if p <= s {
      i := 0;
      assert s[0..] == s;
    } else {
      var j := ContainsWhere(s[1..], p);
      i := j + 1;
      assert s[1..][j..] == s[i..];
    }
  }

  /** The leftmost, non-overlapping split of `s` at `sep`. */
  function Split(s: string, sep: string): (pieces: seq<string>)
    requires sep != []
    ensures pieces != []
  {
    if s == [] then [[]]
    else if sep <= s then [[]] + Split(s[|sep|..], sep)
    else
      var rest := Split(s[1..], sep);
      [[s[0]] + rest[0]] + rest[1..]
  }

  function Join(pieces: seq<string>, sep: string): string
    requires pieces != []
  {
    if |pieces| == 1 then pieces[0] else pieces[0] + sep + Join(pieces[1..], sep)
  }

  /** Growing the first piece grows the joined text by the same character. */
  lemma JoinGrows(c: char, pieces: seq<string>, sep: string)
    requires pieces != []
    ensures Join([[c] + pieces[0]] + pieces[1..], sep) == [c] + Join(pieces, sep)
  {
    var grown := [[c] + pieces[0]] + pieces[1..];
    if |pieces| > 1 {
      assert grown[1..] == pieces[1..];
      assert [c] + pieces[0] + sep + Join(pieces[1..], sep) == [c] + (pieces[0] + sep + Join(pieces[1..], sep));
    }
  }

  /** Joining a split with its own separator gives the text back. */
  lemma {:induction false} JoinSplit(s: string, sep: string)
    requires sep != []
    ensures Join(Split(s, sep), sep) == s
  {
    if s == [] {
    } else if sep <= s {
      JoinSplit(s[|sep|..], sep);
      assert ([[]] + Split(s[|sep|..], sep))[1..] == Split(s[|sep|..], sep);
      assert [] + sep + s[|sep|..] == s;
    } else {
      JoinSplit(s[1..], sep);
      JoinGrows(s[0], Split(s[1..], sep), sep);
      assert [s[0]] + s[1..] == s;
    }
  }

  /** The split stops at the first separator: an earlier piece followed by the separator matches only at its end. */
  ghost predicate Leftmost(piece: string, sep: string) {
    forall i | 0 <= i < |piece| :: !(sep <= (piece + sep)[i..])
  }

  lemma LeftmostGrows(c: char, piece: string, sep: string)
    requires Leftmost(piece, sep) && !(sep <= [c] + piece + sep)
    ensures Leftmost([c] + piece, sep)
  {
    forall i | 0 <= i < |[c] + piece| ensures !(sep <= ([c] + piece + sep)[i..]) {
      if i > 0 {
        assert ([c] + piece + sep)[i..] == (piece + sep)[i - 1..];
      } else {
        assert ([c] + piece + sep)[0..] == [c] + piece + sep;
      }
    }
  }

  /** Every piece but the last ends at the leftmost separator, and the last holds none. */
  ghost predicate LeftmostPieces(pieces: seq<string>, sep: string)
    requires pieces != []
  {
    if |pieces| == 1 then !Contains(pieces[0], sep)
    else Leftmost(pieces[0], sep) && LeftmostPieces(pieces[1..], sep)
  }

  lemma {:induction false} SplitIsLeftmost(s: string, sep: string)
    requires sep != []
    ensures LeftmostPieces(Split(s, sep), sep)
  {
    var pieces := Split(s, sep);
    if s == [] {
    } else if sep <= s {
      SplitIsLeftmost(s[|sep|..], sep);
      assert pieces[1..] == Split(s[|sep|..], sep);
    } else {
      var rest := Split(s[1..], sep);
      SplitIsLeftmost(s[1..], sep);
      JoinSplit(s[1..], sep);
      assert pieces[1..] == rest[1..];
      if |rest| == 1 {
        assert pieces[0] == s && pieces[0][1..] == rest[0];
      } else {
        assert s == [s[0]] + (rest[0] + sep + Join(rest[1..], sep));
        assert [s[0]] + rest[0] + sep <= s;
        LeftmostGrows(s[0], rest[0], sep);
      }
    }
  }

  /** A single-character separator never occurs in a piece, and splitting recovers pieces free of it. */
  lemma {:induction false} SplitJoin(pieces: seq<string>, c: char)
    requires pieces != [] && forall p | p in pieces :: c !in p
    ensures Split(Join(pieces, [c]), [c]) == pieces
    decreases |pieces|, |pieces[0]|
  {
    var s := Join(pieces, [c]);
    if pieces[0] != [] {
      var d, shorter := pieces[0][0], [pieces[0][1..]] + pieces[1..];
      assert pieces[0] in pieces;
      assert [d] + shorter[0] == pieces[0] && shorter[1..] == pieces[1..];
      assert [[d] + shorter[0]] + shorter[1..] == [pieces[0]] + pieces[1..] == pieces;
      JoinGrows(d, shorter, [c]);
      SplitJoin(shorter, c);
      assert s[0] == d && s[1..] == Join(shorter, [c]);
    } else if |pieces| > 1 {
      SplitJoin(pieces[1..], c);
      assert s == [c] + Join(pieces[1..], [c]);
      assert [[]] + pieces[1..] == pieces;
    }
  }

  function DigitChar(d: nat): (c: char)
    requires d < 10
    ensures '0' <= c <= '9'
  {
    '0' + d as char
  }

  predicate IsDigit(c: char) { '0' <= c <= '9' }

  function DigitValue(c: char): nat
    requires IsDigit(c)
  {
    (c - '0') as nat
  }

  /** The text a C++ stream writes for an unsigned number. */
  function Decimal(n: nat): (s: string)
    ensures s != [] && forall i | 0 <= i < |s| :: IsDigit(s[i])
  {
    if n < 10 then [DigitChar(n)] else Decimal(n / 10) + [DigitChar(n % 10)]
  }

  function DecimalValue(s: string): nat
    requires forall i | 0 <= i < |s| :: IsDigit(s[i])
  {
    if |s| == 0 then 0
    else
      var last := |s| - 1;
      10 * DecimalValue(s[..last]) + DigitValue(s[last])
  }

  lemma {:induction false} DecimalRoundTrip(n: nat)
    ensures DecimalValue(Decimal(n)) == n
  {
    var s := Decimal(n);
    if n >= 10 {
      DecimalRoundTrip(n / 10);
      assert s[..|s| - 1] == Decimal(n / 10);
    }
  }

  /** A numeral followed by `]` is a prefix code: two of them can start the same text only if they agree. */
  lemma BracketedNumeralsAgree(i: nat, j: nat, x: string, y: string)
    requires Decimal(i) + "]" + x == Decimal(j) + "]" + y
    ensures i == j && x == y
  {
    var a, b, s := Decimal(i), Decimal(j), Decimal(i) + "]" + x;
    assert forall k | 0 <= k < |a| :: IsDigit(a[k]) && s[k] == a[k];
    assert forall k | 0 <= k < |b| :: IsDigit(b[k]) && s[k] == b[k];
    assert s[|a|] == ']' && s[|b|] == ']';
    assert |a| == |b|;
    assert a == s[..|a|] == b;
    assert x == s[|a| + 1..] == y;
    DecimalRoundTrip(i);
    DecimalRoundTrip(j);
  }
}
