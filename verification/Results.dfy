/** The result encodings of the example device as functions, and what a client can read back from them. */
module Results {
  import opened Text

  datatype Complex = Complex(re: real, im: real)

  /** What a finished program leaves behind. */
  datatype ResultData = ResultData(shots: seq<string>, stateVec: seq<Complex>)

  predicate EqualLengths(keys: seq<string>) {
    forall i | 0 <= i < |keys| :: |keys[i]| == |keys[0]|
  }

  predicate CommaFree(keys: seq<string>) {
    forall i | 0 <= i < |keys| :: ',' !in keys[i]
  }

  // ----- comma-separated text -----

  /** The keys with commas between them and a NUL behind. */
  function CsvText(keys: seq<string>): string
    requires keys != []
  {
    Join(keys, ",") + "\0"
  }

  /** Each key with a comma behind it. */
  function Listed(keys: seq<string>): string {
    if keys == [] then [] else Listed(keys[..|keys| - 1]) + keys[|keys| - 1] + ","
  }

  lemma {:induction false} JoinSnoc(keys: seq<string>, key: string, sep: string)
    requires keys != []
    ensures Join(keys + [key], sep) == Join(keys, sep) + sep + key
  {
    if |keys| == 1 {
      assert (keys + [key])[1..] == [key];
    } else {
      JoinSnoc(keys[1..], key, sep);
      assert (keys + [key])[1..] == keys[1..] + [key];
      assert keys[0] + sep + (Join(keys[1..], sep) + sep + key) == keys[0] + sep + Join(keys[1..], sep) + sep + key;
    }
  }

  lemma {:induction false} ListedIsJoin(keys: seq<string>)
    requires keys != []
    ensures Listed(keys) == Join(keys, ",") + ","
  {
    if |keys| > 1 {
      var front, last := keys[..|keys| - 1], keys[|keys| - 1];
      ListedIsJoin(front);
      JoinSnoc(front, last, ",");
      assert front + [last] == keys;
    }
  }

  lemma {:induction false} ListedLength(keys: seq<string>, n: nat)
    requires forall i | 0 <= i < |keys| :: |keys[i]| == n
    ensures |Listed(keys)| == |keys| * (n + 1)
  {
    if keys != [] {
      ListedLength(keys[..|keys| - 1], n);
      assert (|keys| - 1) * (n + 1) + (n + 1) == |keys| * (n + 1);
    }
  }

  lemma CsvLength(keys: seq<string>)
    requires keys != [] && EqualLengths(keys)
    ensures |CsvText(keys)| == |keys| * (|keys[0]| + 1)
  {
    ListedIsJoin(keys);
    ListedLength(keys, |keys[0]|);
  }

  /** What a client reads from a text buffer: the pieces between commas, without the NUL. */
  function ReadCsv(text: string): seq<string>
    requires text != []
  {
    Split(text[..|text| - 1], ",")
  }

  lemma CsvRoundTrip(keys: seq<string>)
    requires keys != [] && CommaFree(keys)
    ensures ReadCsv(CsvText(keys)) == keys
  {
    SplitJoin(keys, ',');
    assert CsvText(keys)[..|CsvText(keys)| - 1] == Join(keys, ",");
  }

  lemma {:induction false} JoinHasNo(keys: seq<string>, c: char)
    requires keys != [] && c != ',' && forall i | 0 <= i < |keys| :: c !in keys[i]
    ensures c !in Join(keys, ",")
  {
    if |keys| > 1 {
      JoinHasNo(keys[1..], c);
    }
  }

  /** The shot text has the promised size, one NUL, at its end, and gives the shots back in order. */
  lemma ShotsRoundTrip(shots: seq<string>)
    requires shots != [] && EqualLengths(shots) && CommaFree(shots)
    requires forall i | 0 <= i < |shots| :: '\0' !in shots[i]
    ensures var text := CsvText(shots);
            && |text| == |shots| * (|shots[0]| + 1)
            && ReadCsv(text) == shots
            && forall i | 0 <= i < |text| :: text[i] == '\0' <==> i == |text| - 1
  {
    CsvLength(shots);
    CsvRoundTrip(shots);
    JoinHasNo(shots, '\0');
    var body := Join(shots, ",");
    assert forall i | 0 <= i < |body| :: body[i] in body && CsvText(shots)[i] == body[i];
  }

  // ----- the order of std::map keys -----

  predicate Less(a: string, b: string) {
    b != [] && (a == [] || a[0] < b[0] || (a[0] == b[0] && Less(a[1..], b[1..])))
  }

  lemma {:induction false} LessTrichotomy(a: string, b: string)
    ensures a == b || Less(a, b) || Less(b, a)
    ensures !(Less(a, b) && Less(b, a)) && (a == b ==> !Less(a, b))
  {
    if a != [] && b != [] {
      LessTrichotomy(a[1..], b[1..]);
      assert a == [a[0]] + a[1..] && b == [b[0]] + b[1..];
    }
  }

  lemma {:induction false} LessTransitive(a: string, b: string, c: string)
    requires Less(a, b) && Less(b, c)
    ensures Less(a, c)
  {
    if a != [] && a[0] == b[0] == c[0] {
      LessTransitive(a[1..], b[1..], c[1..]);
    }
  }

  // ----- histogram -----

  datatype Bin = Bin(key: string, count: nat)

  /** A `std::map<std::string, size_t>`: its entries in key order. */
  predicate IsMap(h: seq<Bin>) {
    (forall i, j | 0 <= i < j < |h| :: Less(h[i].key, h[j].key)) && forall i | 0 <= i < |h| :: h[i].count > 0
  }

  /** `hist[key]++` */
  function Bump(h: seq<Bin>, key: string): seq<Bin> {
    if h == [] then [Bin(key, 1)]
    else if key == h[0].key then [Bin(key, h[0].count + 1)] + h[1..]
    else if Less(key, h[0].key) then [Bin(key, 1)] + h
    else [h[0]] + Bump(h[1..], key)
  }

  function Histogram(shots: seq<string>): seq<Bin> {
    if shots == [] then [] else Bump(Histogram(shots[..|shots| - 1]), shots[|shots| - 1])
  }

  /** The multiset a histogram stands for. */
  function Tally(h: seq<Bin>): multiset<string> {
    if h == [] then multiset{} else multiset{}[h[0].key := h[0].count] + Tally(h[1..])
  }

  lemma {:induction false} BumpKeys(h: seq<Bin>, key: string, i: nat)
    requires i < |Bump(h, key)|
    ensures Bump(h, key)[i].key == key || exists j | 0 <= j < |h| :: h[j].key == Bump(h, key)[i].key
  {
    if h != [] && key != h[0].key && !Less(key, h[0].key) && i > 0 {
      BumpKeys(h[1..], key, i - 1);
      if Bump(h, key)[i].key != key {
        var j :| 0 <= j < |h[1..]| && h[1..][j].key == Bump(h, key)[i].key;
        assert h[j + 1].key == Bump(h, key)[i].key;
      }
    }
  }

  lemma MapCons(first: Bin, rest: seq<Bin>)
    requires IsMap(rest) && first.count > 0 && forall j | 0 <= j < |rest| :: Less(first.key, rest[j].key)
    ensures IsMap([first] + rest)
  {
    var h := [first] + rest;
    assert forall j | 1 <= j < |h| :: h[j] == rest[j - 1];
  }

  lemma {:induction false} BumpIsMap(h: seq<Bin>, key: string)
    requires IsMap(h)
    ensures IsMap(Bump(h, key))
  {
    if h == [] {
    } else if key == h[0].key {
      MapCons(Bin(key, h[0].count + 1), h[1..]);
    } else if Less(key, h[0].key) {
      forall j | 0 <= j < |h| ensures Less(key, h[j].key) {
        if j > 0 { LessTransitive(key, h[0].key, h[j].key); }
      }
      MapCons(Bin(key, 1), h);
    } else {
      LessTrichotomy(key, h[0].key);
      BumpIsMap(h[1..], key);
      var rest := Bump(h[1..], key);
      forall j | 0 <= j < |rest| ensures Less(h[0].key, rest[j].key) {
        BumpKeys(h[1..], key, j);
        if rest[j].key != key {
          var k :| 0 <= k < |h[1..]| && h[1..][k].key == rest[j].key;
          assert h[1..][k] == h[k + 1];
        }
      }
      MapCons(h[0], rest);
    }
  }

  lemma {:induction false} BumpTally(h: seq<Bin>, key: string)
    ensures Tally(Bump(h, key)) == Tally(h) + multiset{key}
  {
    var b := Bump(h, key);
    if h == [] {
    } else if key == h[0].key {
      assert b[1..] == h[1..];
    } else if Less(key, h[0].key) {
      assert b[1..] == h;
    } else {
      BumpTally(h[1..], key);
      assert b[1..] == Bump(h[1..], key);
    }
  }

  lemma {:induction false} HistogramTallies(shots: seq<string>)
    ensures IsMap(Histogram(shots)) && Tally(Histogram(shots)) == multiset(shots)
  {
    if shots != [] {
      var front, last := shots[..|shots| - 1], shots[|shots| - 1];
      HistogramTallies(front);
      BumpIsMap(Histogram(front), last);
      BumpTally(Histogram(front), last);
      assert shots == front + [last];
    }
  }

  lemma {:induction false} TallyOutside(h: seq<Bin>, key: string)
    requires forall i | 0 <= i < |h| :: h[i].key != key
    ensures key !in Tally(h)
  {
    if h != [] {
      TallyOutside(h[1..], key);
    }
  }

  lemma {:induction false} TallyAt(h: seq<Bin>, i: nat)
    requires IsMap(h) && i < |h|
    ensures Tally(h)[h[i].key] == h[i].count
  {
    if i == 0 {
      forall j | 0 <= j < |h[1..]| ensures h[1..][j].key != h[0].key {
        LessTrichotomy(h[0].key, h[j + 1].key);
      }
      TallyOutside(h[1..], h[0].key);
    } else {
      LessTrichotomy(h[0].key, h[i].key);
      TallyAt(h[1..], i - 1);
    }
  }

  lemma {:induction false} TallyTail(h: seq<Bin>)
    requires h != []
    ensures Tally(h[1..]) == Tally(h) - multiset{}[h[0].key := h[0].count]
  {
  }

  lemma {:induction false} HeadsAgree(g: seq<Bin>, h: seq<Bin>)
    requires IsMap(g) && IsMap(h) && Tally(g) == Tally(h) && g != [] && h != []
    ensures g[0] == h[0]
  {
    TallyAt(g, 0);
    TallyAt(h, 0);
    LeastKey(g, h[0].key);
    LeastKey(h, g[0].key);
    LessTrichotomy(g[0].key, h[0].key);
  }

  lemma {:induction false} EmptyTally(h: seq<Bin>)
    requires IsMap(h)
    ensures Tally(h) == multiset{} ==> h == []
  {
    if h != [] {
      TallyAt(h, 0);
    }
  }

  /** The multiset determines the histogram. */
  lemma {:induction false} MapsAreCanonical(g: seq<Bin>, h: seq<Bin>)
    requires IsMap(g) && IsMap(h) && Tally(g) == Tally(h)
    ensures g == h
  {
    if g == [] || h == [] {
      EmptyTally(g);
      EmptyTally(h);
    } else {
      HeadsAgree(g, h);
      TallyTail(g);
      TallyTail(h);
      MapsAreCanonical(g[1..], h[1..]);
      assert g == [g[0]] + g[1..] && h == [h[0]] + h[1..];
    }
  }

  /** Every tallied key is at or behind the first one. */
  lemma {:induction false} LeastKey(h: seq<Bin>, key: string)
    requires IsMap(h) && h != []
    ensures key in Tally(h) ==> key == h[0].key || Less(h[0].key, key)
  {
    if forall i | 0 <= i < |h| :: h[i].key != key {
      TallyOutside(h, key);
    }
  }

  function Keys(h: seq<Bin>): (keys: seq<string>)
    ensures |keys| == |h| && forall i | 0 <= i < |h| :: keys[i] == h[i].key
  {
    seq(|h|, i requires 0 <= i < |h| => h[i].key)
  }

  function Counts(h: seq<Bin>): (counts: seq<nat>)
    ensures |counts| == |h| && forall i | 0 <= i < |h| :: counts[i] == h[i].count
  {
    seq(|h|, i requires 0 <= i < |h| => h[i].count)
  }

  function Sum(s: seq<nat>): nat {
    if s == [] then 0 else s[0] + Sum(s[1..])
  }

  lemma {:induction false} CountsAddUp(h: seq<Bin>)
    ensures Sum(Counts(h)) == |Tally(h)|
  {
    if h != [] {
      CountsAddUp(h[1..]);
      assert Counts(h)[1..] == Counts(h[1..]);
    }
  }

  /** What a client reads from the two histogram buffers: value `i` belongs to key `i`. */
  function Paired(keys: seq<string>, counts: seq<nat>): (h: seq<Bin>)
    requires |keys| == |counts|
    ensures |h| == |keys| && forall i | 0 <= i < |h| :: h[i] == Bin(keys[i], counts[i])
  {
    seq(|keys|, i requires 0 <= i < |keys| => Bin(keys[i], counts[i]))
  }

  lemma HistogramOfShots(shots: seq<string>)
    requires shots != []
    ensures Histogram(shots) != []
    ensures forall i | 0 <= i < |Histogram(shots)| :: Histogram(shots)[i].key in shots
  {
    var h := Histogram(shots);
    HistogramTallies(shots);
    assert shots[0] in multiset(shots);
    forall i | 0 <= i < |h| ensures h[i].key in shots {
      TallyAt(h, i);
      assert h[i].key in multiset(shots);
    }
  }

  lemma HistogramKeyShape(shots: seq<string>)
    requires shots != [] && EqualLengths(shots)
    ensures var keys := Keys(Histogram(shots));
            keys != [] && EqualLengths(keys) && |keys[0]| == |shots[0]| && (CommaFree(shots) ==> CommaFree(keys))
  {
    var h := Histogram(shots);
    HistogramOfShots(shots);
    forall i | 0 <= i < |h| ensures |h[i].key| == |shots[0]| && (CommaFree(shots) ==> ',' !in h[i].key) {
      var j :| 0 <= j < |shots| && shots[j] == h[i].key;
    }
  }

  /** The two histogram buffers give back exactly the multiset of shots; the keys are strictly sorted, value `i` counts
      key `i`, and the values add up to the number of shots. */
  lemma HistogramRoundTrip(shots: seq<string>)
    requires shots != [] && EqualLengths(shots) && CommaFree(shots)
    ensures var h := Histogram(shots);
            && h != [] && ReadCsv(CsvText(Keys(h))) == Keys(h)
            && Tally(Paired(ReadCsv(CsvText(Keys(h))), Counts(h))) == multiset(shots)
            && (forall i, j | 0 <= i < j < |h| :: Less(Keys(h)[i], Keys(h)[j]))
            && (forall i | 0 <= i < |h| :: Counts(h)[i] == multiset(shots)[Keys(h)[i]])
            && Sum(Counts(h)) == |shots|
            && |CsvText(Keys(h))| == |h| * (|shots[0]| + 1)
  {
    var h := Histogram(shots);
    HistogramTallies(shots);
    HistogramKeyShape(shots);
    CsvRoundTrip(Keys(h));
    CsvLength(Keys(h));
    CountsAddUp(h);
    forall i | 0 <= i < |h| ensures Counts(h)[i] == multiset(shots)[Keys(h)[i]] {
      TallyAt(h, i);
    }
    assert Paired(Keys(h), Counts(h)) == h;
  }

  /** Two shot lists fill the same histogram buffers exactly when one is a permutation of the other. */
  lemma HistogramIgnoresOrder(a: seq<string>, b: seq<string>)
    requires a != [] && EqualLengths(a) && CommaFree(a)
    requires b != [] && EqualLengths(b) && CommaFree(b)
    ensures Histogram(a) != [] && Histogram(b) != []
    ensures CsvText(Keys(Histogram(a))) == CsvText(Keys(Histogram(b))) && Counts(Histogram(a)) == Counts(Histogram(b))
            <==>
            multiset(a) == multiset(b)
  {
    HistogramRoundTrip(a);
    HistogramRoundTrip(b);
    HistogramTallies(a);
    HistogramTallies(b);
    if multiset(a) == multiset(b) {
      MapsAreCanonical(Histogram(a), Histogram(b));
    }
  }

  // ----- the text, character by character -----

  /** Shot `i` stands at `i * (n + 1)`, with a comma behind it or, behind the last, a NUL. */
  lemma {:induction false} CsvTextAt(keys: seq<string>, n: nat, i: nat, j: nat)
    requires i < |keys| && j <= n && forall k | 0 <= k < |keys| :: |keys[k]| == n
    ensures i * (n + 1) + j < |CsvText(keys)|
    ensures CsvText(keys)[i * (n + 1) + j] == if j < n then keys[i][j] else if i < |keys| - 1 then ',' else '\0'
    decreases |keys|
  {
    var text := CsvText(keys);
    if |keys| == 1 {
      assert text == keys[0] + "\0";
    } else {
      var rest := CsvText(keys[1..]);
      assert text == keys[0] + "," + rest;
      assert |keys[0] + ","| == n + 1;
      if i > 0 {
        CsvTextAt(keys[1..], n, i - 1, j);
        Behind(i, n);
        assert text[i * (n + 1) + j] == rest[(i - 1) * (n + 1) + j];
      }
    }
  }

  lemma Behind(i: nat, n: nat)
    requires i > 0
    ensures i * (n + 1) == (i - 1) * (n + 1) + (n + 1)
  {
  }
}
