/** The driver's configuration file: one device per line, as library, prefix and id. */
module Config {
  import opened Outcomes
  import opened Text

  /** `std::isspace` in the classic locale. */
  predicate IsSpace(c: char) {
    c == ' ' || c == '\t' || c == '\n' || c == '\r' || c == '\U{000B}' || c == '\U{000C}'
  }

  /** The lines `std::getline` delivers. */
  function Lines(content: string): seq<string> {
    var pieces := Split(content, "\n");
    if pieces[|pieces| - 1] == [] then pieces[..|pieces| - 1] else pieces
  }

  function TokenLength(s: string): (n: nat)
    ensures n <= |s|
    ensures forall i | 0 <= i < n :: !IsSpace(s[i])
    ensures n < |s| ==> IsSpace(s[n])
    ensures s != [] && !IsSpace(s[0]) ==> n > 0
  {
    if s == [] || IsSpace(s[0]) then 0 else 1 + TokenLength(s[1..])
  }

  /** What repeated `>>` into strings reads from a line. */
  function Fields(line: string): seq<string>
    decreases |line|
  {
    if line == [] then []
    else if IsSpace(line[0]) then Fields(line[1..])
    else
      var n := TokenLength(line);
      [line[..n]] + Fields(line[n..])
  }

  datatype Entry = Entry(library: string, prefix: string, id: string)

  datatype LineKind = Skipped | Malformed | Parsed(entry: Entry)

  function ReadLine(line: string): LineKind {
    if line == [] || line[0] == '#' then Skipped
    else
      var fields := Fields(line);
      if |fields| == 3 then Parsed(Entry(fields[0], fields[1], fields[2])) else Malformed
  }

  /** The entries of all lines, or nothing when some line is malformed or repeats an id. */
  function ReadEntries(lines: seq<string>, seen: set<string>): Option<seq<Entry>> {
    if lines == [] then Some([])
    else match ReadLine(lines[0])
      case Skipped => ReadEntries(lines[1..], seen)
      case Malformed => None
      case Parsed(e) =>
        if e.id in seen then None
        else match ReadEntries(lines[1..], seen + {e.id})
          case None => None
          case Some(rest) => Some([e] + rest)
  }

  function AllParsed(lines: seq<string>): seq<Entry> {
    if lines == [] then []
    else (match ReadLine(lines[0]) case Parsed(e) => [e] case _ => []) + AllParsed(lines[1..])
  }

  /** No two entries share an id, and none has an id already seen. */
  predicate FreshIds(entries: seq<Entry>, seen: set<string>) {
    (forall i | 0 <= i < |entries| :: entries[i].id !in seen) &&
    forall i, j | 0 <= i < j < |entries| :: entries[i].id != entries[j].id
  }

  predicate NoneMalformed(lines: seq<string>) {
    forall i | 0 <= i < |lines| :: ReadLine(lines[i]) != Malformed
  }

  lemma FreshIdsByHead(e: Entry, rest: seq<Entry>, seen: set<string>)
    ensures FreshIds([e] + rest, seen) <==> e.id !in seen && FreshIds(rest, seen + {e.id})
  {
    var all := [e] + rest;
    if FreshIds(all, seen) {
      assert all[0].id !in seen;
      forall i | 0 <= i < |rest| ensures rest[i].id !in seen + {e.id} {
        assert all[i + 1] == rest[i] && all[0].id != all[i + 1].id;
      }
      forall i, j | 0 <= i < j < |rest| ensures rest[i].id != rest[j].id {
        assert all[i + 1].id != all[j + 1].id;
      }
    }
    if e.id !in seen && FreshIds(rest, seen + {e.id}) {
      forall i | 0 <= i < |all| ensures all[i].id !in seen {
        if i > 0 { assert all[i] == rest[i - 1]; }
      }
      forall i, j | 0 <= i < j < |all| ensures all[i].id != all[j].id {
        assert all[j] == rest[j - 1];
        if i > 0 { assert all[i] == rest[i - 1]; }
      }
    }
  }

  /** A file is accepted exactly when every line that is neither empty nor a comment has three fields and no id is
      repeated, at whatever distance; then its entries are those of its lines, in order. */
  lemma {:induction false} ReadEntriesIff(lines: seq<string>, seen: set<string>)
    ensures ReadEntries(lines, seen).Some? <==> NoneMalformed(lines) && FreshIds(AllParsed(lines), seen)
    ensures ReadEntries(lines, seen).Some? ==> ReadEntries(lines, seen).value == AllParsed(lines)
    decreases |lines|
  {
    if lines != [] {
      var rest := lines[1..];
      assert NoneMalformed(lines) <==> ReadLine(lines[0]) != Malformed && NoneMalformed(rest) by {
        assert forall i | 1 <= i < |lines| :: lines[i] == rest[i - 1];
        assert forall i | 0 <= i < |rest| :: rest[i] == lines[i + 1];
      }
      match ReadLine(lines[0]) {
        case Skipped =>
          ReadEntriesIff(rest, seen);
          assert AllParsed(lines) == AllParsed(rest);
        case Malformed =>
        case Parsed(e) =>
          ReadEntriesIff(rest, seen + {e.id});
          FreshIdsByHead(e, AllParsed(rest), seen);
      }
    }
  }

  // ----- printing -----

  /** A field can be read back when it is not empty and holds no white space. */
  predicate IsField(s: string) {
    s != [] && forall i | 0 <= i < |s| :: s[i] !in WHITE && s[i] != '\n'
  }

  /** White space within one line. */
  predicate IsGap(s: string) {
    forall i | 0 <= i < |s| :: s[i] in WHITE
  }

  /** Blank, tab, carriage return, vertical tab and form feed: all white space but the end of a line. */
  const WHITE: string := [' ', '\t', '\r', '\U{000B}', '\U{000C}']

  lemma WhiteIff(c: char)
    ensures IsSpace(c) <==> c in WHITE || c == '\n'
  {
    assert WHITE[0] == ' ' && WHITE[1] == '\t' && WHITE[2] == '\r' && WHITE[3] == '\U{000B}' && WHITE[4] == '\U{000C}';
  }

  lemma GapIsSpace(s: string)
    requires IsGap(s)
    ensures '\n' !in s && forall i | 0 <= i < |s| :: IsSpace(s[i])
  {
    forall i | 0 <= i < |s| ensures IsSpace(s[i]) && s[i] != '\n' {
      WhiteIff(s[i]);
    }
  }

  lemma FieldHasNoSpace(s: string)
    requires IsField(s)
    ensures '\n' !in s && forall i | 0 <= i < |s| :: !IsSpace(s[i])
  {
    forall i | 0 <= i < |s| ensures !IsSpace(s[i]) {
      WhiteIff(s[i]);
    }
  }

  /** One line of a configuration file, with any spacing. */
  datatype Item =
    | DeviceLine(entry: Entry, lead: string, gap1: string, gap2: string, trail: string)
    | Comment(text: string)
    | Blank

  predicate ValidItem(item: Item) {
    match item
    case DeviceLine(e, lead, gap1, gap2, trail) =>
      && IsField(e.library) && IsField(e.prefix) && IsField(e.id)
      && IsGap(lead) && IsGap(gap1) && IsGap(gap2) && IsGap(trail) && gap1 != [] && gap2 != []
      && (lead == [] ==> e.library[0] != '#')
    case Comment(text) => '\n' !in text
    case Blank => true
  }

  function ItemText(item: Item): string {
    match item
    case DeviceLine(e, lead, gap1, gap2, trail) => lead + (e.library + (gap1 + (e.prefix + (gap2 + (e.id + trail)))))
    case Comment(text) => "#" + text
    case Blank => ""
  }

  function PrintItems(items: seq<Item>): string {
    if items == [] then [] else ItemText(items[0]) + "\n" + PrintItems(items[1..])
  }

  function Entries(items: seq<Item>): seq<Entry> {
    if items == [] then []
    else (match items[0] case DeviceLine(e, _, _, _, _) => [e] case _ => []) + Entries(items[1..])
  }

  lemma {:induction false} FieldsSkipGap(gap: string, rest: string)
    requires forall i | 0 <= i < |gap| :: IsSpace(gap[i])
    ensures Fields(gap + rest) == Fields(rest)
  {
    if gap == [] {
      assert gap + rest == rest;
    } else {
      assert (gap + rest)[1..] == gap[1..] + rest;
      FieldsSkipGap(gap[1..], rest);
    }
  }

  lemma {:induction false} TokenLengthOf(field: string, rest: string)
    requires (forall i | 0 <= i < |field| :: !IsSpace(field[i])) && (rest == [] || IsSpace(rest[0]))
    ensures TokenLength(field + rest) == |field|
  {
    if field == [] {
      assert field + rest == rest;
    } else {
      assert (field + rest)[1..] == field[1..] + rest;
      TokenLengthOf(field[1..], rest);
    }
  }

  lemma FieldsTakeField(field: string, rest: string)
    requires IsField(field) && (rest == [] || IsSpace(rest[0]))
    ensures Fields(field + rest) == [field] + Fields(rest)
  {
    FieldHasNoSpace(field);
    TokenLengthOf(field, rest);
    assert (field + rest)[..|field|] == field && (field + rest)[|field|..] == rest;
  }

  lemma FieldsOfDevice(e: Entry, lead: string, gap1: string, gap2: string, trail: string)
    requires ValidItem(DeviceLine(e, lead, gap1, gap2, trail))
    ensures Fields(ItemText(DeviceLine(e, lead, gap1, gap2, trail))) == [e.library, e.prefix, e.id]
  {
    GapIsSpace(lead);
    GapIsSpace(gap1);
    GapIsSpace(gap2);
    GapIsSpace(trail);
    var t2 := e.id + trail;
    var t1 := e.prefix + (gap2 + t2);
    FieldsSkipGap(lead, e.library + (gap1 + t1));
    FieldsTakeField(e.library, gap1 + t1);
    FieldsSkipGap(gap1, t1);
    FieldsTakeField(e.prefix, gap2 + t2);
    FieldsSkipGap(gap2, t2);
    FieldsTakeField(e.id, trail);
    FieldsSkipGap(trail, "");
    assert trail + "" == trail;
  }

  lemma ItemReads(item: Item)
    requires ValidItem(item)
    ensures ReadLine(ItemText(item)) == match item case DeviceLine(e, _, _, _, _) => Parsed(e) case _ => Skipped
    ensures '\n' !in ItemText(item)
  {
    match item {
      case DeviceLine(e, lead, gap1, gap2, trail) =>
        FieldsOfDevice(e, lead, gap1, gap2, trail);
        assert ItemText(item)[0] == if lead == [] then e.library[0] else lead[0];
        GapIsSpace(lead);
        GapIsSpace(gap1);
        GapIsSpace(gap2);
        GapIsSpace(trail);
      case Comment(text) =>
      case Blank =>
    }
  }

  function ItemTexts(items: seq<Item>): (texts: seq<string>)
    ensures |texts| == |items| && forall i | 0 <= i < |items| :: texts[i] == ItemText(items[i])
  {
    seq(|items|, i requires 0 <= i < |items| => ItemText(items[i]))
  }

  lemma {:induction false} PrintIsJoin(items: seq<Item>)
    ensures PrintItems(items) == Join(ItemTexts(items) + [[]], "\n")
  {
    var texts := ItemTexts(items) + [[]];
    if items != [] {
      PrintIsJoin(items[1..]);
      assert texts[1..] == ItemTexts(items[1..]) + [[]];
    }
  }

  lemma LinesOfPrint(items: seq<Item>)
    requires forall i | 0 <= i < |items| :: ValidItem(items[i])
    ensures Lines(PrintItems(items)) == ItemTexts(items)
  {
    var texts := ItemTexts(items) + [[]];
    PrintIsJoin(items);
    ItemsAreLines(items);
    SplitJoin(texts, '\n');
    assert texts[..|items|] == ItemTexts(items) && texts[|items|] == [];
  }

  lemma ItemsAreLines(items: seq<Item>)
    requires forall i | 0 <= i < |items| :: ValidItem(items[i])
    ensures forall p | p in ItemTexts(items) + [[]] :: '\n' !in p
  {
    forall i | 0 <= i < |items| ensures '\n' !in ItemTexts(items)[i] {
      ItemReads(items[i]);
    }
  }

  lemma {:induction false} ParsedOfPrint(items: seq<Item>)
    requires forall i | 0 <= i < |items| :: ValidItem(items[i])
    ensures AllParsed(ItemTexts(items)) == Entries(items) && NoneMalformed(ItemTexts(items))
  {
    if items != [] {
      ItemReads(items[0]);
      ParsedOfPrint(items[1..]);
      assert ItemTexts(items)[1..] == ItemTexts(items[1..]);
      forall i | 0 <= i < |items| ensures ReadLine(ItemTexts(items)[i]) != Malformed {
        ItemReads(items[i]);
      }
    }
  }

  /** Printing entries, one per line with any spacing, and comments and empty lines anywhere between, then reading
      the file gives the same entries in order exactly when no id is repeated; otherwise the whole file is
      rejected. */
  lemma ConfigRoundTrip(items: seq<Item>)
    requires forall i | 0 <= i < |items| :: ValidItem(items[i])
    ensures ReadEntries(Lines(PrintItems(items)), {}) ==
            if FreshIds(Entries(items), {}) then Some(Entries(items)) else None
  {
    LinesOfPrint(items);
    ParsedOfPrint(items);
    ReadEntriesIff(ItemTexts(items), {});
  }

  /** Three fields with tabs between them. */
  lemma TabsSeparate(line: string)
    requires line == "lib" + ("\t" + ("EX" + ("\t" + ("dev" + ""))))
    ensures ReadLine(line) == Parsed(Entry("lib", "EX", "dev"))
  {
    LettersAreFields();
    ItemReads(DeviceLine(Entry("lib", "EX", "dev"), "", "\t", "\t", ""));
    assert "" + line == line;
  }

  lemma LettersAreFields()
    ensures IsField("lib") && IsField("EX") && IsField("dev") && IsGap("\t") && IsGap("")
  {
    assert "\t"[0] == WHITE[1];
  }

  // ----- any number of fields -----

  /** Each field with white space behind it. */
  function Spaced(fields: seq<string>, gaps: seq<string>): string
    requires |gaps| == |fields|
  {
    if fields == [] then [] else fields[0] + (gaps[0] + Spaced(fields[1..], gaps[1..]))
  }

  lemma {:induction false} FieldsOfSpaced(fields: seq<string>, gaps: seq<string>)
    requires |gaps| == |fields| && forall k | 0 <= k < |fields| :: IsField(fields[k]) && IsGap(gaps[k])
    requires forall k | 0 <= k < |fields| - 1 :: gaps[k] != []
    ensures Fields(Spaced(fields, gaps)) == fields
  {
    if fields != [] {
      var rest := Spaced(fields[1..], gaps[1..]);
      FieldsOfSpaced(fields[1..], gaps[1..]);
      GapIsSpace(gaps[0]);
      if gaps[0] == [] {
        assert rest == [];
      } else {
        assert (gaps[0] + rest)[0] == gaps[0][0];
      }
      FieldsTakeField(fields[0], gaps[0] + rest);
      FieldsSkipGap(gaps[0], rest);
      assert [fields[0]] + fields[1..] == fields;
    }
  }

  /** A line of any number of fields, with white space before, between and behind them, that does not start with
      `#`: an entry if and only if there are three. */
  lemma FieldCountDecides(lead: string, fields: seq<string>, gaps: seq<string>)
    requires |gaps| == |fields| && forall k | 0 <= k < |fields| :: IsField(fields[k]) && IsGap(gaps[k])
    requires (forall k | 0 <= k < |fields| - 1 :: gaps[k] != []) && IsGap(lead)
    requires var line := lead + Spaced(fields, gaps); line != [] && line[0] != '#'
    ensures ReadLine(lead + Spaced(fields, gaps)) ==
            if |fields| == 3 then Parsed(Entry(fields[0], fields[1], fields[2])) else Malformed
  {
    GapIsSpace(lead);
    FieldsSkipGap(lead, Spaced(fields, gaps));
    FieldsOfSpaced(fields, gaps);
  }

  /** The lines of a file are the texts between its line ends; an end behind the last line makes no further line. */
  lemma LinesEitherWay(lines: seq<string>)
    requires lines != [] && lines[|lines| - 1] != [] && forall l | l in lines :: '\n' !in l
    ensures Lines(Join(lines, "\n")) == lines == Lines(Join(lines, "\n") + "\n")
  {
    SplitJoin(lines, '\n');
    var more := lines + [[]];
    SplitJoin(more, '\n');
    JoinSnocEmpty(lines);
    assert more[..|lines|] == lines;
  }

  lemma {:induction false} JoinSnocEmpty(lines: seq<string>)
    requires lines != []
    ensures Join(lines + [[]], "\n") == Join(lines, "\n") + "\n"
  {
    if |lines| == 1 {
      assert (lines + [[]])[1..] == [[]];
    } else {
      JoinSnocEmpty(lines[1..]);
      assert (lines + [[]])[1..] == lines[1..] + [[]];
      Assoc(lines[0] + "\n", Join(lines[1..], "\n"), "\n");
    }
  }
}
