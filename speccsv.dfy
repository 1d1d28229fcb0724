/** The spreadsheet export of the specification (handleExportExcel): a
    header line naming the twelve count columns, then one line per learning
    outcome of the grouped tree, in tree order, with the three names, the
    twelve counts and the row total; the file starts with a byte order mark
    and nothing is produced for an empty specification. Alongside, a reader
    for the lines in the sense of RFC 4180 (quoted fields, a doubled quote
    inside a quoted field) that reads every line back. */
module SpecCsv {
  import opened Wrappers
  import opened Assoc
  import opened Catalog
  import opened Text
  import opened Grouping
  import opened SpecTable

  const HeaderStart: string := "Chủ đề,Nội dung kiến thức,Yêu cầu cần đạt,"
  const TotalTitle: string := "Tổng"

  // ---- the header line ----

  /** `${qType} - ${level},` for count column `k`. */
  function ColumnTitle(cat: Catalog, k: nat): string
    requires k < 12
  {
    cat.typeName(ColumnType(k)) + " - " + cat.levelName(ColumnLevel(k)) + ","
  }

  /** The titles of the first `k` count columns. */
  function TitlesUpTo(cat: Catalog, k: nat): string
    requires k <= 12
  {
    if k == 0 then "" else TitlesUpTo(cat, k - 1) + ColumnTitle(cat, k - 1)
  }

  function Header(cat: Catalog): string
  {
    HeaderStart + TitlesUpTo(cat, 12) + TotalTitle + "\n"
  }

  /** Column `3 * i + j` is type `i` at level `j`. */
  lemma ColumnOf(i: nat, j: nat)
    requires i < 4 && j < 3
    ensures 3 * i + j < 12
    ensures ColumnType(3 * i + j) == QTypes[i] && ColumnLevel(3 * i + j) == Levels[j]
  {
    assert (3 * i + j) / 3 == i;
    assert (3 * i + j) % 3 == j;
  }

  /** Appending one piece to a text built as prefix + body. */
  lemma AppendPiece(prefix: string, body: string, piece: string)
    ensures prefix + body + piece == prefix + (body + piece)
  {
  }

  /** The header line: the fixed names, the column titles, the total. */
  method BuildHeader(cat: Catalog) returns (csv: string)
    ensures csv == Header(cat)
  {
    csv := AppendTitles(cat, HeaderStart);
    csv := csv + TotalTitle + "\n";
  }

  /** The two nested `forEach` loops: one title per type and level. */
  method AppendTitles(cat: Catalog, start: string) returns (csv: string)
    ensures csv == start + TitlesUpTo(cat, 12)
  {
    csv := start;
    for i := 0 to 4
      invariant csv == start + TitlesUpTo(cat, 3 * i)
    {
      var qType := QTypes[i];
      for j := 0 to 3
        invariant csv == start + TitlesUpTo(cat, 3 * i + j)
      {
        var level := Levels[j];
        ColumnOf(i, j);
        var title := cat.typeName(qType) + " - " + cat.levelName(level) + ",";
        assert TitlesUpTo(cat, 3 * i + j + 1) == TitlesUpTo(cat, 3 * i + j) + title;
        AppendPiece(start, TitlesUpTo(cat, 3 * i + j), title);
        csv := csv + title;
      }
    }
  }

  // ---- one line per learning outcome ----

  /** `countGroup[qType]?.[level] || 0` for count column `k`. */
  function CellValue(cat: Catalog, countGroup: Leaf, k: nat): int
    requires k < 12
  {
    LeafCell(cat, countGroup, ColumnType(k), ColumnLevel(k)).GetOr(0)
  }

  /** The twelve counts of a line, in column order. */
  function CellValues(cat: Catalog, countGroup: Leaf): (vs: seq<int>)
    ensures |vs| == 12
    ensures forall k :: 0 <= k < 12 ==> vs[k] == CellValue(cat, countGroup, k)
  {
    seq(12, k requires 0 <= k < 12 => CellValue(cat, countGroup, k))
  }

  /** `${v},` */
  function NumberField(v: int): string
  {
    IntToString(v) + ","
  }

  /** Each value written out by `field`, in order. */
  function FieldsOf(vs: seq<int>, field: int -> string): string
  {
    if vs == [] then "" else FieldsOf(vs[..|vs| - 1], field) + field(vs[|vs| - 1])
  }

  /** Each number followed by a comma. */
  function NumberFields(vs: seq<int>): string
  {
    FieldsOf(vs, NumberField)
  }

  lemma NumberFieldsStep(vs: seq<int>, k: nat)
    requires k < |vs|
    ensures NumberFields(vs[..k + 1]) == NumberFields(vs[..k]) + NumberField(vs[k])
  {
    assert vs[..k + 1][..k] == vs[..k];
  }

  /** A field inside double quotes, with every double quote in it doubled
      (RFC 4180, section 2, rule 7). */
  function Quoted(s: string): string
  {
    "\"" + Escaped(s) + "\""
  }

  function Escaped(s: string): string
  {
    if s == [] then "" else (if s[0] == '"' then "\"\"" else [s[0]]) + Escaped(s[1..])
  }

  /** A field inside double quotes, as the export writes it: the text is
      not escaped. */
  function QuotedAsWritten(s: string): string
  {
    "\"" + s + "\""
  }

  /** The line of one learning outcome. */
  function Line(cat: Catalog, s: Slot): string
  {
    Quoted(s.chuDe) + "," + Quoted(s.noiDung) + "," + Quoted(s.yeuCau) + ","
      + NumberFields(CellValues(cat, s.countGroup)) + IntToString(RowTotal(s.countGroup)) + "\n"
  }

  /** The line as the export writes it. */
  function LineAsWritten(cat: Catalog, s: Slot): string
  {
    QuotedAsWritten(s.chuDe) + "," + QuotedAsWritten(s.noiDung) + "," + QuotedAsWritten(s.yeuCau) + ","
      + NumberFields(CellValues(cat, s.countGroup)) + IntToString(RowTotal(s.countGroup)) + "\n"
  }

  /** The line of each outcome. */
  function LineTexts(cat: Catalog, ss: seq<Slot>): (ls: seq<string>)
    ensures |ls| == |ss|
    ensures forall i :: 0 <= i < |ss| ==> ls[i] == Line(cat, ss[i])
  {
    seq(|ss|, i requires 0 <= i < |ss| => Line(cat, ss[i]))
  }

  /** The lines of the given outcomes, in order. */
  function Lines(cat: Catalog, ss: seq<Slot>): string
  {
    Concat(LineTexts(cat, ss))
  }

  lemma LinesStep(cat: Catalog, ss: seq<Slot>, i: nat)
    requires i < |ss|
    ensures Lines(cat, ss[..i + 1]) == Lines(cat, ss[..i]) + Line(cat, ss[i])
  {
    var ls := LineTexts(cat, ss[..i + 1]);
    assert ls[..i] == LineTexts(cat, ss[..i]);
  }

  /** The whole text after the byte order mark. */
  function CsvText(cat: Catalog, items: seq<SpecItem>): string
  {
    Header(cat) + Lines(cat, Slots(Group(items)))
  }

  /** What the export hands to the download: nothing for an empty
      specification, otherwise the byte order mark and the text. */
  function Export(cat: Catalog, items: seq<SpecItem>): (r: Option<string>)
    ensures r == None <==> items == []
  {
    if items == [] then None else Some("\U{FEFF}" + CsvText(cat, items))
  }

  /** The quoting step, one character at a time. */
  method QuoteField(s: string) returns (field: string)
    ensures field == Quoted(s)
  {
    var body := "";
    for i := 0 to |s|
      invariant body + Escaped(s[i..]) == Escaped(s)
    {
      assert s[i..] == [s[i]] + s[i + 1..];
      body := body + (if s[i] == '"' then "\"\"" else [s[i]]);
    }
    assert s[|s|..] == [];
    field := "\"" + body + "\"";
  }

  /** The statements that write one outcome's line: the three quoted
      names, then the twelve counts in the two nested `forEach` loops, then
      the row total. */
  method BuildLine(cat: Catalog, s: Slot) returns (line: string)
    ensures line == Line(cat, s)
  {
    var c := QuoteField(s.chuDe);
    var n := QuoteField(s.noiDung);
    var o := QuoteField(s.yeuCau);
    line := AppendCounts(cat, s.countGroup, c + "," + n + "," + o + ",");
    line := line + IntToString(RowTotal(s.countGroup)) + "\n";
  }

  /** The nested `for` loops over types and levels inside the line: each
      count, 0 where the tree has none, followed by a comma. */
  method AppendCounts(cat: Catalog, countGroup: Leaf, start: string) returns (line: string)
    ensures line == start + NumberFields(CellValues(cat, countGroup))
  {
    var vs := CellValues(cat, countGroup);
    line := start;
    for i := 0 to 4
      invariant line == start + NumberFields(vs[..3 * i])
    {
      for j := 0 to 3
        invariant line == start + NumberFields(vs[..3 * i + j])
      {
        var v := LeafCell(cat, countGroup, QTypes[i], Levels[j]).GetOr(0);
        CountStep(cat, countGroup, start, i, j);
        line := line + NumberField(v);
      }
    }
    WholePrefix(vs);
  }

  lemma WholePrefix<T>(s: seq<T>)
    ensures s[..|s|] == s
  {
  }

  /** Count `j` of type `i` is the next number of the line. */
  lemma CountStep(cat: Catalog, countGroup: Leaf, start: string, i: nat, j: nat)
    requires i < 4 && j < 3
    ensures var vs := CellValues(cat, countGroup);
      start + NumberFields(vs[..3 * i + j]) + NumberField(LeafCell(cat, countGroup, QTypes[i], Levels[j]).GetOr(0))
        == start + NumberFields(vs[..3 * i + j + 1])
  {
    var vs := CellValues(cat, countGroup);
    ColumnOf(i, j);
    NumberFieldsStep(vs, 3 * i + j);
    AppendPiece(start, NumberFields(vs[..3 * i + j]), NumberField(vs[3 * i + j]));
  }

  /** The outer walk: one line per outcome, appended in order. */
  method BuildLines(cat: Catalog, slots: seq<Slot>) returns (text: string)
    ensures text == Lines(cat, slots)
  {
    text := "";
    for i := 0 to |slots|
      invariant text == Lines(cat, slots[..i])
    {
      var line := BuildLine(cat, slots[i]);
      LinesStep(cat, slots, i);
      text := text + line;
    }
    assert slots[..|slots|] == slots;
  }

  /** handleExportExcel: nothing for an empty specification; otherwise the
      header, then the outcomes of the grouped tree in the order of the
      three nested `Object.entries` walks (the order `Slots` lists). */
  method ExportCsv(cat: Catalog, specification: seq<SpecItem>) returns (content: Option<string>)
    ensures content == Export(cat, specification)
  {
    if |specification| == 0 {
      return None;
    }
    var header := BuildHeader(cat);
    var grouped := GroupSpecification(specification);
    var body := BuildLines(cat, Slots(grouped));
    content := Some("\U{FEFF}" + (header + body));
  }

  // ---- reading the lines back ----

  /** A line read back: the three names, the twelve counts, the total. */
  datatype Record = Record(chuDe: string, noiDung: string, yeuCau: string, counts: seq<int>, total: int)

  /** What the line of an outcome stands for. */
  function RecordOf(cat: Catalog, s: Slot): Record
  {
    Record(s.chuDe, s.noiDung, s.yeuCau, CellValues(cat, s.countGroup), RowTotal(s.countGroup))
  }

  function RecordsOf(cat: Catalog, ss: seq<Slot>): (rs: seq<Record>)
    ensures |rs| == |ss|
    ensures forall i :: 0 <= i < |ss| ==> rs[i] == RecordOf(cat, ss[i])
  {
    if ss == [] then [] else [RecordOf(cat, ss[0])] + RecordsOf(cat, ss[1..])
  }

  /** The rest of a quoted field after its opening quote: two quotes in a
      row stand for one, a single quote closes the field. Gives the text
      and what follows the closing quote. */
  function ReadQuotedBody(s: string): (r: Option<(string, string)>)
    ensures r.Some? ==> |r.value.1| < |s|
  {
    if s == [] then None
    else if s[0] == '"' then
      if |s| > 1 && s[1] == '"' then
        var (text, rest) :- ReadQuotedBody(s[2..]);
        Some(("\"" + text, rest))
      else Some(("", s[1..]))
    else
      var (text, rest) :- ReadQuotedBody(s[1..]);
      Some(([s[0]] + text, rest))
  }

  function ReadQuoted(s: string): (r: Option<(string, string)>)
    ensures r.Some? ==> |r.value.1| < |s|
  {
    if s != [] && s[0] == '"' then ReadQuotedBody(s[1..]) else None
  }

  /** The separator `c`, and what follows it. */
  function ReadSep(s: string, c: char): (r: Option<string>)
    ensures r.Some? ==> |r.value| < |s|
  {
    if s != [] && s[0] == c then Some(s[1..]) else None
  }

  /** The text up to the first `sep`, and what follows that `sep`. */
  function ReadUntil(s: string, sep: char): (r: Option<(string, string)>)
    ensures r.Some? ==> |r.value.1| < |s|
  {
    if s == [] then None
    else if s[0] == sep then Some(("", s[1..]))
    else
      var (field, rest) :- ReadUntil(s[1..], sep);
      Some(([s[0]] + field, rest))
  }

  /** Text that `IntToString` could have written. */
  predicate IntText(f: string)
  {
    && |f| >= 1
    && (forall k :: 0 <= k < |f| ==> IsDigit(f[k]) || f[k] == '-')
    && (forall k :: 1 <= k < |f| ==> IsDigit(f[k]))
  }

  /** A number ended by `sep`. */
  function ReadInt(s: string, sep: char): (r: Option<(int, string)>)
    ensures r.Some? ==> |r.value.1| < |s|
  {
    var (field, rest) :- ReadUntil(s, sep);
    if IntText(field) then Some((ParseInt(field), rest)) else None
  }

  /** `k` numbers, each ended by a comma. */
  function ReadInts(s: string, k: nat): (r: Option<(seq<int>, string)>)
    ensures r.Some? ==> |r.value.0| == k && |r.value.1| <= |s|
    decreases k
  {
    if k == 0 then Some(([], s))
    else
      var (v, rest) :- ReadInt(s, ',');
      var (vs, rest') :- ReadInts(rest, k - 1);
      Some(([v] + vs, rest'))
  }

  /** One line: three quoted names, twelve counts, the total, a newline. */
  function ReadLine(s: string): (r: Option<(Record, string)>)
    ensures r.Some? ==> |r.value.1| < |s|
  {
    var (c, s1) :- ReadQuoted(s);
    var s2 :- ReadSep(s1, ',');
    var (n, s3) :- ReadQuoted(s2);
    var s4 :- ReadSep(s3, ',');
    var (o, s5) :- ReadQuoted(s4);
    var s6 :- ReadSep(s5, ',');
    var (counts, s7) :- ReadInts(s6, 12);
    var (total, s8) :- ReadInt(s7, '\n');
    Some((Record(c, n, o, counts, total), s8))
  }

  /** Lines up to the end of the text. */
  function ReadLines(s: string): Option<seq<Record>>
    decreases |s|
  {
    if s == [] then Some([])
    else
      var (r, rest) :- ReadLine(s);
      var rs :- ReadLines(rest);
      Some([r] + rs)
  }

  /** The header, then its lines. */
  function ReadCsv(cat: Catalog, text: string): Option<seq<Record>>
  {
    var h := Header(cat);
    if |h| <= |text| && text[..|h|] == h then ReadLines(text[|h|..]) else None
  }

  // ---- every line reads back ----

  /** A quoted field reads back as its text, whatever the text holds,
      provided the next character is not a quote. */
  lemma {:induction false} EscapedRoundTrip(x: string, rest: string)
    requires rest == [] || rest[0] != '"'
    ensures ReadQuotedBody(Escaped(x) + "\"" + rest) == Some((x, rest))
  {
    var s := Escaped(x) + "\"" + rest;
    if x == [] {
      assert s == "\"" + rest;
      assert s[1..] == rest;
    } else {
      EscapedRoundTrip(x[1..], rest);
      var tail := Escaped(x[1..]) + "\"" + rest;
      if x[0] == '"' {
        assert s == "\"\"" + tail;
        assert s[2..] == tail;
      } else {
        assert s == [x[0]] + tail;
        assert s[1..] == tail;
      }
      assert [x[0]] + x[1..] == x;
    }
  }

  lemma QuotedRoundTrip(x: string, rest: string)
    requires rest == [] || rest[0] != '"'
    ensures ReadQuoted(Quoted(x) + rest) == Some((x, rest))
  {
    EscapedRoundTrip(x, rest);
    assert (Quoted(x) + rest)[1..] == Escaped(x) + "\"" + rest;
  }

  lemma {:induction false} ReadUntilRoundTrip(f: string, sep: char, rest: string)
    requires sep !in f
    ensures ReadUntil(f + ([sep] + rest), sep) == Some((f, rest))
  {
    var s := f + ([sep] + rest);
    if f == [] {
      assert s == [sep] + rest;
      assert s[1..] == rest;
    } else {
      ReadUntilRoundTrip(f[1..], sep, rest);
      assert s[1..] == f[1..] + ([sep] + rest);
      assert [f[0]] + f[1..] == f;
    }
  }

  /** A number written by `IntToString` and ended by a separator that is
      neither a digit nor a minus sign reads back as itself. */
  lemma ReadIntRoundTrip(v: int, sep: char, rest: string)
    requires !IsDigit(sep) && sep != '-'
    ensures ReadInt(IntToString(v) + ([sep] + rest), sep) == Some((v, rest))
  {
    var f := IntToString(v);
    IntToStringRoundTrip(v);
    assert sep !in f by {
      forall k | 0 <= k < |f| ensures f[k] != sep { }
    }
    ReadUntilRoundTrip(f, sep, rest);
  }

  lemma AppendAssoc(a: string, b: string, c: string)
    ensures a + b + c == a + (b + c)
  {
  }

  lemma NumberFieldsCons(v: int, vs: seq<int>)
    ensures NumberFields([v] + vs) == NumberField(v) + NumberFields(vs)
  {
    FieldsOfCons(v, vs, NumberField);
  }

  lemma {:induction false} FieldsOfCons(v: int, vs: seq<int>, field: int -> string)
    ensures FieldsOf([v] + vs, field) == field(v) + FieldsOf(vs, field)
  {
    if vs == [] {
      assert [v][..0] == [];
    } else {
      var init, last := vs[..|vs| - 1], vs[|vs| - 1];
      FieldsOfCons(v, init, field);
      assert vs == init + [last];
      assert [v] + vs == ([v] + init) + [last];
      FieldsOfSnoc([v] + init, last, field);
      FieldsOfSnoc(init, last, field);
      AppendAssoc(field(v), FieldsOf(init, field), field(last));
    }
  }

  lemma FieldsOfSnoc(vs: seq<int>, v: int, field: int -> string)
    ensures FieldsOf(vs + [v], field) == FieldsOf(vs, field) + field(v)
  {
    assert (vs + [v])[..|vs|] == vs;
  }

  lemma {:induction false} ReadIntsRoundTrip(vs: seq<int>, rest: string)
    ensures ReadInts(NumberFields(vs) + rest, |vs|) == Some((vs, rest))
  {
    if vs == [] {
      assert NumberFields(vs) + rest == rest;
    } else {
      var tail := NumberFields(vs[1..]) + rest;
      NumberFieldsCons(vs[0], vs[1..]);
      assert [vs[0]] + vs[1..] == vs;
      AppendAssoc(NumberField(vs[0]), NumberFields(vs[1..]), rest);
      AppendAssoc(IntToString(vs[0]), ",", tail);
      ReadIntRoundTrip(vs[0], ',', tail);
      ReadIntsRoundTrip(vs[1..], rest);
    }
  }

  /** `line + rest`, re-associated so that each field is followed by the
      rest of the text. */
  lemma LineSplit(first: string, n: string, o: string, numbers: string, total: string, rest: string)
    ensures first + "," + n + "," + o + "," + numbers + total + "\n" + rest
      == first + ("," + (n + ("," + (o + ("," + (numbers + (total + ("\n" + rest))))))))
  {
    var r8 := "\n" + rest;
    var r7 := total + r8;
    var r6 := numbers + r7;
    var r5 := "," + r6;
    var r4 := o + r5;
    var r3 := "," + r4;
    var r2 := n + r3;
    AppendAssoc(first + "," + n + "," + o + "," + numbers + total, "\n", rest);
    AppendAssoc(first + "," + n + "," + o + "," + numbers, total, r8);
    AppendAssoc(first + "," + n + "," + o + ",", numbers, r7);
    AppendAssoc(first + "," + n + "," + o, ",", r6);
    AppendAssoc(first + "," + n + ",", o, r5);
    AppendAssoc(first + "," + n, ",", r4);
    AppendAssoc(first + ",", n, r3);
    AppendAssoc(first, ",", r2);
  }

  /** The separator `c` in front of `rest` is read and dropped. */
  lemma ReadSepFront(c: char, rest: string)
    ensures ReadSep([c] + rest, c) == Some(rest)
  {
    assert ([c] + rest)[1..] == rest;
  }

  /** Every line reads back as what it stands for. */
  lemma LineRoundTrip(cat: Catalog, s: Slot, rest: string)
    ensures ReadLine(Line(cat, s) + rest) == Some((RecordOf(cat, s), rest))
  {
    var vs := CellValues(cat, s.countGroup);
    var total := RowTotal(s.countGroup);
    var r8 := "\n" + rest;
    var r7 := IntToString(total) + r8;
    var r6 := NumberFields(vs) + r7;
    var r4 := Quoted(s.yeuCau) + ("," + r6);
    var r2 := Quoted(s.noiDung) + ("," + r4);
    LineSplit(Quoted(s.chuDe), Quoted(s.noiDung), Quoted(s.yeuCau), NumberFields(vs), IntToString(total), rest);
    QuotedRoundTrip(s.chuDe, "," + r2);
    ReadSepFront(',', r2);
    QuotedRoundTrip(s.noiDung, "," + r4);
    ReadSepFront(',', r4);
    QuotedRoundTrip(s.yeuCau, "," + r6);
    ReadSepFront(',', r6);
    ReadIntsRoundTrip(vs, r7);
    ReadIntRoundTrip(total, '\n', rest);
  }

  lemma LinesCons(cat: Catalog, s: Slot, ss: seq<Slot>)
    ensures Lines(cat, [s] + ss) == Line(cat, s) + Lines(cat, ss)
  {
    var l, r := LineTexts(cat, [s] + ss), [Line(cat, s)] + LineTexts(cat, ss);
    forall i | 0 <= i < |l| ensures l[i] == r[i] {
      if i > 0 {
        assert ([s] + ss)[i] == ss[i - 1];
      }
    }
    assert l == r;
    ConcatCons(Line(cat, s), LineTexts(cat, ss));
  }

  /** The lines of any outcomes read back as their records, one per
      outcome, in order. */
  lemma {:induction false} LinesRoundTrip(cat: Catalog, ss: seq<Slot>)
    ensures ReadLines(Lines(cat, ss)) == Some(RecordsOf(cat, ss))
  {
    if ss != [] {
      var tail := Lines(cat, ss[1..]);
      LinesCons(cat, ss[0], ss[1..]);
      assert [ss[0]] + ss[1..] == ss;
      LineRoundTrip(cat, ss[0], tail);
      LinesRoundTrip(cat, ss[1..]);
      assert |Line(cat, ss[0])| > 0;
      ReadLinesStep(Lines(cat, ss), RecordOf(cat, ss[0]), tail);
      assert RecordsOf(cat, ss) == [RecordOf(cat, ss[0])] + RecordsOf(cat, ss[1..]);
    }
  }

  /** A text that starts with a line reads back as that line's record
      followed by the records of the rest. */
  lemma ReadLinesStep(s: string, r: Record, rest: string)
    requires s != [] && ReadLine(s) == Some((r, rest))
    ensures ReadLines(rest).Some? ==> ReadLines(s) == Some([r] + ReadLines(rest).value)
  {
  }

  /** The exported text reads back as one record per learning outcome of
      the grouped specification, in table order: names, the twelve cells
      (0 where the tree holds nothing) and the row total. */
  lemma CsvRoundTrip(cat: Catalog, items: seq<SpecItem>)
    ensures ReadCsv(cat, CsvText(cat, items)) == Some(RecordsOf(cat, Slots(Group(items))))
  {
    var h, body := Header(cat), Lines(cat, Slots(Group(items)));
    assert (h + body)[..|h|] == h;
    assert (h + body)[|h|..] == body;
    LinesRoundTrip(cat, Slots(Group(items)));
  }

  /** The quoting as written: a name holding a double quote ends its field
      early, and the line no longer reads back; the escaped line does. */
  lemma UnescapedQuoteBreaksLine(cat: Catalog, s: Slot, rest: string)
    requires s.chuDe == "a\"b"
    ensures ReadLine(LineAsWritten(cat, s) + rest) == None
    ensures ReadLine(Line(cat, s) + rest) == Some((RecordOf(cat, s), rest))
  {
    var x := LineAsWritten(cat, s) + rest;
    assert x[0] == '"' && x[1] == 'a' && x[2] == '"' && x[3] == 'b';
    assert x[1..][1..] == x[2..];
    assert ReadQuotedBody(x[2..]) == Some(("", x[3..]));
    assert ['a'] + "" == "a";
    assert ReadQuotedBody(x[1..]) == Some(("a", x[3..]));
    LineRoundTrip(cat, s, rest);
  }
}
