/** Export then import: which records survive toCsv followed by parseCSV and
    normalizeImported, and what happens to the ones that do not. */
module CsvRoundTrip {
  import opened Wrappers
  import opened Strings
  import opened Numbers
  import opened Values
  import opened Utils
  import opened Seqs
  import opened Csv

  /** A character that neither the writer nor the reader treats specially. */
  predicate SafeChar(c: char) {
    c != ',' && c != '"' && c != '\n' && c != '\r' && c != '\t' && c != ';' && c != '|'
  }

  /** Text that is written as it is and read back as it is. */
  predicate SafeText(s: string) {
    IsTrimmed(s) && forall i :: 0 <= i < |s| ==> SafeChar(s[i])
  }

  /** A numeric field that survives: empty, or a number with a short decimal form. */
  predicate NumericSurvives(v: Val) {
    Nullish(v) || (v.Number? && IsShortDecimal(v.n))
  }

  /** The records whose five exported fields come back. */
  predicate RoundTrippable(r: Record) {
    && NumericSurvives(Get(r, WeightKey))
    && NumericSurvives(Get(r, AgeKey))
    && NumericSurvives(Get(r, HeightKey))
    && (Nullish(Get(r, SexKey)) || (Get(r, SexKey).Str? && IsCanonicalSex(Get(r, SexKey).s) && SafeText(Get(r, SexKey).s)))
    && (Nullish(Get(r, NameKey)) || (Get(r, NameKey).Str? && SafeText(Get(r, NameKey).s)))
  }

  /** What field k of r comes back as: empty fields come back null, except the
      name, which comes back as the empty string. */
  function Restored(r: Record, k: string): Val {
    var v := Get(r, k);
    if !Nullish(v) then v else if k == NameKey then Str("") else Null
  }

  /** A field value whose cell is written as it is. */
  predicate PlainField(v: Val) {
    Nullish(v) || v.Number? || (v.Str? && SafeText(v.s))
  }

  lemma RoundTrippablePlain(r: Record, k: nat)
    requires RoundTrippable(r) && k < |Headers|
    ensures PlainField(Get(r, Headers[k]))
  {
  }

  /** The cell of a plain field is trimmed and holds only safe characters. */
  lemma PlainCell(v: Val)
    requires PlainField(v)
    ensures IsTrimmed(Cell(v))
    ensures forall i :: 0 <= i < |Cell(v)| ==> SafeChar(Cell(v)[i])
    ensures v.Str? ==> Cell(v) == v.s
  {
    if v.Number? {
      var s := NumToString(v.n);
      assert Cell(v) == s;
      assert forall i :: 0 <= i < |s| ==> IsDigit(s[i]) || s[i] == '-' || s[i] == '.';
      assert !IsWhite(s[0]) && !IsWhite(s[|s| - 1]);
    } else if v.Str? {
      assert !NeedsQuotes(v.s);
    }
  }

  lemma JoinHasSeparator(parts: seq<string>, d: char)
    requires |parts| >= 2
    ensures d in Join(parts, d)
  {
    assert Join(parts, d) == parts[0] + [d] + Join(parts[1..], d);
    assert Join(parts, d)[|parts[0]|] == d;
  }

  /** A string holding a comma is not blank. */
  lemma CommaNotBlank(l: string)
    requires ',' in l
    ensures NonBlank(l) && l != ""
  {
    var i :| 0 <= i < |l| && l[i] == ',';
    assert !IsWhite(l[i]);
  }

  /** The cells of a round-trippable record are trimmed and safe. */
  lemma CellsSafe(r: Record)
    requires RoundTrippable(r)
    ensures forall k :: 0 <= k < |Headers| ==>
      IsTrimmed(Cells(r)[k]) && forall i :: 0 <= i < |Cells(r)[k]| ==> SafeChar(Cells(r)[k][i])
  {
    forall k | 0 <= k < |Headers|
      ensures IsTrimmed(Cells(r)[k]) && forall i :: 0 <= i < |Cells(r)[k]| ==> SafeChar(Cells(r)[k][i])
    {
      RoundTrippablePlain(r, k);
      PlainCell(Get(r, Headers[k]));
    }
  }

  lemma RowSplits(r: Record)
    requires RoundTrippable(r)
    ensures Split(Row(r), ',') == Cells(r)
  {
    CellsSafe(r);
    SplitJoin(Cells(r), ',');
  }

  lemma RowOmits(r: Record, c: char)
    requires RoundTrippable(r) && !SafeChar(c) && c != ','
    ensures c !in Row(r)
  {
    CellsSafe(r);
    JoinChars(Cells(r), ',', c);
  }

  lemma RowNonBlank(r: Record)
    ensures NonBlank(Row(r)) && Row(r) != ""
  {
    JoinHasSeparator(Cells(r), ',');
    CommaNotBlank(Row(r));
  }

  /** A line the reader takes as it is: not blank, and no line break or
      delimiter other than the comma. */
  predicate GoodLine(l: string) {
    NonBlank(l) && '\n' !in l && '\r' !in l && '\t' !in l && ';' !in l && '|' !in l
  }

  /** The row of a round-trippable record is a good line. */
  lemma RowGood(r: Record)
    requires RoundTrippable(r)
    ensures GoodLine(Row(r))
  {
    RowNonBlank(r);
    RowOmits(r, '\n');
    RowOmits(r, '\r');
    RowOmits(r, '\t');
    RowOmits(r, ';');
    RowOmits(r, '|');
  }

  /** The header line is a good line. */
  lemma HeaderLineGood()
    ensures GoodLine(HeaderLine())
  {
    HeaderFacts();
    assert !KeyChar('\n') && !KeyChar('\r') && !KeyChar('\t') && !KeyChar(';') && !KeyChar('|');
    JoinHasSeparator(Headers, ',');
    CommaNotBlank(HeaderLine());
  }

  /** The lines of the exported text. */
  function ExportLines(rs: seq<Record>): (ls: seq<string>)
    ensures |ls| == |rs| + 1
  {
    [HeaderLine()] + Rows(rs)
  }

  /** Line 0 is the header line. */
  lemma ExportHead(rs: seq<Record>)
    ensures ExportLines(rs)[0] == HeaderLine()
  {
  }

  /** Line i, past the header line, is the row of record i - 1. */
  lemma ExportRow(rs: seq<Record>, i: nat)
    requires 0 < i <= |rs|
    ensures ExportLines(rs)[i] == Row(rs[i - 1])
  {
    assert ExportLines(rs)[i] == Rows(rs)[i - 1];
  }

  predicate AllRoundTrippable(rs: seq<Record>) {
    forall j :: 0 <= j < |rs| ==> RoundTrippable(rs[j])
  }

  /** Every exported line is a good line. */
  lemma ExportLineGood(rs: seq<Record>, i: nat)
    requires AllRoundTrippable(rs)
    requires i < |ExportLines(rs)|
    ensures GoodLine(ExportLines(rs)[i])
  {
    if i == 0 {
      ExportHeadGood(rs);
    } else {
      ExportRowGood(rs, i);
    }
  }

  lemma ExportHeadGood(rs: seq<Record>)
    ensures GoodLine(ExportLines(rs)[0])
  {
    ExportHead(rs);
    HeaderLineGood();
  }

  lemma ExportRowGood(rs: seq<Record>, i: nat)
    requires 0 < i <= |rs| && RoundTrippable(rs[i - 1])
    ensures GoodLine(ExportLines(rs)[i])
  {
    ExportRow(rs, i);
    RowGood(rs[i - 1]);
  }

  /** Good lines joined by line feeds read back as the same lines, all of
      them data lines. */
  lemma GoodLinesReadBack(ls: seq<string>)
    requires |ls| >= 1 && forall i :: 0 <= i < |ls| ==> GoodLine(ls[i])
    ensures SplitLines(Join(ls, '\n')) == ls
    ensures DataLines(Join(ls, '\n')) == ls
  {
    GoodLinesSplit(ls);
    NoCarriageReturns(Join(ls, '\n'), ls);
    GoodLinesKept(ls);
  }

  lemma GoodLinesSplit(ls: seq<string>)
    requires |ls| >= 1 && forall i :: 0 <= i < |ls| ==> GoodLine(ls[i])
    ensures Split(Join(ls, '\n'), '\n') == ls
  {
    SplitJoin(ls, '\n');
  }

  /** Lines that end in no carriage return lose nothing to it. */
  lemma NoCarriageReturns(text: string, ls: seq<string>)
    requires Split(text, '\n') == ls
    requires forall i :: 0 <= i < |ls| ==> GoodLine(ls[i])
    ensures SplitLines(text) == ls
  {
    assert forall i :: 0 <= i < |ls| ==> '\r' !in ls[i];
    SplitLinesPlain(text);
  }

  lemma GoodLinesKept(ls: seq<string>)
    requires forall i :: 0 <= i < |ls| ==> GoodLine(ls[i])
    ensures Filter(ls, NonBlank) == ls
  {
    FilterAll(ls, NonBlank);
  }

  /** A text whose lines are all good is read as comma-separated. */
  lemma GoodLinesComma(text: string)
    requires forall i :: 0 <= i < |SplitLines(text)| ==> GoodLine(SplitLines(text)[i])
    ensures DetectDelimiter(text) == ','
  {
    SampleLinesFrom(text);
    var sample := SampleLines(text);
    forall i | 0 <= i < |sample|
      ensures '\t' !in sample[i] && ';' !in sample[i] && '|' !in sample[i]
    {
      var j :| 0 <= j < |SplitLines(text)| && SplitLines(text)[j] == sample[i];
    }
    CommaWithoutOtherDelimiters(text);
  }

  /** The exported text reads back as the header line and one line per row,
      none of them blank, split at commas. */
  lemma ExportReadsBack(rs: seq<Record>)
    requires AllRoundTrippable(rs)
    ensures SplitLines(ToCsv(rs)) == ExportLines(rs)
    ensures DataLines(ToCsv(rs)) == ExportLines(rs)
    ensures DetectDelimiter(ToCsv(rs)) == ','
  {
    var ls := ExportLines(rs);
    forall i | 0 <= i < |ls|
      ensures GoodLine(ls[i])
    {
      ExportLineGood(rs, i);
    }
    assert ToCsv(rs) == Join(ls, '\n');
    GoodLinesReadBack(ls);
    GoodLinesComma(ToCsv(rs));
  }

  lemma DedupDistinct(s: seq<string>)
    requires Distinct(s)
    ensures Dedup(s) == s
    decreases |s|
  {
    if |s| > 0 {
      var init := s[..|s| - 1];
      DedupDistinct(init);
      assert s == init + [s[|s| - 1]];
    }
  }

  lemma TrimAllKeys(hs: seq<string>)
    requires forall k :: 0 <= k < |hs| ==> KeyText(hs[k])
    ensures TrimAll(hs) == hs
  {
    forall k | 0 <= k < |hs|
      ensures TrimAll(hs)[k] == hs[k]
    {
      KeyTextFixed(hs[k]);
    }
  }

  /** The header read back is the five header names. */
  lemma ExportHeader(rs: seq<Record>)
    requires AllRoundTrippable(rs)
    ensures |DataLines(ToCsv(rs))| > 0
    ensures HeaderOf(ToCsv(rs)) == Headers
  {
    ExportReadsBack(rs);
    ExportHead(rs);
    assert DataLines(ToCsv(rs))[0] == HeaderLine();
    HeaderFacts();
    HeadersKeyText();
    TrimAllKeys(Headers);
  }

  /** Record i as parseCSV reads it back is the row of record i under the
      five header names. */
  lemma ParsedExport(rs: seq<Record>, i: nat)
    requires AllRoundTrippable(rs)
    requires i < |rs|
    ensures |ParseCsv(ToCsv(rs))| == |rs|
    ensures ParseCsv(ToCsv(rs))[i] == ParseRow(Headers, Cells(rs[i]))
  {
    var text := ToCsv(rs);
    ExportReadsBack(rs);
    ExportHeader(rs);
    assert ParseCsv(text) == RowRecords(Headers, ExportLines(rs), ',');
    RowRecordAt(Headers, ExportLines(rs), ',', i);
    ExportRow(rs, i + 1);
    RowSplits(rs[i]);
    assert Split(ExportLines(rs)[i + 1], ',') == Cells(rs[i]);
  }

  /** The row read back under the five header names: those names as keys,
      each holding the cell written for it. */
  lemma ParsedRow(r: Record, k: nat)
    requires RoundTrippable(r) && k < |Headers|
    ensures ParseRow(Headers, Cells(r)).keys == Headers
    ensures Get(ParseRow(Headers, Cells(r)), Headers[k]) == Str(Cell(Get(r, Headers[k])))
  {
    HeadersDistinct();
    DedupDistinct(Headers);
    var j := LastIndex(Headers, Headers[k]);
    assert k <= j;
    CellsSafe(r);
    TrimOfTrimmed(Cells(r)[k]);
  }

  /** A numeric field comes back through its cell. */
  lemma NumericBack(v: Val)
    requires NumericSurvives(v)
    ensures Num(Str(Cell(v))) == if Nullish(v) then Null else v
  {
    if Nullish(v) {
      ParseFloatNaN();
    } else {
      assert Cell(v) == NumToString(v.n);
      PrintThenParse(v.n);
    }
  }

  /** A sex field comes back through its cell. */
  lemma SexBack(v: Val)
    requires Nullish(v) || (v.Str? && IsCanonicalSex(v.s) && SafeText(v.s))
    ensures NormalizeSex(Str(Cell(v))) == if Nullish(v) then Null else v
  {
    if !Nullish(v) {
      PlainCell(v);
      NormalizeSexFixpoints(v);
    }
  }

  /** The five fields of the imported record, from the parsed one. */
  lemma ImportedFields(p: Record)
    requires p.keys == Headers
    ensures var o := NormalizeRecord(Some(Mapped(p)));
      && o.keys == Headers
      && Get(o, WeightKey) == Num(Get(p, WeightKey))
      && Get(o, AgeKey) == Num(Get(p, AgeKey))
      && Get(o, HeightKey) == Num(Get(p, HeightKey))
      && Get(o, SexKey) == NormalizeSex(Get(p, SexKey))
      && Get(o, NameKey) == Get(p, NameKey)
  {
    CanonicalHeaderMap(p);
    ImportedShape(p);
    HeadersAre();
  }

  /** Field k of the imported record, from the parsed one, indexed by position. */
  lemma ImportedField(p: Record, k: nat)
    requires p.keys == Headers && k < |Headers|
    ensures var o := NormalizeRecord(Some(Mapped(p)));
      && o.keys == Headers
      && (k < 3 ==> Get(o, Headers[k]) == Num(Get(p, Headers[k])))
      && (k == 3 ==> Get(o, Headers[k]) == NormalizeSex(Get(p, Headers[k])))
      && (k == 4 ==> Get(o, Headers[k]) == Get(p, Headers[k]))
  {
    ImportedFields(p);
    HeadersAre();
    if k == 0 {
      assert Headers[k] == WeightKey;
    } else if k == 1 {
      assert Headers[k] == AgeKey;
    } else if k == 2 {
      assert Headers[k] == HeightKey;
    }
  }

  /** A round-trippable record, written as a row, read back and imported,
      has the five canonical keys and field k restored. */
  lemma RecordBack(r: Record, k: nat)
    requires RoundTrippable(r) && k < |Headers|
    ensures var o := NormalizeRecord(Some(Mapped(ParseRow(Headers, Cells(r)))));
      o.keys == Headers && Get(o, Headers[k]) == Restored(r, Headers[k])
  {
    var p := ParseRow(Headers, Cells(r));
    ParsedRow(r, k);
    ImportedField(p, k);
    FieldBack(r, k, Get(p, Headers[k]), NormalizeRecord(Some(Mapped(p))));
  }

  /** One record of the round trip. */
  lemma RoundTripRecord(rs: seq<Record>, i: nat, k: nat)
    requires AllRoundTrippable(rs)
    requires i < |rs| && k < |Headers|
    ensures |NormalizeImported(ParseCsv(ToCsv(rs)))| == |rs|
    ensures var o := NormalizeImported(ParseCsv(ToCsv(rs)))[i];
      o.keys == Headers && Get(o, Headers[k]) == Restored(rs[i], Headers[k])
  {
    ParsedExport(rs, i);
    RecordBack(rs[i], k);
  }

  /** Field k comes back from its cell. */
  lemma FieldBack(r: Record, k: nat, cell: Val, o: Record)
    requires RoundTrippable(r) && k < |Headers|
    requires cell == Str(Cell(Get(r, Headers[k])))
    requires k < 3 ==> Get(o, Headers[k]) == Num(cell)
    requires k == 3 ==> Get(o, Headers[k]) == NormalizeSex(cell)
    requires k == 4 ==> Get(o, Headers[k]) == cell
    ensures Get(o, Headers[k]) == Restored(r, Headers[k])
  {
    HeadersDistinct();
    var v := Get(r, Headers[k]);
    if k < 3 {
      NumericBack(v);
    } else if k == 3 {
      SexBack(v);
    } else {
      PlainCell(v);
    }
  }

  /** Exporting round-trippable records and importing the text gives back as
      many records, each with the five canonical keys in order and every field
      as it was, an empty field coming back null, or "" for the name. */
  lemma RoundTrip(rs: seq<Record>)
    requires AllRoundTrippable(rs)
    ensures var out := NormalizeImported(ParseCsv(ToCsv(rs)));
      && |out| == |rs|
      && forall i, k :: 0 <= i < |rs| && 0 <= k < |Headers| ==>
           out[i].keys == Headers && Get(out[i], Headers[k]) == Restored(rs[i], Headers[k])
  {
    ParseCsvCount(rs);
    forall i | 0 <= i < |rs| {
      RoundTripAt(rs, i);
    }
  }

  /** Record i of the round trip, every field at once. */
  lemma RoundTripAt(rs: seq<Record>, i: nat)
    requires AllRoundTrippable(rs) && i < |rs|
    ensures |NormalizeImported(ParseCsv(ToCsv(rs)))| == |rs|
    ensures var o := NormalizeImported(ParseCsv(ToCsv(rs)))[i];
      forall k :: 0 <= k < |Headers| ==> o.keys == Headers && Get(o, Headers[k]) == Restored(rs[i], Headers[k])
  {
    ParseCsvCount(rs);
    forall k | 0 <= k < |Headers| {
      RoundTripRecord(rs, i, k);
    }
  }

  lemma ParseCsvCount(rs: seq<Record>)
    requires AllRoundTrippable(rs)
    ensures |NormalizeImported(ParseCsv(ToCsv(rs)))| == |rs|
  {
    ExportReadsBack(rs);
  }
}
