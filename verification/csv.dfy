/** The CSV layer: delimiter detection, the line and record parser, the
    case-insensitive header aliasing of an import, and the CSV writer. */
module Csv {
  import opened Wrappers
  import opened Strings
  import opened Numbers
  import opened Values
  import opened Utils
  import opened Seqs

  // ---------------------------------------------------------------------------
  // detectDelimiter

  const Candidates: seq<char> := [',', '\t', ';', '|']

  /** The lines delimiter detection samples: the first ten lines of the text,
      empty ones dropped (a line of blanks is kept). */
  function SampleLines(text: string): (ls: seq<string>)
    ensures |ls| <= 10
    ensures forall i :: 0 <= i < |ls| ==> ls[i] != ""
  {
    Filter(Take(SplitLines(text), 10), NonEmpty)
  }

  predicate NonEmpty(l: string) {
    l != ""
  }

  /** Every sampled line is a line of the text. */
  lemma SampleLinesFrom(text: string)
    ensures forall i :: 0 <= i < |SampleLines(text)| ==> SampleLines(text)[i] in SplitLines(text)
  {
    var t := Take(SplitLines(text), 10);
    forall i | 0 <= i < |SampleLines(text)|
      ensures SampleLines(text)[i] in SplitLines(text)
    {
      var x := SampleLines(text)[i];
      FilterMembers(t, NonEmpty, x);
      var j :| 0 <= j < |t| && t[j] == x;
      assert SplitLines(text)[j] == x;
    }
  }

  /** The total number of pieces the lines split into at d. */
  function PieceCount(lines: seq<string>, d: char): (n: nat)
    ensures n >= |lines|
  {
    if |lines| == 0 then 0
    else PieceCount(lines[..|lines| - 1], d) + |Split(lines[|lines| - 1], d)|
  }

  /** The mean number of pieces per line (the source calls it the variance). */
  function MeanPieces(lines: seq<string>, d: char): real
    requires |lines| > 0
  {
    PieceCount(lines, d) as real / |lines| as real
  }

  /** The candidates' scores, in candidate order. */
  function Scores(lines: seq<string>): (xs: seq<real>)
    requires |lines| > 0
    ensures |xs| == |Candidates|
    ensures forall k :: 0 <= k < |xs| ==> xs[k] == MeanPieces(lines, Candidates[k])
  {
    seq(|Candidates|, k requires 0 <= k < |Candidates| => MeanPieces(lines, Candidates[k]))
  }

  /** The loop over the candidates from index i on: a score strictly greater
      than the best so far takes over. */
  function Scan(xs: seq<real>, i: nat, best: nat, bestScore: real): (j: nat)
    requires i <= |xs| && best < |xs|
    ensures j < |xs|
    decreases |xs| - i
  {
    if i == |xs| then best
    else if xs[i] > bestScore then Scan(xs, i + 1, i, xs[i])
    else Scan(xs, i + 1, best, bestScore)
  }

  /** The index detectDelimiter's loop ends on, the best score starting at
      -1: the first candidate with the greatest score. */
  function DelimiterIndex(lines: seq<string>): (j: nat)
    requires |lines| > 0
    ensures j < |Candidates|
    ensures forall k :: 0 <= k < j ==> Scores(lines)[k] < Scores(lines)[j]
    ensures forall k :: 0 <= k < |Candidates| ==> Scores(lines)[k] <= Scores(lines)[j]
  {
    var xs := Scores(lines);
    ScoresAboveStart(lines);
    ScanFromStart(xs);
    Scan(xs, 0, 0, -1.0)
  }

  lemma ScoresAboveStart(lines: seq<string>)
    requires |lines| > 0
    ensures Scores(lines)[0] > -1.0
  {
    MeanAtLeastOne(lines, Candidates[0]);
  }

  /** From the start, with the best score at -1 and a first score above it. */
  lemma ScanFromStart(xs: seq<real>)
    requires |xs| > 0 && xs[0] > -1.0
    ensures var j := Scan(xs, 0, 0, -1.0);
      && (forall k :: 0 <= k < j ==> xs[k] < xs[j])
      && (forall k :: 0 <= k < |xs| ==> xs[k] <= xs[j])
  {
    ScanFirstMax(xs, 1, 0, xs[0]);
  }

  /** detectDelimiter(text): "," when the sample holds no line, otherwise the
      candidate with the greatest mean piece count, a tie going to the
      earlier candidate. */
  function DetectDelimiter(text: string): (d: char)
    ensures d in Candidates
    ensures |SampleLines(text)| == 0 ==> d == ','
  {
    var lines := SampleLines(text);
    if |lines| == 0 then ',' else Candidates[DelimiterIndex(lines)]
  }

  /** Once the first score is in, the loop ends on the first candidate with
      the greatest score. */
  lemma {:induction false} ScanFirstMax(xs: seq<real>, i: nat, best: nat, bestScore: real)
    requires 0 < i <= |xs| && best < i
    requires bestScore == xs[best]
    requires forall k :: 0 <= k < i ==> xs[k] <= bestScore
    requires forall k :: 0 <= k < best ==> xs[k] < bestScore
    ensures var j := Scan(xs, i, best, bestScore);
      && (forall k :: 0 <= k < j ==> xs[k] < xs[j])
      && (forall k :: 0 <= k < |xs| ==> xs[k] <= xs[j])
    decreases |xs| - i
  {
    if i < |xs| {
      if xs[i] > bestScore {
        ScanFirstMax(xs, i + 1, i, xs[i]);
      } else {
        ScanFirstMax(xs, i + 1, best, bestScore);
      }
    }
  }

  lemma MeanAtLeastOne(lines: seq<string>, d: char)
    requires |lines| > 0
    ensures MeanPieces(lines, d) >= 1.0
  {
    var c, n := PieceCount(lines, d), |lines|;
    DivAtLeastOne(c, n);
  }

  lemma DivAtLeastOne(c: int, n: int)
    requires 0 < n <= c
    ensures c as real / n as real >= 1.0
  {
  }

  /** Of four scores with the third above the other three, the third is the
      greatest. */
  lemma ThirdIsMax(xs: seq<real>, j: nat)
    requires |xs| == 4 && j < 4
    requires xs[0] < xs[2] && xs[1] < xs[2] && xs[3] < xs[2]
    requires forall k :: 0 <= k < |xs| ==> xs[k] <= xs[j]
    ensures j == 2
  {
    assert xs[2] <= xs[j];
  }

  /** Of four scores with none above the first, the first greatest is the first. */
  lemma FirstIsMax(xs: seq<real>, j: nat)
    requires |xs| == 4 && j < 4
    requires xs[1] <= xs[0] && xs[2] <= xs[0] && xs[3] <= xs[0]
    requires forall k :: 0 <= k < j ==> xs[k] < xs[j]
    ensures j == 0
  {
  }

  /** A line without d is one piece; a line with d is at least two. */
  lemma {:induction false} PieceCountBounds(lines: seq<string>, d: char)
    ensures (forall i :: 0 <= i < |lines| ==> d !in lines[i]) ==> PieceCount(lines, d) == |lines|
    ensures (exists i :: 0 <= i < |lines| && d in lines[i]) ==> PieceCount(lines, d) > |lines|
  {
    if |lines| > 0 {
      var init, last := lines[..|lines| - 1], lines[|lines| - 1];
      PieceCountBounds(init, d);
      var p := Split(last, d);
      if d !in last {
        assert multiset(last)[d] == 0;
      } else {
        assert multiset(last)[d] > 0;
      }
      if exists i :: 0 <= i < |lines| && d in lines[i] {
        var i :| 0 <= i < |lines| && d in lines[i];
        if i < |lines| - 1 {
          assert init[i] == lines[i];
        }
      }
      if forall i :: 0 <= i < |lines| ==> d !in lines[i] {
        assert forall i :: 0 <= i < |init| ==> init[i] == lines[i];
      }
    }
  }

  lemma MeanOfAbsent(lines: seq<string>, d: char)
    requires |lines| > 0
    requires forall i :: 0 <= i < |lines| ==> d !in lines[i]
    ensures MeanPieces(lines, d) == 1.0
  {
    PieceCountBounds(lines, d);
    var n := |lines|;
    DivSelf(n);
  }

  lemma DivSelf(n: int)
    requires n > 0
    ensures n as real / n as real == 1.0
  {
  }

  lemma MeanOfPresent(lines: seq<string>, d: char)
    requires exists i :: 0 <= i < |lines| && d in lines[i]
    ensures MeanPieces(lines, d) > 1.0
  {
    PieceCountBounds(lines, d);
    var c, n := PieceCount(lines, d), |lines|;
    DivAboveOne(c, n);
  }

  lemma DivAboveOne(c: int, n: int)
    requires 0 < n < c
    ensures c as real / n as real > 1.0
  {
  }

  /** A sample with no tab, semicolon or pipe is read as comma-separated. */
  lemma CommaWithoutOtherDelimiters(text: string)
    requires forall i :: 0 <= i < |SampleLines(text)| ==>
      '\t' !in SampleLines(text)[i] && ';' !in SampleLines(text)[i] && '|' !in SampleLines(text)[i]
    ensures DetectDelimiter(text) == ','
  {
    var lines := SampleLines(text);
    if |lines| > 0 {
      var xs := Scores(lines);
      MeanAtLeastOne(lines, Candidates[0]);
      MeanOfAbsent(lines, Candidates[1]);
      MeanOfAbsent(lines, Candidates[2]);
      MeanOfAbsent(lines, Candidates[3]);
      FirstIsMax(xs, DelimiterIndex(lines));
    }
  }

  /** A comma-free sample with a semicolon and no tab or pipe is read as
      semicolon-separated. */
  lemma SemicolonSample(text: string)
    requires forall i :: 0 <= i < |SampleLines(text)| ==>
      ',' !in SampleLines(text)[i] && '\t' !in SampleLines(text)[i] && '|' !in SampleLines(text)[i]
    requires exists i :: 0 <= i < |SampleLines(text)| && ';' in SampleLines(text)[i]
    ensures DetectDelimiter(text) == ';'
  {
    var lines := SampleLines(text);
    var xs := Scores(lines);
    MeanOfAbsent(lines, ',');
    MeanOfAbsent(lines, '\t');
    MeanOfPresent(lines, ';');
    MeanOfAbsent(lines, '|');
    ThirdIsMax(xs, DelimiterIndex(lines));
  }

  // ---------------------------------------------------------------------------
  // parseCSV

  /** The lines parseCSV reads: every line that is not all white space. */
  function DataLines(text: string): (ls: seq<string>)
    ensures forall i :: 0 <= i < |ls| ==> Trim(ls[i]) != ""
  {
    Filter(SplitLines(text), NonBlank)
  }

  /** `l.trim().length > 0` */
  predicate NonBlank(l: string) {
    Trim(l) != ""
  }

  /** Every piece trimmed. */
  function TrimAll(parts: seq<string>): (r: seq<string>)
    ensures |r| == |parts|
    ensures forall i :: 0 <= i < |r| ==> r[i] == Trim(parts[i])
  {
    seq(|parts|, i requires 0 <= i < |parts| => Trim(parts[i]))
  }

  /** The index of the last occurrence of h in s, or -1. */
  function LastIndex(s: seq<string>, h: string): (j: int)
    ensures -1 <= j < |s|
    ensures j >= 0 ==> s[j] == h && forall k :: j < k < |s| ==> s[k] != h
    ensures j == -1 <==> h !in s
  {
    if |s| == 0 then -1
    else if s[|s| - 1] == h then |s| - 1
    else
      var j := LastIndex(s[..|s| - 1], h);
      assert h in s[..|s| - 1] ==> h in s;
      assert h in s && s[|s| - 1] != h ==> h in s[..|s| - 1] by {
        if h in s && s[|s| - 1] != h {
          var k :| 0 <= k < |s| && s[k] == h;
          assert s[..|s| - 1][k] == h;
        }
      }
      j
  }

  /** The elements of s without repeats, each where it first occurs. */
  function Dedup(s: seq<string>): (r: seq<string>)
    ensures forall x :: x in r <==> x in s
    ensures forall i, j :: 0 <= i < j < |r| ==> r[i] != r[j]
  {
    if |s| == 0 then []
    else
      var r := Dedup(s[..|s| - 1]);
      assert forall x :: x in s <==> x in s[..|s| - 1] || x == s[|s| - 1] by {
        assert s == s[..|s| - 1] + [s[|s| - 1]];
      }
      if s[|s| - 1] in r then r else r + [s[|s| - 1]]
  }

  /** The value parseCSV stores for column i: the trimmed column, or "" when
      the row is too short. */
  function CellAt(cols: seq<string>, i: int): string {
    if 0 <= i < |cols| then Trim(cols[i]) else ""
  }

  /** The record parseCSV builds from one row: the header names as keys, in
      order of first occurrence, each holding the cell under the last column
      with that name; columns past the header are dropped. */
  function ParseRow(header: seq<string>, cols: seq<string>): (rec: Record)
    ensures Valid(rec)
    ensures rec.keys == Dedup(header)
    ensures forall h :: Get(rec, h) == if h in header then Str(CellAt(cols, LastIndex(header, h))) else Undef
  {
    AssignValid(header, cols);
    AssignKeys(header, cols);
    assert forall h :: Get(Assign(header, cols), h) == if h in header then Str(CellAt(cols, LastIndex(header, h))) else Undef by {
      forall h {
        AssignGet(header, cols, h);
      }
    }
    Assign(header, cols)
  }

  /** The forEach over the header: name i is assigned column i's cell. */
  function Assign(header: seq<string>, cols: seq<string>): Record {
    if |header| == 0 then Empty
    else Set(Assign(header[..|header| - 1], cols), header[|header| - 1], Str(CellAt(cols, |header| - 1)))
  }

  lemma {:induction false} AssignValid(header: seq<string>, cols: seq<string>)
    ensures Valid(Assign(header, cols))
  {
    if |header| > 0 {
      AssignValid(header[..|header| - 1], cols);
      SetValid(Assign(header[..|header| - 1], cols), header[|header| - 1], Str(CellAt(cols, |header| - 1)));
    }
  }

  lemma {:induction false} AssignKeys(header: seq<string>, cols: seq<string>)
    ensures Assign(header, cols).keys == Dedup(header)
  {
    if |header| > 0 {
      AssignKeys(header[..|header| - 1], cols);
    }
  }

  lemma {:induction false} AssignGet(header: seq<string>, cols: seq<string>, h: string)
    ensures Get(Assign(header, cols), h) == if h in header then Str(CellAt(cols, LastIndex(header, h))) else Undef
  {
    if |header| > 0 {
      var n := |header| - 1;
      if header[n] != h {
        AssignGet(header[..n], cols, h);
        AssignSkip(header, cols, h);
      }
    }
  }

  /** A name other than the last one reads as it did before the last. */
  lemma AssignSkip(header: seq<string>, cols: seq<string>, h: string)
    requires |header| > 0 && header[|header| - 1] != h
    ensures var init := header[..|header| - 1];
      && Get(Assign(header, cols), h) == Get(Assign(init, cols), h)
      && (h in header <==> h in init)
      && LastIndex(header, h) == LastIndex(init, h)
  {
    var init := header[..|header| - 1];
    assert header == init + [header[|header| - 1]];
  }

  /** The header parseCSV reads off the first data line. */
  function HeaderOf(text: string): seq<string>
    requires |DataLines(text)| > 0
  {
    TrimAll(Split(DataLines(text)[0], DetectDelimiter(text)))
  }

  /** parseCSV(text): no record when no line holds anything but blanks;
      otherwise one record per data line after the header line, each built by
      ParseRow from the line split at the detected delimiter. */
  function ParseCsv(text: string): (out: seq<Record>)
    ensures |DataLines(text)| == 0 ==> out == []
    ensures |DataLines(text)| > 0 ==> |out| == |DataLines(text)| - 1
  {
    var lines := DataLines(text);
    if |lines| == 0 then [] else RowRecords(HeaderOf(text), lines, DetectDelimiter(text))
  }

  /** One record per line after the first. */
  function RowRecords(header: seq<string>, lines: seq<string>, delim: char): (rs: seq<Record>)
    requires |lines| > 0
    ensures |rs| == |lines| - 1
    decreases |lines|
  {
    if |lines| == 1 then []
    else [ParseRow(header, Split(lines[1], delim))] + RowRecords(header, lines[1..], delim)
  }

  /** Record i comes from data line i + 1: its keys are the header names
      without repeats, each holding the trimmed cell under the last column of
      that name, or "" past the end of the row; no other key is set. */
  lemma ParseCsvRecord(text: string, i: nat)
    requires |DataLines(text)| > 0 && i < |ParseCsv(text)|
    ensures var rec := ParseCsv(text)[i];
      var header := HeaderOf(text);
      var cols := Split(DataLines(text)[i + 1], DetectDelimiter(text));
      && Valid(rec) && rec.keys == Dedup(header)
      && forall h :: Get(rec, h) == if h in header then Str(CellAt(cols, LastIndex(header, h))) else Undef
  {
    var header := HeaderOf(text);
    var cols := Split(DataLines(text)[i + 1], DetectDelimiter(text));
    assert ParseCsv(text) == RowRecords(header, DataLines(text), DetectDelimiter(text));
    RowRecordAt(header, DataLines(text), DetectDelimiter(text), i);
    assert ParseCsv(text)[i] == ParseRow(header, cols);
  }

  lemma {:induction false} RowRecordAt(header: seq<string>, lines: seq<string>, delim: char, i: nat)
    requires i + 1 < |lines|
    ensures RowRecords(header, lines, delim)[i] == ParseRow(header, Split(lines[i + 1], delim))
    decreases i
  {
    var rest := RowRecords(header, lines[1..], delim);
    assert RowRecords(header, lines, delim) == [ParseRow(header, Split(lines[1], delim))] + rest;
    if i > 0 {
      RowRecordAt(header, lines[1..], delim, i - 1);
      assert lines[1..][i] == lines[i + 1];
      assert ([ParseRow(header, Split(lines[1], delim))] + rest)[i] == rest[i - 1];
    }
  }

  /** A text of blank lines has no records. */
  lemma ParseCsvBlank(text: string)
    requires forall i :: 0 <= i < |SplitLines(text)| ==> Trim(SplitLines(text)[i]) == ""
    ensures ParseCsv(text) == []
  {
    var lines := DataLines(text);
    if |lines| > 0 {
      FilterMembers(SplitLines(text), NonBlank, lines[0]);
    }
  }

  /** Only a line feed ends a line: a text without one, whatever carriage
      returns it holds, is at most a header and has no records. */
  lemma ParseCsvOneLine(text: string)
    requires '\n' !in text
    ensures ParseCsv(text) == []
  {
    LoneCarriageReturn(text);
    assert |DataLines(text)| <= 1;
  }

  // ---------------------------------------------------------------------------
  // headerMapFor

  /** The lower-cased form of every key. */
  function LowerAll(keys: seq<string>): (r: seq<string>)
    ensures |r| == |keys|
    ensures forall i :: 0 <= i < |r| ==> r[i] == Lower(keys[i])
  {
    seq(|keys|, i requires 0 <= i < |keys| => Lower(keys[i]))
  }

  /** The reduce in headerMapFor: each key filed under its lower-case form, a
      later key overwriting an earlier one. */
  function LowerIndex(keys: seq<string>): map<string, string> {
    if |keys| == 0 then map[]
    else LowerIndex(keys[..|keys| - 1])[Lower(keys[|keys| - 1]) := keys[|keys| - 1]]
  }

  /** The last key, in key order, whose lower-case form is lk. */
  function LastWithLower(keys: seq<string>, lk: string): Option<string> {
    var j := LastIndex(LowerAll(keys), lk);
    if j < 0 then None else Some(keys[j])
  }

  /** The reduce files lk under the last key lower-casing to lk, and files
      nothing else. */
  lemma {:induction false} LowerIndexIsLast(keys: seq<string>, lk: string)
    ensures lk in LowerIndex(keys) <==> LastWithLower(keys, lk).Some?
    ensures lk in LowerIndex(keys) ==> LowerIndex(keys)[lk] == LastWithLower(keys, lk).value
    decreases |keys|
  {
    if |keys| > 0 {
      var init := keys[..|keys| - 1];
      LowerIndexIsLast(init, lk);
      assert LowerAll(keys)[..|keys| - 1] == LowerAll(init);
    }
  }

  /** Variant i is the first whose lower-case form has an entry. */
  predicate FirstHit(index: map<string, string>, variants: seq<string>, i: int) {
    && 0 <= i < |variants| && Lower(variants[i]) in index
    && forall j :: 0 <= j < i ==> Lower(variants[j]) !in index
  }

  /** pick(variants): the key filed under the first variant's lower-case form
      that has an entry, or null. */
  function Pick(index: map<string, string>, variants: seq<string>): (r: Option<string>)
    ensures r.None? <==> forall i :: 0 <= i < |variants| ==> Lower(variants[i]) !in index
    ensures r.Some? ==> exists i :: FirstHit(index, variants, i) && r.value == index[Lower(variants[i])]
  {
    if |variants| == 0 then None
    else if Lower(variants[0]) in index then
      assert FirstHit(index, variants, 0);
      Some(index[Lower(variants[0])])
    else
      var r := Pick(index, variants[1..]);
      assert forall i :: 1 <= i < |variants| ==> variants[1..][i - 1] == variants[i];
      assert r.Some? ==> exists i :: FirstHit(index, variants, i) && r.value == index[Lower(variants[i])] by {
        if r.Some? {
          var i :| FirstHit(index, variants[1..], i) && r.value == index[Lower(variants[1..][i])];
          assert FirstHit(index, variants, i + 1);
        }
      }
      r
  }

  const WeightVariants: seq<string> := [WeightKey, "weight (lbs)", "weight", "wt"]
  const AgeVariants: seq<string> := [AgeKey, "age (normalized weeks)", "age", "age (weeks)"]
  const HeightVariants: seq<string> := [HeightKey, "height (in)", "height", "ht"]
  const SexVariants: seq<string> := [SexKey, "gender"]
  const NameVariants: seq<string> := [NameKey, LegacyName]

  /** The source column chosen for each of the five canonical fields. */
  datatype HeaderMap = HeaderMap(
    weight: Option<string>, age: Option<string>, height: Option<string>,
    sex: Option<string>, name: Option<string>)

  /** headerMapFor(obj). */
  function HeaderMapFor(r: Record): HeaderMap {
    var index := LowerIndex(r.keys);
    HeaderMap(Pick(index, WeightVariants), Pick(index, AgeVariants), Pick(index, HeightVariants),
              Pick(index, SexVariants), Pick(index, NameVariants))
  }

  /** Variant i is the first that lower-cases to some key's lower-case form. */
  predicate FirstKeyHit(keys: seq<string>, variants: seq<string>, i: int) {
    && 0 <= i < |variants| && LastWithLower(keys, Lower(variants[i])).Some?
    && forall j :: 0 <= j < i ==> LastWithLower(keys, Lower(variants[j])).None?
  }

  /** Matching is case-insensitive and the first variant with a match wins;
      among keys equal up to case, the last in key order is the one taken. */
  lemma PickFirstVariantLastKey(keys: seq<string>, variants: seq<string>)
    ensures var r := Pick(LowerIndex(keys), variants);
      && (r.None? <==> forall i :: 0 <= i < |variants| ==> LastWithLower(keys, Lower(variants[i])).None?)
      && (r.Some? ==> exists i :: FirstKeyHit(keys, variants, i) && r == LastWithLower(keys, Lower(variants[i])))
  {
    forall lk {
      LowerIndexIsLast(keys, lk);
    }
    var r := Pick(LowerIndex(keys), variants);
    if r.Some? {
      var i :| FirstHit(LowerIndex(keys), variants, i) && r.value == LowerIndex(keys)[Lower(variants[i])];
      assert FirstKeyHit(keys, variants, i);
    }
  }

  /** On distinct keys that are already canonical key text, the reduce files
      each key under itself. */
  lemma LowerIndexOfKeys(keys: seq<string>, i: nat)
    requires Distinct(keys) && forall j :: 0 <= j < |keys| ==> KeyText(keys[j])
    requires i < |keys|
    ensures keys[i] in LowerIndex(keys) && LowerIndex(keys)[keys[i]] == keys[i]
  {
    LowerIndexIsLast(keys, keys[i]);
    var la := LowerAll(keys);
    forall j | 0 <= j < |keys|
      ensures la[j] == keys[j]
    {
      KeyTextFixed(keys[j]);
    }
    assert la == keys;
    var j := LastIndex(keys, keys[i]);
    assert i <= j;
  }

  lemma PickOwnKey(index: map<string, string>, variants: seq<string>)
    requires |variants| > 0 && KeyText(variants[0])
    requires variants[0] in index && index[variants[0]] == variants[0]
    ensures Pick(index, variants) == Some(variants[0])
  {
    KeyTextFixed(variants[0]);
  }

  /** A record keyed by exactly the five canonical names has each field read
      from its own column. */
  lemma CanonicalHeaderMap(r: Record)
    requires r.keys == Headers
    ensures HeaderMapFor(r) == HeaderMap(Some(WeightKey), Some(AgeKey), Some(HeightKey), Some(SexKey), Some(NameKey))
  {
    HeadersKeyText();
    HeadersDistinct();
    var index := LowerIndex(Headers);
    LowerIndexOfKeys(Headers, 0);
    LowerIndexOfKeys(Headers, 1);
    LowerIndexOfKeys(Headers, 2);
    LowerIndexOfKeys(Headers, 3);
    LowerIndexOfKeys(Headers, 4);
    PickOwnKey(index, WeightVariants);
    PickOwnKey(index, AgeVariants);
    PickOwnKey(index, HeightVariants);
    PickOwnKey(index, SexVariants);
    PickOwnKey(index, NameVariants);
  }

  // ---------------------------------------------------------------------------
  // normalizeImported

  /** `map.f ? r[map.f] : null`. */
  function Field(r: Record, k: Option<string>): Val {
    if k.Some? && k.value != "" then Get(r, k.value) else Null
  }

  /** The object literal normalizeImported builds from a parsed record. */
  function Mapped(r: Record): Record {
    var hm := HeaderMapFor(r);
    RecordOf(Headers, [Field(r, hm.weight), Field(r, hm.age), Field(r, hm.height),
                       Field(r, hm.sex), Field(r, hm.name)])
  }

  /** normalizeImported(records): one normalised record per input, in order. */
  function NormalizeImported(rs: seq<Record>): (out: seq<Record>)
    ensures |out| == |rs|
    ensures forall i :: 0 <= i < |out| ==> out[i] == NormalizeRecord(Some(Mapped(rs[i])))
  {
    seq(|rs|, i requires 0 <= i < |rs| => NormalizeRecord(Some(Mapped(rs[i]))))
  }

  /** Each imported record has exactly the five canonical keys, in the order
      weight, age, height, sex, name; the numeric fields are the mapped columns
      coerced, sex is normalised, and name is the mapped column as it is. */
  lemma ImportedShape(r: Record)
    ensures var o := NormalizeRecord(Some(Mapped(r)));
      var hm := HeaderMapFor(r);
      && o.keys == Headers
      && Get(o, WeightKey) == Num(Field(r, hm.weight))
      && Get(o, AgeKey) == Num(Field(r, hm.age))
      && Get(o, HeightKey) == Num(Field(r, hm.height))
      && Get(o, SexKey) == NormalizeSex(Field(r, hm.sex))
      && Get(o, NameKey) == Field(r, hm.name)
  {
    MappedFacts(r);
    NormalizeCanonical(Mapped(r));
  }

  /** The mapped record: the five canonical keys, each holding its column. */
  lemma MappedFacts(r: Record)
    ensures var m := Mapped(r);
      var hm := HeaderMapFor(r);
      && Valid(m) && m.keys == Headers
      && Get(m, WeightKey) == Field(r, hm.weight) && Get(m, AgeKey) == Field(r, hm.age)
      && Get(m, HeightKey) == Field(r, hm.height) && Get(m, SexKey) == Field(r, hm.sex)
      && Get(m, NameKey) == Field(r, hm.name)
      && Get(m, LegacyName) == Undef && Get(m, LegacyWeight) == Undef
      && Get(m, LegacyAge) == Undef && Get(m, LegacyHeight) == Undef
  {
    var hm := HeaderMapFor(r);
    var vals := [Field(r, hm.weight), Field(r, hm.age), Field(r, hm.height), Field(r, hm.sex), Field(r, hm.name)];
    HeadersDistinct();
    RecordOfFacts(Headers, vals);
    assert Headers[0] == WeightKey && Headers[1] == AgeKey && Headers[2] == HeightKey;
    assert Headers[3] == SexKey && Headers[4] == NameKey;
  }

  /** The five headers are distinct, and no legacy name is one of them. */
  lemma HeadersDistinct()
    ensures Distinct(Headers)
    ensures LegacyName !in Headers && LegacyWeight !in Headers
    ensures LegacyAge !in Headers && LegacyHeight !in Headers
  {
    KeysDistinct();
    assert forall k :: k in Headers ==> IsCanonicalKey(k);
  }

  /** normalizeRecord on a record holding the five canonical keys and none of
      the legacy ones: the keys stay as they are, the numeric fields are
      coerced, sex is normalised and name is left alone. */
  lemma NormalizeCanonical(m: Record)
    requires WeightKey in m.keys && AgeKey in m.keys && HeightKey in m.keys
    requires SexKey in m.keys && NameKey in m.keys
    requires Get(m, LegacyName) == Undef && Get(m, LegacyWeight) == Undef
    requires Get(m, LegacyAge) == Undef && Get(m, LegacyHeight) == Undef
    ensures var o := NormalizeRecord(Some(m));
      && o.keys == m.keys
      && Get(o, WeightKey) == Num(Get(m, WeightKey)) && Get(o, AgeKey) == Num(Get(m, AgeKey))
      && Get(o, HeightKey) == Num(Get(m, HeightKey)) && Get(o, SexKey) == NormalizeSex(Get(m, SexKey))
      && Get(o, NameKey) == Get(m, NameKey)
  {
    NormalizeKeepsKeys(m);
  }

  /** A record that already holds the five canonical keys keeps its key order. */
  lemma NormalizeKeepsKeys(m: Record)
    requires WeightKey in m.keys && AgeKey in m.keys && HeightKey in m.keys
    requires SexKey in m.keys && NameKey in m.keys
    ensures NormalizeRecord(Some(m)).keys == m.keys
  {
    var r1 := MigrateName(m);
    var r2 := MigrateAlias(r1, LegacyWeight, WeightKey);
    var r3 := MigrateAlias(r2, LegacyAge, AgeKey);
    var r4 := MigrateAlias(r3, LegacyHeight, HeightKey);
    var r5 := Coerce(r4, WeightKey);
    var r6 := Coerce(r5, AgeKey);
    var r7 := Coerce(r6, HeightKey);
    assert r1.keys == m.keys;
    assert r2.keys == m.keys;
    assert r3.keys == m.keys;
    assert r4.keys == m.keys;
    assert r5.keys == m.keys;
    assert r6.keys == m.keys;
    assert r7.keys == m.keys;
    assert NormalizeRecord(Some(m)) == Pipeline(m) == WriteSex(r7);
  }

  // ---------------------------------------------------------------------------
  // toCsv

  const Headers: seq<string> := [WeightKey, AgeKey, HeightKey, SexKey, NameKey]

  /** A string toCsv quotes: one holding a comma, a quote or a line feed. */
  predicate NeedsQuotes(s: string) {
    ',' in s || '"' in s || '\n' in s
  }

  /** One CSV cell: null and undefined are empty; a string that needs it is
      wrapped in quotes with each quote doubled; anything else, numbers
      included, is its String() form. */
  function Cell(v: Val): (c: string)
    ensures Nullish(v) ==> c == ""
    ensures v.Str? && NeedsQuotes(v.s) ==>
      |c| >= 2 && c[0] == '"' && c[|c| - 1] == '"' && UndoubleQuotes(c[1..|c| - 1]) == v.s
    ensures !Nullish(v) && !(v.Str? && NeedsQuotes(v.s)) ==> c == ToStr(v)
  {
    if Nullish(v) then ""
    else if v.Str? && NeedsQuotes(v.s) then
      var c := "\"" + DoubleQuotes(v.s) + "\"";
      assert c[1..|c| - 1] == DoubleQuotes(v.s);
      UndoubleDoubleQuotes(v.s);
      c
    else ToStr(v)
  }

  /** The five cells of a record, in header order. */
  function Cells(r: Record): (cs: seq<string>)
    ensures |cs| == |Headers|
    ensures forall i :: 0 <= i < |cs| ==> cs[i] == Cell(Get(r, Headers[i]))
  {
    seq(|Headers|, i requires 0 <= i < |Headers| => Cell(Get(r, Headers[i])))
  }

  function Row(r: Record): string {
    Join(Cells(r), ',')
  }

  function HeaderLine(): string {
    Join(Headers, ',')
  }

  function Rows(rs: seq<Record>): (ls: seq<string>)
    ensures |ls| == |rs|
    ensures forall i :: 0 <= i < |rs| ==> ls[i] == Row(rs[i])
  {
    seq(|rs|, i requires 0 <= i < |rs| => Row(rs[i]))
  }

  /** toCsv(arr): the header line, then one line per record, joined by line
      feeds with none at the end. */
  function ToCsv(rs: seq<Record>): string {
    Join([HeaderLine()] + Rows(rs), '\n')
  }

  /** A cell holds a character other than a quote or a PrintChar only when
      it came from a string holding it. */
  lemma CellChars(v: Val, c: char)
    requires !PrintChar(c) && c != '"'
    ensures c in Cell(v) ==> v.Str? && c in v.s
  {
    if !v.Str? {
      ToStrChars(v, c);
    } else if NeedsQuotes(v.s) {
      DoubleQuotesChars(v.s, c);
      assert Cell(v) == "\"" + DoubleQuotes(v.s) + "\"";
    }
  }

  /** A row holds a character other than a comma, a quote or a PrintChar only
      when one of the record's five fields is a string holding it. */
  lemma RowChars(r: Record, c: char)
    requires !PrintChar(c) && c != '"' && c != ','
    requires forall k :: 0 <= k < |Headers| ==> !(Get(r, Headers[k]).Str? && c in Get(r, Headers[k]).s)
    ensures c !in Row(r)
  {
    var cs := Cells(r);
    forall k | 0 <= k < |cs|
      ensures c !in cs[k]
    {
      CellChars(Get(r, Headers[k]), c);
    }
    JoinChars(cs, ',', c);
  }

  /** When no field of any record is a string holding a line feed, the lines
      of the output are the header line and the rows, one per record. */
  lemma ToCsvLines(rs: seq<Record>)
    requires forall i, k :: 0 <= i < |rs| && 0 <= k < |Headers| ==>
      !(Get(rs[i], Headers[k]).Str? && '\n' in Get(rs[i], Headers[k]).s)
    ensures Split(ToCsv(rs), '\n') == [HeaderLine()] + Rows(rs)
  {
    var rows := Rows(rs);
    assert !PrintChar('\n') && !KeyChar('\n');
    forall i | 0 <= i < |rows|
      ensures '\n' !in rows[i]
    {
      RowChars(rs[i], '\n');
    }
    HeaderFacts();
    LinesOmit(HeaderLine(), rows, '\n');
    SplitJoin([HeaderLine()] + rows, '\n');
  }

  /** No line of [h] + t holds c when neither h nor a line of t does. */
  lemma LinesOmit(h: string, t: seq<string>, c: char)
    requires c !in h && forall i :: 0 <= i < |t| ==> c !in t[i]
    ensures forall i :: 0 <= i < |[h] + t| ==> c !in ([h] + t)[i]
  {
  }

  /** A character of a canonical key: a lower-case ASCII letter or `_`. */
  predicate KeyChar(c: char) {
    'a' <= c <= 'z' || c == '_'
  }

  predicate KeyText(s: string) {
    |s| > 0 && forall i :: 0 <= i < |s| ==> KeyChar(s[i])
  }

  /** Trimming and lower-casing leave a canonical key alone. */
  lemma KeyTextFixed(s: string)
    requires KeyText(s)
    ensures IsTrimmed(s) && Trim(s) == s && Lower(s) == s
  {
    assert KeyChar(s[0]) && KeyChar(s[|s| - 1]);
    TrimOfTrimmed(s);
    assert forall i :: 0 <= i < |s| ==> Lower(s)[i] == s[i];
  }

  lemma KeyTextOmits(s: string, c: char)
    requires KeyText(s) && !KeyChar(c)
    ensures c !in s
  {
  }

  /** The positions of the five canonical keys among the headers. */
  lemma HeadersAre()
    ensures |Headers| == 5
    ensures Headers[0] == WeightKey && Headers[1] == AgeKey && Headers[2] == HeightKey
    ensures Headers[3] == SexKey && Headers[4] == NameKey
    ensures WeightKey != "" && AgeKey != "" && HeightKey != "" && SexKey != "" && NameKey != ""
  {
  }

  lemma HeadersKeyText()
    ensures forall i :: 0 <= i < |Headers| ==> KeyText(Headers[i])
  {
  }

  /** Joining keys with commas: the join splits back into the keys, and holds
      no character outside the key characters but the commas. */
  lemma JoinedKeys(parts: seq<string>)
    requires |parts| >= 1 && forall i :: 0 <= i < |parts| ==> KeyText(parts[i])
    ensures Split(Join(parts, ','), ',') == parts
    ensures forall c :: !KeyChar(c) && c != ',' ==> c !in Join(parts, ',')
  {
    forall i | 0 <= i < |parts|
      ensures ',' !in parts[i]
    {
      KeyTextOmits(parts[i], ',');
    }
    SplitJoin(parts, ',');
    forall c | !KeyChar(c) && c != ','
      ensures c !in Join(parts, ',')
    {
      forall i | 0 <= i < |parts|
        ensures c !in parts[i]
      {
        KeyTextOmits(parts[i], c);
      }
      JoinChars(parts, ',', c);
    }
  }

  /** The header line splits back into the five header names, and holds no
      character outside the key characters but the commas. */
  lemma HeaderFacts()
    ensures Split(HeaderLine(), ',') == Headers
    ensures forall c :: !KeyChar(c) && c != ',' ==> c !in HeaderLine()
  {
    HeadersKeyText();
    JoinedKeys(Headers);
  }


}
