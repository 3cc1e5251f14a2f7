/** The page's data logic without the page: the sex and name filters over the
    dataset, the name options and the kept selection, adding one record from
    the form, and importing a CSV text by appending or replacing. */
module Main {
  import opened Wrappers
  import opened Strings
  import opened Values
  import opened Utils
  import opened Seqs
  import opened Csv
  import opened CsvRoundTrip
  import opened Chart

  // ---------------------------------------------------------------------------
  // getFiltered

  /** The tests getFiltered filters by. */
  datatype Test =
    | SexIs(f: string)     // (r.sex || '').toUpperCase() === f
    | SexIsOther           // !r.sex || (r.sex.toUpperCase() !== 'F' && r.sex.toUpperCase() !== 'M')
    | NameIs(v: string)    // (r.name || '').toString().trim() === v

  /** `(r.name || '').toString().trim()`. */
  function NameText(r: Record): (t: string)
    ensures IsTrimmed(t)
  {
    var name := Get(r, NameKey);
    Trim(if Truthy(name) then ToStr(name) else "")
  }

  /** The outcome of a test on one record; None when it throws, which only
      the sex tests do, on a truthy sex that is not a string. */
  function Run(t: Test, r: Record): (b: Option<bool>)
    ensures b.None? <==> !t.NameIs? && Truthy(Get(r, SexKey)) && !Get(r, SexKey).Str?
  {
    match t
    case SexIs(f) =>
      (match UpperOr(Get(r, SexKey), "") case None => None case Some(u) => Some(u == f))
    case SexIsOther =>
      var sex := Get(r, SexKey);
      if !Truthy(sex) then Some(true)
      else if !sex.Str? then None
      else Some(Upper(sex.s) != "F" && Upper(sex.s) != "M")
    case NameIs(v) => Some(NameText(r) == v)
  }

  /** rs.filter(test); None when the test throws on some record. */
  function TryFilter(rs: seq<Record>, t: Test): Option<seq<Record>>
    decreases |rs|
  {
    if |rs| == 0 then Some([])
    else
      match Run(t, rs[0])
      case None => None
      case Some(keep) =>
        match TryFilter(rs[1..], t)
        case None => None
        case Some(rest) => Some(if keep then [rs[0]] + rest else rest)
  }

  lemma {:induction false} TryFilterFails(rs: seq<Record>, t: Test)
    ensures TryFilter(rs, t).None? <==> exists i :: 0 <= i < |rs| && Run(t, rs[i]).None?
    decreases |rs|
  {
    if |rs| > 0 {
      TryFilterFails(rs[1..], t);
      if exists i :: 0 <= i < |rs| && Run(t, rs[i]).None? {
        var i :| 0 <= i < |rs| && Run(t, rs[i]).None?;
        if i > 0 {
          assert rs[1..][i - 1] == rs[i];
        }
      }
      if exists i :: 0 <= i < |rs| - 1 && Run(t, rs[1..][i]).None? {
        var i :| 0 <= i < |rs| - 1 && Run(t, rs[1..][i]).None?;
        assert rs[i + 1] == rs[1..][i];
      }
    }
  }

  /** The records a test keeps, as a predicate for `Filter`. */
  function Keeps(t: Test): Record -> bool {
    r => Run(t, r) == Some(true)
  }

  /** When no record throws, filtering by a test is `Filter` by the records it keeps. */
  lemma {:induction false} TryFilterIsFilter(rs: seq<Record>, t: Test)
    requires TryFilter(rs, t).Some?
    ensures TryFilter(rs, t).value == Filter(rs, Keeps(t))
    decreases |rs|
  {
    if |rs| > 0 {
      TryFilterIsFilter(rs[1..], t);
    }
  }

  /** The records kept are exactly those that pass, each as often as it occurs. */
  lemma TryFilterMembers(rs: seq<Record>, t: Test, x: Record)
    requires TryFilter(rs, t).Some?
    ensures x in TryFilter(rs, t).value <==> x in rs && Run(t, x) == Some(true)
    ensures multiset(TryFilter(rs, t).value)[x] == if Run(t, x) == Some(true) then multiset(rs)[x] else 0
  {
    TryFilterIsFilter(rs, t);
    FilterMembers(rs, Keeps(t), x);
    FilterCount(rs, Keeps(t), x);
  }

  lemma {:induction false} TryFilterSubseq(rs: seq<Record>, t: Test)
    requires TryFilter(rs, t).Some?
    ensures IsSubseq(TryFilter(rs, t).value, rs)
    decreases |rs|
  {
    if |rs| > 0 {
      TryFilterSubseq(rs[1..], t);
      var rest := TryFilter(rs[1..], t).value;
      if Run(t, rs[0]) == Some(true) {
        assert ([rs[0]] + rest)[1..] == rest;
      } else {
        SubseqDropHead(rest, rs);
      }
    }
  }

  /** The sex filter step: "ALL" keeps everything. */
  function BySex(data: seq<Record>, sexFilter: string): Option<seq<Record>> {
    if sexFilter == "ALL" then Some(data)
    else if sexFilter == "OTHER" then TryFilter(data, SexIsOther)
    else TryFilter(data, SexIs(sexFilter))
  }

  /** The name filter applies unless its value is empty or "ALL". */
  predicate NameFilterOn(nameFilter: string) {
    nameFilter != "" && nameFilter != "ALL"
  }

  /** getFiltered(data) with the two select values; a missing name select
      reads as "". None when a sex test throws. */
  function GetFiltered(data: seq<Record>, sexFilter: string, nameFilter: string): Option<seq<Record>> {
    match BySex(data, sexFilter)
    case None => None
    case Some(out) => if NameFilterOn(nameFilter) then TryFilter(out, NameIs(nameFilter)) else Some(out)
  }

  /** The sex test a filter value applies. */
  function SexTest(sexFilter: string): Test {
    if sexFilter == "OTHER" then SexIsOther else SexIs(sexFilter)
  }

  /** A record passes both filters. */
  predicate Passes(r: Record, sexFilter: string, nameFilter: string) {
    && (sexFilter == "ALL" || Run(SexTest(sexFilter), r) == Some(true))
    && (NameFilterOn(nameFilter) ==> NameText(r) == nameFilter)
  }

  /** A sex filter other than "ALL" throws on a record whose sex is truthy and
      not a string; nothing else throws. */
  lemma FilteredFails(data: seq<Record>, sexFilter: string, nameFilter: string)
    ensures GetFiltered(data, sexFilter, nameFilter).None? <==>
      sexFilter != "ALL" && exists i :: 0 <= i < |data| && Truthy(Get(data[i], SexKey)) && !Get(data[i], SexKey).Str?
  {
    if sexFilter != "ALL" {
      TryFilterFails(data, SexTest(sexFilter));
    }
    match BySex(data, sexFilter)
    case None =>
    case Some(out) =>
      if NameFilterOn(nameFilter) {
        TryFilterFails(out, NameIs(nameFilter));
      }
  }

  /** The filtered records are exactly the records passing both filters, each
      kept as many times as it occurs in the data. */
  lemma FilteredMembers(data: seq<Record>, sexFilter: string, nameFilter: string, x: Record)
    requires GetFiltered(data, sexFilter, nameFilter).Some?
    ensures x in GetFiltered(data, sexFilter, nameFilter).value <==> x in data && Passes(x, sexFilter, nameFilter)
    ensures multiset(GetFiltered(data, sexFilter, nameFilter).value)[x] ==
      if Passes(x, sexFilter, nameFilter) then multiset(data)[x] else 0
  {
    var out := BySex(data, sexFilter).value;
    if sexFilter != "ALL" {
      TryFilterMembers(data, SexTest(sexFilter), x);
    }
    if NameFilterOn(nameFilter) {
      TryFilterMembers(out, NameIs(nameFilter), x);
    }
  }

  /** The filtered records keep their order in the dataset. */
  lemma FilteredSubseq(data: seq<Record>, sexFilter: string, nameFilter: string)
    requires GetFiltered(data, sexFilter, nameFilter).Some?
    ensures IsSubseq(GetFiltered(data, sexFilter, nameFilter).value, data)
  {
    var out := BySex(data, sexFilter).value;
    if sexFilter != "ALL" {
      TryFilterSubseq(data, SexTest(sexFilter));
    } else {
      SubseqRefl(data);
    }
    if NameFilterOn(nameFilter) {
      TryFilterSubseq(out, NameIs(nameFilter));
      SubseqTrans(TryFilter(out, NameIs(nameFilter)).value, out, data);
    }
  }

  /** "ALL" for sex with "ALL" or no name returns the data unchanged. */
  lemma FilteredAll(data: seq<Record>, nameFilter: string)
    requires nameFilter == "ALL" || nameFilter == ""
    ensures GetFiltered(data, "ALL", nameFilter) == Some(data)
  {
  }

  /** A record whose sex can be upper-cased passes exactly one of the F, M and
      OTHER filters, and each agrees with the series buildDatasets puts it in. */
  lemma SexFiltersPartition(r: Record)
    requires GroupOf(r).Some?
    ensures Run(SexIs("F"), r) == Some(true) <==> GroupOf(r) == Some(F)
    ensures Run(SexIs("M"), r) == Some(true) <==> GroupOf(r) == Some(M)
    ensures Run(SexIsOther, r) == Some(true) <==> GroupOf(r) == Some(Other)
  {
    var sex := Get(r, SexKey);
    if !Truthy(sex) {
      assert Upper("") == "";
      if sex.Str? {
        assert sex.s == "";
      }
    }
  }

  /** The sex filters throw on exactly the records buildDatasets throws on. */
  lemma SexFiltersThrowLikeChart(r: Record, f: string)
    ensures Run(SexTest(f), r).None? <==> GroupOf(r).None?
  {
  }

  // ---------------------------------------------------------------------------
  // updateNameOptions

  /** The name text of every record, in dataset order. */
  function NameTexts(data: seq<Record>): (ts: seq<string>)
    ensures |ts| == |data|
    ensures forall i :: 0 <= i < |data| ==> ts[i] == NameText(data[i])
  {
    seq(|data|, i requires 0 <= i < |data| => NameText(data[i]))
  }

  /** The name options: the distinct non-empty name texts (the localeCompare
      order of the list is not modelled). */
  function NameOptions(data: seq<Record>): seq<string> {
    Dedup(Filter(NameTexts(data), NonEmpty))
  }

  /** The options are distinct, and n is one exactly when it is the non-empty
      name text of some record. */
  lemma NameOptionsExact(data: seq<Record>, n: string)
    ensures var opts := NameOptions(data);
      forall i, j :: 0 <= i < j < |opts| ==> opts[i] != opts[j]
    ensures n in NameOptions(data) <==> n != "" && exists i :: 0 <= i < |data| && NameText(data[i]) == n
  {
    FilterMembers(NameTexts(data), NonEmpty, n);
    if n in NameTexts(data) {
      var i :| 0 <= i < |data| && NameTexts(data)[i] == n;
    }
  }

  /** The selection after the options are rebuilt: the previous one when it is
      still an option, else "ALL". */
  function Selection(prev: string, opts: seq<string>): (s: string)
    ensures s == prev <==> prev in opts || prev == "ALL"
    ensures s != prev ==> s == "ALL"
  {
    if prev in opts then prev else "ALL"
  }

  /** Keeping a name the option list still offers and filtering by it leaves
      at least one record. */
  lemma SelectedNameMatches(data: seq<Record>, n: string)
    requires n != "ALL" && n in NameOptions(data)
    ensures GetFiltered(data, "ALL", Selection(n, NameOptions(data))).Some?
    ensures |GetFiltered(data, "ALL", Selection(n, NameOptions(data))).value| > 0
  {
    assert Selection(n, NameOptions(data)) == n;
    NameOptionsExact(data, n);
    var i :| 0 <= i < |data| && NameText(data[i]) == n;
    NameFilterKeeps(data, n, i);
  }

  /** Filtering by the name text of record i keeps record i. */
  lemma NameFilterKeeps(data: seq<Record>, n: string, i: nat)
    requires i < |data| && NameText(data[i]) == n && NameFilterOn(n)
    ensures GetFiltered(data, "ALL", n).Some?
    ensures data[i] in GetFiltered(data, "ALL", n).value
  {
    NameOnly(data, n);
    NameTestKeeps(data, n, i);
  }

  /** With sex "ALL", only the name test filters. */
  lemma NameOnly(data: seq<Record>, n: string)
    requires NameFilterOn(n)
    ensures GetFiltered(data, "ALL", n) == TryFilter(data, NameIs(n))
  {
  }

  lemma NameTestKeeps(data: seq<Record>, n: string, i: nat)
    requires i < |data| && NameText(data[i]) == n
    ensures TryFilter(data, NameIs(n)).Some?
    ensures data[i] in TryFilter(data, NameIs(n)).value
  {
    TryFilterFails(data, NameIs(n));
    assert Run(NameIs(n), data[i]) == Some(true);
    TryFilterMembers(data, NameIs(n), data[i]);
  }

  // ---------------------------------------------------------------------------
  // Add and import

  /** The five values the add form submits; FormData.get gives a string, or
      null for a missing field. */
  datatype Form = Form(weight: Val, age: Val, height: Val, sex: Val, name: Val)

  /** The record normalizeRecord is called on. */
  function FormRecord(f: Form): Record {
    RecordOf(Headers, [f.weight, f.age, f.height, f.sex, f.name])
  }

  /** The add form's submit: the normalised form record appended at the end. */
  function Add(data: seq<Record>, f: Form): (out: seq<Record>)
    ensures |out| == |data| + 1
    ensures out[..|data|] == data
    ensures out[|data|] == NormalizeRecord(Some(FormRecord(f)))
  {
    data + [NormalizeRecord(Some(FormRecord(f)))]
  }

  /** The record added has the five canonical keys in order, its numbers
      coerced, its sex normalised and its name as typed. */
  lemma AddedRecord(data: seq<Record>, f: Form)
    ensures var o := Add(data, f)[|data|];
      && o.keys == Headers
      && Get(o, WeightKey) == Num(f.weight) && Get(o, AgeKey) == Num(f.age)
      && Get(o, HeightKey) == Num(f.height) && Get(o, SexKey) == NormalizeSex(f.sex)
      && Get(o, NameKey) == f.name
  {
    var vals := [f.weight, f.age, f.height, f.sex, f.name];
    HeadersDistinct();
    HeadersAre();
    RecordOfFacts(Headers, vals);
    NormalizeCanonical(FormRecord(f));
  }

  /** The import handler after the file is read: no parsed rows leaves the
      data as it is; otherwise the normalised rows are appended to it or
      replace it. */
  function Import(data: seq<Record>, text: string, append: bool): (out: seq<Record>)
    ensures |ParseCsv(text)| == 0 ==> out == data
    ensures |ParseCsv(text)| > 0 && append ==> |out| == |data| + |ParseCsv(text)| && out[..|data|] == data
    ensures |ParseCsv(text)| > 0 && !append ==> |out| == |ParseCsv(text)|
  {
    var parsed := ParseCsv(text);
    if |parsed| == 0 then data
    else
      var normalized := NormalizeImported(parsed);
      if append then data + normalized else normalized
  }

  /** Every record an import adds is the normalised mapping of its parsed row,
      in order. */
  lemma ImportedRecords(data: seq<Record>, text: string, append: bool, i: nat)
    requires |ParseCsv(text)| > 0 && i < |ParseCsv(text)|
    ensures var out := Import(data, text, append);
      var at := if append then |data| + i else i;
      at < |out| && out[at] == NormalizeRecord(Some(Mapped(ParseCsv(text)[i])))
  {
    var parsed := ParseCsv(text);
    var normalized := NormalizeImported(parsed);
    assert normalized[i] == NormalizeRecord(Some(Mapped(parsed[i])));
    if append {
      assert Import(data, text, append) == data + normalized;
      assert (data + normalized)[|data| + i] == normalized[i];
    } else {
      assert Import(data, text, append) == normalized;
    }
  }

  /** Importing the export of no records changes nothing. */
  lemma ImportEmptyExport(data: seq<Record>, append: bool)
    ensures Import(data, ToCsv([]), append) == data
  {
    ExportReadsBack([]);
  }
}
