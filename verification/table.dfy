/** The data table's sort state and row deletion: the column comparator, the
    header-click toggle, the sorted copy the table shows, and the delete that
    splices the dataset at a row's position. */
module Table {
  import opened Wrappers
  import opened Values
  import opened Utils
  import opened Seqs

  // ---------------------------------------------------------------------------
  // Comparator

  /** String(a).localeCompare(String(b)); only its sign is used. */
  type Collation = (string, string) -> int

  /** Swapping the arguments of a positive comparison makes it negative. */
  ghost predicate Antisymmetric(loc: Collation) {
    forall a: string, b: string :: loc(a, b) > 0 ==> loc(b, a) < 0
  }

  /** `typeof v === 'number'`: a finite number or NaN. */
  predicate IsNumberType(v: Val) {
    v.Number? || v.NaN?
  }

  /** The sort callback on the column values va and vb. A NaN difference is
      given as 0, which is how Array.prototype.sort reads it. */
  function Compare(va: Val, vb: Val, asc: bool, loc: Collation): real {
    if Nullish(va) && Nullish(vb) then 0.0
    else if Nullish(va) then (if asc then 1.0 else -1.0)
    else if Nullish(vb) then (if asc then -1.0 else 1.0)
    else if IsNumberType(va) && IsNumberType(vb) then
      (if va.NaN? || vb.NaN? then 0.0 else if asc then va.n - vb.n else vb.n - va.n)
    else (if asc then loc(ToStr(va), ToStr(vb)) else loc(ToStr(vb), ToStr(va))) as real
  }

  /** Null and undefined are equal to each other, after every other value
      ascending and before it descending. */
  lemma CompareNulls(va: Val, vb: Val, asc: bool, loc: Collation)
    ensures Nullish(va) && Nullish(vb) ==> Compare(va, vb, asc, loc) == 0.0
    ensures Nullish(va) && !Nullish(vb) ==> (Compare(va, vb, asc, loc) > 0.0 <==> asc)
    ensures Nullish(va) && !Nullish(vb) ==> Compare(va, vb, asc, loc) != 0.0
    ensures !Nullish(va) && Nullish(vb) ==> (Compare(va, vb, asc, loc) < 0.0 <==> asc)
    ensures !Nullish(va) && Nullish(vb) ==> Compare(va, vb, asc, loc) != 0.0
  {
  }

  /** Two numbers compare by the sign of their difference, negated descending;
      any other pair of non-null values compares by its strings. */
  lemma CompareValues(va: Val, vb: Val, asc: bool, loc: Collation)
    requires !Nullish(va) && !Nullish(vb)
    ensures va.Number? && vb.Number? ==>
      (Compare(va, vb, asc, loc) < 0.0 <==> (if asc then va.n < vb.n else vb.n < va.n))
    ensures va.Number? && vb.Number? ==> (Compare(va, vb, asc, loc) == 0.0 <==> va.n == vb.n)
    ensures !(IsNumberType(va) && IsNumberType(vb)) ==>
      Compare(va, vb, asc, loc) == (if asc then loc(ToStr(va), ToStr(vb)) else loc(ToStr(vb), ToStr(va))) as real
  {
  }

  /** Descending order is ascending order with the rows swapped. */
  lemma DescendingSwaps(va: Val, vb: Val, loc: Collation)
    ensures Compare(va, vb, false, loc) == Compare(vb, va, true, loc)
  {
  }

  /** The comparator is antisymmetric in sign when the collation is. */
  lemma CompareAntisymmetric(va: Val, vb: Val, asc: bool, loc: Collation)
    requires Antisymmetric(loc)
    ensures Compare(va, vb, asc, loc) > 0.0 ==> Compare(vb, va, asc, loc) < 0.0
  {
    if !Nullish(va) && !Nullish(vb) && !(IsNumberType(va) && IsNumberType(vb)) {
      if asc {
        assert loc(ToStr(va), ToStr(vb)) > 0 ==> loc(ToStr(vb), ToStr(va)) < 0;
      } else {
        assert loc(ToStr(vb), ToStr(va)) > 0 ==> loc(ToStr(va), ToStr(vb)) < 0;
      }
    }
  }

  // ---------------------------------------------------------------------------
  // Sort state

  /** state.sortCol (None for null) and state.sortAsc. */
  datatype SortState = SortState(col: Option<string>, asc: bool)

  /** The state the page starts in: no sort column, ascending. */
  const Initial := SortState(None, true)

  /** A click on the header of column col. */
  function Click(s: SortState, col: string): (t: SortState)
    ensures t.col == Some(col)
    ensures s.col == Some(col) ==> t.asc == !s.asc
    ensures s.col != Some(col) ==> t.asc
  {
    if s.col == Some(col) then s.(asc := !s.asc) else SortState(Some(col), true)
  }

  /** Two clicks on the same column: back where it was when the column was
      already sorted on, descending when it was not. */
  lemma ClickTwice(s: SortState, col: string)
    ensures Click(Click(s, col), col) == if s.col == Some(col) then s else SortState(Some(col), false)
  {
  }

  /** A click forgets the direction of the column sorted on before. */
  lemma ClickOtherColumn(s: SortState, a: string, b: string)
    requires a != b
    ensures Click(Click(s, a), b) == SortState(Some(b), true)
  {
  }

  // ---------------------------------------------------------------------------
  // Sorted view

  /** The comparator on the column key of two records. */
  function CompareOn(a: Record, b: Record, key: string, asc: bool, loc: Collation): real {
    Compare(Get(a, key), Get(b, key), asc, loc)
  }

  /** Insert x before the first element that sorts after it. */
  function Insert(x: Record, s: seq<Record>, key: string, asc: bool, loc: Collation): seq<Record>
    decreases |s|
  {
    if |s| == 0 then [x]
    else if CompareOn(s[0], x, key, asc, loc) > 0.0 then [x] + s
    else [s[0]] + Insert(x, s[1..], key, asc, loc)
  }

  /** rows.sort(comparator), as a stable insertion sort. */
  function Sort(data: seq<Record>, key: string, asc: bool, loc: Collation): seq<Record>
    decreases |data|
  {
    if |data| == 0 then []
    else Insert(data[|data| - 1], Sort(data[..|data| - 1], key, asc, loc), key, asc, loc)
  }

  /** Every neighbouring pair is in comparator order. */
  predicate Ordered(v: seq<Record>, key: string, asc: bool, loc: Collation) {
    forall i :: 0 <= i < |v| - 1 ==> CompareOn(v[i], v[i + 1], key, asc, loc) <= 0.0
  }

  lemma {:induction false} InsertPerm(x: Record, s: seq<Record>, key: string, asc: bool, loc: Collation)
    ensures multiset(Insert(x, s, key, asc, loc)) == multiset(s) + multiset{x}
    decreases |s|
  {
    if |s| > 0 {
      if CompareOn(s[0], x, key, asc, loc) <= 0.0 {
        InsertPerm(x, s[1..], key, asc, loc);
        assert s == [s[0]] + s[1..];
      }
    }
  }

  lemma {:induction false} InsertOrdered(x: Record, s: seq<Record>, key: string, asc: bool, loc: Collation)
    requires Antisymmetric(loc) && Ordered(s, key, asc, loc)
    ensures var t := Insert(x, s, key, asc, loc);
      && Ordered(t, key, asc, loc)
      && |t| == |s| + 1
      && (t[0] == x || (|s| > 0 && t[0] == s[0]))
    decreases |s|
  {
    if |s| > 0 {
      if CompareOn(s[0], x, key, asc, loc) > 0.0 {
        CompareAntisymmetric(Get(s[0], key), Get(x, key), asc, loc);
      } else {
        assert Ordered(s[1..], key, asc, loc) by {
          forall i | 0 <= i < |s[1..]| - 1
            ensures CompareOn(s[1..][i], s[1..][i + 1], key, asc, loc) <= 0.0
          {
            assert s[1..][i] == s[i + 1] && s[1..][i + 1] == s[i + 2];
          }
        }
        InsertOrdered(x, s[1..], key, asc, loc);
        var r := Insert(x, s[1..], key, asc, loc);
        var t := [s[0]] + r;
        forall i | 0 <= i < |t| - 1
          ensures CompareOn(t[i], t[i + 1], key, asc, loc) <= 0.0
        {
          if i > 0 {
            assert t[i] == r[i - 1] && t[i + 1] == r[i];
          }
        }
      }
    }
  }

  /** The sorted copy holds the same records, as many times each. */
  lemma {:induction false} SortPerm(data: seq<Record>, key: string, asc: bool, loc: Collation)
    ensures multiset(Sort(data, key, asc, loc)) == multiset(data)
    decreases |data|
  {
    if |data| > 0 {
      var n := |data| - 1;
      SortPerm(data[..n], key, asc, loc);
      InsertPerm(data[n], Sort(data[..n], key, asc, loc), key, asc, loc);
      assert data == data[..n] + [data[n]];
    }
  }

  /** The sorted copy is in comparator order whenever the collation is
      antisymmetric. */
  lemma {:induction false} SortOrdered(data: seq<Record>, key: string, asc: bool, loc: Collation)
    requires Antisymmetric(loc)
    ensures Ordered(Sort(data, key, asc, loc), key, asc, loc)
    decreases |data|
  {
    if |data| > 0 {
      var n := |data| - 1;
      SortOrdered(data[..n], key, asc, loc);
      InsertOrdered(data[n], Sort(data[..n], key, asc, loc), key, asc, loc);
    }
  }

  /** The rows renderTable shows: a sorted copy when a column is set, the
      data itself otherwise. The data is never reordered. */
  function View(data: seq<Record>, s: SortState, loc: Collation): seq<Record> {
    if s.col.None? || s.col.value == "" then data
    else Sort(data, s.col.value, s.asc, loc)
  }

  /** The page starts with the data in its own order, and the first click on
      any column sorts it ascending. */
  lemma InitialView(data: seq<Record>, col: string, loc: Collation)
    ensures View(data, Initial, loc) == data
    ensures Click(Initial, col) == SortState(Some(col), true)
  {
  }

  /** The view shows every record of the data, as many times as it occurs. */
  lemma ViewPerm(data: seq<Record>, s: SortState, loc: Collation)
    ensures |View(data, s, loc)| == |data|
    ensures multiset(View(data, s, loc)) == multiset(data)
  {
    if s.col.Some? && s.col.value != "" {
      SortPerm(data, s.col.value, s.asc, loc);
      assert |multiset(View(data, s, loc))| == |multiset(data)|;
    }
  }

  /** With a column set, the view is in comparator order. */
  lemma ViewOrdered(data: seq<Record>, s: SortState, loc: Collation)
    requires Antisymmetric(loc) && s.col.Some? && s.col.value != ""
    ensures Ordered(View(data, s, loc), s.col.value, s.asc, loc)
  {
    SortOrdered(data, s.col.value, s.asc, loc);
  }

  // ---------------------------------------------------------------------------
  // Delete

  /** state.data.splice(i, 1): an index past the end removes nothing. */
  function Delete(data: seq<Record>, i: nat): (out: seq<Record>)
    ensures i < |data| ==> |out| == |data| - 1
    ensures i >= |data| ==> out == data
    ensures forall j :: 0 <= j < i && j < |out| ==> out[j] == data[j]
    ensures forall j :: i <= j < |out| ==> out[j] == data[j + 1]
  {
    if i < |data| then data[..i] + data[i + 1..] else data
  }

  /** Deleting removes one occurrence of data[i] and nothing else. */
  lemma DeleteRemovesOne(data: seq<Record>, i: nat)
    requires i < |data|
    ensures multiset(Delete(data, i)) + multiset{data[i]} == multiset(data)
  {
    var a, b := data[..i], data[i + 1..];
    assert Delete(data, i) == a + b;
    assert data == a + ([data[i]] + b);
    assert multiset(data) == multiset(a) + multiset([data[i]] + b);
  }

  /** The records left keep their order in the data. */
  lemma DeleteSubseq(data: seq<Record>, i: nat)
    requires i < |data|
    ensures IsSubseq(Delete(data, i), data)
  {
    SubseqSkip(data, i);
  }

  /** The delete button of table row i: the index is the row's position in
      the view, and the splice is applied to the unsorted data. */
  function DeleteRow(data: seq<Record>, s: SortState, loc: Collation, row: nat): seq<Record> {
    Delete(data, row)
  }

  /** Unsorted, the record removed is the one shown on the clicked row. */
  lemma DeleteRowUnsorted(data: seq<Record>, s: SortState, loc: Collation, row: nat)
    requires s.col.None? && row < |data|
    ensures multiset(DeleteRow(data, s, loc, row)) + multiset{View(data, s, loc)[row]} == multiset(data)
  {
    DeleteRemovesOne(data, row);
  }

  /** Two records differing only in weight. */
  function Weighed(w: real): Record {
    Record([WeightKey], map[WeightKey := Number(w)])
  }

  /** Sorted by weight, the table shows the lighter record on row 0, and its
      delete button removes the heavier one, which sits at index 0 of the
      data. */
  lemma DeleteRowMismatch(loc: Collation)
    ensures var data := [Weighed(2.0), Weighed(1.0)];
      var s := SortState(Some(WeightKey), true);
      && View(data, s, loc)[0] == Weighed(1.0)
      && DeleteRow(data, s, loc, 0) == [Weighed(1.0)]
  {
    var data := [Weighed(2.0), Weighed(1.0)];
    assert data[..1] == [Weighed(2.0)];
    assert Sort(data[..1], WeightKey, true, loc) == [Weighed(2.0)];
    assert CompareOn(Weighed(2.0), Weighed(1.0), WeightKey, true, loc) == 1.0;
  }

  /** The first index at which x occurs in s. */
  function IndexOf(s: seq<Record>, x: Record): (i: nat)
    requires x in s
    ensures i < |s| && s[i] == x
    ensures forall j :: 0 <= j < i ==> s[j] != x
  {
    if s[0] == x then 0 else 1 + IndexOf(s[1..], x)
  }

  /** The delete the row evidently means: remove the record the row shows,
      found in the data by its first occurrence. */
  function DeleteShown(data: seq<Record>, s: SortState, loc: Collation, row: nat): seq<Record> {
    var v := View(data, s, loc);
    if row < |v| then
      ViewPerm(data, s, loc);
      assert v[row] in multiset(data);
      Delete(data, IndexOf(data, v[row]))
    else data
  }

  /** Whatever the sort, the corrected delete removes exactly one occurrence
      of the record shown on the clicked row. */
  lemma DeleteShownRemovesShown(data: seq<Record>, s: SortState, loc: Collation, row: nat)
    requires row < |data|
    ensures |View(data, s, loc)| == |data|
    ensures multiset(DeleteShown(data, s, loc, row)) + multiset{View(data, s, loc)[row]} == multiset(data)
  {
    ViewPerm(data, s, loc);
    var v := View(data, s, loc);
    assert v[row] in multiset(data);
    DeleteRemovesOne(data, IndexOf(data, v[row]));
  }

  /** On the example where the row's delete removes the wrong record, the
      corrected delete removes the lighter record shown on row 0. */
  lemma DeleteShownFixesMismatch(loc: Collation)
    ensures DeleteShown([Weighed(2.0), Weighed(1.0)], SortState(Some(WeightKey), true), loc, 0) == [Weighed(2.0)]
  {
    DeleteRowMismatch(loc);
    var data := [Weighed(2.0), Weighed(1.0)];
    assert Weighed(2.0) != Weighed(1.0) by {
      assert Get(Weighed(2.0), WeightKey) != Get(Weighed(1.0), WeightKey);
    }
    assert IndexOf(data, Weighed(1.0)) == 1;
  }
}
