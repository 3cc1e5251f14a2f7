/** The chart-series builder: records partitioned into the F, M and OTHER
    series, records without numeric coordinates dropped, the point radius
    scaled by height, and the axis bounds of a field. */
module Chart {
  import opened Wrappers
  import opened Strings
  import opened Numbers
  import opened Values
  import opened Utils

  // ---------------------------------------------------------------------------
  // Numeric values of a field

  /** The numbers field key holds across rs, in record order. */
  function FieldValues(rs: seq<Record>, key: string): (vs: seq<real>)
    ensures |vs| <= |rs|
  {
    if |rs| == 0 then []
    else
      var v := Get(rs[|rs| - 1], key);
      FieldValues(rs[..|rs| - 1], key) + (if v.Number? then [v.n] else [])
  }

  /** x is one of the field's values exactly when some record holds it there. */
  lemma {:induction false} FieldValuesMembers(rs: seq<Record>, key: string, x: real)
    ensures x in FieldValues(rs, key) <==> exists i :: 0 <= i < |rs| && Get(rs[i], key) == Number(x)
    decreases |rs|
  {
    if |rs| > 0 {
      var n := |rs| - 1;
      FieldValuesMembers(rs[..n], key, x);
      if exists i :: 0 <= i < |rs| && Get(rs[i], key) == Number(x) {
        var i :| 0 <= i < |rs| && Get(rs[i], key) == Number(x);
        if i < n {
          assert rs[..n][i] == rs[i];
        }
      }
      if exists i :: 0 <= i < n && Get(rs[..n][i], key) == Number(x) {
        var i :| 0 <= i < n && Get(rs[..n][i], key) == Number(x);
        assert rs[i] == rs[..n][i];
      }
    }
  }

  /** Math.min over a non-empty list. */
  function Min(vs: seq<real>): (m: real)
    requires |vs| > 0
    ensures m in vs
    ensures forall i :: 0 <= i < |vs| ==> m <= vs[i]
  {
    if |vs| == 1 then vs[0]
    else
      var m := Min(vs[1..]);
      assert forall i :: 1 <= i < |vs| ==> vs[i] == vs[1..][i - 1];
      if vs[0] < m then vs[0] else m
  }

  /** Math.max over a non-empty list. */
  function Max(vs: seq<real>): (m: real)
    requires |vs| > 0
    ensures m in vs
    ensures forall i :: 0 <= i < |vs| ==> vs[i] <= m
  {
    if |vs| == 1 then vs[0]
    else
      var m := Max(vs[1..]);
      assert forall i :: 1 <= i < |vs| ==> vs[i] == vs[1..][i - 1];
      if vs[0] > m then vs[0] else m
  }

  // ---------------------------------------------------------------------------
  // computeDomain

  /** The padding put around a field whose values are all v. */
  function Pad(v: real): (p: real)
    ensures p >= 1.0 && p >= Abs(v) * 0.05
  {
    if Abs(v) * 0.05 > 1.0 then Abs(v) * 0.05 else 1.0
  }

  /** computeDomain(rows, key): [0, 1] when the field holds no number; the
      value widened by Pad on both sides when all numbers are equal; the exact
      smallest and largest number otherwise. */
  function Domain(rows: seq<Record>, key: string): (d: (real, real))
    ensures d.0 < d.1
    ensures var vs := FieldValues(rows, key);
      forall i :: 0 <= i < |vs| ==> d.0 <= vs[i] <= d.1
    ensures FieldValues(rows, key) == [] ==> d == (0.0, 1.0)
    ensures var vs := FieldValues(rows, key);
      |vs| > 0 && (forall i :: 0 <= i < |vs| ==> vs[i] == vs[0]) ==> d == (vs[0] - Pad(vs[0]), vs[0] + Pad(vs[0]))
    ensures var vs := FieldValues(rows, key);
      (exists i :: 0 <= i < |vs| && vs[i] != vs[0]) ==> d.0 in vs && d.1 in vs
  {
    var vs := FieldValues(rows, key);
    if vs == [] then (0.0, 1.0)
    else
      var lo := Min(vs);
      var hi := Max(vs);
      assert lo == hi ==> lo == vs[0] && forall i :: 0 <= i < |vs| ==> vs[i] == vs[0];
      if lo == hi then (lo - Pad(lo), hi + Pad(lo)) else (lo, hi)
  }

  /** A record holding only field key set to v. */
  function Single(key: string, v: Val): Record {
    Record([key], map[key := v])
  }

  /** Two records at 5 give [4, 6]: the pad is 1, not 5% of 5. */
  lemma DomainOfTwoFives(key: string)
    ensures Domain([Single(key, Number(5.0)), Single(key, Number(5.0))], key) == (4.0, 6.0)
  {
    var rows := [Single(key, Number(5.0)), Single(key, Number(5.0))];
    assert rows[..1] == [Single(key, Number(5.0))];
    assert FieldValues(rows, key) == [5.0, 5.0];
  }

  /** Records without a number in the field do not widen the domain. */
  lemma DomainIgnoresNonNumbers(rows: seq<Record>, key: string, r: Record)
    requires !Get(r, key).Number?
    ensures Domain(rows + [r], key) == Domain(rows, key)
  {
    assert (rows + [r])[..|rows|] == rows;
    assert FieldValues(rows + [r], key) == FieldValues(rows, key);
  }

  // ---------------------------------------------------------------------------
  // Grouping

  /** The three series, in the order they are emitted. */
  datatype Group = F | M | Other

  function Rank(g: Group): nat {
    match g
    case F => 0
    case M => 1
    case Other => 2
  }

  /** `(v || d).toUpperCase()`: None when v is truthy and not a string, which
      has no toUpperCase and throws. */
  function UpperOr(v: Val, d: string): (u: Option<string>)
    ensures u.None? <==> Truthy(v) && !v.Str?
    ensures u.Some? ==> u.value == Upper(if Truthy(v) then v.s else d)
  {
    if !Truthy(v) then Some(Upper(d))
    else if v.Str? then Some(Upper(v.s))
    else None
  }

  /** The series a record belongs to: F or M when its upper-cased sex is
      exactly that letter, OTHER for anything else including a missing sex;
      None when the sex cannot be upper-cased. */
  function GroupOf(r: Record): (g: Option<Group>)
    ensures g.None? <==> Truthy(Get(r, SexKey)) && !Get(r, SexKey).Str?
    ensures g == Some(F) <==> Get(r, SexKey).Str? && Upper(Get(r, SexKey).s) == "F"
    ensures g == Some(M) <==> Get(r, SexKey).Str? && Upper(Get(r, SexKey).s) == "M"
  {
    match UpperOr(Get(r, SexKey), "OTHER")
    case None => None
    case Some(s) =>
      assert Upper("OTHER") == "OTHER" by {
        assert Upper("OTHER")[0] == 'O';
      }
      if s == "F" then Some(F) else if s == "M" then Some(M) else Some(Other)
  }

  // ---------------------------------------------------------------------------
  // Radius

  /** The height range the radius is scaled over: the smallest and largest
      numeric height among the records, or [0, 1] when there is none. */
  function HeightRange(rs: seq<Record>): (b: (real, real))
    ensures b.0 <= b.1
    ensures FieldValues(rs, HeightKey) == [] ==> b == (0.0, 1.0)
    ensures var hs := FieldValues(rs, HeightKey);
      hs != [] ==> b.0 in hs && b.1 in hs && forall i :: 0 <= i < |hs| ==> b.0 <= hs[i] <= b.1
  {
    var hs := FieldValues(rs, HeightKey);
    if hs == [] then (0.0, 1.0) else (Min(hs), Max(hs))
  }

  /** scaleRadius(h) over the range b. */
  function ScaleRadius(h: Val, sizeByHeight: bool, b: (real, real)): real {
    if !sizeByHeight || !h.Number? then 4.0
    else if b.1 == b.0 then 6.0
    else 3.0 + (h.n - b.0) / (b.1 - b.0) * 7.0
  }

  /** The radius of a record is 4 without scaling or without a numeric height,
      6 when every height is the same, and otherwise between 3 (the smallest
      height) and 10 (the largest). */
  lemma RadiusBounds(rs: seq<Record>, i: nat, sizeByHeight: bool)
    requires i < |rs|
    ensures var h := Get(rs[i], HeightKey);
      var r := ScaleRadius(h, sizeByHeight, HeightRange(rs));
      && 3.0 <= r <= 10.0
      && (!sizeByHeight || !h.Number? ==> r == 4.0)
      && (sizeByHeight && h.Number? && HeightRange(rs).0 == HeightRange(rs).1 ==> r == 6.0)
      && (sizeByHeight && h.Number? && h.n == HeightRange(rs).0 < HeightRange(rs).1 ==> r == 3.0)
      && (sizeByHeight && h.Number? && HeightRange(rs).0 < HeightRange(rs).1 == h.n ==> r == 10.0)
  {
    var h := Get(rs[i], HeightKey);
    var b := HeightRange(rs);
    if sizeByHeight && h.Number? && b.0 != b.1 {
      var hs := FieldValues(rs, HeightKey);
      FieldValuesMembers(rs, HeightKey, h.n);
      var j :| 0 <= j < |hs| && hs[j] == h.n;
      UnitFraction(h.n - b.0, b.1 - b.0);
    }
  }

  /** a / d lies in [0, 1] for 0 <= a <= d, and is 0 or 1 at the ends. */
  lemma UnitFraction(a: real, d: real)
    requires 0.0 <= a <= d && d > 0.0
    ensures 0.0 <= a / d <= 1.0
    ensures a == 0.0 ==> a / d == 0.0
    ensures a == d ==> a / d == 1.0
  {
    assert a / d * d == a;
  }

  /** Heights 10, 20 and 30 give radii 3, 6.5 and 10. */
  lemma RadiusExample()
    ensures var rs := [Single(HeightKey, Number(10.0)), Single(HeightKey, Number(20.0)), Single(HeightKey, Number(30.0))];
      && ScaleRadius(Number(10.0), true, HeightRange(rs)) == 3.0
      && ScaleRadius(Number(20.0), true, HeightRange(rs)) == 6.5
      && ScaleRadius(Number(30.0), true, HeightRange(rs)) == 10.0
  {
    ExampleRange();
  }

  lemma ExampleRange()
    ensures HeightRange([Single(HeightKey, Number(10.0)), Single(HeightKey, Number(20.0)), Single(HeightKey, Number(30.0))]) == (10.0, 30.0)
  {
    var rs := [Single(HeightKey, Number(10.0)), Single(HeightKey, Number(20.0)), Single(HeightKey, Number(30.0))];
    ExampleHeights();
    var hs := FieldValues(rs, HeightKey);
    var b := HeightRange(rs);
    assert hs[0] == 10.0 && hs[1] == 20.0 && hs[2] == 30.0 && |hs| == 3;
    assert b.0 <= 10.0 && b.1 >= 30.0;
  }

  lemma ExampleHeights()
    ensures FieldValues([Single(HeightKey, Number(10.0)), Single(HeightKey, Number(20.0)), Single(HeightKey, Number(30.0))], HeightKey) == [10.0, 20.0, 30.0]
  {
    var rs := [Single(HeightKey, Number(10.0)), Single(HeightKey, Number(20.0)), Single(HeightKey, Number(30.0))];
    assert rs[..2][..1] == rs[..1];
    assert FieldValues(rs[..1], HeightKey) == [10.0];
    assert FieldValues(rs[..2], HeightKey) == [10.0, 20.0];
  }

  // ---------------------------------------------------------------------------
  // buildDatasets

  datatype Options = Options(xKey: string, yKey: string, sizeByHeight: bool)

  /** One plotted point: its coordinates, radius, the record's index in the
      records passed in, and the record itself for the tooltip. */
  datatype Point = Point(x: real, y: real, r: real, idx: nat, tooltip: Record)

  datatype Dataset = Dataset(group: Group, points: seq<Point>)

  /** Both coordinates of the record are numbers. */
  predicate Plotted(r: Record, opts: Options) {
    Get(r, opts.xKey).Number? && Get(r, opts.yKey).Number?
  }

  /** A plotted record whose sex cannot be upper-cased: buildDatasets throws. */
  predicate Throws(r: Record, opts: Options) {
    Plotted(r, opts) && GroupOf(r).None?
  }

  /** The point drawn for record i. */
  function PointAt(rs: seq<Record>, i: nat, opts: Options, b: (real, real)): Point
    requires i < |rs| && Plotted(rs[i], opts)
  {
    Point(Get(rs[i], opts.xKey).n, Get(rs[i], opts.yKey).n,
          ScaleRadius(Get(rs[i], HeightKey), opts.sizeByHeight, b), i, rs[i])
  }

  datatype Groups = Groups(f: seq<Point>, m: seq<Point>, other: seq<Point>)

  function Points(gs: Groups, g: Group): seq<Point> {
    match g
    case F => gs.f
    case M => gs.m
    case Other => gs.other
  }

  function Push(gs: Groups, g: Group, p: Point): (o: Groups)
    ensures Points(o, g) == Points(gs, g) + [p]
    ensures forall h :: h != g ==> Points(o, h) == Points(gs, h)
  {
    match g
    case F => gs.(f := gs.f + [p])
    case M => gs.(m := gs.m + [p])
    case Other => gs.(other := gs.other + [p])
  }

  /** The forEach over the first n records. */
  function Partition(rs: seq<Record>, opts: Options, b: (real, real), n: nat): Option<Groups>
    requires n <= |rs|
  {
    if n == 0 then Some(Groups([], [], []))
    else
      match Partition(rs, opts, b, n - 1)
      case None => None
      case Some(gs) =>
        if !Plotted(rs[n - 1], opts) then Some(gs)
        else
          match GroupOf(rs[n - 1])
          case None => None
          case Some(g) => Some(Push(gs, g, PointAt(rs, n - 1, opts, b)))
  }

  /** The for-of over F, M, OTHER that skips empty groups. */
  function Emit(gs: Groups): (ds: seq<Dataset>)
    ensures |ds| <= 3
    ensures forall i :: 0 <= i < |ds| ==> |ds[i].points| > 0 && ds[i].points == Points(gs, ds[i].group)
    ensures forall i, j :: 0 <= i < j < |ds| ==> Rank(ds[i].group) < Rank(ds[j].group)
  {
    Piece(F, gs.f) + Piece(M, gs.m) + Piece(Other, gs.other)
  }

  /** The dataset of one group, none when the group is empty. */
  function Piece(g: Group, ps: seq<Point>): seq<Dataset> {
    if |ps| > 0 then [Dataset(g, ps)] else []
  }

  /** buildDatasets(filtered, opts); None when it throws. */
  function BuildDatasets(rs: seq<Record>, opts: Options): (r: Option<seq<Dataset>>)
    ensures r.Some? ==> |r.value| <= 3
    ensures r.Some? ==> forall i :: 0 <= i < |r.value| ==> |r.value[i].points| > 0
    ensures r.Some? ==> forall i, j :: 0 <= i < j < |r.value| ==> Rank(r.value[i].group) < Rank(r.value[j].group)
  {
    match Partition(rs, opts, HeightRange(rs), |rs|)
    case None => None
    case Some(gs) => Some(Emit(gs))
  }

  /** The points of series g, none when the series is not emitted. */
  function Series(ds: seq<Dataset>, g: Group): seq<Point> {
    if |ds| == 0 then []
    else if ds[0].group == g then ds[0].points
    else Series(ds[1..], g)
  }

  /** The point p is the one record p.idx gives in series g. */
  predicate InGroup(rs: seq<Record>, opts: Options, b: (real, real), g: Group, p: Point) {
    && p.idx < |rs|
    && Plotted(rs[p.idx], opts)
    && GroupOf(rs[p.idx]) == Some(g)
    && p == PointAt(rs, p.idx, opts, b)
  }

  /** Some point of ps is drawn for record i. */
  predicate Drawn(ps: seq<Point>, i: nat) {
    exists j :: 0 <= j < |ps| && ps[j].idx == i
  }

  /** The number of plotted records among the first n. */
  function CountPlotted(rs: seq<Record>, opts: Options, n: nat): nat
    requires n <= |rs|
  {
    if n == 0 then 0
    else CountPlotted(rs, opts, n - 1) + (if Plotted(rs[n - 1], opts) then 1 else 0)
  }

  lemma {:induction false} PartitionFails(rs: seq<Record>, opts: Options, b: (real, real), n: nat)
    requires n <= |rs|
    ensures Partition(rs, opts, b, n).None? <==> exists i :: 0 <= i < n && Throws(rs[i], opts)
  {
    if n > 0 {
      PartitionFails(rs, opts, b, n - 1);
    }
  }

  /** One step of the forEach: an unplotted record changes nothing, a plotted
      one adds its point at the end of its group. */
  lemma PartitionStep(rs: seq<Record>, opts: Options, b: (real, real), n: nat)
    requires 0 < n <= |rs| && Partition(rs, opts, b, n).Some?
    ensures Partition(rs, opts, b, n - 1).Some?
    ensures var gs := Partition(rs, opts, b, n).value;
      var gs0 := Partition(rs, opts, b, n - 1).value;
      && (!Plotted(rs[n - 1], opts) ==> gs == gs0)
      && (Plotted(rs[n - 1], opts) ==>
            GroupOf(rs[n - 1]).Some? && gs == Push(gs0, GroupOf(rs[n - 1]).value, PointAt(rs, n - 1, opts, b)))
  {
  }

  lemma {:induction false} PartitionSound(rs: seq<Record>, opts: Options, b: (real, real), n: nat, g: Group)
    requires n <= |rs| && Partition(rs, opts, b, n).Some?
    ensures var ps := Points(Partition(rs, opts, b, n).value, g);
      forall j :: 0 <= j < |ps| ==> ps[j].idx < n && InGroup(rs, opts, b, g, ps[j])
  {
    if n > 0 {
      PartitionSound(rs, opts, b, n - 1, g);
      PartitionStep(rs, opts, b, n);
      var ps0 := Points(Partition(rs, opts, b, n - 1).value, g);
      var ps := Points(Partition(rs, opts, b, n).value, g);
      assert ps == ps0 || (ps == ps0 + [PointAt(rs, n - 1, opts, b)] && GroupOf(rs[n - 1]) == Some(g));
    }
  }

  lemma {:induction false} PartitionComplete(rs: seq<Record>, opts: Options, b: (real, real), n: nat, g: Group)
    requires n <= |rs| && Partition(rs, opts, b, n).Some?
    ensures var ps := Points(Partition(rs, opts, b, n).value, g);
      forall i :: 0 <= i < n && Plotted(rs[i], opts) && GroupOf(rs[i]) == Some(g) ==> Drawn(ps, i)
  {
    if n > 0 {
      PartitionComplete(rs, opts, b, n - 1, g);
      PartitionStep(rs, opts, b, n);
      var ps0 := Points(Partition(rs, opts, b, n - 1).value, g);
      var ps := Points(Partition(rs, opts, b, n).value, g);
      assert ps0 <= ps;
      forall i | 0 <= i < n && Plotted(rs[i], opts) && GroupOf(rs[i]) == Some(g)
        ensures Drawn(ps, i)
      {
        if i < n - 1 {
          DrawnKept(ps0, ps, i);
        } else {
          assert ps == ps0 + [PointAt(rs, n - 1, opts, b)];
          assert ps[|ps| - 1].idx == i;
        }
      }
    }
  }

  /** Appending a point keeps every point already drawn. */
  lemma DrawnKept(ps0: seq<Point>, ps: seq<Point>, i: nat)
    requires ps0 <= ps
    requires Drawn(ps0, i)
    ensures Drawn(ps, i)
  {
    var j :| 0 <= j < |ps0| && ps0[j].idx == i;
    assert ps[j] == ps0[j];
  }

  lemma {:induction false} PartitionOrdered(rs: seq<Record>, opts: Options, b: (real, real), n: nat, g: Group)
    requires n <= |rs| && Partition(rs, opts, b, n).Some?
    ensures var ps := Points(Partition(rs, opts, b, n).value, g);
      forall i, j :: 0 <= i < j < |ps| ==> ps[i].idx < ps[j].idx
  {
    if n > 0 {
      PointsStep(rs, opts, b, n, g);
      PartitionOrdered(rs, opts, b, n - 1, g);
      PartitionBelow(rs, opts, b, n - 1, g);
      var ps0 := Points(Partition(rs, opts, b, n - 1).value, g);
      var ps := Points(Partition(rs, opts, b, n).value, g);
      if ps != ps0 {
        AppendOrdered(ps0, PointAt(rs, n - 1, opts, b));
      }
    }
  }

  /** One step of the forEach seen from group g: its points stay as they were
      or gain the point of record n - 1 at the end. */
  lemma PointsStep(rs: seq<Record>, opts: Options, b: (real, real), n: nat, g: Group)
    requires 0 < n <= |rs| && Partition(rs, opts, b, n).Some?
    ensures Partition(rs, opts, b, n - 1).Some?
    ensures var ps0 := Points(Partition(rs, opts, b, n - 1).value, g);
      var ps := Points(Partition(rs, opts, b, n).value, g);
      ps == ps0 || (Plotted(rs[n - 1], opts) && ps == ps0 + [PointAt(rs, n - 1, opts, b)])
  {
    PartitionStep(rs, opts, b, n);
  }

  /** Every point drawn from the first n records has an index below n. */
  lemma PartitionBelow(rs: seq<Record>, opts: Options, b: (real, real), n: nat, g: Group)
    requires n <= |rs| && Partition(rs, opts, b, n).Some?
    ensures var ps := Points(Partition(rs, opts, b, n).value, g);
      forall j :: 0 <= j < |ps| ==> ps[j].idx < n
  {
    PartitionSound(rs, opts, b, n, g);
  }

  /** A point past every index of an ordered series keeps it ordered. */
  lemma AppendOrdered(ps: seq<Point>, p: Point)
    requires forall i, j :: 0 <= i < j < |ps| ==> ps[i].idx < ps[j].idx
    requires forall j :: 0 <= j < |ps| ==> ps[j].idx < p.idx
    ensures var qs := ps + [p];
      forall i, j :: 0 <= i < j < |qs| ==> qs[i].idx < qs[j].idx
  {
  }

  lemma {:induction false} PartitionCount(rs: seq<Record>, opts: Options, b: (real, real), n: nat)
    requires n <= |rs| && Partition(rs, opts, b, n).Some?
    ensures var gs := Partition(rs, opts, b, n).value;
      |gs.f| + |gs.m| + |gs.other| == CountPlotted(rs, opts, n)
  {
    if n > 0 {
      PartitionCount(rs, opts, b, n - 1);
      PartitionStep(rs, opts, b, n);
    }
  }

  /** The series emitted for g are the points of group g. */
  lemma SeriesOfEmit(gs: Groups, g: Group)
    ensures Series(Emit(gs), g) == Points(gs, g)
  {
    var d := Piece(Other, gs.other);
    var cd := Piece(M, gs.m) + d;
    assert Emit(gs) == Piece(F, gs.f) + cd;
    SeriesLast(Other, gs.other, g);
    SeriesPiece(M, gs.m, d, g);
    SeriesPiece(F, gs.f, cd, g);
  }

  /** The series of a lone piece. */
  lemma SeriesLast(gr: Group, ps: seq<Point>, g: Group)
    ensures Series(Piece(gr, ps), g) == if gr == g then ps else []
  {
    if |ps| > 0 {
      assert Piece(gr, ps)[1..] == [];
    }
  }

  /** Looking a series up in a piece and what follows it looks in the piece
      first. */
  lemma SeriesPiece(gr: Group, ps: seq<Point>, b: seq<Dataset>, g: Group)
    requires gr == g ==> Series(b, g) == []
    ensures Series(Piece(gr, ps) + b, g) == if gr == g then ps else Series(b, g)
  {
    if |ps| > 0 {
      assert (Piece(gr, ps) + b)[0] == Dataset(gr, ps);
      assert (Piece(gr, ps) + b)[1..] == b;
    } else {
      assert Piece(gr, ps) + b == b;
    }
  }

  /** buildDatasets throws exactly when some plotted record's sex is truthy
      and not a string. */
  lemma BuildFails(rs: seq<Record>, opts: Options)
    ensures BuildDatasets(rs, opts).None? <==> exists i :: 0 <= i < |rs| && Throws(rs[i], opts)
  {
    PartitionFails(rs, opts, HeightRange(rs), |rs|);
  }

  /** A point is in series g exactly when it is the point of a plotted record
      of group g, with that record's coordinates, radius and index. */
  lemma SeriesExact(rs: seq<Record>, opts: Options, g: Group, p: Point)
    requires BuildDatasets(rs, opts).Some?
    ensures p in Series(BuildDatasets(rs, opts).value, g) <==> InGroup(rs, opts, HeightRange(rs), g, p)
  {
    var b := HeightRange(rs);
    var ps := Points(Partition(rs, opts, b, |rs|).value, g);
    SeriesOfEmit(Partition(rs, opts, b, |rs|).value, g);
    PartitionSound(rs, opts, b, |rs|, g);
    if InGroup(rs, opts, b, g, p) {
      PartitionComplete(rs, opts, b, |rs|, g);
      var j :| 0 <= j < |ps| && ps[j].idx == p.idx;
      assert ps[j] == p;
    }
  }

  /** Within a series, points keep the order of their records. */
  lemma SeriesOrdered(rs: seq<Record>, opts: Options, g: Group)
    requires BuildDatasets(rs, opts).Some?
    ensures var ps := Series(BuildDatasets(rs, opts).value, g);
      forall i, j :: 0 <= i < j < |ps| ==> ps[i].idx < ps[j].idx
  {
    var b := HeightRange(rs);
    SeriesOfEmit(Partition(rs, opts, b, |rs|).value, g);
    PartitionOrdered(rs, opts, b, |rs|, g);
  }

  /** The three series hold one point per plotted record. */
  lemma PointTotal(rs: seq<Record>, opts: Options)
    requires BuildDatasets(rs, opts).Some?
    ensures var ds := BuildDatasets(rs, opts).value;
      |Series(ds, F)| + |Series(ds, M)| + |Series(ds, Other)| == CountPlotted(rs, opts, |rs|)
  {
    var b := HeightRange(rs);
    var gs := Partition(rs, opts, b, |rs|).value;
    SeriesOfEmit(gs, F);
    SeriesOfEmit(gs, M);
    SeriesOfEmit(gs, Other);
    PartitionCount(rs, opts, b, |rs|);
  }

  /** A plotted record is drawn in its own series and in no other. */
  lemma OneSeriesEach(rs: seq<Record>, opts: Options, i: nat, g: Group)
    requires BuildDatasets(rs, opts).Some?
    requires i < |rs| && Plotted(rs[i], opts)
    ensures Drawn(Series(BuildDatasets(rs, opts).value, g), i) <==> GroupOf(rs[i]) == Some(g)
  {
    var b := HeightRange(rs);
    SeriesOfEmit(Partition(rs, opts, b, |rs|).value, g);
    PartitionSound(rs, opts, b, |rs|, g);
    PartitionFails(rs, opts, b, |rs|);
    if GroupOf(rs[i]) == Some(g) {
      PartitionComplete(rs, opts, b, |rs|, g);
    }
  }

  /** A record without numeric coordinates is drawn nowhere. */
  lemma UnplottedNotDrawn(rs: seq<Record>, opts: Options, i: nat, g: Group)
    requires BuildDatasets(rs, opts).Some?
    requires i < |rs| && !Plotted(rs[i], opts)
    ensures !Drawn(Series(BuildDatasets(rs, opts).value, g), i)
  {
    var b := HeightRange(rs);
    SeriesOfEmit(Partition(rs, opts, b, |rs|).value, g);
    PartitionSound(rs, opts, b, |rs|, g);
  }
}
