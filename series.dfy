/**
  The chart series `return_figures` builds from a fetched table: the table is
  sorted by value, descending; a line chart gets one series per distinct
  country, in order of first appearance in the sorted table, holding that
  country's rows; a bar chart gets one series over all rows.
 */
module Series {
  import opened Fetch

  /** The plotly traces used: `go.Scatter` (years against values) and `go.Bar` (countries against values). */
  datatype Trace =
    | Scatter(x: seq<int>, y: seq<real>, mode: string, name: string)
    | Bar(labels: seq<string>, y: seq<real>, name: string)

  predicate SortedDesc(rows: seq<Row>)
  {
    forall i, j :: 0 <= i < j < |rows| ==> rows[i].value >= rows[j].value
  }

  predicate NonIncreasing(ys: seq<real>)
  {
    forall i, j :: 0 <= i < j < |ys| ==> ys[i] >= ys[j]
  }

  // ---------------------------------------------------------------------------
  // sort_values(..., ascending=False, inplace=True) (lines 56, 81, 107, 126)
  // ---------------------------------------------------------------------------

  /** Sorts the rows in place by value, largest first. Ties may end up in any order. */
  method SortByValueDesc(a: array<Row>)
    modifies a
    ensures SortedDesc(a[..])
    ensures multiset(a[..]) == old(multiset(a[..]))
  {
    var i := 0;
    while i < a.Length
      invariant 0 <= i <= a.Length
      invariant SortedDesc(a[..i])
      invariant multiset(a[..]) == old(multiset(a[..]))
    {
      InsertDown(a, i);
      i := i + 1;
    }
    assert a[..a.Length] == a[..];
  }

  /** Moves a[i] down into the sorted prefix a[..i] by adjacent swaps. */
  method InsertDown(a: array<Row>, i: nat)
    requires i < a.Length && SortedDesc(a[..i])
    modifies a
    ensures SortedDesc(a[..i + 1])
    ensures multiset(a[..]) == old(multiset(a[..]))
    ensures forall m :: i < m < a.Length ==> a[m] == old(a[m])
  {
    var j := i;
    while j > 0 && a[j - 1].value < a[j].value
      invariant 0 <= j <= i
      invariant forall m :: i < m < a.Length ==> a[m] == old(a[m])
      invariant forall p, q :: 0 <= p < q <= i && p != j && q != j ==> a[p].value >= a[q].value
      invariant forall q :: j < q <= i ==> a[j].value > a[q].value
      invariant multiset(a[..]) == old(multiset(a[..]))
    {
      SwapDown(a, j);
      j := j - 1;
    }
  }

  /** Exchanges a[j - 1] and a[j]. */
  method SwapDown(a: array<Row>, j: nat)
    requires 0 < j < a.Length
    modifies a
    ensures a[j - 1] == old(a[j]) && a[j] == old(a[j - 1])
    ensures forall m :: 0 <= m < a.Length && m != j - 1 && m != j ==> a[m] == old(a[m])
    ensures multiset(a[..]) == old(multiset(a[..]))
  {
    a[j - 1], a[j] := a[j], a[j - 1];
  }

  // ---------------------------------------------------------------------------
  // Column queries (lines 57, 60-61, 111-112)
  // ---------------------------------------------------------------------------

  function CountryColumn(rows: seq<Row>): (col: seq<string>)
  {
    seq(|rows|, i requires 0 <= i < |rows| => rows[i].country)
  }

  function YearColumn(rows: seq<Row>): (col: seq<int>)
  {
    seq(|rows|, i requires 0 <= i < |rows| => rows[i].year)
  }

  function ValueColumn(rows: seq<Row>): (col: seq<real>)
  {
    seq(|rows|, i requires 0 <= i < |rows| => rows[i].value)
  }

  /** `unique()`: each element once, in order of first appearance. */
  function Unique(s: seq<string>): (u: seq<string>)
    ensures forall x :: x in u <==> x in s
    ensures |u| <= |s|
  {
    if s == [] then []
    else
      var u := Unique(s[..|s| - 1]);
      if s[|s| - 1] in u then u else u + [s[|s| - 1]]
  }

  /**
    Line 57: `countrylist` holds every country of the table, each exactly once,
    and a country comes before another exactly when its first row comes first.
   */
  lemma {:induction false} UniqueProps(s: seq<string>)
    ensures forall x :: x in Unique(s) <==> x in s
    ensures forall i, j :: 0 <= i < j < |Unique(s)| ==> Unique(s)[i] != Unique(s)[j]
    ensures forall i, j, p :: 0 <= i < j < |Unique(s)| && 0 <= p < |s| && s[p] == Unique(s)[j] ==>
      Unique(s)[i] in s[..p]
  {
    if s != [] {
      var init, last := s[..|s| - 1], s[|s| - 1];
      assert s == init + [last];
      UniqueProps(init);
      var u := Unique(s);
      forall i, j, p | 0 <= i < j < |u| && 0 <= p < |s| && s[p] == u[j]
        ensures u[i] in s[..p]
      {
        if p < |init| {
          assert init[..p] == s[..p];
          assert init[p] == s[p];
          assert u[j] in Unique(init);
        } else {
          assert s[..p] == init;
        }
      }
    }
  }

  /** `df[df['country'] == c]`: the rows of country c, in table order. */
  function Select(rows: seq<Row>, c: string): (sel: seq<Row>)
    ensures forall r :: r in sel ==> r in rows && r.country == c
    ensures forall r :: r in rows && r.country == c ==> r in sel
    ensures |sel| <= |rows|
  {
    if rows == [] then []
    else (if rows[0].country == c then [rows[0]] else []) + Select(rows[1..], c)
  }

  /** A filter of a sorted table is sorted. */
  lemma {:induction false} SelectSorted(rows: seq<Row>, c: string)
    requires SortedDesc(rows)
    ensures SortedDesc(Select(rows, c))
  {
    if rows != [] {
      SelectSorted(rows[1..], c);
      var rest := Select(rows[1..], c);
      assert Select(rows, c) == (if rows[0].country == c then [rows[0]] else []) + rest;
      if rows[0].country == c {
        SelectBounded(rows[1..], c, rows[0].value);
        SortedCons(rows[0], rest);
      }
    }
  }

  /** No row of a filter exceeds a bound on the whole table. */
  lemma SelectBounded(rows: seq<Row>, c: string, v: real)
    requires forall k :: 0 <= k < |rows| ==> rows[k].value <= v
    ensures forall r :: r in Select(rows, c) ==> r.value <= v
  {
  }

  lemma SortedCons(x: Row, rest: seq<Row>)
    requires SortedDesc(rest)
    requires forall r :: r in rest ==> r.value <= x.value
    ensures SortedDesc([x] + rest)
  {
    var s := [x] + rest;
    forall i, j | 0 <= i < j < |s| ensures s[i].value >= s[j].value {
      assert s[j] == rest[j - 1];
      if i > 0 {
        assert s[i] == rest[i - 1];
      }
    }
  }

  /** The first row of country c's filter is the table's first row of c. */
  lemma {:induction false} SelectHead(rows: seq<Row>, c: string, f: nat)
    requires f < |rows| && rows[f].country == c
    requires forall q :: 0 <= q < f ==> rows[q].country != c
    ensures |Select(rows, c)| > 0 && Select(rows, c)[0] == rows[f]
  {
    if f > 0 {
      SelectHead(rows[1..], c, f - 1);
    }
  }

  /** The series of one country of the sorted table (lines 60-68). */
  function LineTrace(rows: seq<Row>, c: string): (t: Trace)
    ensures t.Scatter? && t.mode == "lines" && t.name == c && |t.x| == |t.y|
    ensures forall k :: 0 <= k < |t.x| ==> Row(c, t.x[k], t.y[k]) in rows
  {
    var sel := Select(rows, c);
    Scatter(YearColumn(sel), ValueColumn(sel), "lines", c)
  }

  /** The rows a series plots, read back as (name, x, y) triples. */
  function SeriesRows(t: Trace): (rs: seq<Row>)
  {
    match t
    case Scatter(x, y, _, name) =>
      seq(if |x| <= |y| then |x| else |y|, k requires 0 <= k < |x| && k < |y| => Row(name, x[k], y[k]))
    case Bar(_, _, _) => []
  }

  /** All the rows of a chart's series, series after series. */
  function FlattenRows(graph: seq<Trace>): (rs: seq<Row>)
  {
    if graph == [] then [] else SeriesRows(graph[0]) + FlattenRows(graph[1..])
  }

  /** The rows of the table whose country is one of cs. */
  function Restrict(rows: seq<Row>, cs: seq<string>): (sel: seq<Row>)
  {
    if rows == [] then []
    else (if rows[0].country in cs then [rows[0]] else []) + Restrict(rows[1..], cs)
  }

  /** The country filters for cs, one after the other. */
  function Group(rows: seq<Row>, cs: seq<string>): (grouped: seq<Row>)
  {
    if cs == [] then [] else Select(rows, cs[0]) + Group(rows, cs[1..])
  }

  lemma SeriesRowsOfLineTrace(rows: seq<Row>, c: string)
    ensures SeriesRows(LineTrace(rows, c)) == Select(rows, c)
  {
    var sel := Select(rows, c);
    var got := SeriesRows(LineTrace(rows, c));
    assert |got| == |sel|;
    forall k | 0 <= k < |sel| ensures got[k] == sel[k] {
      assert sel[k] in sel;
    }
  }

  lemma {:induction false} RestrictCons(rows: seq<Row>, c: string, cs: seq<string>)
    requires c !in cs
    ensures multiset(Restrict(rows, [c] + cs)) == multiset(Select(rows, c)) + multiset(Restrict(rows, cs))
  {
    if rows != [] {
      RestrictCons(rows[1..], c, cs);
    }
  }

  lemma {:induction false} RestrictAll(rows: seq<Row>, cs: seq<string>)
    requires forall i :: 0 <= i < |rows| ==> rows[i].country in cs
    ensures Restrict(rows, cs) == rows
  {
    if rows != [] {
      RestrictAll(rows[1..], cs);
    }
  }

  lemma {:induction false} GroupRestrict(rows: seq<Row>, cs: seq<string>)
    requires forall i, j :: 0 <= i < j < |cs| ==> cs[i] != cs[j]
    ensures multiset(Group(rows, cs)) == multiset(Restrict(rows, cs))
  {
    if cs == [] {
      RestrictNone(rows);
    } else {
      GroupRestrict(rows, cs[1..]);
      assert cs == [cs[0]] + cs[1..];
      RestrictCons(rows, cs[0], cs[1..]);
    }
  }

  lemma {:induction false} RestrictNone(rows: seq<Row>)
    ensures Restrict(rows, []) == []
  {
    if rows != [] {
      RestrictNone(rows[1..]);
    }
  }

  lemma {:induction false} FlattenIsGroup(rows: seq<Row>, cs: seq<string>, graph: seq<Trace>)
    requires |graph| == |cs|
    requires forall k :: 0 <= k < |cs| ==> graph[k] == LineTrace(rows, cs[k])
    ensures FlattenRows(graph) == Group(rows, cs)
  {
    if cs != [] {
      FlattenIsGroup(rows, cs[1..], graph[1..]);
      SeriesRowsOfLineTrace(rows, cs[0]);
    }
  }

  /**
    Lines 59-61: splitting a table into its per-country filters, one per
    distinct country, loses no row and duplicates none.
   */
  lemma GroupPartition(rows: seq<Row>)
    ensures multiset(Group(rows, Unique(CountryColumn(rows)))) == multiset(rows)
  {
    var cs := Unique(CountryColumn(rows));
    UniqueProps(CountryColumn(rows));
    GroupRestrict(rows, cs);
    forall i | 0 <= i < |rows| ensures rows[i].country in cs {
      assert CountryColumn(rows)[i] == rows[i].country;
    }
    RestrictAll(rows, cs);
  }

  // ---------------------------------------------------------------------------
  // Line charts (lines 54-69 and 79-94)
  // ---------------------------------------------------------------------------

  ghost predicate IsLineSeries(t: Trace)
  {
    t.Scatter? && t.mode == "lines" && |t.x| == |t.y| > 0 && NonIncreasing(t.y)
  }

  /**
    What a line chart of the table is: one non-empty series in "lines" mode per
    country of the table, each named after its country and with its points in
    descending-value order; the series ordered by their largest value; and
    together the series plot exactly the table's rows.
   */
  ghost predicate LineChartOf(graph: seq<Trace>, table: seq<Row>)
  {
    && (forall k :: 0 <= k < |graph| ==> IsLineSeries(graph[k]))
    && (forall i, j :: 0 <= i < j < |graph| ==>
          graph[i].name != graph[j].name && graph[i].y[0] >= graph[j].y[0])
    && (forall c :: c in CountryColumn(table) <==> exists k :: 0 <= k < |graph| && graph[k].name == c)
    && multiset(FlattenRows(graph)) == multiset(table)
  }

  /** Each series of the sorted table's countries is a non-empty, non-increasing "lines" series. */
  lemma LineTraceIsSeries(sorted: seq<Row>, c: string)
    requires SortedDesc(sorted) && c in CountryColumn(sorted)
    ensures IsLineSeries(LineTrace(sorted, c)) && LineTrace(sorted, c).name == c
  {
    var p :| 0 <= p < |sorted| && CountryColumn(sorted)[p] == c;
    assert sorted[p] in sorted;
    SelectSorted(sorted, c);
  }

  /** A country listed earlier in `countrylist` has a first point at least as large. */
  lemma LineTracesOrdered(sorted: seq<Row>, i: nat, j: nat)
    requires SortedDesc(sorted)
    requires i < j < |Unique(CountryColumn(sorted))|
    ensures var cs := Unique(CountryColumn(sorted));
      |Select(sorted, cs[i])| > 0 && |Select(sorted, cs[j])| > 0 &&
      Select(sorted, cs[i])[0].value >= Select(sorted, cs[j])[0].value
  {
    var cs := Unique(CountryColumn(sorted));
    UniqueProps(CountryColumn(sorted));
    var fj := FirstOf(sorted, cs[j]);
    assert CountryColumn(sorted)[fj] == cs[j];
    assert cs[i] in CountryColumn(sorted)[..fj];
    var q :| 0 <= q < fj && CountryColumn(sorted)[..fj][q] == cs[i];
    assert sorted[q].country == cs[i];
    var fi := FirstOf(sorted, cs[i]);
    assert fi <= q;
    assert sorted[fi].value >= sorted[fj].value;
    SelectHead(sorted, cs[i], fi);
    SelectHead(sorted, cs[j], fj);
  }

  /** The series the loop of lines 59-69 builds from a sorted table form its line chart. */
  lemma LineGraphIsChart(sorted: seq<Row>, table: seq<Row>, graph: seq<Trace>)
    requires SortedDesc(sorted) && multiset(sorted) == multiset(table)
    requires |graph| == |Unique(CountryColumn(sorted))|
    requires forall k :: 0 <= k < |graph| ==> graph[k] == LineTrace(sorted, Unique(CountryColumn(sorted))[k])
    ensures LineChartOf(graph, table)
  {
    var cs := Unique(CountryColumn(sorted));
    UniqueProps(CountryColumn(sorted));
    forall k | 0 <= k < |graph| ensures IsLineSeries(graph[k]) && graph[k].name == cs[k] {
      LineTraceIsSeries(sorted, cs[k]);
    }
    forall i, j | 0 <= i < j < |graph| ensures graph[i].y[0] >= graph[j].y[0] {
      LineTracesOrdered(sorted, i, j);
    }
    forall c ensures c in CountryColumn(table) <==> exists k :: 0 <= k < |graph| && graph[k].name == c {
      CountriesOfPermutation(sorted, table, c);
      if c in cs {
        var k :| 0 <= k < |cs| && cs[k] == c;
        assert graph[k].name == c;
      }
    }
    FlattenIsGroup(sorted, cs, graph);
    GroupPartition(sorted);
  }

  /** The index of the first row of country c. */
  lemma FirstOf(rows: seq<Row>, c: string) returns (f: nat)
    requires c in CountryColumn(rows)
    ensures f < |rows| && rows[f].country == c
    ensures forall q :: 0 <= q < f ==> rows[q].country != c
  {
    var p :| 0 <= p < |rows| && CountryColumn(rows)[p] == c;
    f := 0;
    while rows[f].country != c
      invariant f <= p
      invariant forall q :: 0 <= q < f ==> rows[q].country != c
      decreases p - f
    {
      f := f + 1;
    }
  }

  lemma CountriesOfPermutation(s: seq<Row>, t: seq<Row>, c: string)
    requires multiset(s) == multiset(t)
    ensures c in CountryColumn(s) <==> c in CountryColumn(t)
  {
    if c in CountryColumn(s) {
      var p :| 0 <= p < |s| && CountryColumn(s)[p] == c;
      assert s[p] in multiset(t);
      var q :| 0 <= q < |t| && t[q] == s[p];
      assert CountryColumn(t)[q] == c;
    }
    if c in CountryColumn(t) {
      var p :| 0 <= p < |t| && CountryColumn(t)[p] == c;
      assert t[p] in multiset(s);
      var q :| 0 <= q < |s| && s[q] == t[p];
      assert CountryColumn(s)[q] == c;
    }
  }

  /** Lines 55-69: sort the table, then one "lines" series per country of `countrylist`. */
  method LineGraph(table: seq<Row>) returns (graph: seq<Trace>)
    ensures LineChartOf(graph, table)
  {
    var df := new Row[|table|](i requires 0 <= i < |table| => table[i]);
    assert df[..] == table;
    SortByValueDesc(df);
    var sorted := df[..];
    var countrylist := Unique(CountryColumn(sorted));
    graph := [];
    for k := 0 to |countrylist|
      invariant |graph| == k
      invariant forall j :: 0 <= j < k ==> graph[j] == LineTrace(sorted, countrylist[j])
    {
      var country := countrylist[k];
      var selected := Select(sorted, country);
      graph := graph + [Scatter(YearColumn(selected), ValueColumn(selected), "lines", country)];
    }
    LineGraphIsChart(sorted, table, graph);
  }

  // ---------------------------------------------------------------------------
  // Bar charts (lines 105-115 and 124-134)
  // ---------------------------------------------------------------------------

  /** The (country, value) pair each row contributes to a bar chart. */
  function Pairs(rows: seq<Row>): (ps: seq<(string, real)>)
  {
    seq(|rows|, i requires 0 <= i < |rows| => (rows[i].country, rows[i].value))
  }

  function Zip(labels: seq<string>, ys: seq<real>): (ps: seq<(string, real)>)
    requires |labels| == |ys|
  {
    seq(|labels|, i requires 0 <= i < |labels| => (labels[i], ys[i]))
  }

  /**
    What a bar chart of the table is: one series named "Country" with a bar
    per row, values non-increasing, and the bars being exactly the table's
    (country, value) pairs.
   */
  ghost predicate BarChartOf(t: Trace, table: seq<Row>)
  {
    && t.Bar?
    && t.name == "Country"
    && |t.labels| == |t.y| == |table|
    && NonIncreasing(t.y)
    && multiset(Zip(t.labels, t.y)) == multiset(Pairs(table))
  }

  lemma PairsAppend(a: seq<Row>, b: seq<Row>)
    ensures Pairs(a + b) == Pairs(a) + Pairs(b)
  {
  }

  /** Reordering the rows reorders their pairs alike. */
  lemma {:induction false} PairsPermutation(s: seq<Row>, t: seq<Row>)
    requires multiset(s) == multiset(t)
    ensures multiset(Pairs(s)) == multiset(Pairs(t))
    decreases |s|
  {
    if s == [] {
      assert |t| == |multiset(t)| == 0;
    } else {
      var x := s[0];
      assert x in multiset(t);
      var j :| 0 <= j < |t| && t[j] == x;
      var rest := t[..j] + t[j + 1..];
      assert t == t[..j] + [x] + t[j + 1..];
      assert s == [x] + s[1..];
      assert multiset(t) == multiset(t[..j]) + multiset{x} + multiset(t[j + 1..]);
      assert multiset(s) == multiset{x} + multiset(s[1..]);
      assert multiset(rest) == multiset(t[..j]) + multiset(t[j + 1..]);
      assert multiset(s[1..]) == multiset(s) - multiset{x};
      assert multiset(rest) == multiset(t) - multiset{x};
      PairsPermutation(s[1..], rest);
      PairsAppend([x], s[1..]);
      PairsAppend(t[..j], t[j + 1..]);
      PairsAppend(t[..j] + [x], t[j + 1..]);
      PairsAppend(t[..j], [x]);
    }
  }

  /** Lines 106-115: sort the table, then one bar series over all its rows. */
  method BarGraph(table: seq<Row>) returns (graph: seq<Trace>)
    ensures |graph| == 1 && BarChartOf(graph[0], table)
  {
    var df := new Row[|table|](i requires 0 <= i < |table| => table[i]);
    assert df[..] == table;
    SortByValueDesc(df);
    var sorted := df[..];
    graph := [Bar(CountryColumn(sorted), ValueColumn(sorted), "Country")];
    assert Zip(CountryColumn(sorted), ValueColumn(sorted)) == Pairs(sorted);
    PairsPermutation(sorted, table);
  }
}
