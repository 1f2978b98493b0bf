/**
  The indicator fetcher `get_data`: one provider response is read into a
  per-country dictionary of years and values (whose result is then discarded,
  but whose failures are not) and into a table of (country, year, value) rows
  with the null values dropped.
 */
module Fetch {
  import opened Wrappers
  import opened IntParse

  /** One observation object of the response: `country.value`, `date` and `value` (JSON null is None). */
  datatype Entry = Entry(country: string, date: string, value: Option<real>)

  /** One element of the top-level JSON array of the response. */
  datatype Element =
    | Metadata                             // element 0: pagination metadata
    | Observations(entries: seq<Entry>)    // element 1: the list of observation objects
    | OtherJson                            // any other JSON value (null, a number, a string, an object)

  /**
    What the HTTP call yields: the request failed or its body is not JSON, or
    the body parsed as JSON.  A top-level JSON value that is not an array (an
    object, `null`, a number) is written `Body([])`, since indexing it raises
    just as indexing a short array does.
   */
  datatype Response = TransportFailure | Body(elements: seq<Element>)

  /** The indicator, the semicolon-separated country codes and the date range of one call. */
  datatype Request = Request(indicator: string, countries: string, years: string)

  datatype Error =
    | Transport                 // the request failed or its body is not JSON
    | Malformed                 // missing element, non-list observations, or no columns to select
    | BadDate(date: string)     // int(date) raised
    | YearOverflow(date: string) // astype('int') raised: the year does not fit a 64-bit integer
    | NullValue(country: string) // float(None) raised in the side loop

  /** The `[years, values]` pair the side dictionary holds for one country. */
  datatype Lists = Lists(years: seq<int>, values: seq<real>)

  /** A row of the table `get_data` returns. */
  datatype Row = Row(country: string, year: int, value: real)

  /** A row after `astype('int')` and before `dropna`. */
  datatype RawRow = RawRow(country: string, year: int, value: Option<real>)

  // ---------------------------------------------------------------------------
  // The side dictionary (wrangle_data.py lines 20-28)
  // ---------------------------------------------------------------------------

  function CountriesOf(entries: seq<Entry>): (cs: set<string>)
  {
    set i | 0 <= i < |entries| :: entries[i].country
  }

  /** Entry i belongs to a country that an earlier entry already put in the dictionary. */
  predicate SeenBefore(entries: seq<Entry>, i: nat)
    requires i < |entries|
  {
    entries[i].country in CountriesOf(entries[..i])
  }

  /** Entry i makes the side loop raise: it is a later entry of its country and
      its date is not an integer or its value is null. */
  predicate FailsAt(entries: seq<Entry>, i: nat)
  {
    i < |entries| && SeenBefore(entries, i) &&
    (ParseInt(entries[i].date).None? || entries[i].value.None?)
  }

  /** The exception a failing entry raises: `int(date)` is evaluated before `float(value)`. */
  function FailureOf(e: Entry): (err: Error)
  {
    if ParseInt(e.date).None? then BadDate(e.date) else NullValue(e.country)
  }

  /** The first failing entry at or after i, if any. */
  function FirstFailureFrom(entries: seq<Entry>, i: nat): (k: Option<nat>)
    requires i <= |entries|
    decreases |entries| - i
    ensures k.Some? ==> i <= k.value < |entries| && FailsAt(entries, k.value)
    ensures k.Some? ==> forall j :: i <= j < k.value ==> !FailsAt(entries, j)
    ensures k.None? ==> forall j :: i <= j < |entries| ==> !FailsAt(entries, j)
  {
    if i == |entries| then None
    else if FailsAt(entries, i) then Some(i)
    else FirstFailureFrom(entries, i + 1)
  }

  function FirstFailure(entries: seq<Entry>): (k: Option<nat>)
  {
    FirstFailureFrom(entries, 0)
  }

  /** The entries of country c, in provider order. */
  function ForCountry(entries: seq<Entry>, c: string): (f: seq<Entry>)
  {
    if entries == [] then []
    else
      var last := entries[|entries| - 1];
      ForCountry(entries[..|entries| - 1], c) + (if last.country == c then [last] else [])
  }

  /** The entries of country c after its first one: the ones the side loop records. */
  function Later(entries: seq<Entry>, c: string): (l: seq<Entry>)
  {
    var f := ForCountry(entries, c);
    if f == [] then [] else f[1..]
  }

  /** `int(date)`; only looked at for entries whose date parses. */
  function YearOf(e: Entry): (y: int)
  {
    if ParseInt(e.date).Some? then ParseInt(e.date).value else 0
  }

  /** `float(value)`; only looked at for entries whose value is present. */
  function ValueOf(e: Entry): (v: real)
  {
    if e.value.Some? then e.value.value else 0.0
  }

  function YearsOf(es: seq<Entry>): (ys: seq<int>)
  {
    seq(|es|, k requires 0 <= k < |es| => YearOf(es[k]))
  }

  function ValuesOf(es: seq<Entry>): (vs: seq<real>)
  {
    seq(|es|, k requires 0 <= k < |es| => ValueOf(es[k]))
  }

  lemma CountriesOfSnoc(s: seq<Entry>, e: Entry)
    ensures CountriesOf(s + [e]) == CountriesOf(s) + {e.country}
  {
    var t := s + [e];
    forall c | c in CountriesOf(t) ensures c in CountriesOf(s) + {e.country} {
      var i :| 0 <= i < |t| && t[i].country == c;
      if i < |s| { assert s[i] == t[i]; }
    }
    forall c | c in CountriesOf(s) ensures c in CountriesOf(t) {
      var i :| 0 <= i < |s| && s[i].country == c;
      assert t[i] == s[i];
    }
    assert t[|s|] == e;
  }

  lemma {:induction false} ForCountryEmpty(s: seq<Entry>, c: string)
    ensures ForCountry(s, c) == [] <==> c !in CountriesOf(s)
  {
    if s != [] {
      var init, last := s[..|s| - 1], s[|s| - 1];
      assert s == init + [last];
      ForCountryEmpty(init, c);
      CountriesOfSnoc(init, last);
    }
  }

  lemma ForCountrySnoc(s: seq<Entry>, e: Entry, c: string)
    ensures ForCountry(s + [e], c) == ForCountry(s, c) + (if e.country == c then [e] else [])
  {
    assert (s + [e])[..|s|] == s;
  }

  /** How the recorded entries of c change when entry e is processed. */
  lemma LaterSnoc(s: seq<Entry>, e: Entry, c: string)
    ensures Later(s + [e], c) ==
      if e.country == c && c in CountriesOf(s) then Later(s, c) + [e]
      else if e.country == c then []
      else Later(s, c)
  {
    ForCountrySnoc(s, e, c);
    ForCountryEmpty(s, c);
    if e.country == c && c in CountriesOf(s) {
      var f := ForCountry(s, c);
      assert (f + [e])[1..] == f[1..] + [e];
    }
  }

  lemma YearsValuesSnoc(es: seq<Entry>, e: Entry)
    ensures YearsOf(es + [e]) == YearsOf(es) + [YearOf(e)]
    ensures ValuesOf(es + [e]) == ValuesOf(es) + [ValueOf(e)]
  {
  }

  /** The dictionary after the side loop has processed the entries s. */
  ghost predicate Records(data: map<string, Lists>, s: seq<Entry>)
  {
    && data.Keys == CountriesOf(s)
    && forall c :: c in data ==> data[c] == Lists(YearsOf(Later(s, c)), ValuesOf(Later(s, c)))
  }

  /** A first entry of its country initialises `[[], []]`. */
  lemma RecordFirst(data: map<string, Lists>, s: seq<Entry>, e: Entry)
    requires Records(data, s) && e.country !in data
    ensures Records(data[e.country := Lists([], [])], s + [e])
  {
    var data' := data[e.country := Lists([], [])];
    CountriesOfSnoc(s, e);
    forall c | c in data'
      ensures data'[c] == Lists(YearsOf(Later(s + [e], c)), ValuesOf(Later(s + [e], c)))
    {
      LaterSnoc(s, e, c);
    }
  }

  /** A later entry appends its parsed year and its value. */
  lemma RecordLater(data: map<string, Lists>, s: seq<Entry>, e: Entry)
    requires Records(data, s) && e.country in data
    requires ParseInt(e.date).Some? && e.value.Some?
    ensures Records(data[e.country := Lists(data[e.country].years + [ParseInt(e.date).value],
                                            data[e.country].values + [e.value.value])], s + [e])
  {
    var data' := data[e.country := Lists(data[e.country].years + [ParseInt(e.date).value],
                                         data[e.country].values + [e.value.value])];
    CountriesOfSnoc(s, e);
    forall c | c in data'
      ensures data'[c] == Lists(YearsOf(Later(s + [e], c)), ValuesOf(Later(s + [e], c)))
    {
      LaterSnoc(s, e, c);
      YearsValuesSnoc(Later(s, c), e);
    }
  }

  /** An entry that fails with none failing before it is the first failure. */
  lemma FirstFailureIs(entries: seq<Entry>, i: nat)
    requires FailsAt(entries, i)
    requires forall j :: 0 <= j < i ==> !FailsAt(entries, j)
    ensures FirstFailure(entries) == Some(i)
  {
  }

  /**
    The loop of lines 20-28. The first entry of a country only initialises
    `[[], []]`; every later one appends `int(date)` and `float(value)`, and
    raises when either conversion does. The dictionary is returned so that
    its contents can be stated; `get_data` discards it.
   */
  method RecordByCountry(entries: seq<Entry>) returns (r: Result<map<string, Lists>, Error>)
    ensures FirstFailure(entries).Some? ==>
      r == Err(FailureOf(entries[FirstFailure(entries).value]))
    ensures FirstFailure(entries).None? ==> r.Ok? && Records(r.value, entries)
  {
    var data: map<string, Lists> := map[];
    var i := 0;
    while i < |entries|
      invariant 0 <= i <= |entries|
      invariant forall j :: 0 <= j < i ==> !FailsAt(entries, j)
      invariant Records(data, entries[..i])
    {
      var step := RecordEntry(data, entries[..i], entries[i]);
      if step.Err? {
        assert FailsAt(entries, i);
        FirstFailureIs(entries, i);
        return Err(step.error);
      }
      assert entries[..i + 1] == entries[..i] + [entries[i]];
      data := step.value;
      i := i + 1;
    }
    assert entries[..i] == entries;
    return Ok(data);
  }

  /** One pass of the loop body (lines 24-28) on the dictionary built from the entries s. */
  method RecordEntry(data: map<string, Lists>, ghost s: seq<Entry>, e: Entry)
    returns (r: Result<map<string, Lists>, Error>)
    requires Records(data, s)
    ensures r.Err? <==> e.country in CountriesOf(s) && (ParseInt(e.date).None? || e.value.None?)
    ensures r.Err? ==> r.error == FailureOf(e)
    ensures r.Ok? ==> Records(r.value, s + [e])
  {
    if e.country in data {
      var year := ParseInt(e.date);
      if year.None? {
        return Err(BadDate(e.date));
      }
      if e.value.None? {
        return Err(NullValue(e.country));
      }
      RecordLater(data, s, e);
      var lists := data[e.country];
      return Ok(data[e.country := Lists(lists.years + [year.value], lists.values + [e.value.value])]);
    } else {
      RecordFirst(data, s, e);
      return Ok(data[e.country := Lists([], [])]);
    }
  }

  /** The countries of a list of entries, one per entry. */
  function CountryList(entries: seq<Entry>): (names: seq<string>)
  {
    seq(|entries|, i requires 0 <= i < |entries| => entries[i].country)
  }

  lemma {:induction false} ForCountryCount(s: seq<Entry>, c: string)
    ensures |ForCountry(s, c)| == multiset(CountryList(s))[c]
    ensures forall k :: 0 <= k < |ForCountry(s, c)| ==> ForCountry(s, c)[k].country == c
  {
    if s != [] {
      var init, last := s[..|s| - 1], s[|s| - 1];
      assert CountryList(s) == CountryList(init) + [last.country];
      ForCountryCount(init, c);
    }
  }

  /**
    Lines 22-28 on success: each country's two lists have equal length, one
    less than the number of entries of that country.
   */
  lemma SideListsShape(entries: seq<Entry>, c: string)
    requires c in CountriesOf(entries)
    ensures |YearsOf(Later(entries, c))| == |ValuesOf(Later(entries, c))|
    ensures |YearsOf(Later(entries, c))| + 1 == multiset(CountryList(entries))[c]
  {
    ForCountryEmpty(entries, c);
    ForCountryCount(entries, c);
  }

  /** The recorded entries of c are entries (at indices seen before) of c, in order. */
  lemma {:induction false} LaterAreSeenEntries(s: seq<Entry>, c: string, k: nat)
    requires k < |Later(s, c)|
    ensures exists i :: 0 <= i < |s| && SeenBefore(s, i) && s[i] == Later(s, c)[k]
  {
    var init, last := s[..|s| - 1], s[|s| - 1];
    assert s == init + [last];
    LaterSnoc(init, last, c);
    if k < |Later(init, c)| {
      LaterAreSeenEntries(init, c, k);
      var i :| 0 <= i < |init| && SeenBefore(init, i) && init[i] == Later(init, c)[k];
      assert s[..i] == init[..i];
    } else {
      assert s[..|s| - 1] == init;
      assert SeenBefore(s, |s| - 1);
    }
  }

  /**
    Lines 25-26 on success: every recorded year is the integer parse of its
    entry's date and every recorded value is that entry's (non-null) value.
   */
  lemma SideListsExact(entries: seq<Entry>, c: string, k: nat)
    requires FirstFailure(entries).None?
    requires k < |Later(entries, c)|
    ensures ParseInt(Later(entries, c)[k].date) == Some(YearsOf(Later(entries, c))[k])
    ensures Later(entries, c)[k].value == Some(ValuesOf(Later(entries, c))[k])
  {
    LaterAreSeenEntries(entries, c, k);
    var i :| 0 <= i < |entries| && SeenBefore(entries, i) && entries[i] == Later(entries, c)[k];
    assert !FailsAt(entries, i);
  }

  // ---------------------------------------------------------------------------
  // The returned table (wrangle_data.py lines 30-38)
  // ---------------------------------------------------------------------------

  /** The range of the 64-bit integers `astype('int')` converts to. */
  predicate IsInt64(n: int)
  {
    -0x8000_0000_0000_0000 <= n < 0x8000_0000_0000_0000
  }

  /** `astype('int')` accepts a date when it is an integer literal whose value fits 64 bits. */
  predicate YearConverts(date: string)
  {
    ParseInt(date).Some? && IsInt64(ParseInt(date).value)
  }

  /** What `astype('int')` raises on a date it does not accept: ValueError, or OverflowError. */
  function YearError(date: string): (err: Error)
  {
    if ParseInt(date).None? then BadDate(date) else YearOverflow(date)
  }

  /**
    `df['year'].astype('int')`: it succeeds exactly when every date converts,
    mapping each entry to its row in place; otherwise the first date that does
    not convert raises.
   */
  function ParseYears(entries: seq<Entry>): (r: Result<seq<RawRow>, Error>)
    ensures r.Ok? <==> forall i :: 0 <= i < |entries| ==> YearConverts(entries[i].date)
    ensures r.Ok? ==> |r.value| == |entries|
    ensures r.Ok? ==> forall i :: 0 <= i < |entries| ==>
      r.value[i] == RawRow(entries[i].country, ParseInt(entries[i].date).value, entries[i].value)
    ensures r.Err? ==>
      exists i :: 0 <= i < |entries| && !YearConverts(entries[i].date) &&
        (forall j :: 0 <= j < i ==> YearConverts(entries[j].date)) && r.error == YearError(entries[i].date)
  {
    if entries == [] then Ok([])
    else if !YearConverts(entries[0].date) then Err(YearError(entries[0].date))
    else
      match ParseYears(entries[1..])
      case Err(e) => Err(e)
      case Ok(rest) => Ok([RawRow(entries[0].country, ParseInt(entries[0].date).value, entries[0].value)] + rest)
  }

  /** `dropna()`: the rows whose value is present, in order, and no others. */
  function DropNulls(rows: seq<RawRow>): (t: seq<Row>)
    ensures |t| <= |rows|
  {
    if rows == [] then []
    else
      (if rows[0].value.Some? then [Row(rows[0].country, rows[0].year, rows[0].value.value)] else [])
      + DropNulls(rows[1..])
  }

  /** Each row `dropna()` keeps is a given row with a present value, and every such row is kept. */
  lemma {:induction false} DropNullsKeeps(rows: seq<RawRow>)
    ensures forall x :: x in DropNulls(rows) ==> RawRow(x.country, x.year, Some(x.value)) in rows
    ensures forall x :: x in rows && x.value.Some? ==> Row(x.country, x.year, x.value.value) in DropNulls(rows)
  {
    if rows != [] {
      DropNullsKeeps(rows[1..]);
      var head := if rows[0].value.Some? then [Row(rows[0].country, rows[0].year, rows[0].value.value)] else [];
      assert DropNulls(rows) == head + DropNulls(rows[1..]);
      assert rows == [rows[0]] + rows[1..];
    }
  }

  /** The indices, from i on, of the entries whose value is present. */
  function NonNullIndicesFrom(entries: seq<Entry>, i: nat): (ks: seq<nat>)
    requires i <= |entries|
    decreases |entries| - i
  {
    if i == |entries| then []
    else (if entries[i].value.Some? then [i] else []) + NonNullIndicesFrom(entries, i + 1)
  }

  function NonNullIndices(entries: seq<Entry>): (ks: seq<nat>)
  {
    NonNullIndicesFrom(entries, 0)
  }

  predicate Increasing(ks: seq<nat>)
  {
    forall a, b :: 0 <= a < b < |ks| ==> ks[a] < ks[b]
  }

  /** Row i of the table, read from entry i, when its date parses and its value is present. */
  predicate RowFrom(t: Row, e: Entry)
  {
    e.value.Some? && ParseInt(e.date).Some? &&
    t == Row(e.country, ParseInt(e.date).value, e.value.value)
  }

  /** The kept indices from i on are increasing, in range, and cover every entry with a value. */
  lemma NonNullIndicesFromProps(entries: seq<Entry>, i: nat)
    requires i <= |entries|
    ensures forall k :: 0 <= k < |NonNullIndicesFrom(entries, i)| ==>
      i <= NonNullIndicesFrom(entries, i)[k] < |entries| && entries[NonNullIndicesFrom(entries, i)[k]].value.Some?
    ensures Increasing(NonNullIndicesFrom(entries, i))
    ensures forall j :: i <= j < |entries| && entries[j].value.Some? ==> j in NonNullIndicesFrom(entries, i)
  {
    NonNullIndicesInRange(entries, i);
    NonNullIndicesIncreasing(entries, i);
    NonNullIndicesCover(entries, i);
  }

  lemma {:induction false} NonNullIndicesInRange(entries: seq<Entry>, i: nat)
    requires i <= |entries|
    decreases |entries| - i
    ensures forall k :: 0 <= k < |NonNullIndicesFrom(entries, i)| ==>
      i <= NonNullIndicesFrom(entries, i)[k] < |entries| && entries[NonNullIndicesFrom(entries, i)[k]].value.Some?
  {
    if i < |entries| {
      NonNullIndicesInRange(entries, i + 1);
      var ks, rest := NonNullIndicesFrom(entries, i), NonNullIndicesFrom(entries, i + 1);
      var head: seq<nat> := if entries[i].value.Some? then [i] else [];
      assert ks == head + rest;
      forall k | 0 <= k < |ks| ensures i <= ks[k] < |entries| && entries[ks[k]].value.Some? {
        if k >= |head| {
          assert ks[k] == rest[k - |head|];
        }
      }
    }
  }

  lemma {:induction false} NonNullIndicesIncreasing(entries: seq<Entry>, i: nat)
    requires i <= |entries|
    decreases |entries| - i
    ensures Increasing(NonNullIndicesFrom(entries, i))
  {
    if i < |entries| {
      NonNullIndicesIncreasing(entries, i + 1);
      NonNullIndicesInRange(entries, i + 1);
      var ks, rest := NonNullIndicesFrom(entries, i), NonNullIndicesFrom(entries, i + 1);
      var head: seq<nat> := if entries[i].value.Some? then [i] else [];
      assert ks == head + rest;
      forall a, b | 0 <= a < b < |ks| ensures ks[a] < ks[b] {
        assert ks[b] == rest[b - |head|];
        if a >= |head| {
          assert ks[a] == rest[a - |head|];
        }
      }
    }
  }

  lemma {:induction false} NonNullIndicesCover(entries: seq<Entry>, i: nat)
    requires i <= |entries|
    decreases |entries| - i
    ensures forall j :: i <= j < |entries| && entries[j].value.Some? ==> j in NonNullIndicesFrom(entries, i)
  {
    if i < |entries| {
      NonNullIndicesCover(entries, i + 1);
      var ks, rest := NonNullIndicesFrom(entries, i), NonNullIndicesFrom(entries, i + 1);
      var head: seq<nat> := if entries[i].value.Some? then [i] else [];
      assert ks == head + rest;
      forall j | i <= j < |entries| && entries[j].value.Some? ensures j in ks {
        if j > i {
          assert j in rest;
        }
      }
    }
  }

  lemma DropNullsFrom(entries: seq<Entry>, raw: seq<RawRow>, i: nat)
    requires |raw| == |entries| && i <= |entries|
    requires forall j :: 0 <= j < |entries| ==>
      ParseInt(entries[j].date).Some? &&
      raw[j] == RawRow(entries[j].country, ParseInt(entries[j].date).value, entries[j].value)
    ensures |DropNulls(raw[i..])| == |NonNullIndicesFrom(entries, i)|
    ensures forall k :: 0 <= k < |NonNullIndicesFrom(entries, i)| ==>
      i <= NonNullIndicesFrom(entries, i)[k] < |entries| &&
      RowFrom(DropNulls(raw[i..])[k], entries[NonNullIndicesFrom(entries, i)[k]])
    ensures Increasing(NonNullIndicesFrom(entries, i))
    ensures forall j :: i <= j < |entries| && entries[j].value.Some? ==> j in NonNullIndicesFrom(entries, i)
  {
    NonNullIndicesFromProps(entries, i);
    DropNullsRows(entries, raw, i);
  }

  /** From index i on, there are as many rows without nulls as entries with a value. */
  lemma {:induction false} DropNullsLength(entries: seq<Entry>, raw: seq<RawRow>, i: nat)
    requires |raw| == |entries| && i <= |entries|
    requires forall j :: 0 <= j < |entries| ==> raw[j].value == entries[j].value
    decreases |entries| - i
    ensures |DropNulls(raw[i..])| == |NonNullIndicesFrom(entries, i)|
  {
    if i < |entries| {
      DropNullsLength(entries, raw, i + 1);
      assert raw[i..][1..] == raw[i + 1..];
      assert DropNulls(raw[i..]) ==
        (if raw[i].value.Some? then [Row(raw[i].country, raw[i].year, raw[i].value.value)] else []) +
        DropNulls(raw[i + 1..]);
    }
  }

  /** From index i on, the k-th row without nulls is read from the k-th entry with a value. */
  lemma {:induction false} DropNullsRows(entries: seq<Entry>, raw: seq<RawRow>, i: nat)
    requires |raw| == |entries| && i <= |entries|
    requires forall j :: 0 <= j < |entries| ==>
      ParseInt(entries[j].date).Some? &&
      raw[j] == RawRow(entries[j].country, ParseInt(entries[j].date).value, entries[j].value)
    decreases |entries| - i
    ensures |DropNulls(raw[i..])| == |NonNullIndicesFrom(entries, i)|
    ensures forall k :: 0 <= k < |NonNullIndicesFrom(entries, i)| ==>
      i <= NonNullIndicesFrom(entries, i)[k] < |entries| &&
      RowFrom(DropNulls(raw[i..])[k], entries[NonNullIndicesFrom(entries, i)[k]])
  {
    DropNullsLength(entries, raw, i);
    NonNullIndicesInRange(entries, i);
    if i < |entries| {
      DropNullsRows(entries, raw, i + 1);
      assert raw[i..][1..] == raw[i + 1..];
      var t, rest := DropNulls(raw[i..]), DropNulls(raw[i + 1..]);
      var ks, later := NonNullIndicesFrom(entries, i), NonNullIndicesFrom(entries, i + 1);
      var head := if raw[i].value.Some? then [Row(raw[i].country, raw[i].year, raw[i].value.value)] else [];
      var first: seq<nat> := if entries[i].value.Some? then [i] else [];
      assert t == head + rest;
      assert ks == first + later;
      assert |head| == |first|;
      forall k | 0 <= k < |ks| ensures i <= ks[k] < |entries| && RowFrom(t[k], entries[ks[k]]) {
        if k < |head| {
          assert t[k] == head[0] && ks[k] == i;
        } else {
          assert t[k] == rest[k - |head|] && ks[k] == later[k - |head|];
        }
      }
    }
  }

  /**
    The table: an empty observation list has no columns to select (KeyError);
    otherwise it exists exactly when every year converts, and has no more rows
    than there are entries.
   */
  function Clean(entries: seq<Entry>): (r: Result<seq<Row>, Error>)
    ensures entries == [] ==> r == Err(Malformed)
    ensures r.Ok? <==> entries != [] && forall i :: 0 <= i < |entries| ==> YearConverts(entries[i].date)
    ensures r.Ok? ==> |r.value| <= |entries|
  {
    if entries == [] then Err(Malformed)
    else
      match ParseYears(entries)
      case Err(e) => Err(e)
      case Ok(raw) => Ok(DropNulls(raw))
  }

  /**
    Lines 30-38: the table exists exactly when the list is non-empty and every
    date parses (a bad date raises even on a null row); it then holds exactly
    the entries with a value, in provider order, each year being the integer
    parse of its date. Nothing is zero-filled.
   */
  lemma CleanTable(entries: seq<Entry>)
    ensures Clean(entries).Ok? <==>
      entries != [] && forall i :: 0 <= i < |entries| ==> YearConverts(entries[i].date)
    ensures Clean(entries).Ok? ==>
      var t, ks := Clean(entries).value, NonNullIndices(entries);
      && |t| == |ks|
      && Increasing(ks)
      && (forall k :: 0 <= k < |ks| ==> ks[k] < |entries| && RowFrom(t[k], entries[ks[k]]))
      && (forall j :: 0 <= j < |entries| && entries[j].value.Some? ==> j in ks)
  {
    if Clean(entries).Ok? {
      var raw := ParseYears(entries).value;
      DropNullsFrom(entries, raw, 0);
      assert raw[0..] == raw;
    }
  }

  /** Filtering nulls is idempotent: the table, given back its values, loses nothing more. */
  lemma {:induction false} DropNullsIdempotent(rows: seq<RawRow>)
    ensures DropNulls(Relift(DropNulls(rows))) == DropNulls(rows)
  {
    if rows != [] {
      DropNullsIdempotent(rows[1..]);
      var head := if rows[0].value.Some? then [Row(rows[0].country, rows[0].year, rows[0].value.value)] else [];
      ReliftAppend(head, DropNulls(rows[1..]));
      var lifted := Relift(head) + Relift(DropNulls(rows[1..]));
      if head != [] {
        assert lifted[1..] == Relift(DropNulls(rows[1..]));
      } else {
        assert lifted == Relift(DropNulls(rows[1..]));
      }
    }
  }

  /** A table row seen again as a row with a present value. */
  function Relift(t: seq<Row>): (raw: seq<RawRow>)
  {
    seq(|t|, k requires 0 <= k < |t| => RawRow(t[k].country, t[k].year, Some(t[k].value)))
  }

  lemma ReliftAppend(a: seq<Row>, b: seq<Row>)
    ensures Relift(a + b) == Relift(a) + Relift(b)
  {
  }

  // ---------------------------------------------------------------------------
  // get_data (wrangle_data.py lines 9-38)
  // ---------------------------------------------------------------------------

  /** `r.json()[0]` and `r.json()[1]`: the body must have two elements, the second a list. */
  function ObservationsOf(response: Response): (r: Result<seq<Entry>, Error>)
  {
    match response
    case TransportFailure => Err(Transport)
    case Body(elements) =>
      if |elements| >= 2 && elements[1].Observations? then Ok(elements[1].entries) else Err(Malformed)
  }

  /**
    What `get_data` returns or raises for a response: a table never has more
    rows than the observation list has entries.
   */
  function Fetched(response: Response): (r: Result<seq<Row>, Error>)
    ensures r.Ok? ==> ObservationsOf(response).Ok? && |r.value| <= |ObservationsOf(response).value|
  {
    match ObservationsOf(response)
    case Err(e) => Err(e)
    case Ok(entries) =>
      match FirstFailure(entries)
      case Some(k) => Err(FailureOf(entries[k]))
      case None => Clean(entries)
  }

  /** `get_data`: one call to the provider, the side loop, then the table. */
  method GetData(provider: Request -> Response, indicator: string := "SP.RUR.TOTL",
                 countries: string := "au;ca;us", years: string := "2010:2020")
    returns (df: Result<seq<Row>, Error>)
    ensures df == Fetched(provider(Request(indicator, countries, years)))
  {
    var response := provider(Request(indicator, countries, years));
    var observations := ObservationsOf(response);
    if observations.Err? {
      return Err(observations.error);
    }
    var entries := observations.value;
    var data := RecordByCountry(entries);
    if data.Err? {
      return Err(data.error);
    }
    df := Clean(entries);
  }

  /**
    When `get_data` succeeds: the body is well formed, its list is non-empty,
    every date parses and no later entry of a country is null.
   */
  lemma FetchedOk(response: Response)
    ensures Fetched(response).Ok? <==>
      && ObservationsOf(response).Ok?
      && var entries := ObservationsOf(response).value;
         && entries != []
         && (forall i :: 0 <= i < |entries| ==> YearConverts(entries[i].date))
         && (forall i :: 0 <= i < |entries| && SeenBefore(entries, i) ==> entries[i].value.Some?)
    ensures Fetched(response).Ok? ==> Fetched(response) == Clean(ObservationsOf(response).value)
  {
    if ObservationsOf(response).Ok? {
      var entries := ObservationsOf(response).value;
      CleanTable(entries);
      if FirstFailure(entries).Some? {
        var k := FirstFailure(entries).value;
        assert FailsAt(entries, k);
        assert ParseInt(entries[k].date).None? || (SeenBefore(entries, k) && entries[k].value.None?);
      } else {
        forall i | 0 <= i < |entries| && SeenBefore(entries, i) ensures entries[i].value.Some? {
          assert !FailsAt(entries, i);
        }
      }
    }
  }

  /** Line 26 runs before line 36: a null in any entry but a country's first makes the call raise. */
  lemma LaterNullRaises(response: Response, i: nat)
    requires ObservationsOf(response).Ok?
    requires i < |ObservationsOf(response).value|
    requires SeenBefore(ObservationsOf(response).value, i)
    requires ObservationsOf(response).value[i].value.None?
    ensures Fetched(response).Err?
    ensures Fetched(response).error.BadDate? || Fetched(response).error.NullValue?
  {
    assert FailsAt(ObservationsOf(response).value, i);
    FetchedOk(response);
  }

  /** A null in a country's first entry only initialises the dictionary and is dropped from the table. */
  lemma FirstEntryNullDropped(response: Response, i: nat)
    requires Fetched(response).Ok?
    requires i < |ObservationsOf(response).value|
    requires ObservationsOf(response).value[i].value.None?
    ensures !SeenBefore(ObservationsOf(response).value, i)
    ensures i !in NonNullIndices(ObservationsOf(response).value)
  {
    var entries := ObservationsOf(response).value;
    FetchedOk(response);
    NonNullIndicesExclude(entries, 0, i);
  }

  lemma {:induction false} NonNullIndicesExclude(entries: seq<Entry>, from: nat, i: nat)
    requires from <= |entries| && i < |entries| && entries[i].value.None?
    decreases |entries| - from
    ensures i !in NonNullIndicesFrom(entries, from)
  {
    if from < |entries| {
      NonNullIndicesExclude(entries, from + 1, i);
    }
  }

  /** A body without a second element, or whose second element is not a list, makes `get_data` fail as Malformed. */
  lemma MalformedBodyFails(elements: seq<Element>)
    requires |elements| < 2 || !elements[1].Observations?
    ensures Fetched(Body(elements)) == Err(Malformed)
  {
  }

  /** Any transport failure is passed on unchanged. */
  lemma TransportFailurePropagates()
    ensures Fetched(TransportFailure) == Err(Transport)
  {
  }

  /** Australia 2015, Australia 2016 with a null value, Canada 2015. */
  const NullSecondEntries := [
    Entry("Australia", "2015", Some(10.0)),
    Entry("Australia", "2016", None),
    Entry("Canada", "2015", Some(5.0))]

  /** The same observations with the null entry listed first. */
  const NullFirstEntries := [
    Entry("Australia", "2016", None),
    Entry("Australia", "2015", Some(10.0)),
    Entry("Canada", "2015", Some(5.0))]

  /** A null in Australia's second entry makes `float(None)` raise before `dropna` is reached. */
  lemma NullSecondEntryRaises()
    ensures Fetched(Body([Metadata, Observations(NullSecondEntries)])) == Err(NullValue("Australia"))
  {
    var es := NullSecondEntries;
    ParseFourDigits("2016");
    assert es[..1] == [es[0]];
    assert SeenBefore(es, 1);
    assert FailsAt(es, 1);
    assert !FailsAt(es, 0);
    FirstFailureIs(es, 1);
  }

  /** With the null entry first, it only initialises the dictionary and is dropped. */
  lemma NullFirstEntryDropped()
    ensures Fetched(Body([Metadata, Observations(NullFirstEntries)])) ==
      Ok([Row("Australia", 2015, 10.0), Row("Canada", 2015, 5.0)])
  {
    var es := NullFirstEntries;
    NullFirstEntriesPass();
    var raw := NullFirstEntriesYears();
    NullFirstRowsDropped(raw);
    var elements := [Metadata, Observations(es)];
    assert |elements| == 2 && elements[1] == Observations(es);
    assert ObservationsOf(Body(elements)) == Ok(es);
    assert Clean(es) == Ok(DropNulls(raw));
  }

  lemma NullFirstRowsDropped(raw: seq<RawRow>)
    requires raw == [RawRow("Australia", 2016, None), RawRow("Australia", 2015, Some(10.0)),
                     RawRow("Canada", 2015, Some(5.0))]
    ensures DropNulls(raw) == [Row("Australia", 2015, 10.0), Row("Canada", 2015, 5.0)]
  {
    assert raw[1..][1..] == [raw[2]];
    assert DropNulls([raw[2]]) == [Row("Canada", 2015, 5.0)];
    assert DropNulls(raw[1..]) == [Row("Australia", 2015, 10.0), Row("Canada", 2015, 5.0)];
  }

  lemma NullFirstEntriesPass()
    ensures FirstFailure(NullFirstEntries) == None
  {
    var es := NullFirstEntries;
    ParseFourDigits("2015");
    assert es[..1] == [es[0]] && es[..2] == [es[0], es[1]];
    assert CountriesOf(es[..1]) == {"Australia"};
    assert CountriesOf(es[..2]) == {"Australia"};
    assert !FailsAt(es, 0) && !FailsAt(es, 1) && !FailsAt(es, 2);
  }

  lemma NullFirstEntriesYears() returns (raw: seq<RawRow>)
    ensures raw == [RawRow("Australia", 2016, None), RawRow("Australia", 2015, Some(10.0)),
                    RawRow("Canada", 2015, Some(5.0))]
    ensures ParseYears(NullFirstEntries) == Ok(raw)
  {
    var es := NullFirstEntries;
    ParseFourDigits("2016");
    ParseFourDigits("2015");
    raw := [RawRow("Australia", 2016, None), RawRow("Australia", 2015, Some(10.0)),
            RawRow("Canada", 2015, Some(5.0))];
    assert ParseInt(es[0].date) == Some(2016);
    assert ParseInt(es[1].date) == Some(2015) && ParseInt(es[2].date) == Some(2015);
    var pr := ParseYears(es);
    assert pr.Ok?;
    assert |pr.value| == 3;
    assert pr.value[0] == raw[0];
    assert pr.value[1] == raw[1];
    assert pr.value[2] == raw[2];
    assert pr.value == raw;
  }
}
