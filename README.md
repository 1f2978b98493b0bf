# World Bank indicator dashboard: data wrangling model

This project models `wrangling_scripts/wrangle_data.py`. That file fetches World Bank
indicator data for Australia, Canada and the United States and turns it into
four Plotly figure descriptions: two line charts and two bar charts.

- `IntParse` (`int_parse.dfy`) models Python's `int(...)` on a date string.
  It accepts an optional sign followed by ASCII digits. Every decimal rendering
  `ShowInt(n)` parses back to `n`, so `ShowInt` is a right inverse of `ParseInt`;
  `ParseInt` itself is not injective ("015", "+15" and "15" all denote 15).
- `Fetch` (`fetch.dfy`) models `get_data`:
  - The HTTP call is a provider function `Request -> Response`, passed as a parameter.
  - The side loop builds a per-country dictionary of year and value lists
    (`RecordByCountry`). It raises on a later entry whose date does not parse
    or whose value is null. A country's first entry only initialises that
    country's lists.
  - The cleaned table (`Clean`) keeps `(country, int(date), value)` for every
    entry with a value, in provider order. `astype('int')` converts to 64-bit
    integers, so a year outside that range raises there even though the side
    loop's `int()` accepted it.
  - `Fetched` is the whole of `get_data` for one response, as a `Result`.
    The errors are `Transport`, `Malformed`, `BadDate`, `YearOverflow` and `NullValue`.
- `Series` (`series.dfy`) models what `return_figures` does with one table:
  - An in-place insertion sort of an array of rows, by value descending
    (`SortByValueDesc`).
  - `df.country.unique()` as `Unique`, which keeps countries in order of first appearance.
  - One `Scatter` in `"lines"` mode per country (`LineGraph`).
  - A single `Bar` named `"Country"` (`BarGraph`).
- `Figures` (`figures.dfy`) models `return_figures` itself:
  - Four fetches with fixed indicators, in a fixed order.
  - The four layouts as constants. The titles are kept as written: the first
    two titles are swapped relative to their indicators, and "Austrialia" is
    misspelled.
  - The first failing fetch ends the call with its error. When all four fetches
    succeed the result is exactly four figures (`FiguresOf`).

The charts are specified by what they contain, not by the sort's exact output:
- `Series.LineChartOf`:
  - One non-empty series per country of the table, each named after its country.
  - The points within a series are in non-increasing value order.
  - The series are ordered by their first (largest) value.
  - Taken together, the series plot exactly the table's rows, as a multiset.
- `Series.BarChartOf`:
  - The labels and values are the table's `(country, value)` pairs, as a multiset.
  - The values are in non-increasing order.

Three behaviours of `wrangle_data.py` are easy to misread:
- **Per-series points.** They come from the table after the descending sort, so
  they are in value order, not in year order.
- **The side loop.** It raises on a null value in any entry after a country's
  first, so a current-year null that is not a country's first entry makes
  `get_data` fail.
- **Malformed bodies.** The response body must have at least two elements, and
  an empty observation list cannot be cleaned: column selection on an empty
  frame raises. Both are `Malformed`.

## Model

| member | source | states |
|---|---|---|
| IntParse.ParseShowRoundTrip | wrangling_scripts/wrangle_data.py:25 | parsing the decimal rendering of any integer gives that integer back, so `int(date)` recovers every year the provider could write |
| IntParse.ParseIntRejectsNonDigit | wrangling_scripts/wrangle_data.py:25 | a string with a character that is neither a digit nor a leading sign does not parse, whether that character is first ("x1") or later ("20x6", "-2x"), which is the `ValueError` path of `int(date)` |
| IntParse.ParseIntAccepts | wrangling_scripts/wrangle_data.py:25 | `int(date)` succeeds only on a non-empty string whose characters after the first are all digits and whose first is a digit or a sign followed by more; a run of digits gives its decimal value |
| IntParse.ParseIntRejectsSignOnly | wrangling_scripts/wrangle_data.py:25 | the empty string and a bare sign do not parse |
| IntParse.ParseFourDigits | wrangling_scripts/wrangle_data.py:34 | a four-digit year string parses to its positional decimal value |
| IntParse.DigitsValueShowNat | wrangling_scripts/wrangle_data.py:25 | the digit-string value of the rendering of n is n |
| Fetch.FirstFailureFrom | wrangling_scripts/wrangle_data.py:22-28 | the result is the first index, from i on, of an entry whose country was already seen and whose date does not parse or whose value is null; None means no index fails |
| Fetch.RecordEntry | wrangling_scripts/wrangle_data.py:24-28 | one loop pass raises exactly when the country is already present and `int(date)` or `float(value)` fails, with that entry's error; otherwise the dictionary stays the per-country record of the prefix with the entry added |
| Fetch.RecordByCountry | wrangling_scripts/wrangle_data.py:20-28 | the loop raises the error of the first failing entry, and otherwise ends with keys equal to the entries' countries, each holding the parsed years and values of that country's later entries, in order |
| Fetch.RecordFirst | wrangling_scripts/wrangle_data.py:27-28 | a country's first entry initialises its lists to `[[],[]]` and keeps the record invariant |
| Fetch.RecordLater | wrangling_scripts/wrangle_data.py:24-26 | a later entry with a parsable date and a value appends `int(date)` and `float(value)` and keeps the record invariant |
| Fetch.FirstFailureIs | wrangling_scripts/wrangle_data.py:22-26 | a failing index preceded only by passing indices is the first failure |
| Fetch.SideListsShape | wrangling_scripts/wrangle_data.py:22-28 | for each country, the year and value lists have equal length, one less than the number of that country's entries |
| Fetch.SideListsExact | wrangling_scripts/wrangle_data.py:25-26 | when nothing raises, each recorded year is the parse of the entry's date and each recorded value is the entry's value |
| Fetch.LaterAreSeenEntries | wrangling_scripts/wrangle_data.py:24-26 | every recorded entry is one whose country had appeared earlier |
| Fetch.ForCountryCount | wrangling_scripts/wrangle_data.py:22 | the entries of a country are as many as the occurrences of that country in the list, and all carry it |
| Fetch.ForCountryEmpty | wrangling_scripts/wrangle_data.py:24 | a country has no entries exactly when it does not occur, which is the empty-default test of the `defaultdict` |
| Fetch.ParseYears | wrangling_scripts/wrangle_data.py:34 | `astype('int')` succeeds iff every date is an integer literal that fits 64 bits, and then maps each entry pointwise to (country, parsed year, value); on failure the error is that of the first date that does not convert: `BadDate` when it is not an integer, `YearOverflow` when it is out of range |
| Fetch.DropNulls | wrangling_scripts/wrangle_data.py:36 | `dropna()` keeps no more rows than it is given |
| Fetch.DropNullsKeeps | wrangling_scripts/wrangle_data.py:36 | each row `dropna()` keeps is a given row with a present value, and every given row with a value is kept |
| Fetch.NonNullIndicesFromProps | wrangling_scripts/wrangle_data.py:36 | the indices of the entries with a value, from i on, are increasing, in range, and cover every such entry |
| Fetch.Clean | wrangling_scripts/wrangle_data.py:30-38 | an empty list cannot have its columns selected (`Malformed`); otherwise the table exists exactly when every year converts, and it has at most one row per entry |
| Fetch.DropNullsFrom | wrangling_scripts/wrangle_data.py:36 | from index i on, the null-free rows correspond one to one, in increasing index order, to exactly the entries with a value |
| Fetch.CleanTable | wrangling_scripts/wrangle_data.py:30-38 | the table exists iff the list is non-empty and every year converts; it then holds, in provider order, exactly one row per entry with a value, with that entry's country, parsed year and value |
| Fetch.DropNullsIdempotent | wrangling_scripts/wrangle_data.py:36 | `dropna` applied to a table that is already null-free changes nothing |
| Fetch.GetData | wrangling_scripts/wrangle_data.py:9-38 | `get_data` makes one request with its parameters and defaults, and returns what the response yields after the side loop and cleaning |
| Fetch.MalformedBodyFails | wrangling_scripts/wrangle_data.py:15-22 | a response body with fewer than two elements, or whose second element is not the list of observations, makes `get_data` fail as Malformed (`r.json()[1]` and the loop over it at lines 16-22 cannot proceed) |
| Fetch.Fetched | wrangling_scripts/wrangle_data.py:15-38 | a returned table comes from a well-shaped body and never has more rows than its observation list has entries |
| Fetch.FetchedOk | wrangling_scripts/wrangle_data.py:15-38 | `get_data` succeeds iff the body holds an observation list that is non-empty, has every year convertible to a 64-bit integer, and has a value in every entry after a country's first; the result is then the cleaned table |
| Fetch.LaterNullRaises | wrangling_scripts/wrangle_data.py:24-26 | a null value in an entry whose country was already seen makes `get_data` raise |
| Fetch.FirstEntryNullDropped | wrangling_scripts/wrangle_data.py:27-28 | when `get_data` succeeds, a null entry is a country's first entry and has no row in the table |
| Fetch.NonNullIndicesExclude | wrangling_scripts/wrangle_data.py:36 | a null entry's index is never among the kept indices |
| Fetch.TransportFailurePropagates | wrangling_scripts/wrangle_data.py:15 | a failed request makes `get_data` fail with the transport error |
| Fetch.NullSecondEntryRaises | wrangling_scripts/wrangle_data.py:24-26 | a null value in a country's second entry raises a null-value error naming that country |
| Fetch.NullFirstEntryDropped | wrangling_scripts/wrangle_data.py:27-38 | a null value in a country's first entry is dropped, leaving the other rows in provider order |
| Series.SortByValueDesc | wrangling_scripts/wrangle_data.py:56 | after the in-place sort the rows are in non-increasing value order and are a permutation of the rows before it |
| Series.InsertDown | wrangling_scripts/wrangle_data.py:56 | inserting element i into a sorted prefix gives a sorted prefix one longer, with the same multiset overall and every cell after i unchanged, so the prefix gains exactly the old a[i] |
| Series.SwapDown | wrangling_scripts/wrangle_data.py:56 | one exchange of neighbours swaps exactly those two cells and preserves the multiset |
| Series.UniqueProps | wrangling_scripts/wrangle_data.py:57 | `unique()` holds exactly the values of the column, without duplicates, in order of first appearance |
| Series.Unique | wrangling_scripts/wrangle_data.py:57 | `unique()` holds exactly the values of the column, and no more of them than the column has |
| Series.Select | wrangling_scripts/wrangle_data.py:60-61 | the boolean mask keeps exactly the rows of that country, and no other rows |
| Series.SelectSorted | wrangling_scripts/wrangle_data.py:60-61 | a mask applied to a frame sorted by value descending keeps that order |
| Series.SelectHead | wrangling_scripts/wrangle_data.py:60-61 | the first selected row is the country's first row in the frame |
| Series.SeriesRowsOfLineTrace | wrangling_scripts/wrangle_data.py:60-68 | a series' points, read back as rows, are exactly the selected rows of its country |
| Series.LineTrace | wrangling_scripts/wrangle_data.py:60-68 | a country's series is a "lines" scatter named after the country with as many x values as y values, and each of its points is a row of that country in the table |
| Series.GroupPartition | wrangling_scripts/wrangle_data.py:57-61 | the selections over the unique countries, taken together, are the rows of the frame as a multiset |
| Series.GroupRestrict | wrangling_scripts/wrangle_data.py:59-61 | over distinct countries, the concatenated selections hold the rows of those countries |
| Series.LineTraceIsSeries | wrangling_scripts/wrangle_data.py:62-68 | each country's series is a non-empty "lines" scatter named after the country, with non-increasing values |
| Series.LineTracesOrdered | wrangling_scripts/wrangle_data.py:56-59 | series of countries that appear earlier in `unique()` start at a value no smaller than later ones |
| Series.LineGraphIsChart | wrangling_scripts/wrangle_data.py:56-69 | the series built over the sorted frame's unique countries form a line chart of the table |
| Series.CountriesOfPermutation | wrangling_scripts/wrangle_data.py:56 | sorting neither adds nor removes a country |
| Series.LineGraph | wrangling_scripts/wrangle_data.py:53-69 | the graph built by the loop over the countries is a line chart of the fetched table: one distinct named series per country, ordered by largest value, plotting exactly the table's rows |
| Series.PairsPermutation | wrangling_scripts/wrangle_data.py:107-112 | permuting rows permutes their (country, value) pairs |
| Series.BarGraph | wrangling_scripts/wrangle_data.py:104-115 | the graph is one bar series named "Country" whose labels and values are the table's (country, value) pairs in non-increasing value order |
| Figures.LineFigure | wrangling_scripts/wrangle_data.py:53-75 | the figure fails exactly when its fetch fails, with the same error, and otherwise is the line chart of the fetched table with the given layout |
| Figures.BarFigure | wrangling_scripts/wrangle_data.py:104-120 | the figure fails exactly when its fetch fails, with the same error, and otherwise is the bar chart of the fetched table with the given layout |
| Figures.ReturnFigures | wrangling_scripts/wrangle_data.py:40-147 | `FiguresOf`: the first failing fetch, in order rural population, growth, industry, service, is the result's error; when all four succeed the result is Ok with exactly four figures, the first two line charts of the first two tables and the last two bar charts of the last two, each with its fixed layout |
| Figures.LineFigures | wrangling_scripts/wrangle_data.py:53-100 | the first two blocks give the first failing fetch's error, or the two line charts with LayoutOne and LayoutTwo |
| Figures.BarFigures | wrangling_scripts/wrangle_data.py:104-139 | the last two blocks give the first failing fetch's error, or the two bar charts with LayoutThree and LayoutFour |
| Figures.LinesFail | wrangling_scripts/wrangle_data.py:54-79 | a failure in the line-chart fetches is the error of the whole call |
| Figures.AssembleFigures | wrangling_scripts/wrangle_data.py:141-147 | once the line charts exist, the bar charts' error or the four figures in order complete `FiguresOf` |
| Figures.TicksOnlyOnLineCharts | wrangling_scripts/wrangle_data.py:71-73 | only the two line charts fix their year ticks, at 2010 with step 2; the bar charts and y axes do not |
| Figures.LayoutsAsWritten | wrangling_scripts/wrangle_data.py:71-139 | the rural-population chart carries the population-growth title and the growth chart the rural-population title, verbatim; the two line charts share their axes, as do the two bar charts |

## Left out

- The HTTP request, URL formatting, query payload and the two `print` calls (lines 12-16) are not modelled; the response is what a provider function parameter returns for the request's indicator, countries and years.
- `json_normalize` is not modelled beyond its effect: each observation is taken to carry a country name, a date string and a possibly null value; a missing key, which would raise a `KeyError`, is not represented.
- A top-level JSON body that is not an array (an object such as `{"message": ...}`, `null`, a number) has no constructor of its own: it is represented as `Body([])`, for which `Fetch.MalformedBodyFails` gives `Err(Malformed)`. The source raises `KeyError` or `TypeError` there at line 16, not a transport error.
- Some platforms make `astype('int')` convert to 32-bit integers; the model uses the 64-bit range.
- Floating point is modelled as `real`; `float(value)` on a present value is exact, and NaN is not represented apart from null.
- IntParse.ParseInt: accepts only an optional sign followed by ASCII digits, not the surrounding whitespace, underscores or non-ASCII digits Python's `int` also accepts.
- Plotly objects are modelled as plain data; `autotick=False` is implied by the presence of fixed ticks, and rendering is not modelled.
- Series.SortByValueDesc: an insertion sort stands in for pandas' sort, so the order of rows with equal values is not fixed; the charts are therefore stated up to that order, by multiset.
- The column renames at lines 55, 80, 106 and 125 only relabel the value column and are not modelled separately.
- The dictionary built by the side loop is discarded by the program; the model keeps no use of it but the errors it raises.
