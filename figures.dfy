/**
  `return_figures`: four fetches with fixed parameters, two line charts and
  two bar charts, returned in a fixed positional order with fixed layouts.
 */
module Figures {
  import opened Wrappers
  import opened Fetch
  import opened Series

  /** `autotick=False` with a fixed first tick and tick spacing. */
  datatype Ticks = Ticks(tick0: int, dtick: int)

  datatype Axis = Axis(title: string, ticks: Option<Ticks>)

  datatype Layout = Layout(title: string, xaxis: Axis, yaxis: Axis)

  /** `dict(data=graph, layout=layout)` */
  datatype Figure = Figure(data: seq<Trace>, layout: Layout)

  const RuralRequest := Request("SP.RUR.TOTL", "au;ca;us", "2010:2020")
  const GrowthRequest := Request("SP.POP.GROW", "au;ca;us", "2010:2020")
  const IndustryRequest := Request("SL.IND.EMPL.FE.ZS", "au;ca;us", "2020")
  const ServiceRequest := Request("SL.SRV.EMPL.FE.ZS", "au;ca;us", "2020")

  const YearAxis := Axis("year", Some(Ticks(2010, 2)))

  // The first two titles are swapped with respect to their indicators, as in the program.
  const LayoutOne := Layout("Population Growth for Austrialia, Canada & US <br> between 2010 and 2020",
                            YearAxis, Axis("population", None))
  const LayoutTwo := Layout("Rural Population for Austrialia, Canada & US <br> between 2010 and 2020",
                            YearAxis, Axis("population", None))
  const LayoutThree := Layout("Percent of females employed in industry <br>for Austrialia, Canada & US in 2020",
                              Axis("Country", None), Axis("percent", None))
  const LayoutFour := Layout("Percent of females employed in service <br>for Austrialia, Canada & US in 2020",
                             Axis("Country", None), Axis("percent", None))

  /** The table, or the error, that one fetch with this provider yields. */
  function Table(provider: Request -> Response, req: Request): (df: Result<seq<Row>, Error>)
  {
    Fetched(provider(req))
  }

  /** fig is the line chart of a fetched table, with the given layout. */
  ghost predicate LineFigureOf(fig: Figure, table: Result<seq<Row>, Error>, layout: Layout)
  {
    table.Ok? && fig.layout == layout && LineChartOf(fig.data, table.value)
  }

  /** fig is the single-series bar chart of a fetched table, with the given layout. */
  ghost predicate BarFigureOf(fig: Figure, table: Result<seq<Row>, Error>, layout: Layout)
  {
    table.Ok? && fig.layout == layout && |fig.data| == 1 && BarChartOf(fig.data[0], table.value)
  }

  /**
    What `return_figures` yields from the four fetches' results t1 .. t4: the
    first failing fetch, in the order rural population, population growth,
    industry, service, ends the call with its error and no figure; when all
    four succeed there are exactly four figures, in that order, whatever the
    number of countries returned.
   */
  ghost predicate FiguresOf(r: Result<seq<Figure>, Error>, t1: Result<seq<Row>, Error>, t2: Result<seq<Row>, Error>,
                            t3: Result<seq<Row>, Error>, t4: Result<seq<Row>, Error>)
  {
    if t1.Err? then r == Err(t1.error)
    else if t2.Err? then r == Err(t2.error)
    else if t3.Err? then r == Err(t3.error)
    else if t4.Err? then r == Err(t4.error)
    else
      && r.Ok?
      && |r.value| == 4
      && LineFigureOf(r.value[0], t1, LayoutOne)
      && LineFigureOf(r.value[1], t2, LayoutTwo)
      && BarFigureOf(r.value[2], t3, LayoutThree)
      && BarFigureOf(r.value[3], t4, LayoutFour)
  }

  /** Builds the four figures, as `FiguresOf` describes. */
  method ReturnFigures(provider: Request -> Response) returns (r: Result<seq<Figure>, Error>)
    ensures FiguresOf(r, Table(provider, RuralRequest), Table(provider, GrowthRequest),
                      Table(provider, IndustryRequest), Table(provider, ServiceRequest))
  {
    ghost var t1, t2 := Table(provider, RuralRequest), Table(provider, GrowthRequest);
    ghost var t3, t4 := Table(provider, IndustryRequest), Table(provider, ServiceRequest);
    var lines := LineFigures(provider);
    if lines.Err? {
      r := Err(lines.error);
      LinesFail(lines, t1, t2, t3, t4);
      return;
    }
    var bars := BarFigures(provider);
    r := Assemble(lines.value, bars);
    AssembleFigures(lines, bars, t1, t2, t3, t4);
  }

  /** The four figures once both line charts exist: the bar charts' error, or all four in order. */
  function Assemble(lines: (Figure, Figure), bars: Result<(Figure, Figure), Error>): (r: Result<seq<Figure>, Error>)
  {
    if bars.Err? then Err(bars.error) else Ok([lines.0, lines.1, bars.value.0, bars.value.1])
  }

  /** `lines` is what lines 53-100 yield from the first two fetches' results. */
  ghost predicate LinesOf(lines: Result<(Figure, Figure), Error>, t1: Result<seq<Row>, Error>, t2: Result<seq<Row>, Error>)
  {
    if t1.Err? then lines == Err(t1.error)
    else if t2.Err? then lines == Err(t2.error)
    else lines.Ok? && LineFigureOf(lines.value.0, t1, LayoutOne) && LineFigureOf(lines.value.1, t2, LayoutTwo)
  }

  /** `bars` is what lines 104-139 yield from the last two fetches' results. */
  ghost predicate BarsOf(bars: Result<(Figure, Figure), Error>, t3: Result<seq<Row>, Error>, t4: Result<seq<Row>, Error>)
  {
    if t3.Err? then bars == Err(t3.error)
    else if t4.Err? then bars == Err(t4.error)
    else bars.Ok? && BarFigureOf(bars.value.0, t3, LayoutThree) && BarFigureOf(bars.value.1, t4, LayoutFour)
  }

  lemma LinesFail(lines: Result<(Figure, Figure), Error>, t1: Result<seq<Row>, Error>, t2: Result<seq<Row>, Error>,
                  t3: Result<seq<Row>, Error>, t4: Result<seq<Row>, Error>)
    requires LinesOf(lines, t1, t2) && lines.Err?
    ensures FiguresOf(Err(lines.error), t1, t2, t3, t4)
  {
  }

  lemma AssembleFigures(lines: Result<(Figure, Figure), Error>, bars: Result<(Figure, Figure), Error>,
                        t1: Result<seq<Row>, Error>, t2: Result<seq<Row>, Error>,
                        t3: Result<seq<Row>, Error>, t4: Result<seq<Row>, Error>)
    requires LinesOf(lines, t1, t2) && lines.Ok? && BarsOf(bars, t3, t4)
    ensures FiguresOf(Assemble(lines.value, bars), t1, t2, t3, t4)
  {
    var r := Assemble(lines.value, bars);
    if bars.Ok? {
      assert r.value[0] == lines.value.0 && r.value[1] == lines.value.1;
      assert r.value[2] == bars.value.0 && r.value[3] == bars.value.1;
    }
  }

  /** The two line charts (lines 53-100): the first failing fetch's error, or both figures. */
  method LineFigures(provider: Request -> Response) returns (r: Result<(Figure, Figure), Error>)
    ensures LinesOf(r, Table(provider, RuralRequest), Table(provider, GrowthRequest))
  {
    var one := LineFigure(provider, RuralRequest, LayoutOne);
    if one.Err? {
      return Err(one.error);
    }
    var two := LineFigure(provider, GrowthRequest, LayoutTwo);
    if two.Err? {
      return Err(two.error);
    }
    return Ok((one.value, two.value));
  }

  /** The two bar charts (lines 104-139): the first failing fetch's error, or both figures. */
  method BarFigures(provider: Request -> Response) returns (r: Result<(Figure, Figure), Error>)
    ensures BarsOf(r, Table(provider, IndustryRequest), Table(provider, ServiceRequest))
  {
    var three := BarFigure(provider, IndustryRequest, LayoutThree);
    if three.Err? {
      return Err(three.error);
    }
    var four := BarFigure(provider, ServiceRequest, LayoutFour);
    if four.Err? {
      return Err(four.error);
    }
    return Ok((three.value, four.value));
  }

  /** One line-chart block of `return_figures` (lines 53-75, repeated at 78-100). */
  method LineFigure(provider: Request -> Response, req: Request, layout: Layout) returns (r: Result<Figure, Error>)
    ensures r.Err? <==> Table(provider, req).Err?
    ensures r.Err? ==> r.error == Table(provider, req).error
    ensures r.Ok? ==> LineFigureOf(r.value, Table(provider, req), layout)
  {
    var df := GetData(provider, req.indicator, req.countries, req.years);
    if df.Err? {
      return Err(df.error);
    }
    var graph := LineGraph(df.value);
    return Ok(Figure(graph, layout));
  }

  /** One bar-chart block of `return_figures` (lines 104-120, repeated at 123-139). */
  method BarFigure(provider: Request -> Response, req: Request, layout: Layout) returns (r: Result<Figure, Error>)
    ensures r.Err? <==> Table(provider, req).Err?
    ensures r.Err? ==> r.error == Table(provider, req).error
    ensures r.Ok? ==> BarFigureOf(r.value, Table(provider, req), layout)
  {
    var df := GetData(provider, req.indicator, req.countries, req.years);
    if df.Err? {
      return Err(df.error);
    }
    var graph := BarGraph(df.value);
    return Ok(Figure(graph, layout));
  }

  /**
    The layouts as written: the line chart of the rural-population indicator is
    titled for population growth and the other way round; the two line charts
    share their axes, as do the two bar charts.
   */
  lemma LayoutsAsWritten()
    ensures RuralRequest.indicator == "SP.RUR.TOTL" &&
      LayoutOne.title == "Population Growth for Austrialia, Canada & US <br> between 2010 and 2020"
    ensures GrowthRequest.indicator == "SP.POP.GROW" &&
      LayoutTwo.title == "Rural Population for Austrialia, Canada & US <br> between 2010 and 2020"
    ensures LayoutOne.xaxis == LayoutTwo.xaxis && LayoutOne.yaxis == LayoutTwo.yaxis == Axis("population", None)
    ensures LayoutThree.xaxis == LayoutFour.xaxis == Axis("Country", None)
    ensures LayoutThree.yaxis == LayoutFour.yaxis == Axis("percent", None)
  {
  }

  /** Only the two line charts fix their year ticks, at 2010 with a step of 2. */
  lemma TicksOnlyOnLineCharts()
    ensures LayoutOne.xaxis.ticks == Some(Ticks(2010, 2)) && LayoutTwo.xaxis.ticks == Some(Ticks(2010, 2))
    ensures LayoutThree.xaxis.ticks.None? && LayoutFour.xaxis.ticks.None?
    ensures LayoutOne.yaxis.ticks.None? && LayoutTwo.yaxis.ticks.None?
  {
  }
}
