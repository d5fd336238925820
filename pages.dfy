/** Helpers of the series pages: the confidence-band polygons of the forecast
    plot, the columns the forecast table shows for each selector value, and
    the decorator that fills a filter-panel component from the URL
    parameters. Figures and tables themselves are not modelled: a trace is
    its name and its x and y sequences. */
module Pages {
  import opened Wrappers
  import opened Strings

  // ---------------------------------------------------------------------
  // get_forecast_plot_data
  // ---------------------------------------------------------------------

  /** One row of a forecast frame: its date (the frame's index) and the
      forecast with its three pairs of interval bounds. */
  datatype ForecastRow = ForecastRow(
    date: int, forecast: real,
    lb50: real, ub50: real, lb75: real, ub75: real, lb95: real, ub95: real)

  /** One row of the history frame. */
  datatype HistoryPoint = HistoryPoint(date: int, value: real)

  datatype Level = Level50 | Level75 | Level95

  function LevelName(level: Level): string {
    match level
    case Level50 => "50% CI"
    case Level75 => "75% CI"
    case Level95 => "95% CI"
  }

  function UpperBound(row: ForecastRow, level: Level): real {
    match level
    case Level50 => row.ub50
    case Level75 => row.ub75
    case Level95 => row.ub95
  }

  function LowerBound(row: ForecastRow, level: Level): real {
    match level
    case Level50 => row.lb50
    case Level75 => row.lb75
    case Level95 => row.lb95
  }

  /** A plotted line or filled area: its name and its vertices. */
  datatype Trace = Trace(name: string, xs: seq<int>, ys: seq<real>)

  /** Python's `list(reversed(s))`. */
  function Reverse<T>(s: seq<T>): (r: seq<T>)
    ensures |r| == |s|
    ensures forall i :: 0 <= i < |s| ==> r[i] == s[|s| - 1 - i]
    decreases |s|
  {
    if |s| == 0 then [] else Reverse(s[1..]) + [s[0]]
  }

  function Dates(frame: seq<ForecastRow>): (ds: seq<int>)
    ensures |ds| == |frame|
    ensures forall i :: 0 <= i < |frame| ==> ds[i] == frame[i].date
  {
    seq(|frame|, i requires 0 <= i < |frame| => frame[i].date)
  }

  function Uppers(frame: seq<ForecastRow>, level: Level): (us: seq<real>)
    ensures |us| == |frame|
    ensures forall i :: 0 <= i < |frame| ==> us[i] == UpperBound(frame[i], level)
  {
    seq(|frame|, i requires 0 <= i < |frame| => UpperBound(frame[i], level))
  }

  function Lowers(frame: seq<ForecastRow>, level: Level): (ls: seq<real>)
    ensures |ls| == |frame|
    ensures forall i :: 0 <= i < |frame| ==> ls[i] == LowerBound(frame[i], level)
  {
    seq(|frame|, i requires 0 <= i < |frame| => LowerBound(frame[i], level))
  }

  /** The filled band of one interval level: along the upper bounds forward
      in time, then back along the lower bounds. */
  function Band(frame: seq<ForecastRow>, level: Level): (t: Trace)
    ensures t.name == LevelName(level)
    ensures |t.xs| == |t.ys| == 2 * |frame|
    ensures forall i :: 0 <= i < |frame| ==>
              t.xs[i] == frame[i].date && t.ys[i] == UpperBound(frame[i], level)
    ensures forall j :: |frame| <= j < 2 * |frame| ==>
              t.xs[j] == frame[2 * |frame| - 1 - j].date
              && t.ys[j] == LowerBound(frame[2 * |frame| - 1 - j], level)
  {
    var xs := Dates(frame) + Reverse(Dates(frame));
    Trace(LevelName(level), xs, Uppers(frame, level) + Reverse(Lowers(frame, level)))
  }

  /** The five traces of the series plot, drawn in this order: the widest
      band first, then the narrower bands, the forecast line and the
      history. */
  function ForecastPlotData(history: seq<HistoryPoint>, frame: seq<ForecastRow>): (data: seq<Trace>)
    ensures |data| == 5
    ensures data[0] == Band(frame, Level95) && data[1] == Band(frame, Level75)
            && data[2] == Band(frame, Level50)
    ensures data[3].name == "Forecast" && data[4].name == "Historical"
    ensures data[3].xs == Dates(frame)
    ensures |data[3].ys| == |frame| && |data[4].xs| == |data[4].ys| == |history|
    ensures forall i :: 0 <= i < |frame| ==> data[3].ys[i] == frame[i].forecast
    ensures forall i :: 0 <= i < |history| ==>
              data[4].xs[i] == history[i].date && data[4].ys[i] == history[i].value
  {
    var forecastLine := Trace("Forecast", Dates(frame),
                              seq(|frame|, i requires 0 <= i < |frame| => frame[i].forecast));
    var historyLine := Trace("Historical",
                             seq(|history|, i requires 0 <= i < |history| => history[i].date),
                             seq(|history|, i requires 0 <= i < |history| => history[i].value));
    [Band(frame, Level95), Band(frame, Level75), Band(frame, Level50), forecastLine, historyLine]
  }

  /** The band's x path is a palindrome: it goes out along the dates and
      comes back along the same dates. */
  lemma BandPathReturns(frame: seq<ForecastRow>, level: Level)
    ensures Reverse(Band(frame, level).xs) == Band(frame, level).xs
  {
  }

  /** When row i's lower bound is at most its upper bound, the band
      covers that row's date from the lower to the upper bound: the
      vertex at position i and its mirror at 2n-1-i share a date, and the
      first lies on or above the second. */
  lemma BandSpansInterval(frame: seq<ForecastRow>, level: Level, i: nat)
    requires i < |frame|
    requires LowerBound(frame[i], level) <= UpperBound(frame[i], level)
    ensures Band(frame, level).xs[i] == Band(frame, level).xs[2 * |frame| - 1 - i] == frame[i].date
    ensures Band(frame, level).ys[2 * |frame| - 1 - i] == LowerBound(frame[i], level)
    ensures Band(frame, level).ys[2 * |frame| - 1 - i] <= Band(frame, level).ys[i]
  {
  }

  // ---------------------------------------------------------------------
  // update_forecast_table: selector value to table columns
  // ---------------------------------------------------------------------

  /** The columns of a forecast frame as the table receives them, after
      "forecast" is renamed to "Forecast". */
  const TableColumns: seq<string> :=
    ["Forecast", "LB_50", "UB_50", "LB_75", "UB_75", "LB_95", "UB_95"]

  /** The values of the forecast-table selector's dropdown. */
  const SelectorValues: seq<string> := ["Forecast", "CI_50", "CI_75", "CI_95"]

  /** `selected_column_map[selector]`; `None` where the dictionary lookup
      would raise. */
  function SelectedColumns(selector: string): (cols: Option<seq<string>>)
    ensures cols.Some? <==> selector in SelectorValues
    ensures selector == "Forecast" ==> cols == Some(["Forecast"])
    ensures selector == "CI_50" ==> cols == Some(["LB_50", "UB_50"])
    ensures selector == "CI_75" ==> cols == Some(["LB_75", "UB_75"])
    ensures selector == "CI_95" ==> cols == Some(["LB_95", "UB_95"])
    ensures cols.Some? ==> forall c :: c in cols.value ==> c in TableColumns
  {
    var selectedColumnMap := map[
      "Forecast" := ["Forecast"],
      "CI_50" := ["LB_50", "UB_50"],
      "CI_75" := ["LB_75", "UB_75"],
      "CI_95" := ["LB_95", "UB_95"]];
    if selector in selectedColumnMap then Some(selectedColumnMap[selector]) else None
  }

  /** One cell of the renamed forecast frame; `None` for a column it does
      not have. */
  function Cell(row: ForecastRow, column: string): (v: Option<real>)
    ensures v.Some? <==> column in TableColumns
  {
    if column == "Forecast" then Some(row.forecast)
    else if column == "LB_50" then Some(row.lb50)
    else if column == "UB_50" then Some(row.ub50)
    else if column == "LB_75" then Some(row.lb75)
    else if column == "UB_75" then Some(row.ub75)
    else if column == "LB_95" then Some(row.lb95)
    else if column == "UB_95" then Some(row.ub95)
    else None
  }

  /** The values the forecast table shows for one row under a selector
      value, before rounding; `None` where the lookup would raise. */
  function TableRow(row: ForecastRow, selector: string): (cells: Option<seq<real>>)
    ensures cells.Some? <==> selector in SelectorValues
    ensures cells.Some? ==> |cells.value| == |SelectedColumns(selector).value|
  {
    match SelectedColumns(selector)
    case None => None
    case Some(cols) => Some(seq(|cols|, i requires 0 <= i < |cols| => Cell(row, cols[i]).value))
  }

  /** The selector value that shows one interval level. */
  function SelectorOf(level: Level): string {
    match level
    case Level50 => "CI_50"
    case Level75 => "CI_75"
    case Level95 => "CI_95"
  }

  /** For each interval level the table shows exactly the two bounds the
      plot's band of that level is drawn between, lower first; "Forecast"
      shows the forecast line's value. */
  lemma TableShowsBandBounds(row: ForecastRow, level: Level)
    ensures TableRow(row, SelectorOf(level)) == Some([LowerBound(row, level), UpperBound(row, level)])
    ensures TableRow(row, "Forecast") == Some([row.forecast])
  {
    var cells := TableRow(row, SelectorOf(level)).value;
    assert |cells| == 2;
    assert cells[0] == LowerBound(row, level) && cells[1] == UpperBound(row, level);
    assert cells == [LowerBound(row, level), UpperBound(row, level)];
    var shown := TableRow(row, "Forecast").value;
    assert |shown| == 1 && shown[0] == row.forecast;
    assert shown == [row.forecast];
  }

  // ---------------------------------------------------------------------
  // apply_default_value
  // ---------------------------------------------------------------------

  /** A keyword argument of a Dash component: a string, a list of strings
      (a checklist's values), the options of a checklist (each a label that
      is also the value), or any other Python value, known only by its
      source text. */
  datatype Arg =
    | Text(s: string)
    | TextList(items: seq<string>)
    | OptionList(labels: seq<string>)
    | OtherValue(source: string)

  /** The component's `id` is a string that names a URL parameter. */
  predicate HasParam(params: map<string, string>, kwargs: map<string, Arg>) {
    "id" in kwargs && kwargs["id"].Text? && kwargs["id"].s in params
  }

  /** Components with a `value` argument take one value; the others take
      `values`. */
  function ValueKey(kwargs: map<string, Arg>): string {
    if "value" in kwargs then "value" else "values"
  }

  /** What `apply_default_value(params)` passes on to the component:
      `literalEval` is Python's `ast.literal_eval`, `None` where it raises.
      When it raises, a `value` component gets the raw parameter and a
      `values` component gets the parameter split on ",". */
  function ApplyDefaultValue(params: map<string, string>, kwargs: map<string, Arg>,
                             literalEval: string -> Option<Arg>): (r: map<string, Arg>)
    ensures !HasParam(params, kwargs) ==> r == kwargs
    ensures HasParam(params, kwargs) ==>
              var p := params[kwargs["id"].s];
              var key := ValueKey(kwargs);
              && r.Keys == kwargs.Keys + {key}
              && (forall k :: k in kwargs && k != key ==> r[k] == kwargs[k])
              && (literalEval(p).Some? ==> r[key] == literalEval(p).value)
              && (literalEval(p).None? && key == "value" ==> r[key] == Text(p))
              && (literalEval(p).None? && key == "values" ==> r[key] == TextList(Split(p, ',')))
  {
    if HasParam(params, kwargs) then
      var p := params[kwargs["id"].s];
      if "value" in kwargs then
        kwargs["value" := literalEval(p).GetOr(Text(p))]
      else
        kwargs["values" := literalEval(p).GetOr(TextList(Split(p, ',')))]
    else kwargs
  }

  /** When the parameter is not a Python literal, a checklist receives the
      comma-separated pieces of the parameter, none holding a comma, and
      joining them with "," gives the parameter back. */
  lemma ChecklistFallbackKeepsParameter(params: map<string, string>, kwargs: map<string, Arg>,
                                        literalEval: string -> Option<Arg>)
    requires HasParam(params, kwargs) && "value" !in kwargs
    requires literalEval(params[kwargs["id"].s]).None?
    ensures var r := ApplyDefaultValue(params, kwargs, literalEval);
            && r["values"].TextList?
            && (forall i :: 0 <= i < |r["values"].items| ==> ',' !in r["values"].items[i])
            && Join(r["values"].items, ",") == params[kwargs["id"].s]
  {
    JoinSplit(params[kwargs["id"].s], ',');
  }
}
