/**
 * The `%memory` / `%%memory` magic: option checking, the choice between
 * evaluating and executing the traced code, the arithmetic that combines
 * the memory traced while compiling and while running, and what is printed
 * and returned.
 *
 * IPython's own option parser, its compiler and the traced run are outside
 * the model: their results are inputs.
 */
module Magics {
  import opened Wrappers
  import opened Printing
  import Tracer

  /** The exceptions the option checks raise. */
  datatype OptionsError =
    | UsageError  // a statement follows `%%memory` on its own line
    | TypeError   // the interval is not a number
    | ValueError  // the interval is below 10 milliseconds

  /** The checked options. */
  datatype Options = Options(
    traceNotebooksPeaks: bool,
    notebook: bool,
    jupyter: bool,
    interval: real,
    printTable: bool,
    quiet: bool)

  /** The default sampling interval, in milliseconds. */
  const DefaultInterval: real := 10.0

  /** The smallest sampling interval accepted, in milliseconds. */
  const MinInterval: real := 10.0

  /** Python truthiness of an optional string: present and non-empty. */
  predicate Truthy(s: Option<string>) {
    s.Some? && s.value != ""
  }

  /** The short or the long spelling of an option was given. */
  predicate Flag(options: map<string, string>, short: string, long: string) {
    short in options || long in options
  }

  /**
   * The interval as a number: the `-i` text if given, else the `--interval`
   * text, else the default; `None` when `float()` rejects the text, which is
   * parsed by `toFloat`.
   */
  function IntervalValue(options: map<string, string>, toFloat: string -> Option<real>): Option<real> {
    if "i" in options then toFloat(options["i"])
    else if "interval" in options then toFloat(options["interval"])
    else Some(DefaultInterval)
  }

  /**
   * `_parse_options` after IPython has split `options` from `line`: the
   * three checks in order (a statement after `%%memory`, a non-numeric
   * interval, an interval below 10), then the flags.
   */
  function ParseOptions(options: map<string, string>, line: string, cell: Option<string>,
                        toFloat: string -> Option<real>): (r: Result<Options, OptionsError>)
    ensures r == Failure(UsageError) <==> line != "" && Truthy(cell)
    ensures r.Success? <==> !(line != "" && Truthy(cell)) && IntervalValue(options, toFloat).Some?
                            && IntervalValue(options, toFloat).value >= MinInterval
    ensures !(line != "" && Truthy(cell)) ==>
              && (r == Failure(TypeError) <==> IntervalValue(options, toFloat).None?)
              && (r == Failure(ValueError) <==>
                    IntervalValue(options, toFloat).Some? && IntervalValue(options, toFloat).value < MinInterval)
    ensures r.Success? ==>
              && Some(r.value.interval) == IntervalValue(options, toFloat)
              && r.value.interval >= MinInterval
              && (r.value.traceNotebooksPeaks <==>
                    (Flag(options, "n", "notebook") || Flag(options, "j", "jupyter")) && (line != "" || Truthy(cell)))
              && r.value.notebook == Flag(options, "n", "notebook")
              && r.value.jupyter == Flag(options, "j", "jupyter")
              && r.value.printTable == Flag(options, "t", "table")
              && r.value.quiet == Flag(options, "q", "quiet")
  {
    if line != "" && Truthy(cell) then Failure(UsageError)
    else
      var trace := (Flag(options, "n", "notebook") || Flag(options, "j", "jupyter")) && (line != "" || Truthy(cell));
      match IntervalValue(options, toFloat)
      case None => Failure(TypeError)
      case Some(interval) =>
        if interval < MinInterval then Failure(ValueError)
        else Success(Options(trace, Flag(options, "n", "notebook"), Flag(options, "j", "jupyter"),
                             interval, Flag(options, "t", "table"), Flag(options, "q", "quiet")))
  }

  /** `-i` wins over `--interval`, and an interval of exactly 10 is accepted. */
  lemma ShortIntervalWins(options: map<string, string>, line: string, cell: Option<string>,
                          toFloat: string -> Option<real>)
    requires "i" in options && "interval" in options && !(line != "" && Truthy(cell))
    requires toFloat(options["i"]) == Some(10.0)
    ensures ParseOptions(options, line, cell, toFloat).Success?
    ensures ParseOptions(options, line, cell, toFloat).value.interval == 10.0
  {
  }

  /** The statement kinds `_compile` tells apart; the statements themselves are kept as their source. */
  datatype Stmt = ExprStmt(value: string) | OtherStmt(source: string)

  datatype Mode = Eval | Exec

  /** What is compiled: a single expression, or a module of statements. */
  datatype Code = Expression(value: string) | Module(body: seq<Stmt>)

  datatype Compiled = Compiled(mode: Mode, source: string, code: Code, exprVal: Option<string>)

  /**
   * `_compile`'s choice: a lone expression statement is evaluated; otherwise
   * the body is executed, except that a trailing expression after other
   * statements is split off to be evaluated afterwards.
   */
  function Compile(body: seq<Stmt>): (c: Compiled)
    ensures c.mode == Eval <==> |body| == 1 && body[0].ExprStmt?
    ensures c.mode == Eval ==> c.exprVal == None && c.source == "<memory traced eval>"
    ensures c.mode == Exec ==> c.source == "<memory traced exec>" && c.code.Module?
    ensures c.exprVal.Some? <==> |body| > 1 && body[|body| - 1].ExprStmt?
  {
    if |body| == 1 && body[0].ExprStmt? then
      Compiled(Eval, "<memory traced eval>", Expression(body[0].value), None)
    else if |body| > 1 && body[|body| - 1].ExprStmt? then
      Compiled(Exec, "<memory traced exec>", Module(body[..|body| - 1]), Some(body[|body| - 1].value))
    else
      Compiled(Exec, "<memory traced exec>", Module(body), None)
  }

  /** The statements run, in order: the compiled code, then the split-off expression. */
  function StatementsRun(c: Compiled): seq<Stmt> {
    (match c.code
     case Expression(v) => [ExprStmt(v)]
     case Module(b) => b)
    + (if c.exprVal.Some? then [ExprStmt(c.exprVal.value)] else [])
  }

  /**
   * Compiling loses and reorders nothing: the statements run are the body,
   * and a value comes out exactly when the body ends with an expression.
   */
  lemma CompileRunsWholeBody(body: seq<Stmt>)
    ensures StatementsRun(Compile(body)) == body
    ensures (Compile(body).mode == Eval || Compile(body).exprVal.Some?) <==>
            (body != [] && body[|body| - 1].ExprStmt?)
  {
    var c := Compile(body);
    if c.exprVal.Some? {
      assert body == body[..|body| - 1] + [body[|body| - 1]];
    } else if c.mode == Eval {
      assert body == [ExprStmt(body[0].value)];
    }
  }

  /**
   * The current usage reported: what the run left allocated plus what
   * compiling left allocated. It counts both parts, and as each traced pair
   * has its current below its peak, it stays below the reported peak.
   */
  function ReportedCurrent(traced: (nat, nat), compilation: (nat, nat)): (c: nat)
    ensures c >= traced.0 && c >= compilation.0
    ensures traced.0 <= traced.1 ==> c <= ReportedPeak(traced, compilation)
  {
    traced.0 + compilation.0
  }

  /**
   * The peak reported: the larger of the run's peak on top of what
   * compiling left allocated, and the peak while compiling.
   */
  function ReportedPeak(traced: (nat, nat), compilation: (nat, nat)): (p: nat)
    ensures p >= traced.1 + compilation.0 && p >= compilation.1
    ensures p == traced.1 + compilation.0 || p == compilation.1
  {
    var peak := traced.1 + compilation.0;
    if peak < compilation.1 then compilation.1 else peak
  }

  /** What running the code under `tracemalloc` gave: its value and the compilation and run pairs. */
  datatype TraceOutcome<V> = TraceOutcome(
    out: V,
    compilation: (nat, nat),
    traced: (nat, nat))

  /** The exceptions `memory` lets escape: from the option checks, or from the tracer's `__exit__`. */
  datatype MemoryError =
    | OptionsFailed(options: OptionsError)
    | TracerFailed(tracer: Tracer.TracerError)

  /** The values handed to `print_memory_usage_info`. */
  datatype Report = Report(
    exprType: Option<string>,
    current: Option<int>,
    peak: Option<int>,
    notebook: Option<int>,
    notebookPeak: Option<int>,
    jupyter: Option<int>,
    jupyterPeak: Option<int>)

  datatype MagicResult<V> = MagicResult(report: Report, printout: Printout, returned: Option<V>)

  /**
   * `memory`: check the options, trace the cell body (or else the line) if
   * there is one, read the notebook's and Jupyter's memory if asked, print,
   * and return the value unless quiet; when printing raises, nothing is
   * returned. The traced run gave `trace`. When notebook peaks are traced,
   * the run sits inside the tracer's `with` block, whose `__exit__` gave
   * `harvest`: the per-pid peaks and the aggregate, or the exception it
   * raised, which then escapes before anything is printed. The notebook
   * process uses `notebookRss` bytes and Jupyter `jupyterRss`.
   */
  method Memory<V>(line: string, cell: Option<string>, options: map<string, string>,
                   toFloat: string -> Option<real>, currentPid: int, trace: TraceOutcome<V>,
                   harvest: Result<(map<int, int>, int), Tracer.TracerError>,
                   notebookRss: nat, jupyterRss: nat, showReal: real -> string)
    returns (r: Result<MagicResult<V>, MemoryError>)
    ensures ParseOptions(options, line, cell, toFloat).Failure? ==>
              r == Failure(OptionsFailed(ParseOptions(options, line, cell, toFloat).error))
    ensures ParseOptions(options, line, cell, toFloat).Success? ==>
              (r.Failure? <==> ParseOptions(options, line, cell, toFloat).value.traceNotebooksPeaks && harvest.Failure?)
    ensures ParseOptions(options, line, cell, toFloat).Success? && r.Failure? ==>
              r.error == TracerFailed(harvest.error)
    ensures r.Success? ==>
              var o := ParseOptions(options, line, cell, toFloat).value;
              var m := r.value.report;
              var ran := Truthy(cell) || line != "";
              var sampled := ran && o.traceNotebooksPeaks;
              && (o.traceNotebooksPeaks ==> ran && harvest.Success?)
              && (ran ==>
                    && m.exprType == Some(if Truthy(cell) then "cell" else "line")
                    && m.current == Some(ReportedCurrent(trace.traced, trace.compilation))
                    && m.peak == Some(ReportedPeak(trace.traced, trace.compilation)))
              && (!ran ==> m.exprType == None && m.current == None && m.peak == None)
              && m.jupyterPeak == (if sampled then Some(harvest.value.1) else None)
              && (m.notebookPeak.Some? <==> sampled && currentPid in harvest.value.0)
              && (m.notebookPeak.Some? ==> m.notebookPeak.value == harvest.value.0[currentPid])
              && m.notebook == (if o.notebook then Some(notebookRss as int) else None)
              && m.jupyter == (if o.jupyter then Some(jupyterRss as int) else None)
              && r.value.printout == PrintMemoryUsageInfo(m.current, m.peak, m.notebook, m.notebookPeak,
                                                          m.jupyter, m.jupyterPeak, m.exprType,
                                                          o.printTable, showReal)
              && (r.value.returned.Some? <==> ran && !o.quiet && !r.value.printout.raised)
              && (r.value.returned.Some? ==> r.value.returned.value == trace.out)
  {
    var parsed := ParseOptions(options, line, cell, toFloat);
    if parsed.Failure? {
      r := Failure(OptionsFailed(parsed.error));
      return;
    }
    var o := parsed.value;
    var exprType: Option<string> := None;
    var current: Option<int> := None;
    var peak: Option<int> := None;
    var notebook: Option<int> := None;
    var notebookPeak: Option<int> := None;
    var jupyter: Option<int> := None;
    var jupyterPeak: Option<int> := None;
    var out: Option<V> := None;
    var expr := if Truthy(cell) then cell.value else line;
    if expr != "" {
      var notebooksPeaks: map<int, int> := map[];
      if o.traceNotebooksPeaks {
        if harvest.Failure? {
          r := Failure(TracerFailed(harvest.error));
          return;
        }
        notebooksPeaks := harvest.value.0;
        jupyterPeak := Some(harvest.value.1);
      }
      out := Some(trace.out);
      exprType := Some(if Truthy(cell) then "cell" else "line");
      current := Some(ReportedCurrent(trace.traced, trace.compilation));
      peak := Some(ReportedPeak(trace.traced, trace.compilation));
      if currentPid in notebooksPeaks {
        notebookPeak := Some(notebooksPeaks[currentPid]);
      }
    }
    if o.notebook {
      notebook := Some(notebookRss);
    }
    if o.jupyter {
      jupyter := Some(jupyterRss);
    }
    var report := Report(exprType, current, peak, notebook, notebookPeak, jupyter, jupyterPeak);
    var printout := PrintMemoryUsageInfo(current, peak, notebook, notebookPeak, jupyter, jupyterPeak,
                                         exprType, o.printTable, showReal);
    var returned: Option<V> := None;
    if expr != "" && !o.quiet && !printout.raised {
      returned := out;
    }
    r := Success(MagicResult(report, printout, returned));
  }

  /**
   * `%memory -n` with nothing to trace prints one line, `RAM usage: notebook:`
   * and the notebook's usage, when that usage is below 1 TiB.
   */
  lemma NotebookOnlyLine(notebookRss: nat, showReal: real -> string)
    requires notebookRss < Pow1024(4)
    ensures PrintMemoryUsageInfo(None, None, Some(notebookRss), None, None, None, None, false, showReal).lines
         == ["RAM usage: notebook: " + FormatBytes(notebookRss, showReal).value]
  {
    NoExprLayout(Shown(Some(notebookRss), showReal), None);
  }

  /** `%memory -n -j -t` with nothing to trace prints the table header, a notebook row and a jupyter row. */
  lemma NotebookJupyterTable(notebookRss: nat, jupyterRss: nat, showReal: real -> string)
    requires notebookRss < Pow1024(4) && jupyterRss < Pow1024(4)
    ensures var p := PrintMemoryUsageInfo(None, None, Some(notebookRss), None, Some(jupyterRss), None, None,
                                          true, showReal);
            && !p.raised && |p.lines| == 4 && p.lines[0] == Header
            && " notebook | " <= p.lines[2] && " jupyter  | " <= p.lines[3]
  {
    var nb := Shown(Some(notebookRss), showReal);
    var jp := Shown(Some(jupyterRss), showReal);
    assert nb.Some? && jp.Some?;
    assert Shown(None, showReal) == None && ShownPeak(None, showReal) == Some(Dash);
    TableLayout(None, None, Some(Dash), nb, Some(Dash), jp, Some(Dash));
    var labels := RowLabels(None, None, nb, jp);
    assert labels == [" notebook | ", " jupyter  | "];
    var p := TableLines(None, None, Some(Dash), nb, Some(Dash), jp, Some(Dash));
    assert PrintMemoryUsageInfo(None, None, Some(notebookRss), None, Some(jupyterRss), None, None, true, showReal) == p;
    assert !p.raised;
    assert labels[0] <= p.lines[2] && labels[1] <= p.lines[3];
  }
}
