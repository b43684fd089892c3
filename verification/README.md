# ipython-memory-magics, modelled in Dafny

`ipython-memory-magics` provides the `%memory` / `%%memory` IPython magic.
It reports how much memory a line or a cell of a notebook allocated, both
current and peak. On request it also reports the resident memory of the
notebook process and of every Jupyter process, and their peaks while the
code ran. Those peaks come from a separate sampler process. While the code
runs, the sampler reads each tracked process's resident set size once per
interval. It keeps the running per-process maxima and the running maximum of
the per-pass sums, and appends both to a temporary file as one line of
decimal text. When the context manager `ContextMemoryTracer` is left, it
terminates the sampler. It reads the file's last line with `get_last_line`,
which skips at most one trailing blank line (the sampler's records are never
blank), and turns that line back into a pid-to-peak map and an aggregate
peak.

The model covers that core:

- `text.dfy` (module `Text`): the Python string built-ins the core relies
  on, modelled on `seq<char>`: `str(int)`, `int(str)`, `str.split()`,
  `" ".join`, `strip("\n")`, `lower()`, `in` on strings, and `{s:11}`
  padding.
- `last_line.dfy` (module `LastLineScan`): `get_last_line`. It is a cursor
  method over the file contents that loops backwards and falls back to
  byte 0 where a seek before the start raises `OSError`. Its result is
  proved equal to the function `LastLine`.
- `sampler.dfy` (module `Sampler`): the sampler loop
  `trace_peak_memory_usage` as the class `PeakSampler`. Each pass takes one
  vector of readings as input. The class state is proved equal to
  functions of the whole history of readings. The module also holds the
  compaction the source intends, defined next to the one it performs.
- `tracer.dfy` (module `Tracer`): `ContextMemoryTracer` as a class. The
  harvest done by `__exit__` is a function of the sampler's return code,
  its stderr and the file contents. The module proves the round trip
  between a written record and the harvest, and models one whole traced
  session.
- `jupyter.dfy` (module `Jupyter`): `get_jupyter_pids` as a loop over a
  snapshot of the process table.
- `printing.dfy` (module `Printing`): `format_bytes` and
  `print_memory_usage_info`. The latter returns the printed lines, plus
  whether a `TypeError` ended the printing.
- `magics.dfy` (module `Magics`): `_parse_options` after IPython's own
  option splitting, `_compile`'s eval/exec rule, the current/peak
  arithmetic, and the `memory` magic itself.

`memory_magics/utils.py` and the package `memory_magics/utils/` hold
identical copies of `get_last_line`, `format_bytes`, `get_jupyter_pids` and
`print_memory_usage_info`. Each is modelled once, and the table below cites
both copies.

Two facts about the sampler's records follow from the code:

- With no pids, a record is `" 0\n"`: the code writes the joined peaks, a
  space, then the aggregate.
- The compaction is meant to keep the last ten lines (`readlines()[-10:]`)
  so that the file does not grow without bound. As written, it cannot: see
  "## Findings".

## Model

| member | source | states |
|---|---|---|
| Text.IntToStringRoundTrip | memory_magics/memory_tracer/context_memory_tracer.py:36 | `int()` reads back exactly the integer `str()` wrote, for every integer, negative ones included; this is what lets `int()` read back the pids and the record's numbers (`memory_magics/memory_tracer/context_memory_tracer.py:55`) |
| Text.NatDigitsRoundTrip | memory_magics/memory_tracer/_memory_tracer.py:63 | the decimal text of a natural number is a well-formed digit run whose value is that number |
| Text.SplitWs | memory_magics/memory_tracer/context_memory_tracer.py:54 | every word `split()` returns is non-empty and holds no whitespace |
| Text.SplitOfJoin | memory_magics/memory_tracer/context_memory_tracer.py:54 | `split()` of `" ".join(words)` gives back `words` whenever each word is non-empty and free of whitespace |
| Text.StripLeadingIsSuffix | memory_magics/utils.py:36 | `lstrip("\n")` keeps a suffix of the text and drops only newlines before it |
| Text.StripTrailingDropsNewlines | memory_magics/utils.py:36 | `rstrip("\n")` keeps a prefix of the text and drops only newlines after it |
| Text.StripNewlines | memory_magics/utils.py:36 | the stripped text neither starts nor ends with a newline, and text without newlines is unchanged |
| Text.StripNewlinesIsSlice | memory_magics/utils.py:36 | `strip("\n")` gives a slice of the input: only newlines are removed, and only at the two ends |
| Text.LeftJustify | memory_magics/utils/print.py:38-42 | `{s:11}` has length max(len(s), 11), starts with `s` and is padded with spaces only |
| Text.IsInfixAt | memory_magics/utils.py:50 | `needle in hay` holds exactly when the needle occurs at some position of `hay` |
| LastLineScan.LastNewlineBefore | memory_magics/utils.py:25-31 | the position the backward scan can stop at is the last newline below the bound, and no newline lies between it and the bound |
| LastLineScan.SeekLineStart | memory_magics/utils.py:22-34 | the cursor loop terminates; its position is 0, just after a newline, or (without skipping) on a final newline; reading from there and stripping gives `LastLine`; the same holds for the copy at `memory_magics/utils/jupyter.py:40-52` |
| LastLineScan.GetLastLine | memory_magics/utils/jupyter.py:37-54 | the result equals the function `LastLine` and never starts or ends with a newline; the same holds for the copy at `memory_magics/utils.py:19-37` |
| LastLineScan.SingleLineReturnedWhole | memory_magics/utils.py:24-34 | a file without a line break, the empty file included, is returned whole through the `OSError` fallback; the same holds for the copy at `memory_magics/utils/jupyter.py:49-54` |
| LastLineScan.FinalNewlineWithoutSkipGivesEmpty | memory_magics/utils.py:26-29 | without skipping, a file ending in a newline gives `""`; the same holds for the copy at `memory_magics/utils/jupyter.py:44-47` |
| LastLineScan.UnterminatedLastLine | memory_magics/utils.py:26-36 | a file not ending in a newline gives its non-empty final segment after the last newline, or the whole file, with or without skipping |
| LastLineScan.LastRecordOfLog | memory_magics/utils/jupyter.py:44-54 | with skipping, a non-empty log of newline-terminated, non-blank records gives its last record without the newline |
| LastLineScan.TwoBlankLinesGiveEmpty | memory_magics/utils.py:27-31 | only one trailing blank line is skipped: a file ending in three newlines gives `""` |
| LastLineScan.ByteBeforeFinalNewlineUnexamined | memory_magics/utils/jupyter.py:45-49 | with skipping, the byte before a final newline is never examined: the result is the text after the last newline before that byte, that byte included |
| Sampler.PeakSampler.constructor | memory_magics/memory_tracer/_memory_tracer.py:48-53 | peaks start all zero, one per pid; aggregate 0; line count 0; empty log |
| Sampler.PeakSampler.Step | memory_magics/memory_tracer/_memory_tracer.py:55-75 | one pass: elementwise max into the peaks, max of the pass's sum into the aggregate, one record appended; the pass that finds a line count above 1000 dies in the compaction; otherwise the count goes up by one |
| Sampler.PeakSampler.Run | memory_magics/memory_tracer/_memory_tracer.py:54-76 | the loop runs every pass, or stops at the 1002nd pass of the process; peaks, aggregate and log then equal the functions of the readings taken |
| Sampler.PeakIsLargestReading | memory_magics/memory_tracer/_memory_tracer.py:49-59 | each peak is at least every reading of its process and, unless 0, equals one of them |
| Sampler.AggregateIsLargestSum | memory_magics/memory_tracer/_memory_tracer.py:57-60 | the aggregate is at least every pass's sum and, unless 0, equals one of them: the max of sums |
| Sampler.AggregateAtMostSumOfPeaks | memory_magics/memory_tracer/_memory_tracer.py:57-60 | the aggregate never exceeds the sum of the per-process peaks |
| Sampler.PeaksNeverDecrease | memory_magics/memory_tracer/_memory_tracer.py:59-60 | no peak and not the aggregate ever decreases as passes are added |
| Sampler.ThreePassesExample | memory_magics/memory_tracer/_memory_tracer.py:49-60 | readings (10,20), (30,5), (15,15) give peaks 30 20, aggregate 35, and a sum of peaks 50 |
| Sampler.RecordIsOneLine | memory_magics/memory_tracer/_memory_tracer.py:63 | a record is one non-blank line ending in a newline; with no pids it is `" "` then the aggregate, so `" 0\n"` at the start |
| Sampler.KeepLast | memory_magics/memory_tracer/_memory_tracer.py:67 | `readlines()[-10:]` is the suffix of the lines of length min(10, number of lines) |
| Sampler.IntendedStepKeeps | memory_magics/memory_tracer/_memory_tracer.py:65-71 | a pass with the intended compaction keeps the file bounded and made of whole records, and its last line is the new record |
| Sampler.IntendedRunKeepsLastRecord | memory_magics/memory_tracer/_memory_tracer.py:65-71 | with the intended compaction, any number of passes gives the same peaks and aggregate, at most 1010 lines, and the latest record last |
| Tracer.ParseInts | memory_magics/memory_tracer/context_memory_tracer.py:55 | `map(int, tokens)` succeeds exactly when every token is an integer text, one value per token; otherwise `ValueError` |
| Tracer.ParseLastLine | memory_magics/memory_tracer/context_memory_tracer.py:54-56 | `IndexError` exactly when the line holds no token; `ValueError` exactly when a token is not an integer; on success the peaks and then the aggregate are all the line's integers, in order |
| Tracer.ParseLastLineSucceeds | memory_magics/memory_tracer/context_memory_tracer.py:54-56 | the parse succeeds exactly when the line holds at least one token and every token is an integer |
| Tracer.Zip | memory_magics/memory_tracer/context_memory_tracer.py:61 | `dict(zip(...))` has as keys the pids up to the shorter length, and a repeated pid keeps its last value |
| Tracer.Harvest | memory_magics/memory_tracer/context_memory_tracer.py:45-62 | a return code other than -15 raises `NotImplementedError` with the stderr text; otherwise the harvest fails exactly when the last line's parse fails, raising the parse's own exception (`IndexError` or `ValueError`), and on success it gives the zipped peaks and the aggregate |
| Tracer.CommandCarriesPids | memory_magics/memory_tracer/context_memory_tracer.py:33-40 | the sampler's command line is the interpreter, the script, each pid as text that `int()` reads back, the path, `--interval` and its value, in that order |
| Tracer.ContextMemoryTracer.constructor | memory_magics/memory_tracer/context_memory_tracer.py:19-28 | empty peak map, no aggregate, no file and no process |
| Tracer.ContextMemoryTracer.Enter | memory_magics/memory_tracer/context_memory_tracer.py:30-43 | the file handle and path are kept and the sampler command line is built; the results stay as they were |
| Tracer.ContextMemoryTracer.Exit | memory_magics/memory_tracer/context_memory_tracer.py:45-62 | on success the file is released and then the peak map and aggregate are the harvest's; on every exception the results and the file are left as they were |
| Tracer.RecordsAreLines | memory_magics/memory_tracer/_memory_tracer.py:62-63 | the log holds one record line per pass, and the last is the record of the current peaks and aggregate |
| Tracer.RecordRoundTrip | memory_magics/memory_tracer/context_memory_tracer.py:54-56 | parsing a record the sampler wrote gives back exactly its peaks and aggregate |
| Tracer.EmptyPidRecordRoundTrip | memory_magics/memory_tracer/context_memory_tracer.py:54-62 | the no-pid record `" 0"` harvests to an empty map and 0 |
| Tracer.HarvestOfRecords | memory_magics/memory_tracer/context_memory_tracer.py:54-62 | a log of record lines harvests to the pids zipped with its last record's peaks, and that record's aggregate |
| Tracer.HarvestAfterSampling | memory_magics/memory_tracer/context_memory_tracer.py:54-62 | after at least one pass, the harvest gives each pid the peak of its readings and the max of the per-pass sums |
| Tracer.EmptyLineRaisesIndexError | memory_magics/memory_tracer/context_memory_tracer.py:56 | an empty last line raises `IndexError` at `[-1]` |
| Tracer.EmptyLogRaisesIndexError | memory_magics/memory_tracer/context_memory_tracer.py:54-56 | a sampler terminated before its first pass leaves an empty file, and the harvest raises `IndexError` |
| Tracer.HarvestAfterIntendedSampling | memory_magics/memory_tracer/_memory_tracer.py:65-71 | with the intended compaction, the harvest succeeds with the sampler's peaks and aggregate after any number of passes |
| Tracer.HarvestAfterRun | memory_magics/memory_tracer/context_memory_tracer.py:48-56 | the harvest after a run as written: `IndexError` with no pass, the peaks and aggregate after 1 to 1001 passes, `NotImplementedError` after more |
| Tracer.TraceSession | memory_magics/memory_tracer/_memory_tracer.py:62-71 | a whole traced session as written, every memory reading succeeding: the harvest succeeds with the true peaks only up to 1001 passes, and raises after the sampler died in its compaction; an empty pid list is a usage error for the sampler (`memory_magics/memory_tracer/_memory_tracer.py:16-21`), so the session raises `NotImplementedError` |
| Jupyter.GetJupyterPids | memory_magics/utils.py:40-55 | the loop returns exactly `JupyterPids`, the pids of the matching processes in snapshot order; the same holds for the copy at `memory_magics/utils/jupyter.py:21-34` |
| Jupyter.PidsAtJupyterPositions | memory_magics/utils/jupyter.py:26-34 | the result is the snapshot's pids at exactly the positions whose command line matches, in snapshot order; unreadable command lines are dropped |
| Jupyter.JupyterPidMembership | memory_magics/utils.py:43-55 | a pid is reported exactly when some process with that pid has a matching command line |
| Jupyter.MatchIgnoresCase | memory_magics/utils.py:49-50 | the match ignores case: a command line `JupyterLab` is reported |
| Printing.ChooseUnitFrom | memory_magics/utils.py:13-16 | the unit loop, entered at any unit, returns a unit exactly for 0 <= n < 1024^4, the least whose next power exceeds n, with magnitude n / 1024^k |
| Printing.FormatUnitIsLeastPower | memory_magics/utils/print.py:8-11 | the unit is the least k with n < 1024^(k+1) and the magnitude is n / 1024^k; a negative n or one of 1024^4 or more gets no unit |
| Printing.UnitForUnique | memory_magics/utils/print.py:8-11 | at most one unit k satisfies n < 1024^(k+1) with k = 0 or 1024^k <= n |
| Printing.FormatBytes | memory_magics/utils/print.py:5-11 | `format_bytes` returns a text exactly for 0 <= n < 1024^4; for the least k with n < 1024^(k+1) the text is the integer then `" B"` when k = 0, and otherwise the rendering of n / 1024^k then the k-th unit (`KiB`, `MiB`, `GiB`); the same holds for the copy at `memory_magics/utils.py:10-16` |
| Printing.PrintMemoryUsageInfo | memory_magics/utils/print.py:14-63 | after the rebinding (a value that cannot be formatted is not shown, a missing peak is the dash): with `print_table` the header and rule come first exactly when one of current, notebook and jupyter can be shown, and printing raises exactly when a shown value's peak cannot be formatted; without the table and with an expression type, the first line starts with `RAM usage: <type>:`; without either, nothing raises, nothing is printed exactly when neither notebook nor jupyter is shown, and the notebook line comes first; the same holds for the copy at `memory_magics/utils.py:72-126` |
| Printing.EmitAllPrintsInOrder | memory_magics/utils/print.py:33-42 | a run of `print` calls fails exactly when one line fails to format, and otherwise prints every line in order |
| Printing.TableRowsAreLabelled | memory_magics/utils/print.py:37-42 | one row per shown value in the order expression, notebook, jupyter, each starting with its label; a row fails exactly when its value is shown and its peak could not be formatted |
| Printing.TableLayout | memory_magics/utils/print.py:33-42 | the header and rule are printed exactly when some value is shown, then one labelled row per shown value; nothing at all when none is; the table raises exactly when a shown row's peak is missing; the same holds for the copy at `memory_magics/utils.py:92-102` |
| Printing.MissingPeakShowsDash | memory_magics/utils/print.py:24-31 | a missing peak is shown as the 11-character dash, which padding leaves unchanged |
| Printing.ExprLayoutStartsWithType | memory_magics/utils/print.py:45-55 | in all three line layouts the first line starts with `RAM usage: <type>:`; the single-line layout needs nothing shown (it prints `None` for a missing value), the notebook and jupyter layouts need the current value and peak shown |
| Printing.JupyterLineOnlyWhenShown | memory_magics/utils/print.py:46-50 | in the notebook layout the jupyter line is printed exactly when a jupyter value is present |
| Printing.NoExprLayout | memory_magics/utils/print.py:57-63 | with nothing run: the notebook line plus an optional jupyter line, or the jupyter line alone, or nothing; the same holds for the copy at `memory_magics/utils.py:119-126` |
| Printing.OversizedPeakRaises | memory_magics/utils/print.py:27-38 | in the table, a row whose peak is 1024^4 bytes or more raises, since padding `None` raises `TypeError` |
| Magics.ParseOptions | memory_magics/memory_magics.py:90-121 | the checks run in order: `UsageError` exactly when a statement follows `%%memory`, then `TypeError` exactly when the interval is not a number, then `ValueError` exactly when it is below 10; success exactly when none of these holds; on success the interval is the `-i` value, else `--interval`, else 10; each flag means short or long key present; notebook tracing means such a flag and something to run |
| Magics.ShortIntervalWins | memory_magics/memory_magics.py:108 | `-i 10` is accepted and wins over `--interval` |
| Magics.Compile | memory_magics/memory_magics.py:31-44 | a lone expression is evaluated; otherwise the body is executed, and a trailing expression after other statements is split off as the value |
| Magics.CompileRunsWholeBody | memory_magics/memory_magics.py:31-44 | the statements run are exactly the body, in order, and a value comes out exactly when the body ends with an expression |
| Magics.ReportedPeak | memory_magics/memory_magics.py:213-215 | the reported peak is the max of traced peak plus compilation current, and compilation peak |
| Magics.ReportedCurrent | memory_magics/memory_magics.py:211 | the reported current counts both what the run and what compiling left allocated, and, as each traced current is below its peak, never exceeds the reported peak |
| Magics.Memory | memory_magics/memory_magics.py:183-238 | option errors propagate; when notebook peaks are traced and the tracer's `__exit__` raises (`NotImplementedError`, `IndexError`, `ValueError`, see `memory_magics/memory_magics.py:66-86`), that exception escapes and nothing is printed or returned, and the result is then a failure; a `TypeError` from printing a missing value (`{None:11}`) also escapes `memory`, and the model carries it as the printout's `raised` flag, with nothing returned; with code to run, the type, current and peak come from the trace, the Jupyter peak is the sampler's aggregate exactly when notebook peaks are traced, and the notebook peak is set exactly when the current pid is in the sampler's map; the notebook and Jupyter values are read only when asked; the printout is `print_memory_usage_info` of the report; a value is returned exactly when code ran, quiet is off and printing did not raise |
| Magics.NotebookOnlyLine | tests/test_line/test_options.py:9-11 | `%memory -n` prints the single line `RAM usage: notebook:` and the formatted usage |
| Magics.NotebookJupyterTable | tests/test_line/test_options.py:36-38 | `%memory -n -j -t` prints the header, the rule, a notebook row and a jupyter row |

## Left out

- Process management (`subprocess.Popen`, `terminate`, `communicate`, `sleep`, `mkstemp`, `os.close`, `os.remove`) is not modelled as I/O. The sampler's end is its return code, its stderr text and the file contents, which are inputs. Releasing the file is a flag.
- `psutil` is a foreign library. Memory readings and the process-table snapshot (pid and command line, or `None` when reading it raised) are inputs.
- `get_jupyter_memory_usage` is left out: it only sums `psutil` readings, and `memory` receives its value as an input.
- `tracemalloc`, `eval` and `exec` run foreign code, so `_trace_memory_usage` is not modelled. The magic receives its value and its two `(current, peak)` pairs as inputs, and, when notebook peaks are traced, the outcome of the tracer's `__exit__` (the harvest, or the exception it raised). That outcome is an input rather than `Tracer.Harvest` of a given sampler run, so which runs make it fail is stated in module `Tracer` (for instance by `Tracer.HarvestAfterRun`), not in `Magics.Memory`.
- IPython's own machinery is left out: `parse_options`, `transform_cell`, the AST parser and compiler, the decorators and `load_ipython_extension`. The options arrive as a key-to-text map, and the body arrives as a sequence of statement kinds. A repeated option is not modelled.
- Magics.Memory: exceptions raised by the traced code itself, by compiling it, or by `psutil` in the magic's own process are not modelled; only the option errors and the tracer's `__exit__` errors escape in the model.
- The decimal rendering of floats is a function parameter: `showReal` for `round(x, 2)` and `showFloat` for `str(interval)`. Likewise, `float()` on the interval text is `toFloat`. Magnitudes are exact reals. Below 1024^4 they equal the float values, because dividing by 1024 is exact in binary floating point.
- `argparse` in the sampler is modelled only as "the pid list needs at least one pid". Parsing of the sampler's own arguments and its `--interval` is not modelled.
- Timing (`sleep(interval / 1000)`) is not modelled. The endless sampler loop becomes a run over a finite sequence of passes.
- Bytes are read as characters, and `.decode()` is the identity.
- `int()` is modelled for ASCII digits, an optional sign and single underscores between digits. Unicode digits and the surrounding whitespace that `int()` also accepts are left out, because `split()` tokens carry no whitespace.
- The sampler's file writes are assumed to reach the file before `__exit__` reads it.
- Text.StripNewlines: its own contract states the two ends and the unchanged case; that only newlines at the ends are dropped is stated by the lemma Text.StripNewlinesIsSlice, kept apart so that the proofs about the last-line scan stay small.
- Magics.ReportedCurrent: the contract does not repeat the sum that defines the value; it states the bounds the sum gives, against each part and against the reported peak.
- Tracer.TraceSession: the sampler is modelled as dying on the pass where the compaction is attempted. What an interleaving with the terminate signal would change is not modelled.
- Tracer.TraceSession: every memory reading is assumed to succeed. In the code, `psutil.Process(pid)` (`memory_magics/memory_tracer/_memory_tracer.py:48`) and `memory_info()` (`memory_magics/memory_tracer/_memory_tracer.py:56`) raise when a tracked process has exited or denies access; nothing catches that, so the sampler dies with status 1 and the session raises `NotImplementedError`, even within the first 1001 passes.

## Findings

| source | as written | input that shows it | evidently intended | confidence | as-written member | corrected member |
|---|---|---|---|---|---|---|
| memory_magics/memory_tracer/_memory_tracer.py:62-70 | the file is opened in append mode (`"a"`), so the compaction's `readlines()` raises `io.UnsupportedOperation`; the sampler dies with status 1 on its 1002nd pass, and every later `__exit__` raises `NotImplementedError` | any traced run lasting 1002 passes or more, e.g. about 10 seconds at the default 10 ms interval | keep the last ten lines and go on sampling, so that the harvest still gives the true peaks | not executed | Tracer.TraceSession | Tracer.HarvestAfterIntendedSampling |
