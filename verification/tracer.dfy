/**
 * `ContextMemoryTracer`: a context manager that starts the peak sampler on a
 * set of pids when entered and, when left, terminates it and reads the
 * result back from the last line of the sampler's output file.
 *
 * The sampler process is represented by what `__exit__` observes of it: its
 * return code, its stderr text and the contents of its output file.
 */
module Tracer {
  import opened Wrappers
  import opened Text
  import opened LastLineScan
  import opened Sampler

  /** The return code of a child process ended by SIGTERM, the signal `terminate()` sends. */
  const TerminatedCode: int := -15

  /** The exit status of a Python process that died of an uncaught exception. */
  const UncaughtExceptionCode: int := 1

  /** The exit status of a Python process whose command line `argparse` rejected. */
  const UsageErrorCode: int := 2

  /** The exceptions `__exit__` can raise. */
  datatype TracerError =
    | NotImplemented(stderr: string)  // the sampler did not end by the terminate signal
    | IndexError                      // the last line holds no token, so `[-1]` fails
    | ValueError                      // a token of the last line is not an integer

  /** `list(map(int, tokens))`: every token's integer, or `ValueError` when one is not an integer. */
  function ParseInts(tokens: seq<string>): (r: Result<seq<int>, TracerError>)
    ensures r.Success? <==> forall i :: 0 <= i < |tokens| ==> ParseInt(tokens[i]).Some?
    ensures r.Success? ==> |r.value| == |tokens|
    ensures r.Success? ==> forall i :: 0 <= i < |tokens| ==> ParseInt(tokens[i]) == Some(r.value[i])
    ensures r.Failure? ==> r.error == ValueError
    decreases |tokens|
  {
    if tokens == [] then Success([])
    else match ParseInt(tokens[0])
      case None => Failure(ValueError)
      case Some(v) =>
        var rest := ParseInts(tokens[1..]);
        assert forall i :: 1 <= i < |tokens| ==> tokens[i] == tokens[1..][i - 1];
        if rest.Failure? then rest else Success([v] + rest.value)
  }

  /**
   * The parse of the last line: split on whitespace, convert every token,
   * then all integers but the last (the per-pid peaks) and the last (the
   * aggregate).
   */
  function ParseLastLine(line: string): (r: Result<(seq<int>, int), TracerError>)
    ensures r == Failure(IndexError) <==> SplitWs(line) == []
    ensures r == Failure(ValueError) <==> ParseInts(SplitWs(line)).Failure?
    ensures r.Success? ==> ParseInts(SplitWs(line)) == Success(r.value.0 + [r.value.1])
    ensures r.Failure? && r.error != IndexError ==> r.error == ValueError
  {
    var parsed := ParseInts(SplitWs(line));
    if parsed.Failure? then Failure(parsed.error)
    else if |parsed.value| == 0 then Failure(IndexError)
    else
      var values := parsed.value;
      assert values == values[..|values| - 1] + [values[|values| - 1]];
      Success((values[..|values| - 1], values[|values| - 1]))
  }

  /** The parse succeeds exactly when the line holds a token and every token is an integer. */
  lemma ParseLastLineSucceeds(line: string)
    ensures ParseLastLine(line).Success? <==> SplitWs(line) != [] && ParseInts(SplitWs(line)).Success?
  {
  }

  function Min(a: nat, b: nat): nat {
    if a <= b then a else b
  }

  /** No later position below `n` holds the same key as position `i`. */
  predicate LastOccurrence(keys: seq<int>, n: nat, i: nat)
    requires n <= |keys|
  {
    forall j :: i < j < n ==> keys[j] != keys[i]
  }

  /**
   * `dict(zip(keys, values))`: the pairs up to the shorter of the two
   * lengths; the surplus of either side is dropped and a repeated key keeps
   * its last value.
   */
  function Zip(keys: seq<int>, values: seq<int>): (m: map<int, int>)
    ensures m.Keys == set i | 0 <= i < Min(|keys|, |values|) :: keys[i]
    ensures forall i :: 0 <= i < Min(|keys|, |values|) && LastOccurrence(keys, Min(|keys|, |values|), i) ==>
              m[keys[i]] == values[i]
    decreases |keys|
  {
    var n := Min(|keys|, |values|);
    if n == 0 then map[]
    else
      var ks := keys[..n - 1];
      var vs := values[..n - 1];
      var m := Zip(ks, vs);
      assert Min(|ks|, |vs|) == n - 1;
      assert forall i :: 0 <= i < n - 1 ==> ks[i] == keys[i] && vs[i] == values[i];
      assert (set i | 0 <= i < n :: keys[i]) == (set i | 0 <= i < n - 1 :: ks[i]) + {keys[n - 1]};
      assert forall i :: 0 <= i < n - 1 && LastOccurrence(keys, n, i) ==> LastOccurrence(ks, n - 1, i);
      m[keys[n - 1] := values[n - 1]]
  }

  /** Everything `__exit__` computes from the sampler's return code, its stderr and its output file. */
  function Harvest(pids: seq<int>, returnCode: int, stderr: string, log: string)
    : (r: Result<(map<int, int>, int), TracerError>)
    ensures returnCode != TerminatedCode ==> r == Failure(NotImplemented(stderr))
    ensures returnCode == TerminatedCode ==>
              (r.Failure? <==> ParseLastLine(LastLine(log, true)).Failure?)
    ensures returnCode == TerminatedCode && r.Failure? ==>
              r.error == ParseLastLine(LastLine(log, true)).error
    ensures r.Success? ==>
              var parsed := ParseLastLine(LastLine(log, true)).value;
              r.value == (Zip(pids, parsed.0), parsed.1)
  {
    if returnCode != TerminatedCode then Failure(NotImplemented(stderr))
    else match ParseLastLine(LastLine(log, true))
      case Failure(e) => Failure(e)
      case Success(parsed) => Success((Zip(pids, parsed.0), parsed.1))
  }

  /** `map(str, pids)`. */
  function PidTexts(pids: seq<int>): seq<string> {
    seq(|pids|, i requires 0 <= i < |pids| => IntToString(pids[i]))
  }

  /** The sampler's command line built by `__enter__`. */
  function SamplerCommand(script: string, pids: seq<int>, path: string, intervalText: string): seq<string> {
    ["python", script] + PidTexts(pids) + [path, "--interval", intervalText]
  }

  /**
   * The command line holds, in order, the interpreter, the script, each pid
   * as text that `int()` reads back as that pid, the output path, the
   * interval option and its value.
   */
  lemma CommandCarriesPids(script: string, pids: seq<int>, path: string, intervalText: string)
    ensures var c := SamplerCommand(script, pids, path, intervalText);
            && |c| == |pids| + 5
            && c[0] == "python" && c[1] == script
            && (forall i :: 0 <= i < |pids| ==> ParseInt(c[i + 2]) == Some(pids[i]))
            && c[|pids| + 2] == path && c[|pids| + 3] == "--interval" && c[|pids| + 4] == intervalText
  {
    var c := SamplerCommand(script, pids, path, intervalText);
    forall i | 0 <= i < |pids| ensures ParseInt(c[i + 2]) == Some(pids[i]) {
      assert c[i + 2] == IntToString(pids[i]);
      IntToStringRoundTrip(pids[i]);
    }
  }

  /** The context manager's state. */
  class ContextMemoryTracer {
    const pids: seq<int>
    const interval: real
    var memoryUsagesPeak: map<int, int>
    var totalPeak: Option<int>
    var fileHandle: Option<int>
    var filePath: Option<string>
    /** The command line the sampler process was started with. */
    var process: Option<seq<string>>
    /** The temporary file has been closed and removed. */
    var fileReleased: bool

    constructor (pids: seq<int>, interval: real)
      ensures this.pids == pids && this.interval == interval
      ensures memoryUsagesPeak == map[] && totalPeak == None
      ensures fileHandle == None && filePath == None && process == None && !fileReleased
    {
      this.pids := pids;
      this.interval := interval;
      memoryUsagesPeak := map[];
      totalPeak := None;
      fileHandle := None;
      filePath := None;
      process := None;
      fileReleased := false;
    }

    /**
     * `__enter__`: `mkstemp()` returned `handle` and `path`; the sampler is
     * started on `script` with `str(interval)` rendered by `showFloat`.
     */
    method Enter(handle: int, path: string, script: string, showFloat: real -> string)
      modifies this
      ensures fileHandle == Some(handle) && filePath == Some(path)
      ensures process == Some(SamplerCommand(script, pids, path, showFloat(interval)))
      ensures memoryUsagesPeak == old(memoryUsagesPeak) && totalPeak == old(totalPeak)
      ensures fileReleased == old(fileReleased)
    {
      fileHandle, filePath := Some(handle), Some(path);
      var cmdline := ["python", script] + PidTexts(pids) + [path, "--interval", showFloat(interval)];
      process := Some(cmdline);
    }

    /**
     * `__exit__`: the terminated sampler reported `returnCode` and `stderr`,
     * and its output file holds `log`. The result fields are assigned only
     * when the harvest succeeds, after the file has been released; on any
     * exception they and the file are left as they were.
     */
    method Exit(returnCode: int, stderr: string, log: string) returns (raised: Option<TracerError>)
      requires process.Some? && fileHandle.Some? && filePath.Some?
      modifies this
      ensures var h := Harvest(pids, returnCode, stderr, log);
              if h.Success? then
                && raised == None && fileReleased
                && memoryUsagesPeak == h.value.0 && totalPeak == Some(h.value.1)
              else
                && raised == Some(h.error) && fileReleased == old(fileReleased)
                && memoryUsagesPeak == old(memoryUsagesPeak) && totalPeak == old(totalPeak)
      ensures fileHandle == old(fileHandle) && filePath == old(filePath) && process == old(process)
    {
      if returnCode != TerminatedCode {
        raised := Some(NotImplemented(stderr));
        return;
      }
      var line := GetLastLine(log, true);
      var parsed := ParseLastLine(line);
      if parsed.Failure? {
        raised := Some(parsed.error);
        return;
      }
      fileReleased := true;
      memoryUsagesPeak := Zip(pids, parsed.value.0);
      totalPeak := Some(parsed.value.1);
      raised := None;
    }
  }

  /** The sampler's log: its records, oldest first, are one line each and the last is the latest. */
  lemma {:induction false} RecordsAreLines(n: nat, rs: seq<seq<nat>>)
    requires Shaped(n, rs)
    ensures var log := RecordsAfter(n, rs);
            && |log| == |rs|
            && (forall k :: 0 <= k < |log| ==> IsRecordLine(log[k]))
            && (rs != [] ==> log[|log| - 1] == Record(PeaksAfter(n, rs), AggregateAfter(rs)))
    decreases |rs|
  {
    if rs != [] {
      RecordsAreLines(n, rs[..|rs| - 1]);
      RecordIsOneLine(PeaksAfter(n, rs), AggregateAfter(rs));
    }
  }

  lemma {:induction false} JoinSnoc(words: seq<string>, w: string)
    requires words != []
    ensures JoinSpace(words + [w]) == JoinSpace(words) + " " + w
    decreases |words|
  {
    if |words| > 1 {
      JoinSnoc(words[1..], w);
      assert (words + [w])[1..] == words[1..] + [w];
    }
  }

  lemma NatTextParses(x: nat)
    ensures ParseInt(NatToString(x)) == Some(x)
  {
    IntToStringRoundTrip(x);
  }

  lemma DigitsAreWords(xs: seq<nat>)
    ensures forall k :: 0 <= k < |Decimals(xs)| ==> Decimals(xs)[k] != [] && NoSpace(Decimals(xs)[k])
  {
    forall k | 0 <= k < |Decimals(xs)| ensures NoSpace(Decimals(xs)[k]) {
      var d := NatToString(xs[k]);
      assert forall i :: 0 <= i < |d| ==> IsDigit(d[i]);
    }
  }

  /** The record line splits into the decimal texts of the peaks, then that of the aggregate. */
  lemma RecordSplits(peaks: seq<nat>, total: nat)
    ensures SplitWs(JoinSpace(Decimals(peaks)) + " " + NatToString(total))
         == Decimals(peaks) + [NatToString(total)]
  {
    var d := NatToString(total);
    var words := Decimals(peaks) + [d];
    DigitsAreWords(peaks);
    assert forall i :: 0 <= i < |d| ==> IsDigit(d[i]);
    if peaks == [] {
      assert Decimals(peaks) == [];
      var line := JoinSpace(Decimals(peaks)) + " " + d;
      assert line == " " + d && line[1..] == d;
      SplitOfJoin([d]);
    } else {
      JoinSnoc(Decimals(peaks), d);
      SplitOfJoin(words);
    }
  }

  /** The body of a record parses into its peaks and its aggregate. */
  lemma RecordBodyParses(peaks: seq<nat>, total: nat)
    ensures ParseLastLine(JoinSpace(Decimals(peaks)) + " " + NatToString(total)) == Success((peaks, total))
  {
    RecordSplits(peaks, total);
    var tokens := Decimals(peaks) + [NatToString(total)];
    var expected: seq<int> := peaks + [total];
    forall i | 0 <= i < |tokens| ensures ParseInt(tokens[i]) == Some(expected[i]) {
      NatTextParses(expected[i]);
    }
    var got := ParseInts(tokens).value;
    assert got == expected;
    assert expected[..|expected| - 1] == peaks;
  }

  /** Parsing a record the sampler wrote gives back exactly its peaks and its aggregate. */
  lemma RecordRoundTrip(peaks: seq<nat>, total: nat)
    ensures ParseLastLine(StripNewlines(Record(peaks, total))) == Success((peaks, total))
  {
    RecordIsOneLine(peaks, total);
    StripRecordLine(Record(peaks, total));
    RecordBodyParses(peaks, total);
  }

  /** The record of an empty pid list, `" 0"`, harvests to an empty map and 0. */
  lemma EmptyPidRecordRoundTrip(pids: seq<int>)
    ensures ParseLastLine(StripNewlines(" 0\n")) == Success(([], 0))
    ensures Zip(pids, []) == map[]
  {
    RecordIsOneLine([], 0);
    RecordRoundTrip([], 0);
  }

  /** A log made of records: the harvest returns the peaks zipped with the pids, and the aggregate, of its last record. */
  lemma HarvestOfRecords(pids: seq<int>, stderr: string, records: seq<string>, peaks: seq<nat>, total: nat)
    requires records != [] && records[|records| - 1] == Record(peaks, total)
    requires forall k :: 0 <= k < |records| ==> IsRecordLine(records[k])
    ensures Harvest(pids, TerminatedCode, stderr, Concat(records)) == Success((Zip(pids, peaks), total))
  {
    LastRecordOfLog(records);
    RecordIsOneLine(peaks, total);
    StripRecordLine(Record(peaks, total));
    RecordRoundTrip(peaks, total);
  }

  /**
   * After 1 to 1001 passes and the terminate signal, the harvest gives each
   * pid its peak reading and the aggregate: what the sampler computed.
   */
  lemma HarvestAfterSampling(pids: seq<int>, stderr: string, rs: seq<seq<nat>>)
    requires Shaped(|pids|, rs) && rs != []
    ensures Harvest(pids, TerminatedCode, stderr, Concat(RecordsAfter(|pids|, rs)))
         == Success((Zip(pids, PeaksAfter(|pids|, rs)), AggregateAfter(rs)))
  {
    RecordsAreLines(|pids|, rs);
    HarvestOfRecords(pids, stderr, RecordsAfter(|pids|, rs), PeaksAfter(|pids|, rs), AggregateAfter(rs));
  }

  lemma EmptyLineRaisesIndexError()
    ensures ParseLastLine("") == Failure(IndexError)
  {
    assert SplitWs("") == [];
  }

  /** A sampler terminated before its first pass leaves an empty file: the harvest raises `IndexError`. */
  lemma EmptyLogRaisesIndexError(pids: seq<int>, stderr: string, log: string)
    requires |log| == 0
    ensures Harvest(pids, TerminatedCode, stderr, log) == Failure(IndexError)
  {
    SingleLineReturnedWhole(log, true);
    assert LastLine(log, true) == log == "";
    EmptyLineRaisesIndexError();
  }

  /**
   * With the compaction working as intended, the harvest succeeds with the
   * sampler's peaks and aggregate after any number of passes.
   */
  lemma HarvestAfterIntendedSampling(pids: seq<int>, stderr: string, rs: seq<seq<nat>>)
    requires Shaped(|pids|, rs) && rs != []
    ensures Harvest(pids, TerminatedCode, stderr, Concat(IntendedRun(|pids|, rs).lines))
         == Success((Zip(pids, PeaksAfter(|pids|, rs)), AggregateAfter(rs)))
  {
    IntendedRunKeepsLastRecord(|pids|, rs);
    var s := IntendedRun(|pids|, rs);
    HarvestOfRecords(pids, stderr, s.lines, s.peaks, s.totalPeak);
  }

  /** The harvest once the sampler has stopped, by the terminate signal or by its own death. */
  lemma HarvestAfterRun(pids: seq<int>, samples: seq<seq<nat>>, stderr: string, failed: bool, steps: nat)
    requires Shaped(|pids|, samples)
    requires failed == (|samples| >= CompactAfter + 2)
    requires steps == if failed then CompactAfter + 2 else |samples|
    ensures var code := if failed then UncaughtExceptionCode else TerminatedCode;
            var result := Harvest(pids, code, stderr, Concat(RecordsAfter(|pids|, samples[..steps])));
            && (samples == [] ==> result == Failure(IndexError))
            && (1 <= |samples| <= CompactAfter + 1 ==>
                  result == Success((Zip(pids, PeaksAfter(|pids|, samples)), AggregateAfter(samples))))
            && (|samples| > CompactAfter + 1 ==> result == Failure(NotImplemented(stderr)))
  {
    if samples == [] {
      assert RecordsAfter(|pids|, samples[..steps]) == [];
      EmptyLogRaisesIndexError(pids, stderr, Concat(RecordsAfter(|pids|, samples[..steps])));
    } else if !failed {
      assert samples[..steps] == samples;
      HarvestAfterSampling(pids, stderr, samples);
    }
  }

  /**
   * One traced run as written: the sampler is started on `pids` (its command
   * line needs at least one), makes the passes `samples` unless it dies
   * first, and is then terminated; `__exit__` harvests its output file.
   * From the 1002nd pass on the sampler has died, so the harvest raises.
   * Every reading in `samples` is one that `psutil` returned; a tracked
   * process that exits or denies access is not modelled.
   */
  method TraceSession(pids: seq<int>, samples: seq<seq<nat>>, stderr: string)
    returns (result: Result<(map<int, int>, int), TracerError>)
    requires Shaped(|pids|, samples)
    ensures pids == [] ==> result == Failure(NotImplemented(stderr))
    ensures pids != [] && samples == [] ==> result == Failure(IndexError)
    ensures pids != [] && 1 <= |samples| <= CompactAfter + 1 ==>
              result == Success((Zip(pids, PeaksAfter(|pids|, samples)), AggregateAfter(samples)))
    ensures pids != [] && |samples| > CompactAfter + 1 ==> result == Failure(NotImplemented(stderr))
  {
    if pids == [] {
      result := Harvest(pids, UsageErrorCode, stderr, "");
      return;
    }
    var sampler := new PeakSampler(pids);
    var steps := sampler.Run(samples);
    var failed := sampler.failed;
    var log := sampler.log;
    assert sampler.readings == samples[..steps];
    HarvestAfterRun(pids, samples, stderr, failed, steps);
    var code := if failed then UncaughtExceptionCode else TerminatedCode;
    result := Harvest(pids, code, stderr, Concat(log));
  }
}
