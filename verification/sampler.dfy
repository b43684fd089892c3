/**
 * The peak sampler `trace_peak_memory_usage`: a process that, once per
 * interval, reads the resident memory of each tracked process, keeps the
 * running per-process maxima and the running maximum of the per-pass sums,
 * and appends both to its output file as one line of text.
 *
 * Readings are inputs (one vector per pass, in pid order); the endless loop
 * becomes a run over a finite sequence of passes.
 */
module Sampler {
  import opened Text
  import opened LastLineScan

  /** A compaction of the output file is attempted once the line count exceeds this. */
  const CompactAfter: nat := 1000

  /** The number of trailing lines the compaction is meant to keep (`readlines()[-10:]`). */
  const KeptLines: nat := 10

  function Max(a: nat, b: nat): nat {
    if a >= b then a else b
  }

  /** `sum(values)`. */
  function Sum(s: seq<nat>): nat {
    if s == [] then 0 else Sum(s[..|s| - 1]) + s[|s| - 1]
  }

  function Zeros(n: nat): seq<nat> {
    seq(n, _ => 0)
  }

  /** `list(map(max, current, peak))`. */
  function PairwiseMax(current: seq<nat>, peak: seq<nat>): seq<nat>
    requires |current| == |peak|
  {
    seq(|current|, i requires 0 <= i < |current| => Max(current[i], peak[i]))
  }

  /** Every reading vector has one entry per tracked process. */
  predicate Shaped(n: nat, rs: seq<seq<nat>>) {
    forall j :: 0 <= j < |rs| ==> |rs[j]| == n
  }

  /** The peak vector after the passes `rs`, starting from all zeros. */
  function PeaksAfter(n: nat, rs: seq<seq<nat>>): (p: seq<nat>)
    requires Shaped(n, rs)
    ensures |p| == n
  {
    if rs == [] then Zeros(n) else PairwiseMax(rs[|rs| - 1], PeaksAfter(n, rs[..|rs| - 1]))
  }

  /** The aggregate peak after the passes `rs`, starting from 0. */
  function AggregateAfter(rs: seq<seq<nat>>): nat {
    if rs == [] then 0 else Max(Sum(rs[|rs| - 1]), AggregateAfter(rs[..|rs| - 1]))
  }

  /** `map(str, values)`. */
  function Decimals(values: seq<nat>): seq<string> {
    seq(|values|, i requires 0 <= i < |values| => NatToString(values[i]))
  }

  /** The line one pass appends: `" ".join(map(str, peaks)) + " " + str(total) + "\n"`. */
  function Record(peaks: seq<nat>, total: nat): string {
    JoinSpace(Decimals(peaks)) + " " + NatToString(total) + "\n"
  }

  /** The records appended by the passes `rs`, oldest first. */
  function RecordsAfter(n: nat, rs: seq<seq<nat>>): seq<string>
    requires Shaped(n, rs)
  {
    if rs == [] then []
    else RecordsAfter(n, rs[..|rs| - 1]) + [Record(PeaksAfter(n, rs), AggregateAfter(rs))]
  }

  /** The state of one sampler process between two passes of its loop. */
  class PeakSampler {
    const pids: seq<int>
    var peaks: seq<nat>
    var totalPeak: nat
    var lineCount: nat
    /** The lines appended to the output file, in order. */
    var log: seq<string>
    /** The loop died with `io.UnsupportedOperation`; the process exits with status 1. */
    var failed: bool
    /** Every reading vector taken so far. */
    ghost var readings: seq<seq<nat>>

    ghost predicate Valid()
      reads this
    {
      && Shaped(|pids|, readings)
      && peaks == PeaksAfter(|pids|, readings)
      && totalPeak == AggregateAfter(readings)
      && log == RecordsAfter(|pids|, readings)
      && (if failed then |readings| == CompactAfter + 2 && lineCount == CompactAfter + 1
          else lineCount == |readings| <= CompactAfter + 1)
    }

    constructor (pids: seq<int>)
      ensures Valid() && this.pids == pids
      ensures peaks == Zeros(|pids|) && totalPeak == 0 && lineCount == 0
      ensures log == [] && !failed && readings == []
    {
      this.pids := pids;
      peaks := Zeros(|pids|);
      totalPeak := 0;
      lineCount := 0;
      log := [];
      failed := false;
      readings := [];
    }

    /**
     * One pass of the loop on the readings `current`. The handle is opened in
     * append mode, so the `readlines()` of the compaction branch raises and
     * ends the loop after the pass's record has been written.
     */
    method Step(current: seq<nat>)
      requires Valid() && !failed && |current| == |pids|
      modifies this
      ensures Valid()
      ensures readings == old(readings) + [current]
      ensures peaks == PairwiseMax(current, old(peaks))
      ensures totalPeak == Max(Sum(current), old(totalPeak))
      ensures log == old(log) + [Record(peaks, totalPeak)]
      ensures failed == (old(lineCount) > CompactAfter)
      ensures lineCount == if failed then old(lineCount) else old(lineCount) + 1
    {
      var totalCurrent := Sum(current);
      peaks := PairwiseMax(current, peaks);
      totalPeak := Max(totalCurrent, totalPeak);
      log := log + [Record(peaks, totalPeak)];
      readings := readings + [current];
      assert readings[..|readings| - 1] == old(readings);
      if lineCount > CompactAfter {
        failed := true;
        return;
      }
      lineCount := lineCount + 1;
    }

    /**
     * Passes over `samples` until they run out or the loop dies: the pass that
     * finds more than 1000 lines counted (the 1002nd of the process) is the last.
     */
    method Run(samples: seq<seq<nat>>) returns (steps: nat)
      requires Valid() && !failed && Shaped(|pids|, samples)
      modifies this
      ensures Valid()
      ensures failed == (|old(readings)| + |samples| >= CompactAfter + 2)
      ensures steps == if failed then CompactAfter + 2 - |old(readings)| else |samples|
      ensures steps <= |samples| && readings == old(readings) + samples[..steps]
      ensures peaks == PeaksAfter(|pids|, readings) && totalPeak == AggregateAfter(readings)
      ensures log == RecordsAfter(|pids|, readings)
    {
      steps := 0;
      while steps < |samples| && !failed
        invariant Valid()
        invariant steps <= |samples|
        invariant readings == old(readings) + samples[..steps]
        invariant failed ==> |readings| == CompactAfter + 2
      {
        assert samples[..steps + 1] == samples[..steps] + [samples[steps]];
        Step(samples[steps]);
        steps := steps + 1;
      }
    }
  }

  /** Each peak is the largest reading of its process so far (0 before any pass). */
  lemma {:induction false} PeakIsLargestReading(n: nat, rs: seq<seq<nat>>, i: nat)
    requires Shaped(n, rs) && i < n
    ensures forall j :: 0 <= j < |rs| ==> rs[j][i] <= PeaksAfter(n, rs)[i]
    ensures PeaksAfter(n, rs)[i] == 0 || exists j :: 0 <= j < |rs| && rs[j][i] == PeaksAfter(n, rs)[i]
    decreases |rs|
  {
    if rs != [] {
      var pre := rs[..|rs| - 1];
      PeakIsLargestReading(n, pre, i);
      assert forall j :: 0 <= j < |pre| ==> rs[j] == pre[j];
    }
  }

  /**
   * The aggregate is the largest per-pass sum so far (0 before any pass): the
   * peak of the concurrent total, not the sum of the per-process peaks.
   */
  lemma {:induction false} AggregateIsLargestSum(rs: seq<seq<nat>>)
    ensures forall j :: 0 <= j < |rs| ==> Sum(rs[j]) <= AggregateAfter(rs)
    ensures AggregateAfter(rs) == 0 || exists j :: 0 <= j < |rs| && Sum(rs[j]) == AggregateAfter(rs)
    decreases |rs|
  {
    if rs != [] {
      var pre := rs[..|rs| - 1];
      AggregateIsLargestSum(pre);
      assert forall j :: 0 <= j < |pre| ==> rs[j] == pre[j];
    }
  }

  lemma {:induction false} SumMonotone(a: seq<nat>, b: seq<nat>)
    requires |a| == |b|
    requires forall i :: 0 <= i < |a| ==> a[i] <= b[i]
    ensures Sum(a) <= Sum(b)
    decreases |a|
  {
    if a != [] {
      SumMonotone(a[..|a| - 1], b[..|b| - 1]);
    }
  }

  /** The aggregate never exceeds the sum of the per-process peaks. */
  lemma {:induction false} AggregateAtMostSumOfPeaks(n: nat, rs: seq<seq<nat>>)
    requires Shaped(n, rs)
    ensures AggregateAfter(rs) <= Sum(PeaksAfter(n, rs))
    decreases |rs|
  {
    if rs != [] {
      var pre := rs[..|rs| - 1];
      var last := rs[|rs| - 1];
      AggregateAtMostSumOfPeaks(n, pre);
      var p := PeaksAfter(n, rs);
      SumMonotone(last, p);
      SumMonotone(PeaksAfter(n, pre), p);
    }
  }

  /** Neither a peak nor the aggregate ever decreases from one pass to a later one. */
  lemma {:induction false} PeaksNeverDecrease(n: nat, rs: seq<seq<nat>>, j: nat, k: nat, i: nat)
    requires Shaped(n, rs) && j <= k <= |rs| && i < n
    ensures PeaksAfter(n, rs[..j])[i] <= PeaksAfter(n, rs[..k])[i]
    ensures AggregateAfter(rs[..j]) <= AggregateAfter(rs[..k])
    decreases k
  {
    if j < k {
      PeaksNeverDecrease(n, rs, j, k - 1, i);
      assert rs[..k][..k - 1] == rs[..k - 1];
    }
  }

  /** Passes (10,20), (30,5), (15,15): peaks 30 and 20, aggregate 35, below the 50 the peaks add up to. */
  lemma ThreePassesExample()
    ensures PeaksAfter(2, [[10, 20], [30, 5], [15, 15]]) == [30, 20]
    ensures AggregateAfter([[10, 20], [30, 5], [15, 15]]) == 35
    ensures Sum(PeaksAfter(2, [[10, 20], [30, 5], [15, 15]])) == 50
  {
    var r1: seq<seq<nat>> := [[10, 20]];
    var r2: seq<seq<nat>> := [[10, 20], [30, 5]];
    var r3: seq<seq<nat>> := [[10, 20], [30, 5], [15, 15]];
    assert r3[..2] == r2 && r2[..1] == r1 && r1[..0] == [];
    assert Zeros(2) == [0, 0];
    assert PairwiseMax([10, 20], [0, 0]) == [10, 20];
    assert PeaksAfter(2, r1) == [10, 20];
    assert PairwiseMax([30, 5], [10, 20]) == [30, 20];
    assert PeaksAfter(2, r2) == [30, 20];
    assert PairwiseMax([15, 15], [30, 20]) == [30, 20];
    assert [10, 20][..1] == [10] && [10][..0] == [];
    assert [30, 5][..1] == [30] && [30][..0] == [];
    assert [15, 15][..1] == [15] && [15][..0] == [];
    assert [30, 20][..1] == [30];
    assert Sum([10, 20]) == 30 && Sum([30, 5]) == 35 && Sum([15, 15]) == 30;
    assert AggregateAfter(r1) == 30;
    assert AggregateAfter(r2) == 35;
  }

  lemma {:induction false} JoinHasNoNewline(words: seq<string>)
    requires forall k :: 0 <= k < |words| ==> NoNewline(words[k])
    ensures NoNewline(JoinSpace(words))
    decreases |words|
  {
    if |words| > 1 {
      JoinHasNoNewline(words[1..]);
    }
  }

  /** Concatenating two texts without line breaks gives a text without line breaks. */
  lemma AppendNoNewline(a: string, b: string)
    requires NoNewline(a) && NoNewline(b)
    ensures NoNewline(a + b)
  {
    assert forall i :: |a| <= i < |a + b| ==> (a + b)[i] == b[i - |a|];
  }

  /**
   * A record is one line: a non-empty body without line breaks, then "\n".
   * With no pids the body is a space and the aggregate, " 0" at first.
   */
  lemma RecordIsOneLine(peaks: seq<nat>, total: nat)
    ensures IsRecordLine(Record(peaks, total))
    ensures peaks == [] ==> Record(peaks, total) == " " + NatToString(total) + "\n"
    ensures Record([], 0) == " 0\n"
  {
    var words := Decimals(peaks);
    forall k | 0 <= k < |words| ensures NoNewline(words[k]) {
      assert words[k] == NatToString(peaks[k]);
    }
    JoinHasNoNewline(words);
    var digits := NatToString(total);
    AppendNoNewline(JoinSpace(words), " ");
    AppendNoNewline(JoinSpace(words) + " ", digits);
    var body := JoinSpace(words) + " " + digits;
    var r := Record(peaks, total);
    assert r == body + "\n";
    assert r[..|r| - 1] == body;
    assert Decimals([]) == [];
    assert NatToString(0) == "0";
  }

  /** The state the sampler would keep if the compaction branch worked as its comment says. */
  datatype IntendedState = IntendedState(peaks: seq<nat>, totalPeak: nat, lineCount: nat, lines: seq<string>)

  /** `readlines()[-10:]`: the last ten lines, or all of them when there are fewer. */
  function KeepLast(lines: seq<string>): (kept: seq<string>)
    ensures |kept| <= KeptLines && |kept| <= |lines|
    ensures kept == lines[|lines| - |kept|..]
    ensures |kept| == if |lines| < KeptLines then |lines| else KeptLines
  {
    if |lines| > KeptLines then lines[|lines| - KeptLines..] else lines
  }

  /** One pass with a compaction that keeps the file's last ten lines. */
  function IntendedStep(s: IntendedState, current: seq<nat>): IntendedState
    requires |current| == |s.peaks|
  {
    var peaks := PairwiseMax(current, s.peaks);
    var total := Max(Sum(current), s.totalPeak);
    var lines := s.lines + [Record(peaks, total)];
    if s.lineCount > CompactAfter then IntendedState(peaks, total, 1, KeepLast(lines))
    else IntendedState(peaks, total, s.lineCount + 1, lines)
  }

  /** The intended sampler after the passes `rs`. */
  function IntendedRun(n: nat, rs: seq<seq<nat>>): (s: IntendedState)
    requires Shaped(n, rs)
    ensures |s.peaks| == n
    decreases |rs|
  {
    if rs == [] then IntendedState(Zeros(n), 0, 0, [])
    else IntendedStep(IntendedRun(n, rs[..|rs| - 1]), rs[|rs| - 1])
  }

  /** The shape the intended compaction keeps: a bounded file of complete records. */
  predicate WellKept(s: IntendedState) {
    && s.lineCount <= CompactAfter + 1
    && |s.lines| + 1 <= s.lineCount + KeptLines
    && (forall k :: 0 <= k < |s.lines| ==> IsRecordLine(s.lines[k]))
  }

  lemma KeepLastKeepsRecords(lines: seq<string>)
    requires forall k :: 0 <= k < |lines| ==> IsRecordLine(lines[k])
    ensures forall k :: 0 <= k < |KeepLast(lines)| ==> IsRecordLine(KeepLast(lines)[k])
  {
    var kept := KeepLast(lines);
    forall k | 0 <= k < |kept| ensures IsRecordLine(kept[k]) {
      assert kept[k] == lines[|lines| - |kept| + k];
    }
  }

  lemma IntendedStepKeeps(s0: IntendedState, current: seq<nat>)
    requires WellKept(s0) && |current| == |s0.peaks|
    ensures var s := IntendedStep(s0, current);
            && WellKept(s)
            && |s.lines| > 0 && s.lines[|s.lines| - 1] == Record(s.peaks, s.totalPeak)
  {
    var peaks := PairwiseMax(current, s0.peaks);
    var total := Max(Sum(current), s0.totalPeak);
    var rec := Record(peaks, total);
    RecordIsOneLine(peaks, total);
    var lines := s0.lines + [rec];
    assert forall k :: 0 <= k < |lines| ==> IsRecordLine(lines[k]);
    if s0.lineCount > CompactAfter {
      KeepLastKeepsRecords(lines);
      var kept := KeepLast(lines);
      assert kept[|kept| - 1] == rec;
    }
  }

  /**
   * With a working compaction the file never holds more than 1010 lines, its
   * last line is the latest record, and the peaks are those of the sampler
   * as written: the harvest would see the same values however long it ran.
   */
  lemma {:induction false} IntendedRunKeepsLastRecord(n: nat, rs: seq<seq<nat>>)
    requires Shaped(n, rs)
    ensures var s := IntendedRun(n, rs);
            && s.peaks == PeaksAfter(n, rs)
            && s.totalPeak == AggregateAfter(rs)
            && WellKept(s)
            && |s.lines| <= CompactAfter + KeptLines
            && (rs != [] ==> |s.lines| > 0 && s.lines[|s.lines| - 1] == Record(s.peaks, s.totalPeak))
    decreases |rs|
  {
    if rs != [] {
      var pre := rs[..|rs| - 1];
      IntendedRunKeepsLastRecord(n, pre);
      IntendedStepKeeps(IntendedRun(n, pre), rs[|rs| - 1]);
    }
  }
}
