/**
 * `get_last_line(file_path, skip_empty)`: a cursor that starts on the last
 * byte of the file and steps backwards until it sits just after a line
 * break, falling back to the start of the file when a seek would go before
 * byte 0. The file is its contents; bytes are read as characters.
 */
module LastLineScan {
  import opened Text

  /** The largest index below `hi` that holds a newline, or -1 when there is none. */
  function LastNewlineBefore(s: string, hi: nat): (k: int)
    requires hi <= |s|
    ensures -1 <= k < hi
    ensures k >= 0 ==> s[k] == '\n'
    ensures forall j :: k < j < hi ==> s[j] != '\n'
    decreases hi
  {
    if hi == 0 then -1
    else if s[hi - 1] == '\n' then hi - 1
    else LastNewlineBefore(s, hi - 1)
  }

  lemma LastNewlineBeforeIs(s: string, hi: nat, k: int)
    requires hi <= |s| && -1 <= k < hi
    requires k >= 0 ==> s[k] == '\n'
    requires forall j :: k < j < hi ==> s[j] != '\n'
    ensures LastNewlineBefore(s, hi) == k
  {
  }

  /** The search below `hi` only looks at the first `hi` characters. */
  lemma {:induction false} SameLastNewlineOnSamePrefix(s: string, t: string, hi: nat)
    requires hi <= |s| && hi <= |t| && s[..hi] == t[..hi]
    ensures LastNewlineBefore(s, hi) == LastNewlineBefore(t, hi)
    decreases hi
  {
    if hi > 0 {
      assert s[hi - 1] == s[..hi][hi - 1] && t[hi - 1] == t[..hi][hi - 1];
      assert s[..hi - 1] == s[..hi][..hi - 1] && t[..hi - 1] == t[..hi][..hi - 1];
      SameLastNewlineOnSamePrefix(s, t, hi - 1);
    }
  }

  lemma DropOfAppend(a: string, b: string, k: nat)
    requires k <= |a|
    ensures (a + b)[k..] == a[k..] + b
  {
  }

  predicate EndsWithNewline(s: string) {
    |s| > 0 && s[|s| - 1] == '\n'
  }

  /**
   * End of the region in which the scan looks for a line break. When blank
   * lines are skipped and the file ends in a newline, the cursor jumps from
   * that newline two bytes back, so neither it nor the byte before it is
   * ever examined.
   */
  function SearchEnd(s: string, skipEmpty: bool): (e: nat)
    ensures e <= |s|
  {
    if skipEmpty && EndsWithNewline(s) then (if |s| >= 2 then |s| - 2 else 0) else |s|
  }

  /** The text after the last line break the scan can see, with newlines stripped from both ends. */
  function LastLine(s: string, skipEmpty: bool): string {
    StripNewlines(s[LastNewlineBefore(s, SearchEnd(s, skipEmpty)) + 1..])
  }

  /** The scan stops on a newline that has a byte after it: the line starts there. */
  lemma StopAfterNewline(file: string, skipEmpty: bool, p: nat)
    requires p + 1 < |file| && file[p] == '\n'
    requires p < SearchEnd(file, skipEmpty)
    requires forall j :: p < j < SearchEnd(file, skipEmpty) ==> file[j] != '\n'
    ensures StripNewlines(file[p + 1..]) == LastLine(file, skipEmpty)
  {
    LastNewlineBeforeIs(file, SearchEnd(file, skipEmpty), p);
    assert LastNewlineBefore(file, SearchEnd(file, skipEmpty)) + 1 == p + 1;
  }

  /** Without skipping, the scan stops on a final newline, which strips to nothing. */
  lemma StopOnFinalNewline(file: string)
    requires EndsWithNewline(file)
    ensures StripNewlines(file[|file| - 1..]) == LastLine(file, false)
  {
    LastNewlineBeforeIs(file, |file|, |file| - 1);
    assert file[|file| - 1..] == "\n";
    assert file[|file|..] == "";
  }

  /** A seek before byte 0 sends the cursor to the start: there is no line break to see. */
  lemma StopAtStart(file: string, skipEmpty: bool)
    requires forall j :: 0 <= j < SearchEnd(file, skipEmpty) ==> file[j] != '\n'
    ensures StripNewlines(file[0..]) == LastLine(file, skipEmpty)
  {
    LastNewlineBeforeIs(file, SearchEnd(file, skipEmpty), -1);
  }

  /**
   * The cursor part of the scan: the file position from which the final
   * `read()` takes the rest of the file.
   */
  method SeekLineStart(file: string, skipEmpty: bool) returns (pos: nat)
    ensures pos <= |file|
    ensures pos == 0 || file[pos - 1] == '\n' || (!skipEmpty && pos == |file| - 1 && file[pos] == '\n')
    ensures StripNewlines(file[pos..]) == LastLine(file, skipEmpty)
  {
    var size := |file|;
    if size - 1 < 0 {
      // seek(-1, SEEK_END) on an empty file raises OSError: start over at 0
      pos := 0;
      StopAtStart(file, skipEmpty);
      return;
    }
    var cur: int := size - 1;
    ghost var end := SearchEnd(file, skipEmpty);
    while true
      invariant 0 <= cur < size
      invariant cur < end || cur == size - 1
      invariant forall j :: cur < j < end ==> file[j] != '\n'
      decreases cur
    {
      ghost var p := cur;
      var b := file[cur];
      cur := cur + 1;
      if b == '\n' {
        var more := cur < size;
        if more {
          cur := cur + 1;
        }
        if more || !skipEmpty {
          cur := cur - 1;
          if more {
            StopAfterNewline(file, skipEmpty, p);
            assert file[cur - 1] == '\n';
          } else {
            StopOnFinalNewline(file);
            assert cur == |file| - 1 && file[cur] == '\n';
          }
          pos := cur;
          return;
        }
        cur := cur - 1;
      }
      if cur - 2 < 0 {
        // seek(-2, SEEK_CUR) before byte 0 raises OSError: start over at 0
        StopAtStart(file, skipEmpty);
        pos := 0;
        return;
      }
      cur := cur - 2;
    }
  }

  /** `get_last_line`: seek to where the last line starts, read the rest, strip its newlines. */
  method GetLastLine(file: string, skipEmpty: bool) returns (line: string)
    ensures line == LastLine(file, skipEmpty)
    ensures line == [] || (line[0] != '\n' && line[|line| - 1] != '\n')
  {
    var pos := SeekLineStart(file, skipEmpty);
    line := StripNewlines(file[pos..]);
  }

  /** A file with no line break at all is one line, returned whole; an empty file gives "". */
  lemma SingleLineReturnedWhole(s: string, skipEmpty: bool)
    requires NoNewline(s)
    ensures LastLine(s, skipEmpty) == s
  {
    LastNewlineBeforeIs(s, SearchEnd(s, skipEmpty), -1);
    assert s[0..] == s;
  }

  /** Without skipping, a final newline is where the scan stops, so the last line is empty. */
  lemma FinalNewlineWithoutSkipGivesEmpty(s: string)
    requires EndsWithNewline(s)
    ensures LastLine(s, false) == ""
  {
    LastNewlineBeforeIs(s, |s|, |s| - 1);
    assert s[|s|..] == "";
  }

  /**
   * A file that does not end in a newline gives, whether or not blank lines
   * are skipped, the non-empty text after its last line break, or the whole
   * file when it has none.
   */
  lemma UnterminatedLastLine(s: string, skipEmpty: bool)
    requires |s| > 0 && s[|s| - 1] != '\n'
    ensures var r := LastLine(s, skipEmpty);
            && r != ""
            && NoNewline(r)
            && r == s[|s| - |r|..]
            && (|r| == |s| || s[|s| - |r| - 1] == '\n')
  {
    var k := LastNewlineBefore(s, |s|);
    var t := s[k + 1..];
    assert forall i :: 0 <= i < |t| ==> t[i] == s[k + 1 + i];
    assert NoNewline(t);
    assert |s| - |t| == k + 1;
  }

  /** One record of a line-oriented log: a non-empty line body and its terminating newline. */
  predicate IsRecordLine(r: string) {
    |r| >= 2 && r[|r| - 1] == '\n' && NoNewline(r[..|r| - 1])
  }

  lemma StripRecordLine(r: string)
    requires IsRecordLine(r)
    ensures StripNewlines(r) == r[..|r| - 1]
    ensures StripNewlines(r) + "\n" == r
  {
    var body := r[..|r| - 1];
    assert body[0] == r[0];
    assert StripLeading(r) == r;
    assert r[..|r| - 1] == body;
    assert StripTrailing(body) == body;
  }

  /** In a log whose last record follows a complete line, the scan finds the newline that ends that line. */
  lemma BreakBeforeLastRecord(prefix: string, last: string)
    requires prefix == "" || EndsWithNewline(prefix)
    requires IsRecordLine(last)
    ensures LastNewlineBefore(prefix + last, SearchEnd(prefix + last, true)) == |prefix| - 1
  {
    var s := prefix + last;
    var end := SearchEnd(s, true);
    assert end == |prefix| + |last| - 2;
    forall j | |prefix| - 1 < j < end
      ensures s[j] != '\n'
    {
      assert s[j] == last[..|last| - 1][j - |prefix|];
    }
    LastNewlineBeforeIs(s, end, |prefix| - 1);
  }

  lemma ConcatEndsWithNewline(records: seq<string>)
    requires forall i :: 0 <= i < |records| ==> IsRecordLine(records[i])
    ensures Concat(records) == "" || EndsWithNewline(Concat(records))
  {
    if records != [] {
      assert IsRecordLine(records[|records| - 1]);
    }
  }

  /**
   * Skipping blank lines on a log made of newline-terminated records gives the
   * last record without its newline: this is what the harvest reads.
   */
  lemma {:induction false} LastRecordOfLog(records: seq<string>)
    requires |records| > 0
    requires forall i :: 0 <= i < |records| ==> IsRecordLine(records[i])
    ensures LastLine(Concat(records), true) + "\n" == records[|records| - 1]
  {
    var n := |records|;
    var last := records[n - 1];
    var prefix := Concat(records[..n - 1]);
    var s := Concat(records);
    assert s == prefix + last;
    assert IsRecordLine(last);
    ConcatEndsWithNewline(records[..n - 1]);
    BreakBeforeLastRecord(prefix, last);
    DropOfAppend(prefix, last, |prefix|);
    assert s[|prefix|..] == last;
    StripRecordLine(last);
    assert LastLine(s, true) == StripNewlines(last);
  }

  /** Only one trailing blank line is skipped: with two or more, the last line is empty. */
  lemma TwoBlankLinesGiveEmpty(s: string)
    ensures LastLine(s + "\n\n\n", true) == ""
  {
    var t := s + "\n\n\n";
    LastNewlineBeforeIs(t, |t| - 2, |t| - 3);
    assert t[|t| - 2..] == "\n\n";
    assert StripLeading("\n\n") == StripLeading("\n") == StripLeading("");
  }

  lemma SearchEndsBeforeFinalPair(p: string, c: char)
    ensures LastNewlineBefore(p + [c, '\n'], SearchEnd(p + [c, '\n'], true)) == LastNewlineBefore(p, |p|)
  {
    var s := p + [c, '\n'];
    assert s[..|p|] == p[..|p|];
    SameLastNewlineOnSamePrefix(s, p, |p|);
  }

  /**
   * With skipping, the byte just before a final newline is never examined: the
   * line break that is found lies before it, and that byte is returned even
   * when it is itself a newline.
   */
  lemma {:induction false} ByteBeforeFinalNewlineUnexamined(p: string, c: char)
    ensures LastLine(p + [c, '\n'], true)
         == StripNewlines(p[LastNewlineBefore(p, |p|) + 1..] + [c, '\n'])
  {
    var s := p + [c, '\n'];
    var k := LastNewlineBefore(p, |p|);
    SearchEndsBeforeFinalPair(p, c);
    assert LastNewlineBefore(s, SearchEnd(s, true)) == k;
    DropOfAppend(p, [c, '\n'], k + 1);
    assert s[k + 1..] == p[k + 1..] + [c, '\n'];
  }
}
