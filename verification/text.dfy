/**
 * The handful of Python string builtins the memory magics rely on, written
 * out over `string` (a sequence of characters): `str(int)`, `int(token)`,
 * `str.split()`, `" ".join(...)`, `bytes.strip(b"\n")`, `str.lower()`, the
 * substring test `needle in hay` and the `{value:11}` format field.
 */
module Text {
  import opened Wrappers

  predicate IsDigit(c: char) {
    '0' <= c <= '9'
  }

  function DigitChar(d: nat): (c: char)
    requires d < 10
    ensures IsDigit(c)
  {
    ('0' as int + d) as char
  }

  function DigitValue(c: char): (d: nat)
    requires IsDigit(c)
    ensures d < 10
  {
    c as int - '0' as int
  }

  /** `str(n)` for a non-negative integer: its decimal digits, without leading zeros. */
  function NatToString(n: nat): (s: string)
    ensures |s| >= 1
    ensures forall i :: 0 <= i < |s| ==> IsDigit(s[i])
    ensures (s[0] == '0') == (n == 0)
    decreases n
  {
    if n < 10 then [DigitChar(n)] else NatToString(n / 10) + [DigitChar(n % 10)]
  }

  /** `str(i)` for any integer: a minus sign before the digits of a negative one. */
  function IntToString(i: int): string {
    if i < 0 then "-" + NatToString(-i) else NatToString(i)
  }

  /**
   * The body of a decimal literal that `int()` accepts: digits, where a
   * single underscore may stand between two digits.
   */
  predicate IsDigitRun(s: string)
    decreases |s|
  {
    && |s| > 0
    && IsDigit(s[|s| - 1])
    && (|| |s| == 1
        || (s[|s| - 2] == '_' && |s| >= 3 && IsDigitRun(s[..|s| - 2]))
        || (s[|s| - 2] != '_' && IsDigitRun(s[..|s| - 1])))
  }

  /** The number the digits of `s` spell, underscores ignored. */
  function DigitsValue(s: string): nat
    decreases |s|
  {
    if s == [] then 0
    else if IsDigit(s[|s| - 1]) then 10 * DigitsValue(s[..|s| - 1]) + DigitValue(s[|s| - 1])
    else DigitsValue(s[..|s| - 1])
  }

  /**
   * `int(token)` for a token without surrounding whitespace: an optional sign
   * and a digit run; `None` stands for the `ValueError` raised otherwise.
   */
  function ParseInt(t: string): Option<int> {
    if |t| > 0 && t[0] == '-' then
      if IsDigitRun(t[1..]) then Some(0 - DigitsValue(t[1..]) as int) else None
    else if |t| > 0 && t[0] == '+' then
      if IsDigitRun(t[1..]) then Some(DigitsValue(t[1..]) as int) else None
    else if IsDigitRun(t) then Some(DigitsValue(t) as int)
    else None
  }

  lemma {:induction false} NatDigitsRoundTrip(n: nat)
    ensures IsDigitRun(NatToString(n))
    ensures DigitsValue(NatToString(n)) == n
    decreases n
  {
    var s := NatToString(n);
    if n < 10 {
      assert s[..0] == [];
    } else {
      var p := NatToString(n / 10);
      NatDigitsRoundTrip(n / 10);
      assert s == p + [DigitChar(n % 10)];
      assert s[..|s| - 1] == p;
      assert s[|s| - 2] == p[|p| - 1];
    }
  }

  /** `int(str(n))` gives `n` back, for every integer. */
  lemma {:induction false} IntToStringRoundTrip(i: int)
    ensures ParseInt(IntToString(i)) == Some(i)
  {
    var s := IntToString(i);
    if i < 0 {
      var d := NatToString(-i);
      NatDigitsRoundTrip(-i);
      assert s == "-" + d;
      assert s[0] == '-' && s[1..] == d;
      assert ParseInt(s) == Some(0 - DigitsValue(d) as int);
    } else {
      var d := NatToString(i);
      NatDigitsRoundTrip(i);
      assert s == d;
      assert IsDigit(s[0]) && s[0] != '-' && s[0] != '+';
      assert ParseInt(s) == Some(DigitsValue(d) as int);
    }
  }

  /** The characters `str.split()` treats as whitespace. */
  predicate IsSpace(c: char) {
    var n := c as int;
    || 0x09 <= n <= 0x0d || 0x1c <= n <= 0x20 || n == 0x85 || n == 0xa0
    || n == 0x1680 || 0x2000 <= n <= 0x200a || n == 0x2028 || n == 0x2029
    || n == 0x202f || n == 0x205f || n == 0x3000
  }

  predicate NoSpace(w: string) {
    forall i :: 0 <= i < |w| ==> !IsSpace(w[i])
  }

  /** Length of the run of non-whitespace characters `s` starts with. */
  function WordLen(s: string): (k: nat)
    ensures k <= |s|
    ensures forall i :: 0 <= i < k ==> !IsSpace(s[i])
    ensures k < |s| ==> IsSpace(s[k])
  {
    if s == [] || IsSpace(s[0]) then 0
    else
      var k := 1 + WordLen(s[1..]);
      assert forall i :: 1 <= i < k ==> s[i] == s[1..][i - 1];
      k
  }

  /** `s.split()`: the maximal runs of non-whitespace characters, in order. */
  function SplitWs(s: string): (words: seq<string>)
    ensures forall k :: 0 <= k < |words| ==> words[k] != [] && NoSpace(words[k])
    decreases |s|
  {
    if s == [] then []
    else if IsSpace(s[0]) then SplitWs(s[1..])
    else [s[..WordLen(s)]] + SplitWs(s[WordLen(s)..])
  }

  /** `" ".join(words)`. */
  function JoinSpace(words: seq<string>): string
    decreases |words|
  {
    if |words| == 0 then ""
    else if |words| == 1 then words[0]
    else words[0] + " " + JoinSpace(words[1..])
  }

  lemma SplitAfterWord(w: string, rest: string)
    requires w != [] && NoSpace(w)
    requires rest == [] || IsSpace(rest[0])
    ensures SplitWs(w + rest) == [w] + SplitWs(rest)
  {
    var s := w + rest;
    var k := WordLen(s);
    assert forall i :: 0 <= i < |w| ==> s[i] == w[i];
    assert |rest| > 0 ==> s[|w|] == rest[0];
    assert k == |w|;
    assert s[..k] == w && s[k..] == rest;
  }

  /** `" ".join` followed by `split()` gives the words back, when they are non-empty and hold no whitespace. */
  lemma {:induction false} SplitOfJoin(words: seq<string>)
    requires forall k :: 0 <= k < |words| ==> words[k] != [] && NoSpace(words[k])
    ensures SplitWs(JoinSpace(words)) == words
    decreases |words|
  {
    if |words| == 1 {
      SplitAfterWord(words[0], "");
      assert words[0] + "" == words[0];
    } else if |words| > 1 {
      var tail := JoinSpace(words[1..]);
      assert JoinSpace(words) == words[0] + (" " + tail);
      SplitOfJoin(words[1..]);
      SplitAfterWord(words[0], " " + tail);
      SplitSkipsSpace(tail);
    }
  }

  lemma SplitSkipsSpace(t: string)
    ensures SplitWs(" " + t) == SplitWs(t)
  {
    assert (" " + t)[1..] == t;
  }

  /** Every character is a line break. */
  predicate OnlyNewlines(s: string) {
    forall i :: 0 <= i < |s| ==> s[i] == '\n'
  }

  /** `s.lstrip("\n")`: the leading newlines removed. */
  function StripLeading(s: string): (r: string)
    ensures |r| <= |s|
    ensures r == [] || r[0] != '\n'
    decreases |s|
  {
    if |s| > 0 && s[0] == '\n' then StripLeading(s[1..]) else s
  }

  /** What `lstrip` drops is a run of line breaks at the front. */
  lemma {:induction false} StripLeadingIsSuffix(s: string)
    ensures var r := StripLeading(s);
            r == s[|s| - |r|..] && OnlyNewlines(s[..|s| - |r|])
    decreases |s|
  {
    if |s| > 0 && s[0] == '\n' {
      StripLeadingIsSuffix(s[1..]);
      var r := StripLeading(s);
      assert s[1..][|s| - 1 - |r|..] == s[|s| - |r|..];
      assert s[..|s| - |r|] == [s[0]] + s[1..][..|s| - 1 - |r|];
    } else {
      assert s[..0] == [];
    }
  }

  /** `s.rstrip("\n")`: the trailing newlines removed. */
  function StripTrailing(s: string): (r: string)
    ensures |r| <= |s| && r == s[..|r|]
    ensures r == [] || r[|r| - 1] != '\n'
    decreases |s|
  {
    if |s| > 0 && s[|s| - 1] == '\n' then StripTrailing(s[..|s| - 1]) else s
  }

  /** What `rstrip` drops is a run of line breaks at the end. */
  lemma {:induction false} StripTrailingDropsNewlines(s: string)
    ensures OnlyNewlines(s[|StripTrailing(s)|..])
    decreases |s|
  {
    if |s| > 0 && s[|s| - 1] == '\n' {
      var p := s[..|s| - 1];
      StripTrailingDropsNewlines(p);
      var n := |StripTrailing(s)|;
      assert s[n..] == p[n..] + [s[|s| - 1]];
    } else {
      assert s[|s|..] == [];
    }
  }

  predicate NoNewline(s: string) {
    forall i :: 0 <= i < |s| ==> s[i] != '\n'
  }

  /** `s.strip("\n")`: no newline left at either end, and a string without newlines is unchanged. */
  function StripNewlines(s: string): (r: string)
    ensures r == [] || (r[0] != '\n' && r[|r| - 1] != '\n')
    ensures NoNewline(s) ==> r == s
  {
    var l := StripLeading(s);
    var r := StripTrailing(l);
    assert r != [] ==> r[0] == l[0];
    assert NoNewline(s) ==> l == s && (|l| > 0 ==> l[|l| - 1] != '\n');
    r
  }

  /**
   * `strip("\n")` keeps a slice of the text: what it drops is newlines
   * only, and only at the two ends.
   */
  lemma StripNewlinesIsSlice(s: string)
    ensures exists a, b :: 0 <= a <= b <= |s| && StripNewlines(s) == s[a..b]
                           && OnlyNewlines(s[..a]) && OnlyNewlines(s[b..])
  {
    var l := StripLeading(s);
    var r := StripTrailing(l);
    var a := |s| - |l|;
    StripLeadingIsSuffix(s);
    StripTrailingDropsNewlines(l);
    assert r == s[a..a + |r|];
    assert s[a + |r|..] == l[|r|..];
  }

  function LowerChar(c: char): char {
    if 'A' <= c <= 'Z' then (c as int + 32) as char else c
  }

  /** `s.lower()` on ASCII letters; no other character lowers to one of `"jupyter"`'s letters. */
  function Lower(s: string): (r: string)
    ensures |r| == |s|
  {
    seq(|s|, i requires 0 <= i < |s| => LowerChar(s[i]))
  }

  /** `needle in hay` for strings. */
  predicate IsInfix(needle: string, hay: string)
    decreases |hay|
  {
    needle <= hay || (|hay| > 0 && IsInfix(needle, hay[1..]))
  }

  /** `needle` occurs in `hay` starting at offset `i`. */
  predicate OccursAt(needle: string, hay: string, i: nat) {
    i + |needle| <= |hay| && hay[i..i + |needle|] == needle
  }

  /** The substring test holds exactly when `needle` occurs at some offset of `hay`. */
  lemma {:induction false} IsInfixAt(needle: string, hay: string)
    ensures IsInfix(needle, hay) <==> exists i: nat :: OccursAt(needle, hay, i)
    decreases |hay|
  {
    if needle <= hay {
      assert OccursAt(needle, hay, 0);
    } else {
      assert !OccursAt(needle, hay, 0);
      if |hay| > 0 {
        IsInfixAt(needle, hay[1..]);
        forall i: nat | OccursAt(needle, hay[1..], i)
          ensures OccursAt(needle, hay, i + 1)
        {
          assert hay[i + 1..i + 1 + |needle|] == hay[1..][i..i + |needle|];
        }
        forall i: nat | i >= 1 && OccursAt(needle, hay, i)
          ensures OccursAt(needle, hay[1..], i - 1)
        {
          assert hay[i..i + |needle|] == hay[1..][i - 1..i - 1 + |needle|];
        }
      }
    }
  }

  /** `f"{s:width}"` for a string: left-justified, padded with spaces, never truncated. */
  function LeftJustify(s: string, width: nat): (r: string)
    ensures |r| == if |s| < width then width else |s|
    ensures r[..|s|] == s
    ensures forall i :: |s| <= i < |r| ==> r[i] == ' '
  {
    if |s| < width then s + seq(width - |s|, _ => ' ') else s
  }

  /** `"".join(chunks)`: the chunks written one after the other. */
  function Concat(chunks: seq<string>): string
    decreases |chunks|
  {
    if chunks == [] then "" else Concat(chunks[..|chunks| - 1]) + chunks[|chunks| - 1]
  }
}
