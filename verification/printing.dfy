/**
 * `format_bytes` and `print_memory_usage_info`: how byte counts are shown
 * and which report lines are printed.
 *
 * The decimal text of `round(x, 2)` for a float is a parameter, `showReal`:
 * the model fixes which unit is chosen and which magnitude is shown, not the
 * digits of its rendering.
 */
module Printing {
  import opened Wrappers
  import opened Text

  function Pow1024(k: nat): (p: nat)
    ensures p >= 1
  {
    if k == 0 then 1 else 1024 * Pow1024(k - 1)
  }

  /** The units tried in turn. */
  const Units: seq<string> := ["B", "KiB", "MiB", "GiB"]

  /**
   * The loop of `format_bytes` from the unit at index `k` on, `x` being the
   * value already divided `k` times by 1024: the unit index and magnitude
   * it returns with, or `None` when it runs out of units.
   */
  function ChooseUnit(x: real, k: nat): Option<(nat, real)>
    requires k <= |Units|
    decreases |Units| - k
  {
    if k == |Units| then None
    else if (x / 1024.0).Floor == 0 then Some((k, x))
    else ChooseUnit(x / 1024.0, k + 1)
  }

  lemma {:induction false} Pow1024Grows(j: nat, k: nat)
    requires j <= k
    ensures Pow1024(j) <= Pow1024(k)
    decreases k
  {
    if j < k {
      Pow1024Grows(j, k - 1);
    }
  }

  /** For a positive `q`, `a == y * q` lies below `q` exactly when `y` lies below 1, and has the sign of `y`. */
  lemma ScaleBelowOne(y: real, q: real, a: real)
    requires q > 0.0 && y * q == a
    ensures y < 1.0 <==> a < q
    ensures 0.0 <= y <==> 0.0 <= a
  {
    assert q - a == (1.0 - y) * q;
    if y < 1.0 {
      assert (1.0 - y) * q > 0.0;
    } else {
      assert (y - 1.0) * q >= 0.0;
    }
    if y < 0.0 {
      assert (0.0 - y) * q > 0.0;
    } else {
      assert y * q >= 0.0;
    }
  }

  lemma DivideTwice(a: real, p: real)
    requires p > 0.0
    ensures (a / p) / 1024.0 == a / (1024.0 * p)
  {
    var z := (a / p) / 1024.0;
    var w := a / (1024.0 * p);
    assert z * (1024.0 * p) == a;
    assert w * (1024.0 * p) == a;
    assert (z - w) * (1024.0 * p) == 0.0;
  }

  lemma FloorIsZero(y: real)
    ensures y.Floor == 0 <==> 0.0 <= y < 1.0
  {
  }

  /** Below `q`, a non-negative `a` has `a / q` in [0, 1). */
  lemma FractionBelowOne(a: real, q: real)
    requires q > 0.0
    ensures 0.0 <= a / q < 1.0 <==> 0.0 <= a < q
  {
    var y := a / q;
    assert y * q == a;
    ScaleBelowOne(y, q, a);
  }

  /** `n / 1024**k // 1024 == 0` exactly when `0 <= n < 1024**(k+1)`, and the next division is exact. */
  lemma NextDivision(n: int, k: nat)
    ensures (n as real / Pow1024(k) as real) / 1024.0 == n as real / Pow1024(k + 1) as real
    ensures ((n as real / Pow1024(k) as real) / 1024.0).Floor == 0 <==> 0 <= n < Pow1024(k + 1)
  {
    var p := Pow1024(k) as real;
    var q := Pow1024(k + 1) as real;
    assert q == 1024.0 * p;
    DivideTwice(n as real, p);
    FloorIsZero(n as real / q);
    FractionBelowOne(n as real, q);
  }

  lemma {:induction false} ChooseUnitFrom(n: int, k: nat)
    requires k <= |Units|
    requires k == 0 || n < 0 || Pow1024(k) <= n
    ensures var r := ChooseUnit(n as real / Pow1024(k) as real, k);
            && (r.Some? <==> 0 <= n < Pow1024(|Units|))
            && (r.Some? ==>
                  && k <= r.value.0 < |Units|
                  && n < Pow1024(r.value.0 + 1)
                  && (r.value.0 == 0 || Pow1024(r.value.0) <= n)
                  && r.value.1 == n as real / Pow1024(r.value.0) as real)
    decreases |Units| - k
  {
    if k < |Units| {
      NextDivision(n, k);
      Pow1024Grows(k + 1, |Units|);
      if !(0 <= n < Pow1024(k + 1)) {
        ChooseUnitFrom(n, k + 1);
      }
    }
  }

  /** Unit `k` is the one for `n`: the least `k` with `0 <= n < 1024**(k+1)`. */
  predicate UnitFor(n: int, k: nat) {
    k < |Units| && 0 <= n < Pow1024(k + 1) && (k == 0 || Pow1024(k) <= n)
  }

  /** At most one unit is the one for `n`. */
  lemma UnitForUnique(n: int, j: nat, k: nat)
    requires UnitFor(n, j) && UnitFor(n, k)
    ensures j == k
  {
    if j < k {
      Pow1024Grows(j + 1, k);
    } else if k < j {
      Pow1024Grows(k + 1, j);
    }
  }

  /**
   * The unit is the least `k` with `n < 1024**(k+1)` and the magnitude is
   * `n / 1024**k`, for `0 <= n < 1024**4`; a negative `n` or one of 1 TiB or
   * more runs out of units.
   */
  lemma FormatUnitIsLeastPower(n: int)
    ensures ChooseUnit(n as real, 0).Some? <==> 0 <= n < Pow1024(4)
    ensures 0 <= n < 1024 ==> ChooseUnit(n as real, 0) == Some((0, n as real))
    ensures ChooseUnit(n as real, 0).Some? ==>
              var (k, x) := ChooseUnit(n as real, 0).value;
              && k < 4 && n < Pow1024(k + 1) && (k == 0 || Pow1024(k) <= n)
              && x == n as real / Pow1024(k) as real
  {
    ChooseUnitFrom(n, 0);
    NextDivision(n, 0);
    assert n as real / Pow1024(0) as real == n as real;
  }

  /**
   * `format_bytes(n)`: the magnitude and the unit, or `None` once the loop
   * runs out of units. In bytes the number is `n` itself, since rounding an
   * integer leaves it an integer.
   */
  function FormatBytes(n: int, showReal: real -> string): (s: Option<string>)
    ensures s.Some? <==> 0 <= n < Pow1024(4)
    ensures 0 <= n < 1024 ==> s == Some(IntToString(n) + " B")
    ensures forall k: nat :: UnitFor(n, k) ==>
              s == Some((if k == 0 then IntToString(n) else showReal(n as real / Pow1024(k) as real)) + " " + Units[k])
  {
    FormatUnitIsLeastPower(n);
    match ChooseUnit(n as real, 0)
    case None => None
    case Some((k, x)) =>
      assert UnitFor(n, k);
      assert forall j: nat :: UnitFor(n, j) ==> j == k by {
        forall j: nat | UnitFor(n, j) {
          UnitForUnique(n, j, k);
        }
      }
      assert IntToString(n) + " " + Units[0] == IntToString(n) + " B";
      Some((if k == 0 then IntToString(n) else showReal(x)) + " " + Units[k])
  }

  /** The text shown for a missing peak. */
  const Dash: string := "     --    "

  const Header: string := "RAM usage |   current   |     peak     |"

  const Rule: string := "----------------------------------------"

  /** A value after the rebinding: formatted when given, `None` otherwise or when formatting gave `None`. */
  function Shown(v: Option<int>, showReal: real -> string): Option<string> {
    if v.Some? then FormatBytes(v.value, showReal) else None
  }

  /** A peak after the rebinding: formatted when given, the dash otherwise. */
  function ShownPeak(v: Option<int>, showReal: real -> string): Option<string> {
    if v.Some? then FormatBytes(v.value, showReal) else Some(Dash)
  }

  /** `f"{v:11}"`: `None` stands for the `TypeError` a width on `None` raises. */
  function Cell(v: Option<string>): Option<string> {
    if v.Some? then Some(LeftJustify(v.value, 11)) else None
  }

  /** `f"{v}"`: Python's text for `None` when there is no value. */
  function Plain(v: Option<string>): string {
    if v.Some? then v.value else "None"
  }

  /** `a + x + b + y + c` for two cells, raising when either cell raised. */
  function Line(a: string, x: Option<string>, b: string, y: Option<string>, c: string): Option<string> {
    if x.Some? && y.Some? then Some(a + x.value + b + y.value + c) else None
  }

  /** The lines printed so far, and whether a formatting error ended the printing. */
  datatype Printout = Printout(lines: seq<string>, raised: bool)

  /** `print(line)` after the lines of `p`; a line that raised ends the printing. */
  function Emit(p: Printout, line: Option<string>): (q: Printout)
    ensures p.raised ==> q == p
    ensures !p.raised && line.Some? ==> q == Printout(p.lines + [line.value], false)
    ensures !p.raised && line.None? ==> q == Printout(p.lines, true)
  {
    if p.raised then p
    else if line.Some? then Printout(p.lines + [line.value], false)
    else Printout(p.lines, true)
  }

  function EmitIf(p: Printout, cond: bool, line: Option<string>): Printout {
    if cond then Emit(p, line) else p
  }

  /** The `print` calls of `lines`, one after the other. */
  function EmitAll(p: Printout, lines: seq<Option<string>>): Printout
    decreases |lines|
  {
    if lines == [] then p else EmitAll(Emit(p, lines[0]), lines[1..])
  }

  /** The table rows, one per shown value, in the order expression, notebook, jupyter. */
  function TableRows(exprType: Option<string>, cur: Option<string>, peak: Option<string>,
                     nb: Option<string>, nbPeak: Option<string>,
                     jp: Option<string>, jpPeak: Option<string>): seq<Option<string>>
  {
    (if cur.Some? then [Line(" " + Plain(exprType) + "     | ", Cell(cur), " | ", Cell(peak), "  |")] else [])
    + (if nb.Some? then [Line(" notebook | ", Cell(nb), " | ", Cell(nbPeak), "  |")] else [])
    + (if jp.Some? then [Line(" jupyter  | ", Cell(jp), " | ", Cell(jpPeak), "  |")] else [])
  }

  /** The table layout: the header and its rule when any value is shown, then the rows. */
  function TableLines(exprType: Option<string>, cur: Option<string>, peak: Option<string>,
                      nb: Option<string>, nbPeak: Option<string>,
                      jp: Option<string>, jpPeak: Option<string>): Printout
  {
    var heading := if cur.Some? || nb.Some? || jp.Some? then [Some(Header), Some(Rule)] else [];
    EmitAll(Printout([], false), heading + TableRows(exprType, cur, peak, nb, nbPeak, jp, jpPeak))
  }

  /** The line layout when an expression ran. */
  function ExprLines(e: string, cur: Option<string>, peak: Option<string>,
                     nb: Option<string>, nbPeak: Option<string>,
                     jp: Option<string>, jpPeak: Option<string>): Printout
  {
    var p0 := Printout([], false);
    if nb.Some? then
      var p1 := Emit(p0, Line("RAM usage: " + e + ":     ", Cell(cur), " / ", Cell(peak), ""));
      var p2 := Emit(p1, Line("           notebook: ", Cell(nb), " / ", Cell(nbPeak), ""));
      EmitIf(p2, jp.Some?, Line("           jupyter:  ", Cell(jp), " / ", Cell(jpPeak), ""))
    else if jp.Some? then
      var p1 := Emit(p0, Line("RAM usage: " + e + ":    ", Cell(cur), " / ", Cell(peak), ""));
      Emit(p1, Line("           jupyter: ", Cell(jp), " / ", Cell(jpPeak), ""))
    else
      Emit(p0, Some("RAM usage: " + e + ": " + Plain(cur) + " / " + Plain(peak)))
  }

  /** The line layout when nothing ran. */
  function NoExprLines(nb: Option<string>, jp: Option<string>): Printout {
    var p0 := Printout([], false);
    if nb.Some? then
      var p1 := Emit(p0, Some("RAM usage: notebook: " + nb.value));
      if jp.Some? then Emit(p1, Some("           jupyter:  " + jp.value)) else p1
    else if jp.Some? then
      Emit(p0, Some("RAM usage: jupyter: " + jp.value))
    else p0
  }

  /** A given value that `format_bytes` can format: one from 0 up to, not including, 1 TiB. */
  predicate Formattable(v: Option<int>) {
    v.Some? && 0 <= v.value < Pow1024(4)
  }

  /** A given value that `format_bytes` cannot format: negative, or 1 TiB or more. */
  predicate Oversized(v: Option<int>) {
    v.Some? && !(0 <= v.value < Pow1024(4))
  }

  /**
   * `print_memory_usage_info`: the values are rebound to their formatted
   * text (a missing peak to the dash), then one of the layouts is printed.
   * A formatted value is never empty, so "is truthy" is "is present".
   *
   * The table starts with its header and rule exactly when one of the three
   * values can be shown, and fails exactly when a shown value has a peak
   * that cannot be formatted (a missing peak is the dash, never a failure).
   * Outside the table, the first line names the expression's type when one
   * ran; with no expression nothing can fail, and the notebook line, when
   * there is one, comes first.
   */
  function PrintMemoryUsageInfo(
    current: Option<int>, peak: Option<int>,
    notebook: Option<int>, notebookPeak: Option<int>,
    jupyter: Option<int>, jupyterPeak: Option<int>,
    exprType: Option<string>, printTable: bool,
    showReal: real -> string): (r: Printout)
    ensures printTable ==>
              && ((|r.lines| >= 2 && r.lines[0] == Header && r.lines[1] == Rule)
                    <==> Formattable(current) || Formattable(notebook) || Formattable(jupyter))
              && (r.raised <==> (Formattable(current) && Oversized(peak))
                                || (Formattable(notebook) && Oversized(notebookPeak))
                                || (Formattable(jupyter) && Oversized(jupyterPeak)))
    ensures !printTable && exprType.Some? && Formattable(current) && !Oversized(peak) ==>
              |r.lines| >= 1 && "RAM usage: " + exprType.value + ":" <= r.lines[0]
    ensures !printTable && exprType.None? ==>
              && !r.raised
              && (r.lines == [] <==> !Formattable(notebook) && !Formattable(jupyter))
              && (Formattable(notebook) ==>
                    r.lines[0] == "RAM usage: notebook: " + FormatBytes(notebook.value, showReal).value)
  {
    var cur := Shown(current, showReal);
    var pk := ShownPeak(peak, showReal);
    var nb := Shown(notebook, showReal);
    var nbPk := ShownPeak(notebookPeak, showReal);
    var jp := Shown(jupyter, showReal);
    var jpPk := ShownPeak(jupyterPeak, showReal);
    if printTable then
      TableLayout(exprType, cur, pk, nb, nbPk, jp, jpPk);
      TableLines(exprType, cur, pk, nb, nbPk, jp, jpPk)
    else if exprType.Some? then
      if cur.Some? && pk.Some? then
        ExprLayoutStartsWithType(exprType.value, cur, pk, nb, nbPk, jp, jpPk);
        ExprLines(exprType.value, cur, pk, nb, nbPk, jp, jpPk)
      else
        ExprLines(exprType.value, cur, pk, nb, nbPk, jp, jpPk)
    else
      NoExprLayout(nb, jp);
      NoExprLines(nb, jp)
  }

  /** The label that starts each table row, in the order expression, notebook, jupyter, for the values shown. */
  function RowLabels(exprType: Option<string>, cur: Option<string>, nb: Option<string>, jp: Option<string>): seq<string> {
    (if cur.Some? then [" " + Plain(exprType) + "     | "] else [])
    + (if nb.Some? then [" notebook | "] else [])
    + (if jp.Some? then [" jupyter  | "] else [])
  }

  /**
   * Printing a list of lines: the printing fails exactly when one of them
   * fails to format, and otherwise every line is printed, in order.
   */
  lemma {:induction false} EmitAllPrintsInOrder(p: Printout, lines: seq<Option<string>>)
    requires !p.raised
    ensures var q := EmitAll(p, lines);
            && (q.raised <==> exists k :: 0 <= k < |lines| && lines[k].None?)
            && (!q.raised ==>
                  && |q.lines| == |p.lines| + |lines|
                  && q.lines[..|p.lines|] == p.lines
                  && forall k :: 0 <= k < |lines| ==> lines[k].Some? && q.lines[|p.lines| + k] == lines[k].value)
    decreases |lines|
  {
    if lines != [] {
      var p1 := Emit(p, lines[0]);
      if lines[0].Some? {
        EmitAllPrintsInOrder(p1, lines[1..]);
        var q := EmitAll(p, lines);
        assert forall k :: 1 <= k < |lines| ==> lines[k] == lines[1..][k - 1];
        if !q.raised {
          assert q.lines[..|p1.lines|][..|p.lines|] == q.lines[..|p.lines|];
        }
      } else {
        EmitAllStaysRaised(p1, lines[1..]);
      }
    }
  }

  lemma {:induction false} EmitAllStaysRaised(p: Printout, lines: seq<Option<string>>)
    requires p.raised
    ensures EmitAll(p, lines) == p
    decreases |lines|
  {
    if lines != [] {
      EmitAllStaysRaised(Emit(p, lines[0]), lines[1..]);
    }
  }

  lemma LineStartsWithLabel(a: string, x: Option<string>, b: string, y: Option<string>, c: string)
    ensures Line(a, x, b, y, c).Some? <==> x.Some? && y.Some?
    ensures Line(a, x, b, y, c).Some? ==> a <= Line(a, x, b, y, c).value
  {
    if x.Some? && y.Some? {
      assert a + x.value + b + y.value + c == a + (x.value + b + y.value + c);
    }
  }

  /** Row `k` starts with label `k`, for each row that formatted. */
  predicate Labelled(rows: seq<Option<string>>, labels: seq<string>) {
    |rows| == |labels| && forall k :: 0 <= k < |rows| && rows[k].Some? ==> labels[k] <= rows[k].value
  }

  predicate AnyFails(rows: seq<Option<string>>) {
    exists k :: 0 <= k < |rows| && rows[k].None?
  }

  lemma OptionalRow(present: bool, line: Option<string>, tag: string)
    requires line.Some? ==> tag <= line.value
    ensures var rows: seq<Option<string>> := if present then [line] else [];
            && Labelled(rows, (if present then [tag] else []))
            && (AnyFails(rows) <==> present && line.None?)
  {
    if present && line.None? {
      assert [line][0].None?;
    }
  }

  lemma AnyFailsConcat(r1: seq<Option<string>>, r2: seq<Option<string>>)
    ensures AnyFails(r1 + r2) <==> AnyFails(r1) || AnyFails(r2)
  {
    var rows := r1 + r2;
    if AnyFails(r1) {
      var k :| 0 <= k < |r1| && r1[k].None?;
      assert rows[k].None?;
    }
    if AnyFails(r2) {
      var k :| 0 <= k < |r2| && r2[k].None?;
      assert rows[|r1| + k].None?;
    }
    if AnyFails(rows) {
      var k :| 0 <= k < |rows| && rows[k].None?;
      if k < |r1| {
        assert r1[k].None?;
      } else {
        assert r2[k - |r1|].None?;
      }
    }
  }

  lemma LabelledConcat(r1: seq<Option<string>>, m1: seq<string>, r2: seq<Option<string>>, m2: seq<string>)
    requires Labelled(r1, m1) && Labelled(r2, m2)
    ensures Labelled(r1 + r2, m1 + m2)
    ensures AnyFails(r1 + r2) <==> AnyFails(r1) || AnyFails(r2)
  {
    var rows := r1 + r2;
    var labels := m1 + m2;
    forall k | 0 <= k < |rows| && rows[k].Some? ensures labels[k] <= rows[k].value {
      if k >= |r1| {
        assert rows[k] == r2[k - |r1|] && labels[k] == m2[k - |r1|];
      }
    }
    AnyFailsConcat(r1, r2);
  }

  /** Each row starts with its label, and only a row whose value's peak is `None` fails. */
  lemma TableRowsAreLabelled(exprType: Option<string>, cur: Option<string>, peak: Option<string>,
                             nb: Option<string>, nbPeak: Option<string>,
                             jp: Option<string>, jpPeak: Option<string>)
    ensures var rows := TableRows(exprType, cur, peak, nb, nbPeak, jp, jpPeak);
            && Labelled(rows, RowLabels(exprType, cur, nb, jp))
            && (AnyFails(rows) <==> (cur.Some? && peak.None?) || (nb.Some? && nbPeak.None?) || (jp.Some? && jpPeak.None?))
  {
    var a1 := " " + Plain(exprType) + "     | ";
    var a2 := " notebook | ";
    var a3 := " jupyter  | ";
    var l1 := Line(a1, Cell(cur), " | ", Cell(peak), "  |");
    var l2 := Line(a2, Cell(nb), " | ", Cell(nbPeak), "  |");
    var l3 := Line(a3, Cell(jp), " | ", Cell(jpPeak), "  |");
    LineStartsWithLabel(a1, Cell(cur), " | ", Cell(peak), "  |");
    LineStartsWithLabel(a2, Cell(nb), " | ", Cell(nbPeak), "  |");
    LineStartsWithLabel(a3, Cell(jp), " | ", Cell(jpPeak), "  |");
    OptionalRow(cur.Some?, l1, a1);
    OptionalRow(nb.Some?, l2, a2);
    OptionalRow(jp.Some?, l3, a3);
    var r1 := if cur.Some? then [l1] else [];
    var r2 := if nb.Some? then [l2] else [];
    var r3 := if jp.Some? then [l3] else [];
    var m1: seq<string> := if cur.Some? then [a1] else [];
    var m2: seq<string> := if nb.Some? then [a2] else [];
    var m3: seq<string> := if jp.Some? then [a3] else [];
    LabelledConcat(r1, m1, r2, m2);
    LabelledConcat(r1 + r2, m1 + m2, r3, m3);
    assert r1 + r2 + r3 == TableRows(exprType, cur, peak, nb, nbPeak, jp, jpPeak);
    assert m1 + m2 + m3 == RowLabels(exprType, cur, nb, jp);
  }

  /** Lines that cannot fail, then rows: the printing fails exactly when a row does. */
  lemma HeadingThenRows(heading: seq<Option<string>>, rows: seq<Option<string>>)
    requires forall k :: 0 <= k < |heading| ==> heading[k].Some?
    ensures var q := EmitAll(Printout([], false), heading + rows);
            && (q.raised <==> AnyFails(rows))
            && (!q.raised ==>
                  && |q.lines| == |heading| + |rows|
                  && (forall k :: 0 <= k < |heading| ==> q.lines[k] == heading[k].value)
                  && (forall k :: 0 <= k < |rows| ==> rows[k].Some? && q.lines[|heading| + k] == rows[k].value))
  {
    var all := heading + rows;
    EmitAllPrintsInOrder(Printout([], false), all);
    AnyFailsConcat(heading, rows);
    assert !AnyFails(heading);
    var q := EmitAll(Printout([], false), all);
    assert q.raised <==> AnyFails(all);
    if !q.raised {
      assert forall k :: 0 <= k < |rows| ==> all[|heading| + k] == rows[k];
      assert forall k :: 0 <= k < |heading| ==> all[k] == heading[k];
    }
  }

  /**
   * In the table layout the header and its rule come first exactly when at
   * least one of current, notebook and jupyter is shown; then one row per
   * shown value, in the order expression, notebook, jupyter. Printing stops
   * with an error exactly when a shown value's peak is `None`.
   */
  lemma TableLayout(exprType: Option<string>, cur: Option<string>, peak: Option<string>,
                    nb: Option<string>, nbPeak: Option<string>,
                    jp: Option<string>, jpPeak: Option<string>)
    ensures var p := TableLines(exprType, cur, peak, nb, nbPeak, jp, jpPeak);
            var labels := RowLabels(exprType, cur, nb, jp);
            && ((|p.lines| >= 2 && p.lines[0] == Header && p.lines[1] == Rule) <==> labels != [])
            && (labels == [] ==> p == Printout([], false))
            && (p.raised <==> (cur.Some? && peak.None?) || (nb.Some? && nbPeak.None?) || (jp.Some? && jpPeak.None?))
            && (!p.raised && labels != [] ==>
                  && |p.lines| == 2 + |labels|
                  && forall k :: 0 <= k < |labels| ==> labels[k] <= p.lines[k + 2])
  {
    var rows := TableRows(exprType, cur, peak, nb, nbPeak, jp, jpPeak);
    var labels := RowLabels(exprType, cur, nb, jp);
    TableRowsAreLabelled(exprType, cur, peak, nb, nbPeak, jp, jpPeak);
    var heading: seq<Option<string>> := if cur.Some? || nb.Some? || jp.Some? then [Some(Header), Some(Rule)] else [];
    HeadingThenRows(heading, rows);
    var p := TableLines(exprType, cur, peak, nb, nbPeak, jp, jpPeak);
    assert p == EmitAll(Printout([], false), heading + rows);
    assert labels == [] <==> heading == [];
    if labels == [] {
      assert rows == [];
      assert heading + rows == [];
    } else if p.raised {
      EmitAllPrefixOfHeading(heading, rows);
    }
  }

  /** The header lines are printed before any row can fail. */
  lemma EmitAllPrefixOfHeading(heading: seq<Option<string>>, rows: seq<Option<string>>)
    requires heading == [Some(Header), Some(Rule)]
    ensures var q := EmitAll(Printout([], false), heading + rows);
            |q.lines| >= 2 && q.lines[0] == Header && q.lines[1] == Rule
  {
    var all := heading + rows;
    var p1 := Printout([Header], false);
    var p2 := Printout([Header, Rule], false);
    assert all[0] == Some(Header) && all[1..][0] == Some(Rule) && all[1..][1..] == rows;
    assert Emit(Printout([], false), Some(Header)) == p1;
    assert Emit(p1, Some(Rule)) == p2;
    assert EmitAll(Printout([], false), all) == EmitAll(p1, all[1..]);
    assert EmitAll(p1, all[1..]) == EmitAll(p2, rows);
    EmitAllExtends(p2, rows);
  }

  /** Printing only ever adds lines after those already printed. */
  lemma {:induction false} EmitAllExtends(p: Printout, lines: seq<Option<string>>)
    ensures |EmitAll(p, lines).lines| >= |p.lines|
    ensures EmitAll(p, lines).lines[..|p.lines|] == p.lines
    decreases |lines|
  {
    if lines != [] {
      var p1 := Emit(p, lines[0]);
      EmitAllExtends(p1, lines[1..]);
      var q := EmitAll(p, lines);
      assert p1.lines[..|p.lines|] == p.lines;
      assert q.lines[..|p1.lines|][..|p.lines|] == q.lines[..|p.lines|];
    }
  }

  /** A missing peak is shown as the dash, which already fills the 11-column cell. */
  lemma MissingPeakShowsDash(showReal: real -> string)
    ensures ShownPeak(None, showReal) == Some(Dash)
    ensures |Dash| == 11 && Cell(Some(Dash)) == Some(Dash)
  {
    assert LeftJustify(Dash, 11) == Dash;
  }

  /**
   * Outside the table, when an expression ran, the first line starts with
   * `RAM usage: <type>:` whichever of the three layouts is chosen, provided
   * the current value and peak are shown whenever a notebook or jupyter
   * line follows (the single-line layout prints `None` for a missing one).
   */
  lemma ExprLayoutStartsWithType(e: string, cur: Option<string>, peak: Option<string>,
                                 nb: Option<string>, nbPeak: Option<string>,
                                 jp: Option<string>, jpPeak: Option<string>)
    requires nb.Some? || jp.Some? ==> cur.Some? && peak.Some?
    ensures var p := ExprLines(e, cur, peak, nb, nbPeak, jp, jpPeak);
            |p.lines| >= 1 && "RAM usage: " + e + ":" <= p.lines[0]
  {
    var p := ExprLines(e, cur, peak, nb, nbPeak, jp, jpPeak);
    if nb.Some? {
      var c := LeftJustify(cur.value, 11);
      var k := LeftJustify(peak.value, 11);
      assert p.lines[0] == "RAM usage: " + e + ":     " + c + " / " + k + "";
      HeadPrefix(e, "     ", c, k);
    } else if jp.Some? {
      var c := LeftJustify(cur.value, 11);
      var k := LeftJustify(peak.value, 11);
      assert p.lines[0] == "RAM usage: " + e + ":    " + c + " / " + k + "";
      HeadPrefix(e, "    ", c, k);
    } else {
      assert p.lines[0] == "RAM usage: " + e + ": " + Plain(cur) + " / " + Plain(peak);
      HeadPrefix(e, " ", Plain(cur), Plain(peak));
    }
  }

  /** A line built from `RAM usage: <type>:`, a gap and two values starts with `RAM usage: <type>:`. */
  lemma HeadPrefix(e: string, gap: string, x: string, y: string)
    ensures "RAM usage: " + e + ":" <= "RAM usage: " + e + (":" + gap) + x + " / " + y + ""
    ensures "RAM usage: " + e + ":" <= "RAM usage: " + e + (":" + gap) + x + " / " + y
  {
    var pre := "RAM usage: " + e + ":";
    assert "RAM usage: " + e + (":" + gap) + x + " / " + y == pre + (gap + x + " / " + y);
    assert "RAM usage: " + e + (":" + gap) + x + " / " + y + "" == pre + (gap + x + " / " + y);
  }

  /**
   * Outside the table, when an expression ran and the notebook value is
   * shown, a jupyter line follows the notebook line exactly when the jupyter
   * value is shown, provided no cell fails to format.
   */
  lemma JupyterLineOnlyWhenShown(e: string, cur: Option<string>, peak: Option<string>,
                                 nb: Option<string>, nbPeak: Option<string>,
                                 jp: Option<string>, jpPeak: Option<string>)
    requires cur.Some? && peak.Some? && nb.Some? && nbPeak.Some? && jpPeak.Some?
    ensures var p := ExprLines(e, cur, peak, nb, nbPeak, jp, jpPeak);
            && !p.raised
            && (|p.lines| == 3 <==> jp.Some?)
            && (|p.lines| == 2 <==> jp.None?)
            && (|p.lines| == 3 ==> "           jupyter:  " <= p.lines[2])
  {
  }

  /**
   * Outside the table and with no expression, at most two lines are printed
   * and nothing can fail: nothing at all when neither notebook nor jupyter is
   * shown, one `RAM usage:` line when one of them is, and a jupyter line
   * after the notebook line when both are.
   */
  lemma NoExprLayout(nb: Option<string>, jp: Option<string>)
    ensures var p := NoExprLines(nb, jp);
            && !p.raised
            && (p.lines == [] <==> nb.None? && jp.None?)
            && (|p.lines| == 2 <==> nb.Some? && jp.Some?)
            && (nb.Some? ==> p.lines[0] == "RAM usage: notebook: " + nb.value)
            && (nb.None? && jp.Some? ==> p.lines == ["RAM usage: jupyter: " + jp.value])
            && (|p.lines| == 2 ==> p.lines[1] == "           jupyter:  " + jp.value)
  {
  }

  /** In the table, a row whose peak is 1 TiB or more cannot be printed: its peak cell raises. */
  lemma OversizedPeakRaises(
    current: Option<int>, peak: int,
    notebook: Option<int>, notebookPeak: Option<int>,
    jupyter: Option<int>, jupyterPeak: Option<int>,
    exprType: Option<string>, showReal: real -> string)
    requires Shown(current, showReal).Some? && peak >= Pow1024(4)
    ensures PrintMemoryUsageInfo(current, Some(peak), notebook, notebookPeak, jupyter, jupyterPeak,
                                 exprType, true, showReal).raised
  {
    assert ShownPeak(Some(peak), showReal).None?;
    TableLayout(exprType, Shown(current, showReal), ShownPeak(Some(peak), showReal),
                Shown(notebook, showReal), ShownPeak(notebookPeak, showReal),
                Shown(jupyter, showReal), ShownPeak(jupyterPeak, showReal));
  }
}
