/** The "See also" footer of `src/frontend/topics.rs`: a greedy line-breaking loop, and why no
    other layout with the same indents needs fewer lines. */
module Footer {
  import opened Ordering

  const HEADER := "See also: trust-mc explain {"
  const INDENT := "          "
  const COLUMNS: nat := 80

  /** What is printed for each name: a comma after all but the last, which closes the brace. */
  function Items(names: seq<string>): seq<string> {
    if names == [] then []
    else if |names| == 1 then [names[0] + "}"]
    else [names[0] + ","] + Items(names[1..])
  }

  // ---------------------------------------------------------------------
  // Layouts
  // ---------------------------------------------------------------------

  /** Lines of items; the first line continues at the cursor, the others start after the indent. */
  type Layout = seq<seq<string>>

  function Flatten(layout: Layout): seq<string> {
    if layout == [] then [] else layout[0] + Flatten(layout[1..])
  }

  /** The column after printing `line` from `col`; a space goes before every item but one
      at the start of a line. */
  function EndColumn(line: seq<string>, col: nat, atStart: bool): nat {
    if line == [] then col
    else EndColumn(line[1..], col + (if atStart then 0 else 1) + |line[0]|, false)
  }

  predicate FitsIndented(layout: Layout) {
    layout == [] || (EndColumn(layout[0], |INDENT|, true) <= COLUMNS && FitsIndented(layout[1..]))
  }

  /** Every line stays within 80 columns. */
  predicate Fits(layout: Layout, col: nat, atStart: bool) {
    layout != [] && EndColumn(layout[0], col, atStart) <= COLUMNS && FitsIndented(layout[1..])
  }

  function LineText(line: seq<string>, atStart: bool): string {
    if line == [] then "" else (if atStart then "" else " ") + line[0] + LineText(line[1..], false)
  }

  function Text(layout: Layout, atStart: bool): string {
    if layout == [] then ""
    else LineText(layout[0], atStart) + (if |layout| == 1 then "" else "\n" + INDENT + Text(layout[1..], true))
  }

  // ---------------------------------------------------------------------
  // The greedy layout
  // ---------------------------------------------------------------------

  function OnLine(item: string, layout: Layout): Layout
    requires layout != []
  {
    [[item] + layout[0]] + layout[1..]
  }

  function Greedy(items: seq<string>, col: nat, atStart: bool): (r: Layout)
    ensures r != []
  {
    if items == [] then [[]]
    else if col + |items[0]| + 1 > COLUMNS then
      [[]] + OnLine(items[0], Greedy(items[1..], |INDENT| + |items[0]|, false))
    else
      OnLine(items[0], Greedy(items[1..], col + (if atStart then 0 else 1) + |items[0]|, false))
  }

  lemma {:induction false} TextOnLine(item: string, layout: Layout, atStart: bool)
    requires layout != []
    ensures Text(OnLine(item, layout), atStart) == (if atStart then "" else " ") + item + Text(layout, false)
  {
    var l := OnLine(item, layout);
    assert l[1..] == layout[1..] && l[0][1..] == layout[0];
  }

  lemma {:induction false} TextBroken(layout: Layout, atStart: bool)
    requires layout != []
    ensures Text([[]] + layout, atStart) == "\n" + INDENT + Text(layout, true)
  {
    var l: Layout := [[]] + layout;
    assert l[1..] == layout && l[0] == [];
  }

  /** One step of the greedy layout, as text. */
  lemma {:induction false} GreedyText(items: seq<string>, col: nat, atStart: bool)
    requires items != []
    ensures Text(Greedy(items, col, atStart), atStart) ==
            if col + |items[0]| + 1 > COLUMNS
            then "\n" + INDENT + items[0] + Text(Greedy(items[1..], |INDENT| + |items[0]|, false), false)
            else (if atStart then "" else " ") + items[0] +
                 Text(Greedy(items[1..], col + (if atStart then 0 else 1) + |items[0]|, false), false)
  {
    if col + |items[0]| + 1 > COLUMNS {
      var rest := Greedy(items[1..], |INDENT| + |items[0]|, false);
      TextBroken(OnLine(items[0], rest), atStart);
      TextOnLine(items[0], rest, true);
    } else {
      TextOnLine(items[0], Greedy(items[1..], col + (if atStart then 0 else 1) + |items[0]|, false), atStart);
    }
  }

  lemma {:induction false} ItemsAt(names: seq<string>, i: nat)
    requires i < |names|
    ensures |Items(names)| == |names|
    ensures Items(names)[i] == names[i] + (if i + 1 == |names| then "}" else ",")
  {
    if |names| > 1 { ItemsAt(names[1..], if i == 0 then 0 else i - 1); }
  }

  lemma {:induction false} ItemsCount(names: seq<string>)
    ensures |Items(names)| == |names|
  {
    if names != [] { ItemsAt(names, 0); }
  }

  /** The cursor after the next item. */
  function NextColumn(item: string, col: nat, atStart: bool): nat {
    if col + |item| + 1 > COLUMNS then |INDENT| + |item| else col + (if atStart then 0 else 1) + |item|
  }

  function Separator(item: string, col: nat, atStart: bool): string {
    if col + |item| + 1 > COLUMNS then "\n" + INDENT else if atStart then "" else " "
  }

  lemma {:induction false} Associate(out: string, sep: string, item: string, rest: string)
    ensures out + (sep + item + rest) == out + sep + item + rest
  {
  }

  function Others(topics: seq<string>, self: string): seq<string> { Filter(n => n != self, topics) }

  /** Item by item, what is left to print loses its separator and its item. */
  ghost predicate PrintsFrom(rest: (nat, nat) -> string, items: seq<string>, i: nat) {
    i < |items| ==>
      forall col: nat :: rest(i, col) ==
        Separator(items[i], col, i == 0) + items[i] + rest(i + 1, NextColumn(items[i], col, i == 0))
  }

  lemma {:induction false} StepText(items: seq<string>, i: nat, col: nat)
    requires i < |items|
    ensures Text(Greedy(items[i..], col, i == 0), i == 0) ==
            Separator(items[i], col, i == 0) + items[i] +
            Text(Greedy(items[i+1..], NextColumn(items[i], col, i == 0), false), false)
  {
    GreedyText(items[i..], col, i == 0);
    assert items[i..][1..] == items[i+1..];
  }

  lemma {:induction false} NothingToPrint(col: nat, atStart: bool)
    ensures Text(Greedy([], col, atStart), atStart) == ""
  {
    assert Greedy([], col, atStart) == [[]];
    assert LineText([], atStart) == "";
  }

  lemma {:induction false} LeftToPrint(items: seq<string>) returns (rest: (nat, nat) -> string)
    ensures forall i: nat :: PrintsFrom(rest, items, i)
    ensures rest(0, |HEADER|) == Text(Greedy(items, |HEADER|, true), true)
    ensures forall col: nat :: rest(|items|, col) == ""
  {
    rest := (i: nat, col: nat) => if i <= |items| then Text(Greedy(items[i..], col, i == 0), i == 0) else "";
    assert items[0..] == items && items[|items|..] == [];
    forall col: nat ensures rest(|items|, col) == "" { NothingToPrint(col, |items| == 0); }
    forall i: nat ensures PrintsFrom(rest, items, i) {
      if i < |items| {
        forall col: nat
          ensures rest(i, col) ==
                  Separator(items[i], col, i == 0) + items[i] + rest(i + 1, NextColumn(items[i], col, i == 0))
        {
          StepText(items, i, col);
        }
      }
    }
  }

  lemma {:induction false} PrintOne(rest: (nat, nat) -> string, items: seq<string>, i: nat, col: nat, out: string)
    requires i < |items| && PrintsFrom(rest, items, i)
    ensures out + rest(i, col) ==
            out + Separator(items[i], col, i == 0) + items[i] + rest(i + 1, NextColumn(items[i], col, i == 0))
  {
    Associate(out, Separator(items[i], col, i == 0), items[i], rest(i + 1, NextColumn(items[i], col, i == 0)));
  }

  /** `footer`, for the page of topic `self`. */
  method Footer(topics: seq<string>, self: string) returns (out: string)
    ensures var others := Others(topics, self);
            out == HEADER + Text(Greedy(Items(others), |HEADER|, true), true) + "\n"
  {
    out := HEADER;
    var col: nat := |out|;
    var others := Others(topics, self);
    ghost var items := Items(others);
    ItemsCount(others);
    ghost var rest := LeftToPrint(items);
    var i := 0;
    while i < |others|
      invariant 0 <= i <= |others|
      invariant HEADER + rest(0, |HEADER|) == out + rest(i, col)
    {
      var last := i + 1 == |others|;
      var item := others[i] + if last then "}" else ",";
      ItemsAt(others, i);
      PrintOne(rest, items, i, col, out);
      ghost var was, sep := out, Separator(item, col, i == 0);
      if col + |item| + 1 > COLUMNS {
        out := out + ("\n" + INDENT);
        col := 10;
      } else if i > 0 {
        out := out + " ";
        col := col + 1;
      }
      assert out == was + sep;
      out := out + item;
      col := col + |item|;
      i := i + 1;
    }
    out := out + "\n";
  }

  // ---------------------------------------------------------------------
  // What every footer satisfies
  // ---------------------------------------------------------------------

  /** The greedy layout prints every item once, in order. */
  lemma {:induction false} GreedyKeepsItems(items: seq<string>, col: nat, atStart: bool)
    ensures Flatten(Greedy(items, col, atStart)) == items
  {
    if items != [] {
      var c := NextColumn(items[0], col, atStart);
      GreedyKeepsItems(items[1..], c, false);
      var rest := Greedy(items[1..], c, false);
      FlattenOnLine(items[0], rest);
      FlattenBroken(OnLine(items[0], rest));
    }
  }

  lemma {:induction false} FlattenOnLine(item: string, layout: Layout)
    requires layout != []
    ensures Flatten(OnLine(item, layout)) == [item] + Flatten(layout)
  {
    assert OnLine(item, layout)[1..] == layout[1..];
  }

  lemma {:induction false} FlattenBroken(layout: Layout)
    ensures Flatten([[]] + layout) == Flatten(layout)
  {
    var broken: Layout := [[]] + layout;
    assert broken[1..] == layout;
  }

  /** Within 80 columns exactly when no item is longer than the 70 an indented line has room for. */
  lemma {:induction false} GreedyFits(items: seq<string>, col: nat, atStart: bool)
    requires |INDENT| <= col <= COLUMNS
    ensures Fits(Greedy(items, col, atStart), col, atStart) <==>
            forall i :: 0 <= i < |items| ==> |INDENT| + |items[i]| <= COLUMNS
  {
    if items != [] {
      var x, rest := items[0], items[1..];
      assert items == [x] + rest;
      if col + |x| + 1 > COLUMNS {
        var r := Greedy(rest, |INDENT| + |x|, false);
        BreakFits(x, r, col, atStart);
        if |INDENT| + |x| <= COLUMNS {
          GreedyFits(rest, |INDENT| + |x|, false);
        } else {
          EndColumnGrows(r[0], |INDENT| + |x|, false);
        }
      } else {
        var c := col + (if atStart then 0 else 1) + |x|;
        StayFits(x, Greedy(rest, c, false), col, atStart);
        GreedyFits(rest, c, false);
      }
    }
  }

  lemma {:induction false} BreakFits(x: string, r: Layout, col: nat, atStart: bool)
    requires r != [] && col <= COLUMNS
    ensures Fits([[]] + OnLine(x, r), col, atStart) <==> Fits(r, |INDENT| + |x|, false)
  {
    var l := OnLine(x, r);
    var broken: Layout := [[]] + l;
    assert broken[1..] == l && l[1..] == r[1..] && l[0][1..] == r[0];
  }

  lemma {:induction false} StayFits(x: string, r: Layout, col: nat, atStart: bool)
    requires r != []
    ensures Fits(OnLine(x, r), col, atStart) <==> Fits(r, col + (if atStart then 0 else 1) + |x|, false)
  {
    var l := OnLine(x, r);
    assert l[1..] == r[1..] && l[0][1..] == r[0];
  }

  lemma {:induction false} EndColumnGrows(line: seq<string>, col: nat, atStart: bool)
    ensures EndColumn(line, col, atStart) >= col
  {
    if line != [] { EndColumnGrows(line[1..], col + (if atStart then 0 else 1) + |line[0]|, false); }
  }

  /** The column the loop tracks is the length of the line it prints. */
  lemma {:induction false} ColumnIsLength(line: seq<string>, col: nat, atStart: bool)
    ensures EndColumn(line, col, atStart) == col + |LineText(line, atStart)|
  {
    if line != [] { ColumnIsLength(line[1..], col + (if atStart then 0 else 1) + |line[0]|, false); }
  }

  /** No line ends in a space, since every item ends in a comma or the brace. */
  lemma {:induction false} NoTrailingSpace(line: seq<string>, atStart: bool)
    requires line != [] && forall x :: x in line ==> x != "" && x[|x|-1] != ' '
    ensures var t := LineText(line, atStart); t != "" && t[|t|-1] != ' '
  {
    if |line| > 1 {
      NoTrailingSpace(line[1..], false);
    } else {
      assert LineText(line[1..], false) == "";
      assert line[0] in line;
    }
  }

  lemma {:induction false} ItemEnds(names: seq<string>)
    ensures forall x :: x in Items(names) ==> x != "" && x[|x|-1] != ' '
  {
    ItemsCount(names);
    forall x | x in Items(names) ensures x != "" && x[|x|-1] != ' ' {
      var i :| 0 <= i < |Items(names)| && Items(names)[i] == x;
      ItemsAt(names, i);
    }
  }

  ghost predicate LaterLinesHoldItems(layout: Layout) {
    forall k :: 1 <= k < |layout| ==> layout[k] != []
  }

  lemma {:induction false} BreakHoldsItem(item: string, layout: Layout)
    requires layout != [] && LaterLinesHoldItems(layout)
    ensures LaterLinesHoldItems(OnLine(item, layout)) && LaterLinesHoldItems([[]] + OnLine(item, layout))
  {
    var l := OnLine(item, layout);
    var broken: Layout := [[]] + l;
    assert |l[0]| > 0;
    forall k | 1 <= k < |l| ensures l[k] != [] { assert l[k] == layout[k]; }
    forall k | 1 <= k < |broken| ensures broken[k] != [] { assert broken[k] == l[k-1]; }
  }

  /** Only the first line can be empty: a break is always followed by its item. */
  lemma {:induction false} GreedyHoldsItems(items: seq<string>, col: nat, atStart: bool)
    ensures LaterLinesHoldItems(Greedy(items, col, atStart))
  {
    if items != [] {
      var c := NextColumn(items[0], col, atStart);
      GreedyHoldsItems(items[1..], c, false);
      BreakHoldsItem(items[0], Greedy(items[1..], c, false));
    }
  }

  /** The lines of a layout as they are printed, without their ends. */
  function Printed(prefix: string, layout: Layout): (lines: seq<string>)
    ensures |lines| == |layout|
    decreases |layout|
  {
    if layout == [] then [] else [prefix + LineText(layout[0], true)] + Printed(INDENT, layout[1..])
  }

  function JoinLines(lines: seq<string>): string {
    if lines == [] then "" else lines[0] + "\n" + JoinLines(lines[1..])
  }

  lemma {:induction false} TextIsLines(prefix: string, layout: Layout)
    requires layout != []
    ensures prefix + Text(layout, true) + "\n" == JoinLines(Printed(prefix, layout))
    decreases |layout|
  {
    var line := LineText(layout[0], true);
    var lines := Printed(prefix, layout);
    assert lines[1..] == Printed(INDENT, layout[1..]);
    if |layout| == 1 {
      assert Text(layout, true) == line;
      assert lines[1..] == [];
      assert JoinLines(lines[1..]) == "";
    } else {
      TextIsLines(INDENT, layout[1..]);
      var rest := Text(layout[1..], true);
      assert Text(layout, true) == line + ("\n" + INDENT + rest);
      assert prefix + (line + ("\n" + INDENT + rest)) + "\n" == (prefix + line) + "\n" + (INDENT + rest + "\n");
    }
  }

  lemma {:induction false} PrintedAt(prefix: string, layout: Layout, k: nat)
    requires k < |layout|
    ensures Printed(prefix, layout)[k] == (if k == 0 then prefix else INDENT) + LineText(layout[k], true)
    decreases k
  {
    if k > 0 { PrintedAt(INDENT, layout[1..], k - 1); }
  }

  lemma {:induction false} IndentedFits(layout: Layout)
    ensures FitsIndented(layout) <==> forall k :: 0 <= k < |layout| ==> EndColumn(layout[k], |INDENT|, true) <= COLUMNS
  {
    if layout != [] {
      IndentedFits(layout[1..]);
      assert forall k :: 0 <= k < |layout[1..]| ==> layout[1..][k] == layout[k+1];
      assert forall k :: 1 <= k < |layout| ==> layout[k] == layout[1..][k-1];
    }
  }

  ghost predicate Narrow(lines: seq<string>) {
    forall k :: 0 <= k < |lines| ==> |lines[k]| <= COLUMNS
  }

  lemma {:induction false} PrintedFits(prefix: string, layout: Layout)
    requires layout != []
    ensures Fits(layout, |prefix|, true) <==> Narrow(Printed(prefix, layout))
  {
    IndentedFits(layout[1..]);
    var lines := Printed(prefix, layout);
    forall k | 0 <= k < |layout|
      ensures |lines[k]| == EndColumn(layout[k], if k == 0 then |prefix| else |INDENT|, true)
    {
      PrintedAt(prefix, layout, k);
      ColumnIsLength(layout[k], if k == 0 then |prefix| else |INDENT|, true);
    }
    if Fits(layout, |prefix|, true) {
      forall k | 0 <= k < |lines| ensures |lines[k]| <= COLUMNS {
        if k > 0 { assert layout[k] == layout[1..][k-1]; }
      }
    }
    if Narrow(lines) {
      forall k | 0 <= k < |layout[1..]| ensures EndColumn(layout[1..][k], |INDENT|, true) <= COLUMNS {
        assert layout[1..][k] == layout[k+1] && |lines[k+1]| <= COLUMNS;
      }
      assert |lines[0]| <= COLUMNS;
    }
  }

  predicate EndsInSpace(line: string) { line != "" && line[|line| - 1] == ' ' }

  lemma {:induction false} PrintedLineEnds(prefix: string, layout: Layout, k: nat)
    requires k < |layout| && (layout[k] == [] ==> k == 0 && !EndsInSpace(prefix))
    requires forall x :: x in layout[k] ==> x != "" && x[|x|-1] != ' '
    ensures !EndsInSpace(Printed(prefix, layout)[k])
  {
    PrintedAt(prefix, layout, k);
    if layout[k] != [] { NoTrailingSpace(layout[k], true); }
  }

  lemma {:induction false} LineOfItems(layout: Layout, k: nat, x: string)
    requires k < |layout| && x in layout[k]
    ensures x in Flatten(layout)
  {
    if k > 0 { LineOfItems(layout[1..], k - 1, x); }
  }

  lemma {:induction false} RoomForItems(names: seq<string>)
    ensures (forall i :: 0 <= i < |Items(names)| ==> |INDENT| + |Items(names)[i]| <= COLUMNS) <==>
            forall i :: 0 <= i < |names| ==> |names[i]| <= 69
  {
    ItemsCount(names);
    forall i | 0 <= i < |names| ensures |Items(names)[i]| == |names[i]| + 1 { ItemsAt(names, i); }
  }

  /** What is printed, whatever the names: lines none of which ends in a space, and all of which stay
      within 80 columns exactly when no name is longer than 69. */
  lemma {:induction false} FooterLines(names: seq<string>)
    ensures var g := Greedy(Items(names), |HEADER|, true);
            var lines := Printed(HEADER, g);
            && HEADER + Text(g, true) + "\n" == JoinLines(lines)
            && (forall k :: 0 <= k < |lines| ==> !EndsInSpace(lines[k]))
            && (Narrow(lines) <==> forall i :: 0 <= i < |names| ==> |names[i]| <= 69)
  {
    var items := Items(names);
    var g := Greedy(items, |HEADER|, true);
    var lines := Printed(HEADER, g);
    TextIsLines(HEADER, g);
    GreedyHoldsItems(items, |HEADER|, true);
    GreedyKeepsItems(items, |HEADER|, true);
    ItemEnds(names);
    forall k | 0 <= k < |lines| ensures !EndsInSpace(lines[k]) {
      forall x | x in g[k] ensures x != "" && x[|x|-1] != ' ' { LineOfItems(g, k, x); }
      PrintedLineEnds(HEADER, g, k);
    }
    PrintedFits(HEADER, g);
    GreedyFits(items, |HEADER|, true);
    RoomForItems(names);
  }

  // ---------------------------------------------------------------------
  // Greedy is best
  // ---------------------------------------------------------------------

  lemma {:induction false} FurtherRightIsNoBetter(items: seq<string>, c: nat, d: nat)
    requires c <= d
    ensures |Greedy(items, c, false)| <= |Greedy(items, d, false)|
  {
    if items != [] {
      var n := |items[0]|;
      if c + n + 1 <= COLUMNS {
        if d + n + 1 <= COLUMNS {
          FurtherRightIsNoBetter(items[1..], c + 1 + n, d + 1 + n);
        } else {
          OneLineMore(items[1..], c + 1 + n, |INDENT| + n);
        }
      }
    }
  }

  /** Starting anywhere costs at most one line more than starting anywhere past the indent. */
  lemma {:induction false} OneLineMore(items: seq<string>, c: nat, d: nat)
    requires d >= |INDENT|
    ensures |Greedy(items, c, false)| <= 1 + |Greedy(items, d, false)|
    decreases items, 1
  {
    if items != [] {
      var n := |items[0]|;
      if c + n + 1 > COLUMNS {
        if d + n + 1 <= COLUMNS { FurtherRightIsNoBetter(items[1..], |INDENT| + n, d + 1 + n); }
      } else {
        OneLineMore(items[1..], c + 1 + n, if d + n + 1 > COLUMNS then |INDENT| + n else d + 1 + n);
      }
    }
  }

  /** Starting anywhere costs at most one line more than starting on a line of its own. */
  lemma {:induction false} AtMostOneMore(items: seq<string>, col: nat, atStart: bool)
    requires items != []
    ensures |Greedy(items, col, atStart)| <= 1 + |Greedy(items[1..], |INDENT| + |items[0]|, false)|
  {
    if col + |items[0]| + 1 <= COLUMNS {
      OneLineMore(items[1..], col + (if atStart then 0 else 1) + |items[0]|, |INDENT| + |items[0]|);
    }
  }

  /** Among the layouts of `items` that fit, from any cursor, greedy uses the fewest lines. */
  lemma {:induction false} GreedyIsBest(items: seq<string>, col: nat, atStart: bool, layout: Layout)
    requires Fits(layout, col, atStart) && Flatten(layout) == items
    requires atStart && items != [] ==> col + |items[0]| != COLUMNS
    ensures |Greedy(items, col, atStart)| <= |layout|
    decreases items, 1
  {
    if items != [] {
      var x, rest := items[0], items[1..];
      if layout[0] == [] {
        assert Flatten(layout[1..]) == items;
        NextLineIsBest(items, layout[1..]);
        AtMostOneMore(items, col, atStart);
      } else {
        TakeOne(items, layout, col, atStart);
        GreedyIsBest(rest, col + (if atStart then 0 else 1) + |x|, false, [layout[0][1..]] + layout[1..]);
        EndColumnGrows(layout[0][1..], col + (if atStart then 0 else 1) + |x|, false);
      }
    }
  }

  lemma {:induction false} NextLineIsBest(items: seq<string>, layout: Layout)
    requires items != [] && FitsIndented(layout) && Flatten(layout) == items
    ensures |Greedy(items[1..], |INDENT| + |items[0]|, false)| <= |layout|
    decreases items, 0, |layout|
  {
    if layout[0] == [] {
      assert Flatten(layout[1..]) == items;
      NextLineIsBest(items, layout[1..]);
    } else {
      TakeOne(items, layout, |INDENT|, true);
      GreedyIsBest(items[1..], |INDENT| + |items[0]|, false, [layout[0][1..]] + layout[1..]);
    }
  }

  lemma {:induction false} TakeOne(items: seq<string>, layout: Layout, col: nat, atStart: bool)
    requires items != [] && layout != [] && layout[0] != [] && Flatten(layout) == items
    requires EndColumn(layout[0], col, atStart) <= COLUMNS && FitsIndented(layout[1..])
    ensures layout[0][0] == items[0]
    ensures var l: Layout := [layout[0][1..]] + layout[1..];
            Flatten(l) == items[1..] && |l| == |layout| &&
            Fits(l, col + (if atStart then 0 else 1) + |items[0]|, false)
  {
    var l: Layout := [layout[0][1..]] + layout[1..];
    assert l[1..] == layout[1..];
    assert layout[0] == [layout[0][0]] + layout[0][1..];
    assert Flatten(layout) == [layout[0][0]] + (layout[0][1..] + Flatten(layout[1..]));
    assert items[0] == layout[0][0];
    assert items[1..] == layout[0][1..] + Flatten(layout[1..]);
  }

  ghost predicate IsLayoutOf(layout: Layout, names: seq<string>) {
    Fits(layout, |HEADER|, true) && Flatten(layout) == Items(names)
  }

  /** When the first name has 51 characters it would just fill the line, and the loop breaks. That
      costs a line exactly when the other items take as many lines after it on the second line as
      they would take after a full first line. */
  ghost predicate WastesALine(names: seq<string>)
    requires names != []
  {
    && |names[0]| == 51
    && |Greedy(Items(names)[1..], |INDENT| + 52, false)| == |Greedy(Items(names)[1..], COLUMNS, false)|
  }

  /** The footer is a layout of the names, and some layout has fewer lines exactly when the footer
      wastes one. The only names left out are those no layout has room for. */
  lemma {:induction false} FooterIsBest(names: seq<string>)
    requires names != [] && forall i :: 0 <= i < |names| ==> |names[i]| <= 69
    ensures var g := Greedy(Items(names), |HEADER|, true);
            && IsLayoutOf(g, names)
            && ((exists layout :: IsLayoutOf(layout, names) && |layout| < |g|) <==> WastesALine(names))
  {
    var items := Items(names);
    var g := Greedy(items, |HEADER|, true);
    RoomForItems(names);
    GreedyFits(items, |HEADER|, true);
    GreedyKeepsItems(items, |HEADER|, true);
    ItemsAt(names, 0);
    assert |HEADER| == 28;
    if |names[0]| != 51 {
      forall layout | IsLayoutOf(layout, names) ensures |g| <= |layout| {
        GreedyIsBest(items, |HEADER|, true, layout);
      }
    } else {
      FullFirstLine(names);
    }
  }

  lemma {:induction false} FullFirstLine(names: seq<string>)
    requires names != [] && (forall i :: 0 <= i < |names| ==> |names[i]| <= 69) && |names[0]| == 51
    ensures var g := Greedy(Items(names), |HEADER|, true);
            (exists layout :: IsLayoutOf(layout, names) && |layout| < |g|) <==> WastesALine(names)
  {
    var items := Items(names);
    var g := Greedy(items, |HEADER|, true);
    ItemsAt(names, 0);
    var rest := items[1..];
    var full := Greedy(rest, COLUMNS, false);
    assert |items[0]| == 52 && |g| == 1 + |Greedy(rest, |INDENT| + 52, false)|;
    FurtherRightIsNoBetter(rest, |INDENT| + 52, COLUMNS);
    RoomForItems(names);
    FullLineIsALayout(names);
    forall layout | IsLayoutOf(layout, names) && |layout| < |g| ensures WastesALine(names) {
      NoBetterThanFull(items, layout);
    }
  }

  lemma {:induction false} FullLineIsALayout(names: seq<string>)
    requires names != [] && (forall i :: 0 <= i < |names| ==> |names[i]| <= 69) && |names[0]| == 51
    ensures var items := Items(names);
            items != [] && IsLayoutOf(OnLine(items[0], Greedy(items[1..], COLUMNS, false)), names)
  {
    var items := Items(names);
    ItemsAt(names, 0);
    RoomForItems(names);
    var full := Greedy(items[1..], COLUMNS, false);
    GreedyFits(items[1..], COLUMNS, false);
    StayFits(items[0], full, |HEADER|, true);
    GreedyKeepsItems(items[1..], COLUMNS, false);
    FlattenOnLine(items[0], full);
    assert items == [items[0]] + items[1..];
  }

  /** A layout that leaves the first line empty is no shorter than the loop's; one that does not has
      the other items after a full line. */
  lemma {:induction false} NoBetterThanFull(items: seq<string>, layout: Layout)
    requires items != [] && |items[0]| == 52 && Fits(layout, |HEADER|, true) && Flatten(layout) == items
    ensures || |layout| > |Greedy(items[1..], |INDENT| + 52, false)|
            || |layout| >= |Greedy(items[1..], COLUMNS, false)|
  {
    if layout[0] == [] {
      assert Flatten(layout[1..]) == items;
      NextLineIsBest(items, layout[1..]);
    } else {
      TakeOne(items, layout, |HEADER|, true);
      GreedyIsBest(items[1..], COLUMNS, false, [layout[0][1..]] + layout[1..]);
    }
  }

  /** At length 51 the loop breaks although the line would just fit: two lines where one is enough. */
  lemma {:induction false} LengthFiftyOneWastesALine(name: string)
    requires |name| == 51
    ensures Fits([Items([name])], |HEADER|, true) && |Greedy(Items([name]), |HEADER|, true)| == 2
  {
    var items := Items([name]);
    assert |HEADER| == 28 && items == [name + "}"] && items[1..] == [];
    var one: Layout := [items];
    assert one[1..] == [];
  }

  /** The names in `TOPICS`. */
  const TOPIC_NAMES: seq<string> :=
    ["harness", "bmc", "chc", "results", "soundness", "cargo", "kani", "flags", "install", "exit-codes", "limits",
     "quickstart"]

  lemma {:induction false} TopicNamesAreShort()
    ensures forall k {:trigger TOPIC_NAMES[k]} :: 0 <= k < |TOPIC_NAMES| ==> |TOPIC_NAMES[k]| <= 10
    ensures |TOPIC_NAMES| == 12 && TOPIC_NAMES[0] != TOPIC_NAMES[1]
  {
    assert |TOPIC_NAMES[0]| != |TOPIC_NAMES[1]|;
  }

  lemma {:induction false} ShortNamesWasteNothing(topics: seq<string>, self: string, layout: Layout)
    requires |topics| > 1 && topics[0] != topics[1] && forall k :: 0 <= k < |topics| ==> |topics[k]| <= 10
    requires IsLayoutOf(layout, Others(topics, self))
    ensures |Greedy(Items(Others(topics, self)), |HEADER|, true)| <= |layout|
  {
    var others := Others(topics, self);
    FilterMembers(n => n != self, topics);
    assert topics[0] in topics && topics[1] in topics;
    assert topics[0] in others || topics[1] in others;
    forall i | 0 <= i < |others| ensures |others[i]| <= 10 { assert others[i] in topics; }
    FooterIsBest(others);
  }

  /** The names the program has are too short to waste a line: no footer it prints could be shorter. */
  lemma {:induction false} ShippedFooterIsBest(topics: seq<string>, self: string, layout: Layout)
    requires topics == TOPIC_NAMES && IsLayoutOf(layout, Others(topics, self))
    ensures |Greedy(Items(Others(topics, self)), |HEADER|, true)| <= |layout|
  {
    TopicNamesAreShort();
    ShortNamesWasteNothing(topics, self, layout);
  }
}
