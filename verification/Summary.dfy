/** `src/frontend/summary.rs`: the verdict table printed for `--summary`. The artifact's text is
    taken as already cut into one entry per harness, each with its optional fields. */
module Summary {
  import opened Args
  import opened Ordering
  import opened Wrappers

  // ---------------------------------------------------------------------
  // Taking `--summary` out of the command line
  // ---------------------------------------------------------------------

  datatype Request = Request(wanted: bool, existing: Option<Os>, rest: seq<Os>)

  const SUMMARY_FLAG := "--summary"
  const ARTIFACT_FLAG := "--proof-summary-json"

  predicate IsFlag(a: Os, flag: string) { a.Text? && a.s == flag }

  function JoinedValue(a: Os): Option<Os> {
    if a.Text? && ARTIFACT_FLAG + "=" <= a.s then Some(Text(a.s[|ARTIFACT_FLAG| + 1..])) else None
  }

  /** The artifact flag owns the token after it; a `--summary` anywhere else is taken out; the last
      artifact path given wins. */
  function Taken(argv: seq<Os>): Request {
    if argv == [] then Request(false, None, [])
    else if IsFlag(argv[0], SUMMARY_FLAG) then Taken(argv[1..]).(wanted := true)
    else if IsFlag(argv[0], ARTIFACT_FLAG) && |argv| > 1 then
      var later := Taken(argv[2..]);
      Request(later.wanted, Later(Some(argv[1]), later.existing), argv[..2] + later.rest)
    else
      var later := Taken(argv[1..]);
      Request(later.wanted, Later(JoinedValue(argv[0]), later.existing), [argv[0]] + later.rest)
  }

  function Later(first: Option<Os>, second: Option<Os>): Option<Os> {
    if second.Some? then second else first
  }

  lemma {:induction false} TakenAt(argv: seq<Os>, i: nat)
    requires i < |argv|
    ensures var a, later := argv[i], Taken(argv[i+1..]);
            IsFlag(a, SUMMARY_FLAG) ==> Taken(argv[i..]) == later.(wanted := true)
    ensures var a, later := argv[i], Taken(argv[i+1..]);
            !IsFlag(a, SUMMARY_FLAG) && !(IsFlag(a, ARTIFACT_FLAG) && i + 1 < |argv|) ==>
              Taken(argv[i..]) == Request(later.wanted, Later(JoinedValue(a), later.existing), [a] + later.rest)
  {
    assert argv[i..][1..] == argv[i+1..];
  }

  lemma {:induction false} TakenPair(argv: seq<Os>, i: nat)
    requires i + 1 < |argv| && IsFlag(argv[i], ARTIFACT_FLAG)
    ensures var later := Taken(argv[i+2..]);
            Taken(argv[i..]) ==
            Request(later.wanted, Later(Some(argv[i+1]), later.existing), [argv[i]] + [argv[i+1]] + later.rest)
  {
    assert argv[i..][2..] == argv[i+2..] && argv[i..][..2] == [argv[i]] + [argv[i+1]];
  }

  /** What one trip of the loop takes from the command line at `idx`. */
  method TakeArm(argv: seq<Os>, idx: nat) returns (next: nat, wanted: bool, existing: Option<Os>, kept: seq<Os>)
    requires idx < |argv|
    ensures idx < next <= |argv|
    ensures var later := Taken(argv[next..]);
            Taken(argv[idx..]) == Request(wanted || later.wanted, Later(existing, later.existing), kept + later.rest)
  {
    TakenAt(argv, idx);
    var arg := argv[idx];
    next, wanted, existing, kept := idx + 1, false, None, [];
    if IsFlag(arg, SUMMARY_FLAG) {
      wanted := true;
      assert [] + Taken(argv[next..]).rest == Taken(argv[next..]).rest;
    } else if IsFlag(arg, ARTIFACT_FLAG) && next < |argv| {
      TakenPair(argv, idx);
      existing, kept, next := Some(argv[next]), [arg] + [argv[next]], next + 1;
    } else {
      existing, kept := JoinedValue(arg), [arg];
    }
  }

  lemma {:induction false} Gather(argv: seq<Os>, done: Request, arm: Request, i: nat, j: nat)
    requires i <= |argv| && j <= |argv|
    requires Taken(argv) == Joined(done, Taken(argv[i..])) && Taken(argv[i..]) == Joined(arm, Taken(argv[j..]))
    ensures Taken(argv) == Joined(Joined(done, arm), Taken(argv[j..]))
  {
    var later := Taken(argv[j..]);
    assert done.rest + (arm.rest + later.rest) == done.rest + arm.rest + later.rest;
  }

  function Joined(first: Request, second: Request): Request {
    Request(first.wanted || second.wanted, Later(first.existing, second.existing), first.rest + second.rest)
  }

  /** `take_summary_flag`. */
  method TakeSummaryFlag(argv: seq<Os>) returns (r: Request)
    ensures r == Taken(argv)
  {
    r := Request(false, None, []);
    var idx: nat := 0;
    assert argv[0..] == argv;
    assert [] + Taken(argv).rest == Taken(argv).rest;
    while idx < |argv|
      invariant idx <= |argv|
      invariant Taken(argv) == Joined(r, Taken(argv[idx..]))
    {
      var next, wanted, existing, kept := TakeArm(argv, idx);
      Gather(argv, r, Request(wanted, existing, kept), idx, next);
      r := Joined(r, Request(wanted, existing, kept));
      idx := next;
    }
    assert r.rest + [] == r.rest;
  }

  /** Nothing is left to take from what is passed on, and the engine sees the same artifact path. */
  lemma {:induction false} TakenOnce(argv: seq<Os>)
    ensures var r := Taken(argv); Taken(r.rest) == Request(false, r.existing, r.rest)
    decreases |argv|
  {
    if argv == [] {
    } else if IsFlag(argv[0], SUMMARY_FLAG) {
      TakenOnce(argv[1..]);
    } else if IsFlag(argv[0], ARTIFACT_FLAG) && |argv| > 1 {
      TakenOnce(argv[2..]);
      var later := Taken(argv[2..]).rest;
      assert (argv[..2] + later)[2..] == later && (argv[..2] + later)[..2] == argv[..2];
    } else {
      TakenOnce(argv[1..]);
      var later := Taken(argv[1..]).rest;
      assert ([argv[0]] + later)[1..] == later;
      if IsFlag(argv[0], ARTIFACT_FLAG) { assert argv[1..] == []; }
    }
  }

  /** Without the flag the command line is passed on untouched. */
  lemma {:induction false} NothingTaken(argv: seq<Os>)
    requires forall i :: 0 <= i < |argv| ==> !IsFlag(argv[i], SUMMARY_FLAG)
    ensures Taken(argv).rest == argv && !Taken(argv).wanted
    decreases |argv|
  {
    if argv == [] {
    } else if IsFlag(argv[0], ARTIFACT_FLAG) && |argv| > 1 {
      NothingTaken(argv[2..]);
      assert argv[..2] + argv[2..] == argv;
    } else {
      NothingTaken(argv[1..]);
      assert [argv[0]] + argv[1..] == argv;
    }
  }

  // ---------------------------------------------------------------------
  // Rows
  // ---------------------------------------------------------------------

  datatype Check = Check(description: Option<string>, file: Option<string>, line: Option<string>,
    column: Option<string>)

  datatype Entry = Entry(
    harness: Option<string>, status: Option<string>, effective: Option<bool>,
    verdict: Option<string>, reason: Option<string>, checks: seq<Check>)

  datatype Label = Proved | Vacuous | Undecided | NoChecks | Uncertified | Failed

  datatype Row = Row(harness: string, proved: bool, mark: Label, detail: seq<string>)

  const MAX_DETAIL_ROWS: nat := 4

  function Word(mark: Label): string {
    match mark
    case Proved => "proved"
    case Vacuous => "VACUOUS"
    case Undecided => "UNDECIDED"
    case NoChecks => "NO-CHECKS"
    case Uncertified => "UNCERTIFIED"
    case Failed => "FAILED"
  }

  /** `row_label`: a token this build has never heard of reads as a failure. */
  function RowLabel(verdict: Option<string>, proved: bool): Label {
    if proved then Proved
    else if verdict == Some("vacuous") then Vacuous
    else if verdict == Some("inconclusive_undecided") then Undecided
    else if verdict == Some("inconclusive_no_checks") then NoChecks
    else if verdict == Some("uncertified_counterexample") then Uncertified
    else Failed
  }

  function Position(c: Check): Option<string> {
    if c.file.None? then None
    else if c.line.None? then c.file
    else if c.column.None? then Some(c.file.value + ":" + c.line.value)
    else Some(c.file.value + ":" + c.line.value + ":" + c.column.value)
  }

  function Describe(c: Check): string
    requires c.description.Some?
  {
    if Position(c).Some? then c.description.value + "  (" + Position(c).value + ")" else c.description.value
  }

  /** One line for each check whose description can be read. */
  function Described(checks: seq<Check>): seq<string> {
    if checks == [] then []
    else if checks[0].description.None? then Described(checks[1..])
    else [Describe(checks[0])] + Described(checks[1..])
  }

  lemma {:induction false} DescribedAppend(s: seq<Check>, t: seq<Check>)
    ensures Described(s + t) == Described(s) + Described(t)
  {
    if s == [] {
      assert s + t == t;
    } else {
      assert (s + t)[1..] == s[1..] + t;
      DescribedAppend(s[1..], t);
    }
  }

  function Elided(all: seq<string>): seq<string> {
    if |all| <= MAX_DETAIL_ROWS then all else all[..MAX_DETAIL_ROWS] + ["..."]
  }

  /** The collecting loop: it stops one past what will be shown. */
  method CollectDetail(checks: seq<Check>) returns (detail: seq<string>)
    ensures detail == Elided(Described(checks))
  {
    detail := [];
    var i := 0;
    while i < |checks|
      invariant 0 <= i <= |checks|
      invariant detail == Described(checks[..i]) && |detail| <= MAX_DETAIL_ROWS
    {
      assert checks[..i+1] == checks[..i] + [checks[i]];
      DescribedAppend(checks[..i], [checks[i]]);
      var check := checks[i];
      i := i + 1;
      if check.description.None? { continue; }
      detail := detail + [Describe(check)];
      if |detail| > MAX_DETAIL_ROWS { break; }
    }
    DescribedAppend(checks[..i], checks[i..]);
    assert checks[..i] + checks[i..] == checks;
    if |detail| > MAX_DETAIL_ROWS {
      detail := detail[..MAX_DETAIL_ROWS] + ["..."];
    }
  }

  /** The sentence shown above the checks of a row that is not a plain failure. */
  function Lead(mark: Label, reason: Option<string>): seq<string> {
    if mark != Failed && reason.Some? then [reason.value] else []
  }

  function Fallback(reason: Option<string>, status: string): string {
    if reason.Some? then reason.value
    else if status == "failure" then "failed; run without --summary for the checks"
    else status
  }

  function DetailOf(mark: Label, reason: Option<string>, status: string, checks: seq<Check>): seq<string> {
    if mark == Proved then []
    else
      var lines := Lead(mark, reason) + Elided(Described(checks));
      if lines == [] then [Fallback(reason, status)] else lines
  }

  function RowOf(e: Entry): Option<Row> {
    if e.harness.None? || e.status.None? then None
    else
      var proved := if e.effective.Some? then e.effective.value else e.status.value == "success";
      var mark := RowLabel(e.verdict, proved);
      Some(Row(e.harness.value, proved, mark, DetailOf(mark, e.reason, e.status.value, e.checks)))
  }

  predicate Readable(e: Entry) { RowOf(e).Some? }

  function Parsed(entries: seq<Entry>): Option<seq<Row>> {
    if entries == [] then Some([])
    else
      var first, rest := RowOf(entries[0]), Parsed(entries[1..]);
      if first.Some? && rest.Some? then Some([first.value] + rest.value) else None
  }

  lemma {:induction false} ParsedMeaning(entries: seq<Entry>)
    ensures Parsed(entries).Some? <==> forall i :: 0 <= i < |entries| ==> Readable(entries[i])
    ensures Parsed(entries).Some? ==>
              && |Parsed(entries).value| == |entries|
              && forall i :: 0 <= i < |entries| ==> RowOf(entries[i]) == Some(Parsed(entries).value[i])
  {
    if entries != [] {
      ParsedMeaning(entries[1..]);
      assert entries == [entries[0]] + entries[1..];
      if exists i :: 0 <= i < |entries| && !Readable(entries[i]) {
        var i :| 0 <= i < |entries| && !Readable(entries[i]);
        if i > 0 { assert !Readable(entries[1..][i-1]); }
      } else {
        forall i | 0 <= i < |entries[1..]| ensures Readable(entries[1..][i]) { assert Readable(entries[i+1]); }
      }
    }
  }

  method ReadRow(e: Entry) returns (r: Option<Row>)
    ensures r == RowOf(e)
  {
    if e.harness.None? || e.status.None? { return None; }
    var proved := if e.effective.Some? then e.effective.value else e.status.value == "success";
    var mark := RowLabel(e.verdict, proved);
    var detail := [];
    if !proved {
      detail := CollectDetail(e.checks);
      assert [] + detail == detail;
      if mark != Failed && e.reason.Some? { detail := [e.reason.value] + detail; }
      if detail == [] { detail := [Fallback(e.reason, e.status.value)]; }
    }
    return Some(Row(e.harness.value, proved, mark, detail));
  }

  /** `parse`: one unreadable entry and there is no table at all. */
  method Parse(entries: seq<Entry>) returns (r: Option<seq<Row>>)
    ensures r == Parsed(entries)
  {
    var rows: seq<Row> := [];
    var i := 0;
    ParsedMeaning(entries);
    while i < |entries|
      invariant 0 <= i <= |entries|
      invariant |rows| == i && forall k :: 0 <= k < i ==> RowOf(entries[k]) == Some(rows[k])
    {
      var row := ReadRow(entries[i]);
      if row.None? {
        assert !Readable(entries[i]);
        return None;
      }
      rows := rows + [row.value];
      i := i + 1;
    }
    assert forall k :: 0 <= k < |entries| ==> Readable(entries[k]);
    assert Parsed(entries).value == rows;
    return Some(rows);
  }

  /** A row that is not proved always says something, and shows the first checks in order, four at
      most, with an ellipsis exactly when there are more; a proved row says nothing. */
  lemma {:induction false} DetailMeaning(e: Entry)
    requires Readable(e)
    ensures var r, all := RowOf(e).value, Described(e.checks);
            var lead := |Lead(r.mark, e.reason)|;
            && (r.detail == [] <==> r.proved)
            && (!r.proved ==>
                  && (|r.detail| > lead + MAX_DETAIL_ROWS <==> |all| > MAX_DETAIL_ROWS)
                  && (|all| > MAX_DETAIL_ROWS ==> r.detail[|r.detail| - 1] == "...")
                  && (|all| > 0 ==> |r.detail| <= lead + MAX_DETAIL_ROWS + 1)
                  && (0 < |all| <= MAX_DETAIL_ROWS ==> |r.detail| == lead + |all|)
                  && forall k :: 0 <= k < |all| && k < MAX_DETAIL_ROWS ==> r.detail[lead + k] == all[k])
  {
    var r, all := RowOf(e).value, Described(e.checks);
    var shown := Elided(all);
    if !r.proved {
      assert |all| > 0 ==> shown != [];
    }
  }

  // ---------------------------------------------------------------------
  // The table
  // ---------------------------------------------------------------------

  /** The `sort_by` comparison: not proved first, then by name. */
  predicate RowLe(a: Row, b: Row) {
    (!a.proved && b.proved) || (a.proved == b.proved && NameLe(a, b))
  }

  predicate NameLe(a: Row, b: Row) { StrLe(a.harness, b.harness) }

  predicate IsProved(r: Row) { r.proved }
  predicate NotProved(r: Row) { !r.proved }

  lemma {:induction false} NamesAreOrdered()
    ensures TotalPreorder(NameLe)
  {
    forall x: Row, y: Row ensures NameLe(x, y) || NameLe(y, x) { StrLeTotal(x.harness, y.harness); }
    forall x: Row, y: Row, z: Row | NameLe(x, y) && NameLe(y, z) ensures NameLe(x, z) {
      StrLeTransitive(x.harness, y.harness, z.harness);
    }
  }

  lemma {:induction false} RowsAreOrdered()
    ensures TotalPreorder(RowLe)
  {
    NamesAreOrdered();
  }

  function Max(a: nat, b: nat): nat { if a >= b then a else b }

  function Width(rows: seq<Row>): (w: nat)
    ensures w >= 6
    ensures forall i :: 0 <= i < |rows| ==> |Word(rows[i].mark)| <= w
  {
    if rows == [] then 6 else Max(|Word(rows[0].mark)|, Width(rows[1..]))
  }

  function Spaces(n: nat): string { seq(n, _ => ' ') }

  function RowLine(width: nat, r: Row): string {
    var word := Word(r.mark);
    "  " + word + (if |word| < width then Spaces(width - |word|) else "") + "  " + r.harness
  }

  function Indented(indent: string, lines: seq<string>): seq<string> {
    if lines == [] then [] else [indent + lines[0]] + Indented(indent, lines[1..])
  }

  /** A row's line, and its detail when it is not proved. */
  function RowText(width: nat, r: Row): seq<string> {
    [RowLine(width, r)] + (if r.proved then [] else Indented(Spaces(width + 4), r.detail))
  }

  function RowLines(width: nat, rows: seq<Row>): seq<string> {
    if rows == [] then []
    else RowText(width, rows[0]) + RowLines(width, rows[1..])
  }

  datatype Table = Table(total: nat, proved: nat, failed: nat, tally: seq<(nat, string)>, body: seq<string>)

  const TALLIED: seq<(Label, string)> :=
    [(Vacuous, "vacuous"), (Undecided, "undecided"), (NoChecks, "no checks"), (Uncertified, "uncertified")]

  function Labelled(mark: Label, rows: seq<Row>): nat { Count((r: Row) => r.mark == mark, rows) }

  function Tally(marks: seq<(Label, string)>, rows: seq<Row>): seq<(nat, string)> {
    if marks == [] then []
    else
      var n := Labelled(marks[0].0, rows);
      (if n > 0 then [(n, marks[0].1)] else []) + Tally(marks[1..], rows)
  }

  /** The table as a reader wants it: each group sorted by name on its own. */
  function Rendered(rows: seq<Row>): Option<Table> {
    if rows == [] then None
    else
      var width := Width(rows);
      var bad, good := Filter(NotProved, rows), Filter(IsProved, rows);
      Some(Table(|rows|, |good|, |bad|, Tally(TALLIED, rows),
                 RowLines(width, StableSort(NameLe, bad))
                 + (if bad != [] && good != [] then [""] else [])
                 + RowLines(width, StableSort(NameLe, good))))
  }

  lemma {:induction false} InsertAgrees<T>(le: (T, T) -> bool, other: (T, T) -> bool, x: T, s: seq<T>)
    requires forall i :: 0 <= i < |s| ==> le(x, s[i]) == other(x, s[i])
    ensures Insert(le, x, s) == Insert(other, x, s)
  {
    if s != [] { InsertAgrees(le, other, x, s[1..]); }
  }

  /** Sorting only asks how the elements present compare. */
  lemma {:induction false} SortAgrees<T>(le: (T, T) -> bool, other: (T, T) -> bool, s: seq<T>)
    requires forall x, y :: x in s && y in s ==> le(x, y) == other(x, y)
    ensures StableSort(le, s) == StableSort(other, s)
  {
    if s != [] {
      SortAgrees(le, other, s[1..]);
      var rest := StableSort(le, s[1..]);
      SortContents(le, s[1..]);
      forall i | 0 <= i < |rest| ensures le(s[0], rest[i]) == other(s[0], rest[i]) {
        assert rest[i] in multiset(rest);
        assert rest[i] in s[1..];
      }
      InsertAgrees(le, other, s[0], rest);
    }
  }

  /** Either group of the sorted rows is that group sorted by name. */
  lemma {:induction false} GroupSorted(rows: seq<Row>, keep: Row -> bool)
    requires keep == NotProved || keep == IsProved
    ensures Filter(keep, StableSort(RowLe, rows)) == StableSort(NameLe, Filter(keep, rows))
  {
    RowsAreOrdered();
    FilterThenSort(RowLe, keep, rows);
    FilterMembers(keep, rows);
    SortAgrees(RowLe, NameLe, Filter(keep, rows));
  }

  lemma {:induction false} GroupsSplit(rows: seq<Row>)
    ensures |Filter(NotProved, rows)| == |rows| - |Filter(IsProved, rows)|
  {
    if rows != [] { GroupsSplit(rows[1..]); }
  }

  lemma {:induction false} WidthOfPermuted(rows: seq<Row>, other: seq<Row>)
    requires multiset(rows) == multiset(other)
    ensures Width(rows) == Width(other)
  {
    WidthAttained(rows);
    WidthAttained(other);
    if Width(rows) > 6 {
      var r :| r in rows && |Word(r.mark)| == Width(rows);
      assert r in multiset(other);
      var j :| 0 <= j < |other| && other[j] == r;
    }
    if Width(other) > 6 {
      var r :| r in other && |Word(r.mark)| == Width(other);
      assert r in multiset(rows);
      var j :| 0 <= j < |rows| && rows[j] == r;
    }
  }

  lemma {:induction false} WidthAttained(rows: seq<Row>)
    ensures Width(rows) > 6 ==> exists r :: r in rows && |Word(r.mark)| == Width(rows)
  {
    if rows != [] {
      WidthAttained(rows[1..]);
      assert rows[0] in rows;
      if Width(rows) == Width(rows[1..]) && Width(rows) > 6 {
        var r :| r in rows[1..] && |Word(r.mark)| == Width(rows[1..]);
        assert r in rows;
      }
    }
  }

  /** `render`: one sort, then the two groups picked out of the sorted rows. */
  method Render(rows: seq<Row>) returns (t: Option<Table>)
    ensures t == Rendered(rows)
  {
    if rows == [] { return None; }
    var proved := Count(IsProved, rows);
    FilterMembers(IsProved, rows);
    GroupsSplit(rows);
    var failed := |rows| - proved;
    var tally := BreakDown(rows);
    var sorted := StableSort(RowLe, rows);
    SortContents(RowLe, rows);
    WidthOfPermuted(rows, sorted);
    var width := Width(sorted);
    GroupSorted(rows, NotProved);
    GroupSorted(rows, IsProved);
    var body := PrintGroup(width, sorted, NotProved, []);
    assert [] + RowLines(width, Filter(NotProved, sorted)) == RowLines(width, Filter(NotProved, sorted));
    assert body + [] == body;
    if failed > 0 && proved > 0 { body := body + [""]; }
    body := PrintGroup(width, sorted, IsProved, body);
    return Some(Table(|rows|, proved, failed, tally, body));
  }

  method BreakDown(rows: seq<Row>) returns (tally: seq<(nat, string)>)
    ensures tally == Tally(TALLIED, rows)
  {
    tally := [];
    var i := 0;
    while i < |TALLIED|
      invariant 0 <= i <= |TALLIED|
      invariant Tally(TALLIED, rows) == tally + Tally(TALLIED[i..], rows)
    {
      var (mark, word) := TALLIED[i];
      assert TALLIED[i..][1..] == TALLIED[i+1..];
      var count := Labelled(mark, rows);
      if count > 0 { tally := tally + [(count, word)]; }
      i := i + 1;
    }
  }

  /** The printing loop, run once for each group. */
  method PrintGroup(width: nat, rows: seq<Row>, keep: Row -> bool, before: seq<string>) returns (out: seq<string>)
    ensures out == before + RowLines(width, Filter(keep, rows))
  {
    out := before;
    var i := 0;
    assert rows[0..] == rows;
    while i < |rows|
      invariant 0 <= i <= |rows|
      invariant before + RowLines(width, Filter(keep, rows)) == out + RowLines(width, Filter(keep, rows[i..]))
    {
      var row, tail := rows[i], rows[i+1..];
      assert rows[i..][0] == row && rows[i..][1..] == tail;
      if keep(row) {
        var printed, kept := RowText(width, row), Filter(keep, tail);
        assert ([row] + kept)[1..] == kept;
        assert out + (printed + RowLines(width, kept)) == out + printed + RowLines(width, kept);
        out := out + printed;
      }
      i := i + 1;
    }
  }

  // ---------------------------------------------------------------------
  // What the table promises
  // ---------------------------------------------------------------------

  lemma {:induction false} TallyOfPermuted(marks: seq<(Label, string)>, rows: seq<Row>, other: seq<Row>)
    requires multiset(rows) == multiset(other)
    ensures Tally(marks, rows) == Tally(marks, other)
  {
    if marks != [] {
      CountOfPermuted((r: Row) => r.mark == marks[0].0, rows, other);
      TallyOfPermuted(marks[1..], rows, other);
    }
  }

  lemma {:induction false} FilterOfPermuted(keep: Row -> bool, rows: seq<Row>, other: seq<Row>)
    requires keep == NotProved || keep == IsProved
    requires multiset(rows) == multiset(other) && Separates(RowLe, rows)
    ensures StableSort(NameLe, Filter(keep, rows)) == StableSort(NameLe, Filter(keep, other))
  {
    RowsAreOrdered();
    SortForgetsOrder(RowLe, rows, other);
    GroupSorted(rows, keep);
    GroupSorted(other, keep);
  }

  /** When no two rows tie, the table does not depend on the order they arrived in. */
  lemma {:induction false} TableForgetsOrder(rows: seq<Row>, other: seq<Row>)
    requires multiset(rows) == multiset(other) && Separates(RowLe, rows)
    ensures Rendered(rows) == Rendered(other)
  {
    assert |multiset(rows)| == |multiset(other)|;
    WidthOfPermuted(rows, other);
    TallyOfPermuted(TALLIED, rows, other);
    FilterOfPermuted(NotProved, rows, other);
    FilterOfPermuted(IsProved, rows, other);
    SortContents(NameLe, Filter(NotProved, rows));
    SortContents(NameLe, Filter(NotProved, other));
    SortContents(NameLe, Filter(IsProved, rows));
    SortContents(NameLe, Filter(IsProved, other));
  }

  ghost predicate DistinctlyNamed(entries: seq<Entry>) {
    forall i, j :: 0 <= i < j < |entries| ==> entries[i].harness != entries[j].harness
  }

  lemma {:induction false} RowsOfPermuted(entries: seq<Entry>, other: seq<Entry>, rows: seq<Row>)
    requires multiset(entries) == multiset(other) && Parsed(entries) == Some(rows)
    ensures Parsed(other).Some? && multiset(rows) == multiset(Parsed(other).value)
    decreases |entries|
  {
    ParsedMeaning(entries);
    ParsedMeaning(other);
    forall i | 0 <= i < |other| ensures Readable(other[i]) {
      assert other[i] in multiset(entries);
      var k :| 0 <= k < |entries| && entries[k] == other[i];
      assert Readable(entries[k]);
    }
    var image := (e: Entry) => if RowOf(e).Some? then RowOf(e).value else Row("", false, Failed, []);
    MapOfPermuted(image, entries, other);
    assert Map(image, entries) == rows && Map(image, other) == Parsed(other).value;
  }

  /** Two artifacts listing the same distinctly named harnesses in any order render the same
      table, or neither renders one. */
  lemma {:induction false} ArtifactOrderIsForgotten(entries: seq<Entry>, other: seq<Entry>)
    requires multiset(entries) == multiset(other) && DistinctlyNamed(entries)
    ensures Parsed(entries).Some? <==> Parsed(other).Some?
    ensures Parsed(entries).Some? ==> Rendered(Parsed(entries).value) == Rendered(Parsed(other).value)
  {
    if Parsed(other).Some? { RowsOfPermuted(other, entries, Parsed(other).value); }
    if Parsed(entries).Some? {
      var rows := Parsed(entries).value;
      ParsedMeaning(entries);
      RowsOfPermuted(entries, other, rows);
      forall x, y | x in rows && y in rows && RowLe(x, y) && RowLe(y, x) ensures x == y {
        var i :| 0 <= i < |rows| && rows[i] == x;
        var j :| 0 <= j < |rows| && rows[j] == y;
        StrLeTotal(x.harness, y.harness);
        assert RowOf(entries[i]) == Some(x) && RowOf(entries[j]) == Some(y);
        assert entries[i].harness == entries[j].harness;
      }
      TableForgetsOrder(rows, Parsed(other).value);
    }
  }

  /** The sorted rows are the same for every arrival order exactly when no two rows tie. */
  lemma {:induction false} OrderForgottenExactly(rows: seq<Row>)
    ensures (forall other :: multiset(other) == multiset(rows) ==> StableSort(RowLe, other) == StableSort(RowLe, rows))
            <==> Separates(RowLe, rows)
  {
    RowsAreOrdered();
    if Separates(RowLe, rows) {
      forall other | multiset(other) == multiset(rows)
        ensures StableSort(RowLe, other) == StableSort(RowLe, rows)
      {
        SortForgetsOrder(RowLe, rows, other);
      }
    } else {
      TieIsSeen(rows);
    }
  }

  lemma {:induction false} TieIsSeen(rows: seq<Row>)
    requires !Separates(RowLe, rows)
    ensures exists other :: multiset(other) == multiset(rows) && StableSort(RowLe, other) != StableSort(RowLe, rows)
  {
    var x, y :| x in rows && y in rows && RowLe(x, y) && RowLe(y, x) && x != y;
    var first, second := Fronted(rows, x), Fronted(rows, y);
    TiesKeepOrder(first);
    TiesKeepOrder(second);
    SameTies(x, y, StableSort(RowLe, first));
    if StableSort(RowLe, first) == StableSort(RowLe, rows) {
      assert StableSort(RowLe, second) != StableSort(RowLe, rows);
    }
  }

  lemma {:induction false} SameTies(x: Row, y: Row, rows: seq<Row>)
    requires Ties(x, y)
    ensures Filter((r: Row) => Ties(x, r), rows) == Filter((r: Row) => Ties(y, r), rows)
  {
    if rows != [] {
      SameTies(x, y, rows[1..]);
      StrLeTotal(x.harness, y.harness);
    }
  }

  /** The same rows with `x` moved to the front. */
  ghost function Fronted(rows: seq<Row>, x: Row): (r: seq<Row>)
    requires x in rows
    ensures r != [] && r[0] == x && multiset(r) == multiset(rows)
  {
    var i :| 0 <= i < |rows| && rows[i] == x;
    assert rows == rows[..i] + ([x] + rows[i+1..]);
    [x] + (rows[..i] + rows[i+1..])
  }

  predicate Ties(a: Row, b: Row) { RowLe(a, b) && RowLe(b, a) }

  lemma {:induction false} TiesKeepOrder(rows: seq<Row>)
    requires rows != []
    ensures var kept := Filter((r: Row) => Ties(rows[0], r), StableSort(RowLe, rows));
            kept != [] && kept[0] == rows[0]
  {
    var p := (r: Row) => Ties(rows[0], r);
    RowsAreOrdered();
    FilterThenSort(RowLe, p, rows);
    FilterMembers(p, rows);
    var kept := Filter(p, rows);
    forall i, j | 0 <= i < j < |kept| ensures RowLe(kept[i], kept[j]) {
      assert kept[i] in kept && kept[j] in kept;
      assert RowLe(kept[i], rows[0]) && RowLe(rows[0], kept[j]);
    }
    SortOfSorted(RowLe, kept);
    StrLeTotal(rows[0].harness, rows[0].harness);
  }

  lemma {:induction false} LabelsAddUp(rows: seq<Row>)
    requires forall i :: 0 <= i < |rows| ==> (rows[i].proved <==> rows[i].mark == Proved)
    ensures Count(IsProved, rows) + Count(NotProved, rows) == |rows|
    ensures Count(NotProved, rows) ==
            Labelled(Vacuous, rows) + Labelled(Undecided, rows) + Labelled(NoChecks, rows)
            + Labelled(Uncertified, rows) + Labelled(Failed, rows)
  {
    if rows != [] {
      LabelsAddUp(rows[1..]);
      assert rows[0].proved <==> rows[0].mark == Proved;
    }
  }

  /** The header of any artifact adds up: proved and failed make its entries, and the tallies and the
      plain failures make the failed. */
  lemma {:induction false} HeaderAddsUp(entries: seq<Entry>)
    requires Parsed(entries).Some?
    ensures var rows := Parsed(entries).value;
            && Count(IsProved, rows) + Count(NotProved, rows) == |entries|
            && Count(NotProved, rows) ==
               Labelled(Vacuous, rows) + Labelled(Undecided, rows) + Labelled(NoChecks, rows)
               + Labelled(Uncertified, rows) + Labelled(Failed, rows)
  {
    var rows := Parsed(entries).value;
    ParsedMeaning(entries);
    forall i | 0 <= i < |rows| ensures rows[i].proved <==> rows[i].mark == Proved {
      assert RowOf(entries[i]) == Some(rows[i]);
    }
    LabelsAddUp(rows);
  }

  /** Every name starts in the same column, and so does every line of detail. */
  lemma {:induction false} ColumnsLineUp(rows: seq<Row>, i: nat)
    requires i < |rows|
    ensures var w := Width(rows);
            && |RowLine(w, rows[i])| == w + 4 + |rows[i].harness|
            && RowLine(w, rows[i])[w + 4..] == rows[i].harness
            && forall k :: 0 <= k < |rows[i].detail| ==>
                 && |Indented(Spaces(w + 4), rows[i].detail)| == |rows[i].detail|
                 && Indented(Spaces(w + 4), rows[i].detail)[k] == Spaces(w + 4) + rows[i].detail[k]
  {
    var w, word := Width(rows), Word(rows[i].mark);
    var pad := if |word| < w then Spaces(w - |word|) else "";
    LastPart("  ", word + pad, "  ", rows[i].harness);
    assert RowLine(w, rows[i]) == "  " + word + pad + "  " + rows[i].harness;
    IndentedAt(Spaces(w + 4), rows[i].detail);
  }

  lemma {:induction false} LastPart(a: string, b: string, c: string, d: string)
    ensures var n := |a| + |b| + |c|; |a + b + c + d| == n + |d| && (a + b + c + d)[n..] == d
  {
  }

  lemma {:induction false} IndentedAt(indent: string, lines: seq<string>)
    ensures |Indented(indent, lines)| == |lines|
    ensures forall k :: 0 <= k < |lines| ==> Indented(indent, lines)[k] == indent + lines[k]
  {
    if lines != [] { IndentedAt(indent, lines[1..]); }
  }
}
