/** What the summary table shows, in the words of the artifact and of the table itself. */
module SummaryMeaning {
  import opened Ordering
  import opened Summary
  import opened Wrappers

  // ---------------------------------------------------------------------
  // One row
  // ---------------------------------------------------------------------

  /** What a row says of an entry, in the words of the artifact and of the table: it is proved when the
      entry says so, or, without a word on that, when its status is `success`; and its first column is
      the word for the verdict. */
  lemma {:induction false} RowMeaning(e: Entry)
    ensures Readable(e) <==> e.harness.Some? && e.status.Some?
    ensures Readable(e) ==>
              var r := RowOf(e).value;
              && Some(r.harness) == e.harness
              && (r.proved <==> e.effective == Some(true) || (e.effective == None && e.status == Some("success")))
              && Word(r.mark) ==
                 if r.proved then "proved" else if e.verdict.None? then "FAILED" else FailureWord(e.verdict.value)
  {
    if Readable(e) { LabelWord(e.verdict, RowOf(e).value.proved); }
  }

  lemma {:induction false} LabelWord(verdict: Option<string>, proved: bool)
    ensures Word(RowLabel(verdict, proved)) ==
            if proved then "proved" else if verdict.None? then "FAILED" else FailureWord(verdict.value)
  {
  }

  function FailureWord(verdict: string): string {
    if verdict == "vacuous" then "VACUOUS"
    else if verdict == "inconclusive_undecided" then "UNDECIDED"
    else if verdict == "inconclusive_no_checks" then "NO-CHECKS"
    else if verdict == "uncertified_counterexample" then "UNCERTIFIED"
    else "FAILED"
  }

  /** The detail of a row that is not proved starts with the artifact's sentence, unless the row is a
      plain failure; with nothing else to say, it is that sentence, or a fixed one for a failure, or the
      status. */
  lemma {:induction false} LeadMeaning(e: Entry)
    requires Readable(e) && !RowOf(e).value.proved
    ensures var r := RowOf(e).value;
            && (e.reason.Some? && Word(r.mark) != "FAILED" ==> r.detail[0] == e.reason.value)
            && ((e.reason.None? || Word(r.mark) == "FAILED") && Described(e.checks) != [] ==>
                  r.detail[0] == Described(e.checks)[0])
            && (Described(e.checks) == [] ==>
                  r.detail == [if e.reason.Some? then e.reason.value
                               else if e.status.value == "failure" then "failed; run without --summary for the checks"
                               else e.status.value])
  {
    var r := RowOf(e).value;
    PlainFailure(r.mark);
    assert Described(e.checks) != [] ==> Elided(Described(e.checks))[0] == Described(e.checks)[0];
  }

  lemma {:induction false} PlainFailure(mark: Label)
    ensures Word(mark) == "FAILED" <==> mark == Failed
  {
    assert |Word(mark)| == 6 ==> mark == Failed || mark == Proved;
    assert "proved"[0] != "FAILED"[0];
  }

  // ---------------------------------------------------------------------
  // The table
  // ---------------------------------------------------------------------

  function CountWord(word: string, rows: seq<Row>): nat { Count((r: Row) => Word(r.mark) == word, rows) }

  lemma {:induction false} WordsTellLabels(mark: Label, other: Label)
    ensures Word(mark) == Word(other) <==> mark == other
  {
    WordsDiffer(mark);
    WordsDiffer(other);
  }

  lemma {:induction false} WordsDiffer(mark: Label)
    ensures |Word(mark)| == (match mark case Proved => 6 case Vacuous => 7 case Undecided => 9
                                        case NoChecks => 9 case Uncertified => 11 case Failed => 6)
    ensures Word(mark)[0] == (match mark case Proved => 'p' case Vacuous => 'V' case Undecided => 'U'
                                         case NoChecks => 'N' case Uncertified => 'U' case Failed => 'F')
  {
  }

  lemma {:induction false} CountedByWord(mark: Label, rows: seq<Row>)
    ensures CountWord(Word(mark), rows) == Labelled(mark, rows)
  {
    if rows != [] {
      WordsTellLabels(rows[0].mark, mark);
      CountedByWord(mark, rows[1..]);
    }
  }

  function Shown(word: string, name: string, rows: seq<Row>): seq<(nat, string)> {
    if CountWord(word, rows) > 0 then [(CountWord(word, rows), name)] else []
  }

  /** The first line counts the rows, the proved and the others, and, by the words of the first column,
      each class that is there. */
  lemma {:induction false} HeaderMeaning(rows: seq<Row>)
    requires rows != []
    ensures Rendered(rows).Some?
    ensures var t := Rendered(rows).value;
            && t.total == |rows| && t.proved == Count(IsProved, rows) && t.failed == Count(NotProved, rows)
            && t.tally == Shown("VACUOUS", "vacuous", rows) + Shown("UNDECIDED", "undecided", rows) +
                          Shown("NO-CHECKS", "no checks", rows) + Shown("UNCERTIFIED", "uncertified", rows)
  {
    FilterMembers(IsProved, rows);
    FilterMembers(NotProved, rows);
    CountedByWord(Vacuous, rows);
    CountedByWord(Undecided, rows);
    CountedByWord(NoChecks, rows);
    CountedByWord(Uncertified, rows);
    TallyOfFour(rows);
  }

  lemma {:induction false} TallyOfFour(rows: seq<Row>)
    ensures Tally(TALLIED, rows) ==
            Tallied(Vacuous, "vacuous", rows) + Tallied(Undecided, "undecided", rows) +
            Tallied(NoChecks, "no checks", rows) + Tallied(Uncertified, "uncertified", rows)
  {
    var three := TALLIED[1..];
    var two := three[1..];
    var one := two[1..];
    assert TALLIED[0] == (Vacuous, "vacuous") && three[0] == (Undecided, "undecided");
    assert two[0] == (NoChecks, "no checks") && one[0] == (Uncertified, "uncertified") && one[1..] == [];
    assert Tally(one, rows) == Tallied(Uncertified, "uncertified", rows);
    assert Tally(two, rows) == Tallied(NoChecks, "no checks", rows) + Tally(one, rows);
    assert Tally(three, rows) == Tallied(Undecided, "undecided", rows) + Tally(two, rows);
  }

  function Tallied(mark: Label, name: string, rows: seq<Row>): seq<(nat, string)> {
    if Labelled(mark, rows) > 0 then [(Labelled(mark, rows), name)] else []
  }

  /** The body shows each row once: those not proved first, a blank line if there are both, and either
      group in the order of the names; the first column is as wide as its longest word, at least six. */
  lemma {:induction false} BodyMeaning(rows: seq<Row>) returns (bad: seq<Row>, good: seq<Row>)
    requires rows != []
    ensures multiset(bad) + multiset(good) == multiset(rows)
    ensures (forall i :: 0 <= i < |bad| ==> !bad[i].proved) && (forall i :: 0 <= i < |good| ==> good[i].proved)
    ensures forall i, j :: 0 <= i < j < |bad| ==> StrLe(bad[i].harness, bad[j].harness)
    ensures forall i, j :: 0 <= i < j < |good| ==> StrLe(good[i].harness, good[j].harness)
    ensures var w := Width(rows);
            && Rendered(rows).value.body ==
               RowLines(w, bad) + (if bad != [] && good != [] then [""] else []) + RowLines(w, good)
            && w >= 6 && (forall i :: 0 <= i < |rows| ==> |Word(rows[i].mark)| <= w)
            && (w == 6 || exists i :: 0 <= i < |rows| && |Word(rows[i].mark)| == w)
  {
    bad, good := StableSort(NameLe, Filter(NotProved, rows)), StableSort(NameLe, Filter(IsProved, rows));
    NamesAreOrdered();
    GroupIsSorted(NotProved, rows);
    GroupIsSorted(IsProved, rows);
    TwoGroups(rows);
    WidthAttained(rows);
    if w' :| w' in rows && |Word(w'.mark)| == Width(rows) {
      var i :| 0 <= i < |rows| && rows[i] == w';
    }
    assert bad == [] <==> Filter(NotProved, rows) == [] by { assert |bad| == |Filter(NotProved, rows)|; }
    assert good == [] <==> Filter(IsProved, rows) == [] by { assert |good| == |Filter(IsProved, rows)|; }
  }

  lemma {:induction false} GroupIsSorted(p: Row -> bool, rows: seq<Row>)
    ensures var group := StableSort(NameLe, Filter(p, rows));
            && multiset(group) == multiset(Filter(p, rows)) && |group| == |Filter(p, rows)|
            && (forall i :: 0 <= i < |group| ==> p(group[i]))
            && SortedBy(NameLe, group)
  {
    var group := StableSort(NameLe, Filter(p, rows));
    NamesAreOrdered();
    SortContents(NameLe, Filter(p, rows));
    SortMembers(NameLe, Filter(p, rows));
    SortSorts(NameLe, Filter(p, rows));
    FilterMembers(p, rows);
    assert |multiset(group)| == |group|;
    forall i | 0 <= i < |group| ensures p(group[i]) { assert group[i] in group; }
  }

  lemma {:induction false} TwoGroups(rows: seq<Row>)
    ensures multiset(Filter(NotProved, rows)) + multiset(Filter(IsProved, rows)) == multiset(rows)
  {
    if rows != [] {
      TwoGroups(rows[1..]);
      assert rows == [rows[0]] + rows[1..];
    }
  }
}
