/** The proof-only evidence: the zero-fallback gate (`scripts/zero_fallback_proof_gate.py`) and the
    proof-only report cut from a full one (`scripts/extract_replacement_proof_report.py`). */
module ProofGate {
  import opened Delimiters
  import opened Inventory
  import opened Ordering
  import opened Reports
  import opened Wrappers
  import PublicRunner

  // ---------------------------------------------------------------------
  // The gate
  // ---------------------------------------------------------------------

  predicate Usable(s: Option<string>) { s.Some? && Strip(s.value) != "" }

  /** `_as_int`: Booleans and digit strings count as integers here. */
  function AsInt(v: Value, default: int): Option<int> {
    match v
    case Missing => Some(default)
    case Num(n) => Some(n)
    case Bool(b) => Some(if b then 1 else 0)
    case Digits(n) => Some(n)
    case NotACount => None
  }

  predicate IntMatches(v: Value, expected: int) { AsInt(v, expected - 1) == Some(expected) }

  datatype Rule =
    | NoFile | NoHarness | DuplicateRow | NotPass | NotExpectedProof | NotProof
    | NoState | NoDetails | NoFallback | NoQualifier
    | NotComplete | NotFinalMarker | HasFallback | NotClean | Forbidden(mark: Mark)

  datatype Failed =
    | NoExpectedCount | NonPositiveExpected | RowCount | Summarised(field: Field) | InRow(index: nat, rule: Rule)

  /** The fields that must hold the expected count, and those that must hold zero: first the
      summary's own, then those of its breakdown of the proofs. */
  const FULL_SUMMARY: seq<Field> := [Total, ProofCount, CompleteCount]

  const ZERO_SUMMARY: seq<Field> :=
    [CtrexCount, UnknownCount, ErrorCount, BmcCount, XfailCount, SkipCount, GatedCount]

  const FULL_BREAKDOWN: seq<Field> := [CleanCount]

  const ZERO_BREAKDOWN: seq<Field> := [ShouldPanicCount, CrosscheckedCount, SoundCount, MemCount]

  const FULL_FIELDS: seq<Field> := FULL_SUMMARY + FULL_BREAKDOWN

  const ZERO_FIELDS: seq<Field> := ZERO_SUMMARY + ZERO_BREAKDOWN

  function When(broken: bool, rule: Rule): seq<Rule> { if broken then [rule] else [] }

  function EntryKey(e: Entry): Key
    requires e.file.Some? && e.harness.Some?
  {
    (e.file.value, e.harness.value)
  }

  function IdentityRules(e: Entry, seen: set<Key>): seq<Rule> {
    When(!Usable(e.file), NoFile) + When(!Usable(e.harness), NoHarness)
    + When(Usable(e.file) && Usable(e.harness) && EntryKey(e) in seen, DuplicateRow)
  }

  function ContentRules(e: Entry): seq<Rule> {
    When(e.status != Some(Pass), NotPass)
    + When(e.expected != Some(Proof), NotExpectedProof)
    + When(e.verdict != Some(Proved), NotProof)
    + When(e.state.None?, NoState) + When(e.details.None?, NoDetails)
    + When(e.fallback.Missing?, NoFallback) + When(e.qualifiers.NoQualifiers?, NoQualifier)
    + When(e.state != Some(Complete), NotComplete)
    + When(e.details != Some(FinalMarker(Proved)), NotFinalMarker)
    + When(!e.fallback.Missing? && !IntMatches(e.fallback, 0), HasFallback)
    + When(e.qualifiers != Clean, NotClean)
    + MarkRules(e.marks, MARKS)
  }

  /** The forbidden fields in the order they are looked for. */
  const MARKS: seq<Mark> :=
    [Retried, RetryAttempts, RetryResolvedBy, RetryFinal, RetryRecursive, RetryRelationCount, DemotionReasons,
     TranslationDrops, CtrexCategory, CtrexDetails, UnknownDetails, UnknownQuality, UnknownReason]

  function MarkRules(marks: set<Mark>, order: seq<Mark>): seq<Rule> {
    if order == [] then [] else When(order[0] in marks, Forbidden(order[0])) + MarkRules(marks, order[1..])
  }

  lemma {:induction false} MarkRulesMeaning(marks: set<Mark>, order: seq<Mark>)
    ensures MarkRules(marks, order) == [] <==> forall i :: 0 <= i < |order| ==> order[i] !in marks
  {
    if order != [] {
      MarkRulesMeaning(marks, order[1..]);
      assert order == [order[0]] + order[1..];
    }
  }

  lemma {:induction false} EveryMark(marks: set<Mark>)
    ensures (forall i :: 0 <= i < |MARKS| ==> MARKS[i] !in marks) <==> marks == {}
  {
    if forall i :: 0 <= i < |MARKS| ==> MARKS[i] !in marks {
      forall m: Mark ensures m !in marks { MarkIsListed(m); }
    }
  }

  lemma {:induction false} MarkIsListed(m: Mark)
    ensures m in MARKS
  {
    assert MARKS[0] == Retried && MARKS[1] == RetryAttempts && MARKS[2] == RetryResolvedBy && MARKS[3] == RetryFinal;
    assert MARKS[4] == RetryRecursive && MARKS[5] == RetryRelationCount && MARKS[6] == DemotionReasons;
    assert MARKS[7] == TranslationDrops && MARKS[8] == CtrexCategory && MARKS[9] == CtrexDetails;
    assert MARKS[10] == UnknownDetails && MARKS[11] == UnknownQuality && MARKS[12] == UnknownReason;
  }

  function Located(rules: seq<Rule>, at: nat): seq<Failed> { Map((r: Rule) => InRow(at, r), rules) }

  function Seen(e: Entry, seen: set<Key>): set<Key> {
    if Usable(e.file) && Usable(e.harness) then seen + {EntryKey(e)} else seen
  }

  function RowFailures(rows: seq<Entry>, seen: set<Key>, at: nat): seq<Failed> {
    if rows == [] then []
    else
      Located(IdentityRules(rows[0], seen) + ContentRules(rows[0]), at)
      + RowFailures(rows[1..], Seen(rows[0], seen), at + 1)
  }

  function FieldFailures(s: Summary, fields: seq<Field>, expected: int): seq<Failed> {
    if fields == [] then []
    else (if IntMatches(Get(s, fields[0]), expected) then [] else [Summarised(fields[0])])
         + FieldFailures(s, fields[1..], expected)
  }

  /** `_check_report_metadata`: the count asked for must be given, be positive and be the number of
      rows. The two refusals of the count itself keep an empty report from passing. */
  function CountFailures(rows: seq<Entry>, expected: Option<int>): seq<Failed> {
    match expected
    case None => [NoExpectedCount]
    case Some(n) =>
      (if n <= 0 then [NonPositiveExpected] else []) + (if |rows| == n then [] else [RowCount])
  }

  /** Without an expected count the full fields are not looked at. */
  function FullFailures(s: Summary, fields: seq<Field>, expected: Option<int>): seq<Failed> {
    if expected.Some? then FieldFailures(s, fields, expected.value) else []
  }

  function SummaryFailures(s: Summary, expected: Option<int>): seq<Failed> {
    FullFailures(s, FULL_SUMMARY, expected) + FieldFailures(s, ZERO_SUMMARY, 0)
    + FullFailures(s, FULL_BREAKDOWN, expected) + FieldFailures(s, ZERO_BREAKDOWN, 0)
  }

  function Failures(r: Report, expected: Option<int>): seq<Failed> {
    CountFailures(r.harnesses, expected) + SummaryFailures(r.summary, expected) + RowFailures(r.harnesses, {}, 0)
  }

  lemma {:induction false} MoveField(s: Summary, fields: seq<Field>, expected: int, i: nat, before: seq<Failed>)
    requires i < |fields|
    ensures var here := if IntMatches(Get(s, fields[i]), expected) then before else before + [Summarised(fields[i])];
            before + FieldFailures(s, fields[i..], expected) == here + FieldFailures(s, fields[i+1..], expected)
  {
    assert fields[i..][0] == fields[i] && fields[i..][1..] == fields[i+1..];
    ghost var rest := FieldFailures(s, fields[i+1..], expected);
    assert before + ([Summarised(fields[i])] + rest) == before + [Summarised(fields[i])] + rest;
  }

  method CheckFields(s: Summary, fields: seq<Field>, expected: int) returns (failures: seq<Failed>)
    ensures failures == FieldFailures(s, fields, expected)
  {
    failures := [];
    var i := 0;
    assert fields[0..] == fields;
    while i < |fields|
      invariant 0 <= i <= |fields|
      invariant FieldFailures(s, fields, expected) == failures + FieldFailures(s, fields[i..], expected)
    {
      MoveField(s, fields, expected, i, failures);
      if !IntMatches(Get(s, fields[i]), expected) { failures := failures + [Summarised(fields[i])]; }
      i := i + 1;
    }
  }

  lemma {:induction false} MoveRow(rows: seq<Entry>, seen: set<Key>, i: nat, before: seq<Failed>)
    requires i < |rows|
    ensures before + RowFailures(rows[i..], seen, i) ==
            (before + Located(IdentityRules(rows[i], seen) + ContentRules(rows[i]), i))
            + RowFailures(rows[i+1..], Seen(rows[i], seen), i + 1)
  {
    assert rows[i..][0] == rows[i] && rows[i..][1..] == rows[i+1..];
  }

  method CheckRows(rows: seq<Entry>) returns (failures: seq<Failed>)
    ensures failures == RowFailures(rows, {}, 0)
  {
    failures := [];
    var seen: set<Key> := {};
    var i := 0;
    assert rows[0..] == rows;
    while i < |rows|
      invariant 0 <= i <= |rows|
      invariant RowFailures(rows, {}, 0) == failures + RowFailures(rows[i..], seen, i)
    {
      MoveRow(rows, seen, i, failures);
      failures := failures + Located(IdentityRules(rows[i], seen) + ContentRules(rows[i]), i);
      seen := Seen(rows[i], seen);
      i := i + 1;
    }
  }

  /** `find_gate_failures`, without the attestations of the commit, solver and driver. */
  method FindGateFailures(r: Report, expected: Option<int>) returns (failures: seq<Failed>)
    ensures failures == Failures(r, expected)
  {
    failures := CheckCount(r.harnesses, expected);
    var summary := CheckSummary(r.summary, expected);
    var rows := CheckRows(r.harnesses);
    failures := failures + summary + rows;
  }

  method CheckCount(rows: seq<Entry>, expected: Option<int>) returns (failures: seq<Failed>)
    ensures failures == CountFailures(rows, expected)
  {
    failures := [];
    if expected.None? {
      failures := failures + [NoExpectedCount];
    } else if expected.value <= 0 {
      failures := failures + [NonPositiveExpected];
    }
    if expected.Some? && |rows| != expected.value { failures := failures + [RowCount]; }
  }

  /** `_check_summary` and `_check_proof_breakdown`. */
  method CheckSummary(s: Summary, expected: Option<int>) returns (failures: seq<Failed>)
    ensures failures == SummaryFailures(s, expected)
  {
    var full, clean: seq<Failed> := [], [];
    if expected.Some? { full := CheckFields(s, FULL_SUMMARY, expected.value); }
    var zero := CheckFields(s, ZERO_SUMMARY, 0);
    if expected.Some? { clean := CheckFields(s, FULL_BREAKDOWN, expected.value); }
    var breakdown := CheckFields(s, ZERO_BREAKDOWN, 0);
    return full + zero + clean + breakdown;
  }

  /** A row that is replacement-quality evidence. */
  predicate IsCleanRow(e: Entry) {
    && Usable(e.file) && Usable(e.harness)
    && e.status == Some(Pass) && e.expected == Some(Proof) && e.verdict == Some(Proved)
    && e.state == Some(Complete) && e.details == Some(FinalMarker(Proved))
    && IntMatches(e.fallback, 0) && e.qualifiers == Clean && e.marks == {}
  }

  ghost predicate CleanRows(rows: seq<Entry>) {
    && (forall i :: 0 <= i < |rows| ==> IsCleanRow(rows[i]))
    && (forall i, j :: 0 <= i < j < |rows| ==> !SameEntry(rows[i], rows[j]))
  }

  predicate SameEntry(a: Entry, b: Entry) { a.file == b.file && a.harness == b.harness }

  lemma {:induction false} RowRulesMeaning(e: Entry, seen: set<Key>)
    ensures IdentityRules(e, seen) + ContentRules(e) == [] <==> IsCleanRow(e) && EntryKey(e) !in seen
  {
    MarkRulesMeaning(e.marks, MARKS);
    EveryMark(e.marks);
    if IdentityRules(e, seen) + ContentRules(e) == [] {
      assert |IdentityRules(e, seen)| == 0 && |ContentRules(e)| == 0;
    }
  }

  ghost predicate CleanBeyond(rows: seq<Entry>, seen: set<Key>) {
    CleanRows(rows) && forall i :: 0 <= i < |rows| ==> EntryKey(rows[i]) !in seen
  }

  lemma {:induction false} RowFailuresMeaning(rows: seq<Entry>, seen: set<Key>, at: nat)
    ensures RowFailures(rows, seen, at) == [] <==> CleanBeyond(rows, seen)
  {
    if rows != [] {
      var rules := IdentityRules(rows[0], seen) + ContentRules(rows[0]);
      RowRulesMeaning(rows[0], seen);
      RowFailuresMeaning(rows[1..], Seen(rows[0], seen), at + 1);
      assert |Located(rules, at)| == |rules|;
      assert RowFailures(rows, seen, at) == [] <==> rules == [] && CleanBeyond(rows[1..], Seen(rows[0], seen));
      if rules == [] { CleanCons(rows, seen); }
      if CleanBeyond(rows, seen) { assert IsCleanRow(rows[0]); }
    }
  }

  lemma {:induction false} CleanCons(rows: seq<Entry>, seen: set<Key>)
    requires rows != [] && IsCleanRow(rows[0]) && EntryKey(rows[0]) !in seen
    ensures CleanBeyond(rows, seen) <==> CleanBeyond(rows[1..], seen + {EntryKey(rows[0])})
  {
    var rest := rows[1..];
    if CleanBeyond(rest, seen + {EntryKey(rows[0])}) {
      forall i | 0 <= i < |rows| ensures IsCleanRow(rows[i]) {
        if i > 0 { assert rows[i] == rest[i-1]; }
      }
      forall i, j | 0 <= i < j < |rows| ensures !SameEntry(rows[i], rows[j]) {
        assert rows[j] == rest[j-1];
        if i > 0 { assert rows[i] == rest[i-1]; } else { assert EntryKey(rest[j-1]) != EntryKey(rows[0]); }
      }
      forall i | 0 <= i < |rows| ensures EntryKey(rows[i]) !in seen {
        if i > 0 { assert rows[i] == rest[i-1]; }
      }
    }
    if CleanBeyond(rows, seen) {
      forall i | 0 <= i < |rest| ensures IsCleanRow(rest[i]) && EntryKey(rest[i]) !in seen + {EntryKey(rows[0])} {
        assert rest[i] == rows[i+1] && !SameEntry(rows[0], rows[i+1]) && IsCleanRow(rows[i+1]);
      }
    }
  }

  lemma {:induction false} FieldFailuresMeaning(s: Summary, fields: seq<Field>, expected: int)
    ensures FieldFailures(s, fields, expected) == [] <==>
            forall i :: 0 <= i < |fields| ==> IntMatches(Get(s, fields[i]), expected)
  {
    if fields != [] {
      FieldFailuresMeaning(s, fields[1..], expected);
      assert fields == [fields[0]] + fields[1..];
    }
  }

  lemma {:induction false} TwoFieldLists(s: Summary, first: seq<Field>, second: seq<Field>, expected: int)
    ensures FieldFailures(s, first, expected) == [] && FieldFailures(s, second, expected) == [] <==>
            forall i :: 0 <= i < |first + second| ==> IntMatches(Get(s, (first + second)[i]), expected)
  {
    FieldFailuresMeaning(s, first, expected);
    FieldFailuresMeaning(s, second, expected);
    forall i | 0 <= i < |first| ensures (first + second)[i] == first[i] {}
    forall i | 0 <= i < |second| ensures (first + second)[|first| + i] == second[i] {}
  }

  /** What the gate lets through: never an empty report, and nothing unless a count was asked for. */
  lemma {:induction false} GateMeaning(r: Report, expected: Option<int>)
    ensures Failures(r, expected) == [] <==>
              && expected == Some(|r.harnesses|) && r.harnesses != []
              && (forall i :: 0 <= i < |FULL_FIELDS| ==> IntMatches(Get(r.summary, FULL_FIELDS[i]), |r.harnesses|))
              && (forall i :: 0 <= i < |ZERO_FIELDS| ==> IntMatches(Get(r.summary, ZERO_FIELDS[i]), 0))
              && CleanRows(r.harnesses)
  {
    var count, rows := CountFailures(r.harnesses, expected), RowFailures(r.harnesses, {}, 0);
    assert |Failures(r, expected)| == |count| + |SummaryFailures(r.summary, expected)| + |rows|;
    assert count == [] <==> expected == Some(|r.harnesses|) && r.harnesses != [];
    SummaryMeaning(r.summary, |r.harnesses|);
    RowFailuresMeaning(r.harnesses, {}, 0);
  }

  lemma {:induction false} SummaryMeaning(s: Summary, expected: int)
    ensures SummaryFailures(s, Some(expected)) == [] <==>
              && (forall i :: 0 <= i < |FULL_FIELDS| ==> IntMatches(Get(s, FULL_FIELDS[i]), expected))
              && (forall i :: 0 <= i < |ZERO_FIELDS| ==> IntMatches(Get(s, ZERO_FIELDS[i]), 0))
  {
    TwoFieldLists(s, FULL_SUMMARY, FULL_BREAKDOWN, expected);
    TwoFieldLists(s, ZERO_SUMMARY, ZERO_BREAKDOWN, 0);
    var full, zero := FieldFailures(s, FULL_SUMMARY, expected), FieldFailures(s, ZERO_SUMMARY, 0);
    var clean, breakdown := FieldFailures(s, FULL_BREAKDOWN, expected), FieldFailures(s, ZERO_BREAKDOWN, 0);
    assert |SummaryFailures(s, Some(expected))| == |full| + |zero| + |clean| + |breakdown|;
  }

  // ---------------------------------------------------------------------
  // Summaries
  // ---------------------------------------------------------------------

  /** Which rows each count of `_recompute_summary` counts. It differs from the runner's counts on
      known false positives, trusted proofs, skips and gated rows. */
  predicate Recounts(f: Field, e: Entry) {
    match f
    case KnownFpCount => IsKnownFp(e) || e.knownFp == Is(true)
    case TrustedCount => e.verdict == Some(Proved) && e.status == Some(Pass)
    case SkipCount => e.verdict == Some(Skip)
    case GatedCount => e.state.Some? && e.state != Some(Complete)
    case _ => PublicRunner.Counts(f, e)
  }

  predicate IsFull(f: Field) { f.Total? || f.ProofCount? || f.CompleteCount? || f.CleanCount? }

  predicate IsZero(f: Field) {
    f.CtrexCount? || f.UnknownCount? || f.ErrorCount? || f.BmcCount? || f.XfailCount? || f.SkipCount? ||
    f.GatedCount? || f.ShouldPanicCount? || f.CrosscheckedCount? || f.SoundCount? || f.MemCount?
  }

  lemma {:induction false} CleanRowCounts(counts: (Field, Entry) -> bool, e: Entry, f: Field)
    requires counts == Recounts || counts == PublicRunner.Counts
    requires IsCleanRow(e)
    ensures IsFull(f) ==> counts(f, e)
    ensures IsZero(f) ==> !counts(f, e)
  {
    if counts == Recounts { CleanRowRecounts(e, f); } else { CleanRowRunCounts(e, f); }
  }

  lemma {:induction false} CleanRowRecounts(e: Entry, f: Field)
    requires IsCleanRow(e)
    ensures (IsFull(f) ==> Recounts(f, e)) && (IsZero(f) ==> !Recounts(f, e))
  {
  }

  lemma {:induction false} CleanRowRunCounts(e: Entry, f: Field)
    requires IsCleanRow(e)
    ensures (IsFull(f) ==> PublicRunner.Counts(f, e)) && (IsZero(f) ==> !PublicRunner.Counts(f, e))
  {
  }

  lemma {:induction false} CleanTally(counts: (Field, Entry) -> bool, rows: seq<Entry>, f: Field)
    requires counts == Recounts || counts == PublicRunner.Counts
    requires forall i :: 0 <= i < |rows| ==> IsCleanRow(rows[i])
    ensures IsFull(f) ==> Tally(counts, f, rows) == |rows|
    ensures IsZero(f) ==> Tally(counts, f, rows) == 0
  {
    forall i | 0 <= i < |rows| ensures (IsFull(f) ==> counts(f, rows[i])) && (IsZero(f) ==> !counts(f, rows[i])) {
      CleanRowCounts(counts, rows[i], f);
    }
    TallyBounds(counts, f, rows);
  }

  lemma {:induction false} CleanTotals(counts: (Field, Entry) -> bool, rows: seq<Entry>)
    requires counts == Recounts || counts == PublicRunner.Counts
    requires forall i :: 0 <= i < |rows| ==> IsCleanRow(rows[i])
    ensures forall k :: 0 <= k < |FULL_FIELDS| ==> Tally(counts, FULL_FIELDS[k], rows) == |rows|
    ensures forall k :: 0 <= k < |ZERO_FIELDS| ==> Tally(counts, ZERO_FIELDS[k], rows) == 0
  {
    forall k | 0 <= k < |FULL_FIELDS| ensures Tally(counts, FULL_FIELDS[k], rows) == |rows| {
      assert IsFull(FULL_FIELDS[k]);
      CleanTally(counts, rows, FULL_FIELDS[k]);
    }
    forall k | 0 <= k < |ZERO_FIELDS| ensures Tally(counts, ZERO_FIELDS[k], rows) == 0 {
      assert IsZero(ZERO_FIELDS[k]);
      CleanTally(counts, rows, ZERO_FIELDS[k]);
    }
  }

  lemma {:induction false} OwnSummaryFits(counts: (Field, Entry) -> bool, rows: seq<Entry>)
    requires counts == Recounts || counts == PublicRunner.Counts
    requires CleanRows(rows)
    ensures forall i :: 0 <= i < |FULL_FIELDS| ==> IntMatches(Get(Totals(counts, rows), FULL_FIELDS[i]), |rows|)
    ensures forall i :: 0 <= i < |ZERO_FIELDS| ==> IntMatches(Get(Totals(counts, rows), ZERO_FIELDS[i]), 0)
  {
    CleanTotals(counts, rows);
  }

  /** On rows with their own summary, either summary, the gate is about the rows: it passes exactly
      when there are rows, as many as expected, and every row is clean and listed once. */
  lemma {:induction false} GateOnOwnSummary(counts: (Field, Entry) -> bool, rows: seq<Entry>, expected: Option<int>)
    requires counts == Recounts || counts == PublicRunner.Counts
    ensures Failures(Report(2, Totals(counts, rows), rows), expected) == [] <==>
            expected == Some(|rows|) && rows != [] && CleanRows(rows)
  {
    GateMeaning(Report(2, Totals(counts, rows), rows), expected);
    if CleanRows(rows) { OwnSummaryFits(counts, rows); }
  }

  // ---------------------------------------------------------------------
  // The proof-only report
  // ---------------------------------------------------------------------

  /** The proof inventory as the report cutter reads it; the denominator may be absent. */
  datatype ProofInventory = ProofInventory(rows: seq<Row>, denominator: Option<int>)

  datatype CutProblem =
    | BadVersion | BadSourceRow(index: nat) | RepeatedSourceRow | NotAProofRow(index: nat) | BadInventoryRow(index: nat)
    | RepeatedInventoryRow(index: nat) | WrongDenominator | NoSourceRow(index: nat) | NotProvedRow(index: nat)

  predicate HasKey(e: Entry) { Usable(e.file) && Usable(e.harness) }

  predicate IsFinalProof(e: Entry) {
    e.status == Some(Pass) && e.verdict == Some(Proved) && e.details == Some(FinalMarker(Proved))
  }

  ghost predicate KeyedOnce(rows: seq<Entry>) {
    && (forall i :: 0 <= i < |rows| ==> HasKey(rows[i]))
    && (forall i, j :: 0 <= i < j < |rows| ==> EntryKey(rows[i]) != EntryKey(rows[j]))
  }

  predicate UsableRow(r: Row) { r.expected.Proof? && Strip(r.file) != "" && Strip(r.harness) != "" }

  ghost predicate InventoryOk(inventory: ProofInventory) {
    && (forall i :: 0 <= i < |inventory.rows| ==> UsableRow(inventory.rows[i]))
    && DistinctKeys(inventory.rows)
    && (inventory.denominator.None? || inventory.denominator.value == |inventory.rows|)
  }

  /** The source's rows under the inventory's keys, in the inventory's order, each a final proof. */
  ghost predicate Selects(source: seq<Entry>, inventory: seq<Row>, chosen: seq<Entry>) {
    && |chosen| == |inventory|
    && forall i :: 0 <= i < |inventory| ==>
         chosen[i] in source && HasKey(chosen[i]) && EntryKey(chosen[i]) == KeyOf(inventory[i]) &&
           IsFinalProof(chosen[i])
  }

  ghost predicate KeysOfEntries(rows: seq<Entry>, keys: seq<Key>) {
    |keys| == |rows| && forall k :: 0 <= k < |rows| ==> HasKey(rows[k]) && keys[k] == EntryKey(rows[k])
  }

  /** The rows under their keys, as `_source_rows_by_key` returns them. */
  ghost predicate GroupedBy(grouped: map<Key, Entry>, rows: seq<Entry>, keys: seq<Key>) {
    && KeysOfEntries(rows, keys)
    && (forall key :: key in grouped <==> key in keys)
    && forall k :: 0 <= k < |rows| ==> keys[k] in grouped && grouped[keys[k]] == rows[k]
  }

  /** The grouping loop of `_source_rows_by_key`. */
  method KeySource(rows: seq<Entry>) returns (r: Result<seq<Key>, CutProblem>)
    ensures r.Ok? ==> KeysOfEntries(rows, r.value)
    ensures r.Err? ==> !KeyedOnce(rows)
  {
    var keys: seq<Key> := [];
    var i := 0;
    while i < |rows|
      invariant 0 <= i <= |rows| && |keys| == i
      invariant forall k :: 0 <= k < i ==> HasKey(rows[k]) && keys[k] == EntryKey(rows[k])
    {
      if !HasKey(rows[i]) { return Err(BadSourceRow(i)); }
      keys := keys + [EntryKey(rows[i])];
      i := i + 1;
    }
    return Ok(keys);
  }

  lemma {:induction false} RepeatedKey(rows: seq<Entry>, keys: seq<Key>, k: nat, i: nat)
    requires KeysOfEntries(rows, keys) && k < i < |keys| && keys[k] == keys[i]
    ensures !KeyedOnce(rows)
  {
    assert EntryKey(rows[k]) == EntryKey(rows[i]);
  }

  /** The rows under the given keys, or two places with the same key. */
  method GroupUnder(rows: seq<Entry>, keys: seq<Key>) returns (r: Result<map<Key, Entry>, (nat, nat)>)
    requires |keys| == |rows|
    ensures r.Ok? ==> Distinct(keys) && (forall key :: key in r.value <==> key in keys) &&
                      forall k :: 0 <= k < |rows| ==> keys[k] in r.value && r.value[keys[k]] == rows[k]
    ensures r.Err? ==> r.error.0 < r.error.1 < |keys| && keys[r.error.0] == keys[r.error.1]
  {
    var grouped: map<Key, Entry> := map[];
    var at: map<Key, nat> := map[];
    var i := 0;
    while i < |rows|
      invariant 0 <= i <= |rows|
      invariant forall k, j :: 0 <= k < j < i ==> keys[k] != keys[j]
      invariant forall k :: 0 <= k < i ==> keys[k] in grouped && grouped[keys[k]] == rows[k]
      invariant forall key :: key in grouped ==> key in at && at[key] < i && keys[at[key]] == key
    {
      var key := keys[i];
      if key in grouped { return Err((at[key], i)); }
      grouped, at := grouped[key := rows[i]], at[key := i];
      i := i + 1;
    }
    return Ok(grouped);
  }

  /** `_source_rows_by_key`: rows without a key are refused before repeats are. */
  method IndexSource(rows: seq<Entry>) returns (r: Result<map<Key, Entry>, CutProblem>, keys: seq<Key>)
    ensures r.Ok? ==> GroupedBy(r.value, rows, keys) && Distinct(keys)
    ensures r.Err? ==> !KeyedOnce(rows)
  {
    var keyed := KeySource(rows);
    keys := [];
    if keyed.Err? { return Err(keyed.error), keys; }
    var grouped := GroupUnder(rows, keyed.value);
    if grouped.Err? {
      RepeatedKey(rows, keyed.value, grouped.error.0, grouped.error.1);
      return Err(RepeatedSourceRow), keys;
    }
    return Ok(grouped.value), keyed.value;
  }

  lemma {:induction false} DistinctSnoc<K>(keys: seq<K>, key: K)
    ensures Distinct(keys + [key]) <==> Distinct(keys) && key !in keys
  {
    var longer := keys + [key];
    forall i, j | Distinct(longer) && 0 <= i < j < |keys| ensures keys[i] != keys[j] {
      assert longer[i] != longer[j];
    }
    forall i | Distinct(longer) && 0 <= i < |keys| ensures keys[i] != key {
      assert longer[i] != longer[|keys|];
    }
  }

  /** The keys of the first rows: what the loader has seen. */
  ghost predicate KeysOfRows(rows: seq<Row>, keys: seq<Key>) {
    |keys| <= |rows| && forall k :: 0 <= k < |keys| ==> UsableRow(rows[k]) && keys[k] == KeyOf(rows[k])
  }

  lemma {:induction false} RepeatedRow(rows: seq<Row>, keys: seq<Key>)
    requires KeysOfRows(rows, keys) && |keys| < |rows| && KeyOf(rows[|keys|]) in keys
    ensures !DistinctKeys(rows)
  {
    var k :| 0 <= k < |keys| && keys[k] == KeyOf(rows[|keys|]);
    assert KeyOf(rows[k]) == KeyOf(rows[|keys|]);
  }

  lemma {:induction false} NoRepeatedRow(rows: seq<Row>, keys: seq<Key>)
    requires KeysOfRows(rows, keys) && |keys| == |rows| && Distinct(keys)
    ensures DistinctKeys(rows)
  {
    forall k, j | 0 <= k < j < |rows| ensures KeyOf(rows[k]) != KeyOf(rows[j]) { assert keys[k] != keys[j]; }
  }

  /** `_load_inventory_rows`. */
  method LoadInventoryRows(inventory: ProofInventory) returns (problem: Option<CutProblem>)
    ensures problem.None? <==> InventoryOk(inventory)
  {
    var rows, seen: set<Key> := inventory.rows, {};
    ghost var keys: seq<Key> := [];
    var i := 0;
    while i < |rows|
      invariant 0 <= i <= |rows| && |keys| == i
      invariant KeysOfRows(rows, keys) && Distinct(keys)
      invariant forall key :: key in seen <==> key in keys
    {
      if !rows[i].expected.Proof? { return Some(NotAProofRow(i)); }
      if !UsableRow(rows[i]) { return Some(BadInventoryRow(i)); }
      var key := KeyOf(rows[i]);
      if key in seen {
        RepeatedRow(rows, keys);
        return Some(RepeatedInventoryRow(i));
      }
      DistinctSnoc(keys, key);
      seen, keys := seen + {key}, keys + [key];
      i := i + 1;
    }
    NoRepeatedRow(rows, keys);
    if inventory.denominator.Some? && inventory.denominator.value != |rows| { return Some(WrongDenominator); }
    return None;
  }

  lemma {:induction false} GroupedKeys(grouped: map<Key, Entry>, rows: seq<Entry>, keys: seq<Key>)
    requires GroupedBy(grouped, rows, keys) && Distinct(keys)
    ensures KeyedOnce(rows)
    ensures forall key :: key in grouped ==>
              grouped[key] in rows && HasKey(grouped[key]) && EntryKey(grouped[key]) == key
  {
    forall i, j | 0 <= i < j < |rows| ensures EntryKey(rows[i]) != EntryKey(rows[j]) { assert keys[i] != keys[j]; }
    forall key | key in grouped ensures grouped[key] in rows && HasKey(grouped[key]) && EntryKey(grouped[key]) == key {
      var k :| 0 <= k < |keys| && keys[k] == key;
    }
  }

  /** What the report is cut down to; anything else is refused. */
  ghost predicate CanCut(source: Report, inventory: ProofInventory, chosen: seq<Entry>) {
    source.schema == 2 && KeyedOnce(source.harnesses) && InventoryOk(inventory) &&
    Selects(source.harnesses, inventory.rows, chosen)
  }

  /** What a cut is made of: one source row for each inventory row, in the inventory's order, under its
      file and harness, passed with a proof as the last marker; and the inventory asks for proofs only,
      each once, as many as it says. */
  lemma {:induction false} CutMeaning(source: Report, inventory: ProofInventory, chosen: seq<Entry>)
    requires CanCut(source, inventory, chosen)
    ensures source.schema == 2 && |chosen| == |inventory.rows|
    ensures inventory.denominator == None || inventory.denominator == Some(|inventory.rows|)
    ensures forall i :: 0 <= i < |chosen| ==>
              && chosen[i] in source.harnesses
              && (chosen[i].file, chosen[i].harness) ==
                 (Some(inventory.rows[i].file), Some(inventory.rows[i].harness))
              && inventory.rows[i].expected == Proof
              && chosen[i].status == Some(Pass) && chosen[i].verdict == Some(Proved)
              && chosen[i].details == Some(FinalMarker(Proved))
    ensures forall i, j :: 0 <= i < j < |chosen| ==>
              (inventory.rows[i].file, inventory.rows[i].harness) != (inventory.rows[j].file, inventory.rows[j].harness)
    ensures forall i, j :: 0 <= i < j < |source.harnesses| ==>
              (source.harnesses[i].file, source.harnesses[i].harness) !=
              (source.harnesses[j].file, source.harnesses[j].harness)
  {
    forall i, j | 0 <= i < j < |chosen|
      ensures (inventory.rows[i].file, inventory.rows[i].harness) != (inventory.rows[j].file, inventory.rows[j].harness)
    {
      assert KeyOf(inventory.rows[i]) != KeyOf(inventory.rows[j]);
    }
    forall i, j | 0 <= i < j < |source.harnesses|
      ensures (source.harnesses[i].file, source.harnesses[i].harness) !=
              (source.harnesses[j].file, source.harnesses[j].harness)
    {
      assert EntryKey(source.harnesses[i]) != EntryKey(source.harnesses[j]);
    }
    forall i | 0 <= i < |chosen| ensures IsFinalProof(chosen[i]) && UsableRow(inventory.rows[i]) {
      assert EntryKey(chosen[i]) == KeyOf(inventory.rows[i]);
    }
  }

  /** The counts of proofs, and those of everything that is not one. */
  predicate CountsProofs(f: Field) { f.Total? || f.PassCount? || f.ProofCount? || f.TrustedCount? }

  predicate CountsOthers(f: Field) {
    f.CtrexCount? || f.FailCount? || f.UnknownCount? || f.ErrorCount? || f.BmcCount? || f.XfailCount? || f.SkipCount?
  }

  lemma {:induction false} FinalProofRecounts(e: Entry, f: Field)
    requires IsFinalProof(e)
    ensures CountsProofs(f) ==> Recounts(f, e)
    ensures CountsOthers(f) ==> !Recounts(f, e)
  {
  }

  /** The counts a cut has to have: all of its rows, or none, whatever the source said. */
  lemma {:induction false} CutSummaryMeaning(source: Report, inventory: ProofInventory, chosen: seq<Entry>, f: Field)
    requires CanCut(source, inventory, chosen)
    ensures CountsProofs(f) ==> Tally(Recounts, f, chosen) == |chosen|
    ensures CountsOthers(f) ==> Tally(Recounts, f, chosen) == 0
  {
    forall i | 0 <= i < |chosen|
      ensures (CountsProofs(f) ==> Recounts(f, chosen[i])) && (CountsOthers(f) ==> !Recounts(f, chosen[i]))
    {
      assert EntryKey(chosen[i]) == KeyOf(inventory.rows[i]);
      FinalProofRecounts(chosen[i], f);
    }
    TallyBounds(Recounts, f, chosen);
  }

  lemma {:induction false} OneMoreSelected(source: seq<Entry>, rows: seq<Row>, i: nat, chosen: seq<Entry>, e: Entry)
    requires i < |rows| && Selects(source, rows[..i], chosen)
    requires e in source && HasKey(e) && EntryKey(e) == KeyOf(rows[i]) && IsFinalProof(e)
    ensures Selects(source, rows[..i+1], chosen + [e])
  {
    assert rows[..i+1] == rows[..i] + [rows[i]];
  }

  /** The selecting loop of `derive_proof_report`. */
  method SelectRows(source: seq<Entry>, byKey: map<Key, Entry>, rows: seq<Row>, keys: seq<Key>)
    returns (r: Result<seq<Entry>, CutProblem>)
    requires GroupedBy(byKey, source, keys) && Distinct(keys)
    ensures r.Ok? ==> Selects(source, rows, r.value)
    ensures r.Err? ==> forall chosen :: !Selects(source, rows, chosen)
  {
    GroupedKeys(byKey, source, keys);
    var chosen: seq<Entry> := [];
    var i := 0;
    while i < |rows|
      invariant 0 <= i <= |rows| && |chosen| == i
      invariant Selects(source, rows[..i], chosen)
    {
      var key := KeyOf(rows[i]);
      if key !in byKey {
        NoChoice(source, rows, i, byKey, keys);
        return Err(NoSourceRow(i));
      }
      if !IsFinalProof(byKey[key]) {
        NoChoice(source, rows, i, byKey, keys);
        return Err(NotProvedRow(i));
      }
      OneMoreSelected(source, rows, i, chosen, byKey[key]);
      chosen := chosen + [byKey[key]];
      i := i + 1;
    }
    assert rows[..i] == rows;
    return Ok(chosen);
  }

  /** `derive_proof_report`. */
  method DeriveProofReport(source: Report, inventory: ProofInventory) returns (r: Result<Report, CutProblem>)
    ensures r.Ok? ==> CanCut(source, inventory, r.value.harnesses) &&
                      r.value == Report(2, Totals(Recounts, r.value.harnesses), r.value.harnesses)
    ensures r.Err? ==> !exists chosen :: CanCut(source, inventory, chosen)
  {
    if source.schema != 2 { return Err(BadVersion); }
    var indexed, keys := IndexSource(source.harnesses);
    if indexed.Err? { return Err(indexed.error); }
    GroupedKeys(indexed.value, source.harnesses, keys);
    var problem := LoadInventoryRows(inventory);
    if problem.Some? { return Err(problem.value); }
    var chosen := SelectRows(source.harnesses, indexed.value, inventory.rows, keys);
    if chosen.Err? { return Err(chosen.error); }
    return Ok(Report(2, Totals(Recounts, chosen.value), chosen.value));
  }

  lemma {:induction false} NoChoice(source: seq<Entry>, rows: seq<Row>, i: nat, byKey: map<Key, Entry>, keys: seq<Key>)
    requires i < |rows| && GroupedBy(byKey, source, keys)
    requires KeyOf(rows[i]) !in byKey || !IsFinalProof(byKey[KeyOf(rows[i])])
    ensures forall chosen :: !Selects(source, rows, chosen)
  {
    var key := KeyOf(rows[i]);
    forall e | e in source ensures HasKey(e) && (EntryKey(e) != key || !IsFinalProof(e)) {
      var k :| 0 <= k < |source| && source[k] == e;
    }
    forall chosen ensures !Selects(source, rows, chosen) {
      if |chosen| == |rows| {
        var e := chosen[i];
        assert e !in source || EntryKey(e) != key || !IsFinalProof(e);
      }
    }
  }

  lemma {:induction false} CutRowsCounted(chosen: seq<Entry>)
    requires forall i :: 0 <= i < |chosen| ==> IsFinalProof(chosen[i]) && Accounted(chosen[i])
    ensures Gaps(Report(2, Totals(Recounts, chosen), chosen)) == []
  {
    forall i | 0 <= i < |chosen|
      ensures Recounts(KnownFpCount, chosen[i]) == IsKnownFp(chosen[i]) &&
              Recounts(TrustedCount, chosen[i]) == IsTrusted(chosen[i])
    {
      assert IsFinalProof(chosen[i]) && Accounted(chosen[i]);
    }
    TallyIsCount(Recounts, KnownFpCount, IsKnownFp, chosen);
    TallyIsCount(Recounts, TrustedCount, IsTrusted, chosen);
    GapsMeaning(Report(2, Totals(Recounts, chosen), chosen));
  }

  lemma {:induction false} SoundSourceRows(source: Report, chosen: seq<Entry>)
    requires Gaps(source) == [] && forall i :: 0 <= i < |chosen| ==> chosen[i] in source.harnesses
    ensures forall i :: 0 <= i < |chosen| ==> Accounted(chosen[i])
  {
    GapsMeaning(source);
    forall i | 0 <= i < |chosen| ensures Accounted(chosen[i]) {
      var k :| 0 <= k < |source.harnesses| && source.harnesses[k] == chosen[i];
    }
  }

  /** Cutting a report keeps its accounting sound, and more: the cut has no gaps exactly when the
      selected rows carry the right flags, whatever the rest of the source looked like. */
  lemma {:induction false} CutKeepsAccounting(source: Report, inventory: ProofInventory, chosen: seq<Entry>)
    requires CanCut(source, inventory, chosen)
    ensures Gaps(Report(2, Totals(Recounts, chosen), chosen)) == [] <==>
            forall i :: 0 <= i < |chosen| ==> Accounted(chosen[i])
    ensures Gaps(source) == [] ==> Gaps(Report(2, Totals(Recounts, chosen), chosen)) == []
  {
    if Gaps(source) == [] { SoundSourceRows(source, chosen); }
    if forall i :: 0 <= i < |chosen| ==> Accounted(chosen[i]) {
      CutRowsCounted(chosen);
    } else {
      GapsMeaning(Report(2, Totals(Recounts, chosen), chosen));
    }
  }

  /** A cut report passes the gate for the inventory's size exactly when the inventory has rows and
      each selected row is clean; that no harness is listed twice and that the counts are right needs no more. */
  lemma {:induction false} CutPassesGateExactly(source: Report, inventory: ProofInventory, chosen: seq<Entry>)
    requires CanCut(source, inventory, chosen)
    ensures Failures(Report(2, Totals(Recounts, chosen), chosen), Some(|inventory.rows|)) == [] <==>
            inventory.rows != [] && forall i :: 0 <= i < |chosen| ==> IsCleanRow(chosen[i])
  {
    GateOnOwnSummary(Recounts, chosen, Some(|inventory.rows|));
    ChosenClean(source, inventory, chosen);
  }

  lemma {:induction false} ChosenClean(source: Report, inventory: ProofInventory, chosen: seq<Entry>)
    requires CanCut(source, inventory, chosen)
    ensures |chosen| == |inventory.rows|
    ensures CleanRows(chosen) <==> forall i :: 0 <= i < |chosen| ==> IsCleanRow(chosen[i])
  {
    ChosenApart(source, inventory, chosen);
  }

  lemma {:induction false} ChosenApart(source: Report, inventory: ProofInventory, chosen: seq<Entry>)
    requires CanCut(source, inventory, chosen)
    ensures |chosen| == |inventory.rows| && forall i, j :: 0 <= i < j < |chosen| ==> !SameEntry(chosen[i], chosen[j])
  {
    forall i, j | 0 <= i < j < |chosen| ensures !SameEntry(chosen[i], chosen[j]) {
      assert KeyOf(inventory.rows[i]) != KeyOf(inventory.rows[j]);
      assert EntryKey(chosen[i]) == KeyOf(inventory.rows[i]) && EntryKey(chosen[j]) == KeyOf(inventory.rows[j]);
    }
  }

  // ---------------------------------------------------------------------
  // From the public run to the gate
  // ---------------------------------------------------------------------

  /** The driver runs whose rows are clean: asked for a proof, got it from its own harness in time
      with exit status zero, and no fallback, qualifier or retry of any kind. */
  lemma {:induction false} CleanRunMeaning(plan: seq<PublicRunner.PlanRow>, driver: nat -> PublicRunner.Run, i: nat)
    requires i < |plan|
    ensures var row, run := plan[i], driver(i);
            IsCleanRow(PublicRunner.FlatAt(plan, driver, i)) <==>
              && row.active && row.expected.Proof? && Strip(row.file) != "" && Strip(row.harness) != ""
              && run.output.selected == [row.driverHarness] && !run.timedOut && run.exitCode == 0
              && run.output.finals != [] && run.output.finals[|run.output.finals| - 1].Proved?
              && !run.output.panicsOnly && run.output.qualifiers == Clean
              && run.output.soundFallback == 0 && run.output.marks == {}
  {
  }

  /** On the rows of a public run both counted summaries are the same. */
  lemma {:induction false} RunSummariesAgree(
    plan: seq<PublicRunner.PlanRow>, driver: nat -> PublicRunner.Run, flats: seq<Entry>)
    requires PublicRunner.FlatsOf(plan, driver, flats)
    ensures Totals(Recounts, flats) == Totals(PublicRunner.Counts, flats)
  {
    forall f: Field ensures Tally(Recounts, f, flats) == Tally(PublicRunner.Counts, f, flats) {
      forall i | 0 <= i < |flats| ensures Recounts(f, flats[i]) == PublicRunner.Counts(f, flats[i]) {
        RunRowCountsAgree(plan, driver, i, f);
        assert flats[i] == PublicRunner.FlatAt(plan, driver, i);
      }
      TalliesAgree(Recounts, f, PublicRunner.Counts, f, flats);
    }
  }

  lemma {:induction false} RunRowCountsAgree(
    plan: seq<PublicRunner.PlanRow>, driver: nat -> PublicRunner.Run, i: nat, f: Field)
    requires i < |plan|
    ensures var e := PublicRunner.FlatAt(plan, driver, i); Recounts(f, e) == PublicRunner.Counts(f, e)
  {
  }
}
