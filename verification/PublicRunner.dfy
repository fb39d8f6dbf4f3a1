/** The public replacement run: `scripts/replacement_public_runner.py`, and the runtime-record
    validator of `scripts/replacement_harness_dispositions.py` that reads what it wrote. A driver's
    output is taken with its markers already recognised. */
module PublicRunner {
  import opened Inventory
  import opened Ordering
  import opened Reports
  import opened Wrappers

  // ---------------------------------------------------------------------
  // Plans and driver results
  // ---------------------------------------------------------------------

  datatype PlanRow = PlanRow(
    file: string, harness: string, expected: Outcome, active: bool, reason: string, driverHarness: string)

  /** The words of the final verdict marker. */
  type Final = v: Verdict | v.Proved? || v.Ctrexed? || v.Undecided? || v.Errored? witness Proved

  datatype Output = Output(
    selected: seq<string>, finals: seq<Final>, panicsOnly: bool, ctrexUnknown: bool, unknownReason: string,
    cleanup: bool, artifactError: bool, rustcError: bool,
    soundFallback: nat, qualifiers: Qualifiers, marks: set<Mark>)

  datatype Run = Run(exitCode: int, timedOut: bool, output: Output)

  datatype Record = Record(
    schema: int, file: string, harness: string, verdict: Verdict, status: Status,
    expected: Outcome, state: State, details: Details)

  function PlanKey(row: PlanRow): Key { (row.file, row.harness) }
  function RecordKey(r: Record): Key { (r.file, r.harness) }

  predicate SawUnknown(o: Output) { UnknownQuality in o.marks || UnknownReason in o.marks || o.ctrexUnknown }

  predicate Answered(o: Output) { o.finals != [] || (!o.cleanup && SawUnknown(o)) }

  /** A run counts as complete when it checked exactly its harness, in time, and gave an answer. */
  function StateOf(row: PlanRow, run: Run): State {
    var o := run.output;
    if o.selected != [row.driverHarness] then IdentityMismatch
    else if run.timedOut then WatchdogTimeout
    else if Answered(o) then Complete
    else if o.cleanup then WatchdogCleanup
    else MissingVerdict
  }

  /** A counterexample that is only the panic a `should_panic` harness wants is a proof. */
  function VerdictOf(row: PlanRow, run: Run): Verdict {
    var o := run.output;
    if !StateOf(row, run).Complete? then Errored
    else if o.finals == [] then Undecided
    else
      var last := o.finals[|o.finals| - 1];
      if last.Ctrexed? && o.panicsOnly then Proved else last
  }

  predicate Agrees(v: Verdict, expected: Outcome) {
    match expected
    case Proof => v.Proved?
    case Ctrex => v.Ctrexed?
    case Unknown => v.Undecided?
    case Failure => v.Errored?
    case BmcSafe => v.Bmc? || v.Proved?
    case Other(_) => false
  }

  predicate Passes(row: PlanRow, run: Run) {
    && StateOf(row, run).Complete?
    && Agrees(VerdictOf(row, run), row.expected)
    && (row.expected.Proof? ==> run.exitCode == 0)
  }

  function DetailsOf(row: PlanRow, run: Run): Details {
    var o := run.output;
    match StateOf(row, run)
    case IdentityMismatch => SelectedMismatch
    case WatchdogTimeout => OuterTimeout
    case WatchdogCleanup => MemoryCleanup
    case Complete => if o.finals != [] then FinalMarker(o.finals[|o.finals| - 1]) else UnknownMarker(o.unknownReason)
    case _ => if o.artifactError then ArtifactError else if o.rustcError then RustcError else NoFinalMarker
  }

  function FlatOf(row: PlanRow, run: Run): Entry {
    var verdict, passed := VerdictOf(row, run), Passes(row, run);
    Entry(Some(row.file), Some(row.harness), Some(verdict), Some(if passed then Pass else Fail), Some(row.expected),
          Absent, if verdict.Proved? && passed then Is(true) else Absent,
          Some(StateOf(row, run)), Some(DetailsOf(row, run)), Num(run.output.soundFallback),
          if verdict.Proved? && run.output.panicsOnly then ShouldPanic else run.output.qualifiers,
          run.output.marks)
  }

  function RecordOf(row: PlanRow, run: Run): Record {
    Record(2, row.file, row.harness, VerdictOf(row, run), if Passes(row, run) then Pass else Fail,
           row.expected, StateOf(row, run), DetailsOf(row, run))
  }

  /** `parse_driver_result`: the branches in the order they are tried. */
  method ParseDriverResult(row: PlanRow, run: Run) returns (flat: Entry, record: Record)
    ensures flat == FlatOf(row, run) && record == RecordOf(row, run)
  {
    var o := run.output;
    var verdict: Option<Verdict> := if o.finals != [] then Some(o.finals[|o.finals| - 1]) else None;
    if verdict.None? && SawUnknown(o) { verdict := Some(Undecided); }
    var state, details;
    if o.selected != [row.driverHarness] {
      state, details, verdict := IdentityMismatch, SelectedMismatch, Some(Errored);
    } else if run.timedOut {
      state, details, verdict := WatchdogTimeout, OuterTimeout, Some(Errored);
    } else if o.finals != [] {
      state, details := Complete, FinalMarker(o.finals[|o.finals| - 1]);
    } else if o.cleanup {
      state, details, verdict := WatchdogCleanup, MemoryCleanup, Some(Errored);
    } else if verdict == Some(Undecided) {
      state, details := Complete, UnknownMarker(o.unknownReason);
    } else {
      state, verdict := MissingVerdict, Some(Errored);
      details := if o.artifactError then ArtifactError else if o.rustcError then RustcError else NoFinalMarker;
    }
    if verdict == Some(Ctrexed) && o.panicsOnly { verdict := Some(Proved); }
    var v := verdict.value;
    var matched := state.Complete? && Agrees(v, row.expected);
    if row.expected.Proof? && run.exitCode != 0 { matched := false; }
    var status := if matched then Pass else Fail;
    flat := Entry(Some(row.file), Some(row.harness), Some(v), Some(status), Some(row.expected),
                  Absent, if v.Proved? && matched then Is(true) else Absent,
                  Some(state), Some(details), Num(o.soundFallback),
                  if v.Proved? && o.panicsOnly then ShouldPanic else o.qualifiers, o.marks);
    record := Record(2, row.file, row.harness, v, status, row.expected, state, details);
  }

  function InactiveFlat(row: PlanRow): Entry {
    Entry(Some(row.file), Some(row.harness), Some(Skip), Some(Skipped), Some(row.expected),
          Absent, Absent, Some(InactiveAccounted), Some(Text(row.reason)), Num(0), NoQualifiers, {})
  }

  function InactiveRecord(row: PlanRow): Record {
    Record(2, row.file, row.harness, Skip, Skipped, row.expected, InactiveAccounted, Text(row.reason))
  }

  function FlatAt(plan: seq<PlanRow>, driver: nat -> Run, i: nat): Entry
    requires i < |plan|
  {
    if plan[i].active then FlatOf(plan[i], driver(i)) else InactiveFlat(plan[i])
  }

  function RecordAt(plan: seq<PlanRow>, driver: nat -> Run, i: nat): Record
    requires i < |plan|
  {
    if plan[i].active then RecordOf(plan[i], driver(i)) else InactiveRecord(plan[i])
  }

  predicate IsActive(row: PlanRow) { row.active }

  /** `execute_plan`: one flat row and one record a plan row, and one manifest entry a driver run. */
  method ExecutePlan(plan: seq<PlanRow>, driver: nat -> Run)
    returns (flats: seq<Entry>, records: seq<Record>, runs: seq<PlanRow>)
    ensures |flats| == |records| == |plan|
    ensures forall i :: 0 <= i < |plan| ==>
              flats[i] == FlatAt(plan, driver, i) && records[i] == RecordAt(plan, driver, i)
    ensures runs == Filter(IsActive, plan)
  {
    flats, records, runs := [], [], [];
    var i := 0;
    while i < |plan|
      invariant 0 <= i <= |plan| && |flats| == |records| == i
      invariant forall k :: 0 <= k < i ==>
                  flats[k] == FlatAt(plan, driver, k) && records[k] == RecordAt(plan, driver, k)
      invariant runs == Filter(IsActive, plan[..i])
    {
      var row := plan[i];
      assert plan[..i+1] == plan[..i] + [row];
      FilterAppend(IsActive, plan[..i], [row]);
      var flat, record := InactiveFlat(row), InactiveRecord(row);
      if row.active {
        flat, record := ParseDriverResult(row, driver(i));
        runs := runs + [row];
      }
      flats, records := flats + [flat], records + [record];
      i := i + 1;
    }
    assert plan[..i] == plan;
  }

  // ---------------------------------------------------------------------
  // The record validator
  // ---------------------------------------------------------------------

  predicate ActiveState(s: State) {
    s.Complete? || s.MissingVerdict? || s.WatchdogCleanup? || s.WatchdogTimeout?
  }

  predicate RecordFits(row: PlanRow, r: Record) {
    && r.expected == row.expected
    && (if row.active then !r.verdict.Skip? && !r.status.Skipped? && ActiveState(r.state)
        else r.verdict.Skip? && r.status.Skipped? && r.state.InactiveAccounted? && r.details == Text(row.reason))
  }

  predicate Named(k: Key) { k.0 != "" && k.1 != "" }

  ghost predicate DistinctRecords(records: seq<Record>) {
    forall i, j :: 0 <= i < j < |records| ==> RecordKey(records[i]) != RecordKey(records[j])
  }

  ghost predicate DistinctPlan(plan: seq<PlanRow>) {
    forall i, j :: 0 <= i < j < |plan| ==> PlanKey(plan[i]) != PlanKey(plan[j])
  }

  function PlanKeys(plan: seq<PlanRow>): set<Key> { set i | 0 <= i < |plan| :: PlanKey(plan[i]) }

  function RecordKeys(records: seq<Record>): set<Key> { set i | 0 <= i < |records| :: RecordKey(records[i]) }

  /** Records a plan accepts: one well formed record a key, the same keys, and each fits its row. */
  ghost predicate Accepted(plan: seq<PlanRow>, records: seq<Record>) {
    WellKeyed(records) && RecordKeys(records) == PlanKeys(plan) && Fits(plan, records)
  }

  ghost predicate WellKeyed(records: seq<Record>) {
    && (forall j :: 0 <= j < |records| ==> records[j].schema == 2 && Named(RecordKey(records[j])))
    && DistinctRecords(records)
  }

  ghost predicate Fits(plan: seq<PlanRow>, records: seq<Record>) {
    forall i, j :: 0 <= i < |plan| && 0 <= j < |records| && RecordKey(records[j]) == PlanKey(plan[i]) ==>
      RecordFits(plan[i], records[j])
  }

  datatype Drift =
    | BadVersion(index: nat) | BadIdentity(index: nat) | DuplicateRecord(index: nat) | RowSetDrift | BadRow(index: nat)

  /** What the validator keeps of the records: each under its key. */
  ghost predicate Indexed(byKey: map<Key, Record>, records: seq<Record>) {
    && byKey.Keys == RecordKeys(records)
    && forall j :: 0 <= j < |records| ==>
         RecordKey(records[j]) in byKey && byKey[RecordKey(records[j])] == records[j]
  }

  lemma {:induction false} KeysSnoc(records: seq<Record>, i: nat)
    requires i < |records|
    ensures RecordKeys(records[..i+1]) == RecordKeys(records[..i]) + {RecordKey(records[i])}
    ensures RecordKey(records[i]) in RecordKeys(records[..i]) <==>
            exists j :: 0 <= j < i && RecordKey(records[j]) == RecordKey(records[i])
  {
    var before := records[..i+1];
    assert before == records[..i] + [records[i]];
    forall k | k in RecordKeys(records[..i]) + {RecordKey(records[i])} ensures k in RecordKeys(before) {
      if k == RecordKey(records[i]) {
        assert before[i] == records[i];
      } else {
        var j :| 0 <= j < i && RecordKey(records[..i][j]) == k;
        assert before[j] == records[..i][j];
      }
    }
    if RecordKey(records[i]) in RecordKeys(records[..i]) {
      var j :| 0 <= j < i && RecordKey(records[..i][j]) == RecordKey(records[i]);
      assert RecordKey(records[j]) == RecordKey(records[i]);
    }
    if j :| 0 <= j < i && RecordKey(records[j]) == RecordKey(records[i]) {
      assert RecordKey(records[..i][j]) == RecordKey(records[i]);
    }
  }

  /** The first loop of `validate_runtime_records`: the records by key. */
  method IndexRecords(records: seq<Record>) returns (r: Result<map<Key, Record>, Drift>)
    ensures r.Ok? <==> WellKeyed(records)
    ensures r.Ok? ==> Indexed(r.value, records)
  {
    var byKey: map<Key, Record> := map[];
    var i := 0;
    while i < |records|
      invariant 0 <= i <= |records|
      invariant WellKeyed(records[..i]) && Indexed(byKey, records[..i])
    {
      var record := records[i];
      var key := RecordKey(record);
      if record.schema != 2 { return Err(BadVersion(i)); }
      if !Named(key) { return Err(BadIdentity(i)); }
      KeysSnoc(records, i);
      if key in byKey { return Err(DuplicateRecord(i)); }
      assert records[..i+1] == records[..i] + [record];
      byKey := byKey[key := record];
      i := i + 1;
    }
    assert records[..i] == records;
    return Ok(byKey);
  }

  ghost predicate AllFit(plan: seq<PlanRow>, byKey: map<Key, Record>) {
    forall i :: 0 <= i < |plan| && PlanKey(plan[i]) in byKey ==> RecordFits(plan[i], byKey[PlanKey(plan[i])])
  }

  /** The last loop of `validate_runtime_records`. */
  method CheckPlanRows(plan: seq<PlanRow>, byKey: map<Key, Record>) returns (problem: Option<Drift>)
    requires forall i :: 0 <= i < |plan| ==> PlanKey(plan[i]) in byKey
    ensures problem.None? <==> AllFit(plan, byKey)
  {
    var i := 0;
    while i < |plan|
      invariant 0 <= i <= |plan|
      invariant forall k :: 0 <= k < i ==> RecordFits(plan[k], byKey[PlanKey(plan[k])])
    {
      if !RecordFits(plan[i], byKey[PlanKey(plan[i])]) { return Some(BadRow(i)); }
      i := i + 1;
    }
    return None;
  }

  lemma {:induction false} AllFitByIndex(plan: seq<PlanRow>, records: seq<Record>, byKey: map<Key, Record>)
    requires Indexed(byKey, records)
    ensures Fits(plan, records) <==> AllFit(plan, byKey)
  {
    if Fits(plan, records) {
      forall i | 0 <= i < |plan| && PlanKey(plan[i]) in byKey ensures RecordFits(plan[i], byKey[PlanKey(plan[i])]) {
        assert PlanKey(plan[i]) in RecordKeys(records);
        var j :| 0 <= j < |records| && RecordKey(records[j]) == PlanKey(plan[i]);
        assert byKey[RecordKey(records[j])] == records[j];
      }
    }
    if AllFit(plan, byKey) {
      forall i, j | 0 <= i < |plan| && 0 <= j < |records| && RecordKey(records[j]) == PlanKey(plan[i])
        ensures RecordFits(plan[i], records[j])
      {
        assert byKey[RecordKey(records[j])] == records[j];
      }
    }
  }

  /** `validate_runtime_records`, up to the accounting it writes. */
  method ValidateRuntimeRecords(plan: seq<PlanRow>, records: seq<Record>) returns (problem: Option<Drift>)
    ensures problem.None? <==> Accepted(plan, records)
  {
    var indexed := IndexRecords(records);
    if indexed.Err? { return Some(indexed.error); }
    var byKey := indexed.value;
    if byKey.Keys != PlanKeys(plan) { return Some(RowSetDrift); }
    AllFitByIndex(plan, records, byKey);
    assert forall i :: 0 <= i < |plan| ==> PlanKey(plan[i]) in PlanKeys(plan);
    problem := CheckPlanRows(plan, byKey);
  }

  // ---------------------------------------------------------------------
  // The summary and the exit status
  // ---------------------------------------------------------------------

  /** Which rows each count of `_summary` counts. */
  predicate Counts(f: Field, e: Entry) {
    match f
    case Total => true
    case PassCount => e.status == Some(Pass)
    case ProofCount => e.verdict == Some(Proved)
    case KnownFpCount => Truthy(e.knownFp)
    case TrustedCount => Truthy(e.trusted)
    case CtrexCount => e.verdict == Some(Ctrexed)
    case FailCount => e.status == Some(Fail)
    case UnknownCount => e.verdict == Some(Undecided)
    case ErrorCount => e.verdict == Some(Errored)
    case BmcCount => e.verdict == Some(Bmc)
    case XfailCount => e.status == Some(Xfail)
    case SkipCount => e.status == Some(Skipped)
    case CleanCount => e.qualifiers == Clean
    case ShouldPanicCount => e.qualifiers == ShouldPanic
    case CrosscheckedCount => e.qualifiers.Contains? && e.qualifiers.crosschecked
    case SoundCount => e.qualifiers.Contains? && e.qualifiers.sound
    case MemCount => e.qualifiers.Contains? && e.qualifiers.mem
    case CompleteCount => e.state == Some(Complete)
    case GatedCount => e.state != Some(Complete)
  }

  predicate IsUncredited(row: PlanRow) { !row.active && row.expected.Proof? }

  /** The end of `run`: nonzero when an active row failed or a PROOF row is cfg-disabled. */
  function ExitCode(plan: seq<PlanRow>, flats: seq<Entry>): int {
    if Tally(Counts, FailCount, flats) > 0 || Count(IsUncredited, plan) > 0 then 1 else 0
  }

  ghost predicate FlatsOf(plan: seq<PlanRow>, driver: nat -> Run, flats: seq<Entry>) {
    |flats| == |plan| && forall i :: 0 <= i < |plan| ==> flats[i] == FlatAt(plan, driver, i)
  }

  ghost predicate RecordsOf(plan: seq<PlanRow>, driver: nat -> Run, records: seq<Record>) {
    |records| == |plan| && forall i :: 0 <= i < |plan| ==> records[i] == RecordAt(plan, driver, i)
  }

  // ---------------------------------------------------------------------
  // What the run promises
  // ---------------------------------------------------------------------

  predicate ChecksItsHarness(row: PlanRow, run: Run) { row.active ==> run.output.selected == [row.driverHarness] }

  lemma {:induction false} RecordFacts(plan: seq<PlanRow>, driver: nat -> Run, i: nat)
    requires i < |plan|
    ensures var r := RecordAt(plan, driver, i);
            && RecordKey(r) == PlanKey(plan[i]) && r.schema == 2
            && (RecordFits(plan[i], r) <==> ChecksItsHarness(plan[i], driver(i)))
  {
  }

  lemma {:induction false} KeysCarry(plan: seq<PlanRow>, records: seq<Record>)
    requires |records| == |plan| && DistinctPlan(plan)
    requires forall i :: 0 <= i < |plan| ==> RecordKey(records[i]) == PlanKey(plan[i])
    ensures DistinctRecords(records) && RecordKeys(records) == PlanKeys(plan)
  {
  }

  lemma {:induction false} FitsByIndex(plan: seq<PlanRow>, records: seq<Record>)
    requires |records| == |plan| && DistinctPlan(plan)
    requires forall i :: 0 <= i < |plan| ==> RecordKey(records[i]) == PlanKey(plan[i])
    ensures Fits(plan, records) <==> forall i :: 0 <= i < |plan| ==> RecordFits(plan[i], records[i])
  {
    if forall i :: 0 <= i < |plan| ==> RecordFits(plan[i], records[i]) {
      forall i, j | 0 <= i < |plan| && 0 <= j < |records| && RecordKey(records[j]) == PlanKey(plan[i])
        ensures RecordFits(plan[i], records[j])
      {
        assert PlanKey(plan[j]) == PlanKey(plan[i]);
        assert i == j;
      }
    }
  }

  /** For any plan with distinct, nonempty keys and any driver outputs, the emitted records are
      accepted exactly when every driver run checked exactly the harness it was asked for. */
  lemma {:induction false} RecordsAcceptedExactly(plan: seq<PlanRow>, driver: nat -> Run, records: seq<Record>)
    requires DistinctPlan(plan) && RecordsOf(plan, driver, records)
    requires forall i :: 0 <= i < |plan| ==> Named(PlanKey(plan[i]))
    ensures Accepted(plan, records) <==> forall i :: 0 <= i < |plan| ==> ChecksItsHarness(plan[i], driver(i))
  {
    forall i | 0 <= i < |plan|
      ensures RecordKey(records[i]) == PlanKey(plan[i]) && records[i].schema == 2
      ensures RecordFits(plan[i], records[i]) <==> ChecksItsHarness(plan[i], driver(i))
    {
      RecordFacts(plan, driver, i);
      assert records[i] == RecordAt(plan, driver, i);
    }
    KeysCarry(plan, records);
    FitsByIndex(plan, records);
    assert WellKeyed(records);
  }

  /** What an emitted row owes the accounting check and the exit status. */
  predicate Emitted(row: PlanRow, run: Run, e: Entry) {
    && e.knownFp == Absent && !IsKnownFp(e)
    && e.trusted == (if IsTrusted(e) then Is(true) else Absent)
    && e.status == Some(if !row.active then Skipped else if Passes(row, run) then Pass else Fail)
  }

  lemma {:induction false} RowsAreEmitted(plan: seq<PlanRow>, driver: nat -> Run, flats: seq<Entry>)
    requires FlatsOf(plan, driver, flats)
    ensures forall i :: 0 <= i < |plan| ==> Emitted(plan[i], driver(i), flats[i])
  {
    forall i | 0 <= i < |plan| ensures Emitted(plan[i], driver(i), flats[i]) {
      assert flats[i] == FlatAt(plan, driver, i);
    }
  }

  /** The emitted rows and their summary have no accounting gaps. */
  lemma {:induction false} RunHasNoGaps(plan: seq<PlanRow>, driver: nat -> Run, flats: seq<Entry>)
    requires FlatsOf(plan, driver, flats)
    ensures Gaps(Report(2, Totals(Counts, flats), flats)) == []
  {
    RowsAreEmitted(plan, driver, flats);
    EmittedHasNoGaps(plan, driver, flats);
  }

  lemma {:induction false} EmittedHasNoGaps(plan: seq<PlanRow>, driver: nat -> Run, flats: seq<Entry>)
    requires |flats| == |plan| && forall i :: 0 <= i < |plan| ==> Emitted(plan[i], driver(i), flats[i])
    ensures Gaps(Report(2, Totals(Counts, flats), flats)) == []
  {
    TallyIsCount(Counts, KnownFpCount, IsKnownFp, flats);
    TallyIsCount(Counts, TrustedCount, IsTrusted, flats);
    GapsMeaning(Report(2, Totals(Counts, flats), flats));
  }

  predicate IsSettled(e: Entry) {
    e.status == Some(Pass) || e.status == Some(Fail) || e.status == Some(Skipped)
  }

  lemma {:induction false} StatusesSplit(rows: seq<Entry>)
    requires forall i :: 0 <= i < |rows| ==> IsSettled(rows[i])
    ensures Tally(Counts, PassCount, rows) + Tally(Counts, FailCount, rows) + Tally(Counts, SkipCount, rows) == |rows|
  {
    if rows != [] {
      assert IsSettled(rows[0]);
      StatusesSplit(rows[1..]);
    }
  }

  lemma {:induction false} StatesSplit(rows: seq<Entry>)
    ensures Tally(Counts, CompleteCount, rows) + Tally(Counts, GatedCount, rows) == |rows|
  {
    if rows != [] { StatesSplit(rows[1..]); }
  }

  /** Every row is counted once: passed, failed or skipped, and complete or gated; and the skipped
      are the inactive rows. */
  lemma {:induction false} SummaryAddsUp(plan: seq<PlanRow>, driver: nat -> Run, flats: seq<Entry>)
    requires FlatsOf(plan, driver, flats)
    ensures Tally(Counts, PassCount, flats) + Tally(Counts, FailCount, flats) + Tally(Counts, SkipCount, flats)
            == |plan|
    ensures Tally(Counts, CompleteCount, flats) + Tally(Counts, GatedCount, flats) == |plan|
    ensures Tally(Counts, SkipCount, flats) == |plan| - Count(IsActive, plan)
  {
    RowsAreEmitted(plan, driver, flats);
    EmittedAddUp(plan, driver, flats);
  }

  lemma {:induction false} EmittedAddUp(plan: seq<PlanRow>, driver: nat -> Run, flats: seq<Entry>)
    requires |flats| == |plan| && forall i :: 0 <= i < |plan| ==> Emitted(plan[i], driver(i), flats[i])
    ensures Tally(Counts, PassCount, flats) + Tally(Counts, FailCount, flats) + Tally(Counts, SkipCount, flats)
            == |plan|
    ensures Tally(Counts, CompleteCount, flats) + Tally(Counts, GatedCount, flats) == |plan|
    ensures Tally(Counts, SkipCount, flats) == |plan| - Count(IsActive, plan)
  {
    StatesSplit(flats);
    forall i | 0 <= i < |flats| ensures IsSettled(flats[i]) && (flats[i].status == Some(Skipped) <==> !plan[i].active) {
      assert Emitted(plan[i], driver(i), flats[i]);
    }
    StatusesSplit(flats);
    SkippedAreInactive(plan, flats);
  }

  lemma {:induction false} SkippedAreInactive(plan: seq<PlanRow>, flats: seq<Entry>)
    requires |plan| == |flats|
    requires forall i :: 0 <= i < |plan| ==> (flats[i].status == Some(Skipped) <==> !plan[i].active)
    ensures Tally(Counts, SkipCount, flats) == |plan| - Count(IsActive, plan)
  {
    if plan != [] {
      SkippedAreInactive(plan[1..], flats[1..]);
    }
  }

  /** What passing means: the run was complete and gave the expected answer, a should-panic
      counterexample and a proof for BMC_SAFE included, and for PROOF it also exited with zero. No
      row the harness identity, the clock or the memory guard stopped can pass. */
  lemma {:induction false} PassMeaning(row: PlanRow, run: Run)
    ensures Passes(row, run) <==>
              && run.output.selected == [row.driverHarness] && !run.timedOut && Answered(run.output)
              && var last := if run.output.finals == [] then Undecided else run.output.finals[|run.output.finals| - 1];
                 var proved := last.Proved? || (last.Ctrexed? && run.output.panicsOnly);
                 match row.expected
                 case Proof => proved && run.exitCode == 0
                 case BmcSafe => proved
                 case Ctrex => last.Ctrexed? && !proved
                 case Unknown => last.Undecided?
                 case Failure => last.Errored?
                 case Other(_) => false
  {
  }

  predicate Satisfied(row: PlanRow, run: Run) {
    if row.active then Passes(row, run) else !row.expected.Proof?
  }

  /** The run exits with zero exactly when each row passed or is inactive and not a PROOF row. */
  lemma {:induction false} ExitZeroExactly(plan: seq<PlanRow>, driver: nat -> Run, flats: seq<Entry>)
    requires FlatsOf(plan, driver, flats)
    ensures ExitCode(plan, flats) == 0 <==> forall i :: 0 <= i < |plan| ==> Satisfied(plan[i], driver(i))
  {
    RowsAreEmitted(plan, driver, flats);
    EmittedExit(plan, driver, flats);
  }

  lemma {:induction false} EmittedExit(plan: seq<PlanRow>, driver: nat -> Run, flats: seq<Entry>)
    requires |flats| == |plan| && forall i :: 0 <= i < |plan| ==> Emitted(plan[i], driver(i), flats[i])
    ensures ExitCode(plan, flats) == 0 <==> forall i :: 0 <= i < |plan| ==> Satisfied(plan[i], driver(i))
  {
    TallyBounds(Counts, FailCount, flats);
    CountAll(IsUncredited, plan);
    forall i | 0 <= i < |plan|
      ensures Satisfied(plan[i], driver(i)) <==> !Counts(FailCount, flats[i]) && !IsUncredited(plan[i])
    {
      assert Emitted(plan[i], driver(i), flats[i]);
    }
  }
}
