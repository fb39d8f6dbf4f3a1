/** What the public replacement run writes, told from the plan and the driver's output alone. */
module RunTable {
  import opened Inventory
  import opened Ordering
  import opened PublicRunner
  import opened Reports
  import opened Wrappers

  // ---------------------------------------------------------------------
  // One run
  // ---------------------------------------------------------------------

  /** The driver checked the harness it was asked for, no other, and in time. */
  predicate IsHeard(row: PlanRow, run: Run) { run.output.selected == [row.driverHarness] && !run.timedOut }

  /** What the driver said about the harness: its last verdict marker, or UNKNOWN if there is only a
      marker for that and no memory cleanup. */
  function Answer(row: PlanRow, run: Run): Option<Final> {
    var o := run.output;
    if !IsHeard(row, run) then None
    else if o.finals != [] then Some(o.finals[|o.finals| - 1])
    else if !o.cleanup && (UnknownQuality in o.marks || UnknownReason in o.marks || o.ctrexUnknown) then Some(Undecided)
    else None
  }

  /** A proof, or the panic that a `should_panic` harness wants. */
  predicate GivesProof(row: PlanRow, run: Run) {
    var a := Answer(row, run);
    a == Some(Proved) || (a == Some(Ctrexed) && run.output.panicsOnly)
  }

  predicate GivesCounterexample(row: PlanRow, run: Run) {
    Answer(row, run) == Some(Ctrexed) && !run.output.panicsOnly
  }

  lemma {:induction false} CompleteIsAnswered(row: PlanRow, run: Run)
    ensures StateOf(row, run).Complete? <==> Answer(row, run).Some?
  {
  }

  /** Which of the five states a run ends in. */
  lemma {:induction false} StateMeaning(row: PlanRow, run: Run)
    ensures var s, o := StateOf(row, run), run.output;
            && (s == IdentityMismatch <==> o.selected != [row.driverHarness])
            && (s == WatchdogTimeout <==> o.selected == [row.driverHarness] && run.timedOut)
            && (s == Complete <==> Answer(row, run).Some?)
            && (s == WatchdogCleanup <==> IsHeard(row, run) && o.finals == [] && o.cleanup)
            && (s == MissingVerdict <==> IsHeard(row, run) && Answer(row, run).None? && !o.cleanup)
  {
  }

  /** The verdict of the row: ERROR without an answer, and else the answer, a wanted panic counting
      as a proof. */
  lemma {:induction false} VerdictMeaning(row: PlanRow, run: Run)
    ensures var v := VerdictOf(row, run);
            && (v == Errored <==> Answer(row, run).None? || Answer(row, run) == Some(Errored))
            && (v == Proved <==> GivesProof(row, run))
            && (v == Ctrexed <==> GivesCounterexample(row, run))
            && (v == Undecided <==> Answer(row, run) == Some(Undecided))
  {
  }

  /** The details that go with each state. */
  lemma {:induction false} DetailsMeaning(row: PlanRow, run: Run)
    ensures var d, s, o := DetailsOf(row, run), StateOf(row, run), run.output;
            && (s == IdentityMismatch ==> d == SelectedMismatch)
            && (s == WatchdogTimeout ==> d == OuterTimeout)
            && (s == WatchdogCleanup ==> d == MemoryCleanup)
            && (s == Complete && o.finals != [] ==> d == FinalMarker(Answer(row, run).value))
            && (s == Complete && o.finals == [] ==> d == UnknownMarker(o.unknownReason))
            && (s == MissingVerdict && o.artifactError ==> d == ArtifactError)
            && (s == MissingVerdict && !o.artifactError && o.rustcError ==> d == RustcError)
            && (s == MissingVerdict && !o.artifactError && !o.rustcError ==> d == NoFinalMarker)
  {
  }

  /** The row and the record that a driver run leaves: they name the plan row, carry one state, one
      verdict, one status and the same details, and the row adds what the markers said. */
  lemma {:induction false} RunMeaning(row: PlanRow, run: Run)
    ensures var e, r, o := FlatOf(row, run), RecordOf(row, run), run.output;
            && r.schema == 2 && (r.file, r.harness, r.expected) == (row.file, row.harness, row.expected)
            && (e.file, e.harness, e.expected) == (Some(r.file), Some(r.harness), Some(r.expected))
            && (e.state, e.verdict, e.status, e.details) ==
               (Some(r.state), Some(r.verdict), Some(r.status), Some(r.details))
            && (r.state == Complete <==> Answer(row, run).Some?)
            && (Answer(row, run).None? ==> r.verdict == Errored && r.status == Fail)
            && (Answer(row, run).Some? ==>
                  r.verdict == if GivesProof(row, run) then Proved else Answer(row, run).value)
            && (r.status == Pass <==> Passes(row, run)) && (r.status == Fail <==> !Passes(row, run))
            && e.knownFp == Absent
            && e.trusted == (if GivesProof(row, run) && Passes(row, run) then Is(true) else Absent)
            && e.fallback == Num(o.soundFallback) && e.marks == o.marks
            && e.qualifiers == (if GivesProof(row, run) && o.panicsOnly then ShouldPanic else o.qualifiers)
  {
    VerdictMeaning(row, run);
    CompleteIsAnswered(row, run);
  }

  /** The row and the record of a plan row that is not run. */
  lemma {:induction false} InactiveMeaning(row: PlanRow)
    ensures var e, r := InactiveFlat(row), InactiveRecord(row);
            && r.schema == 2 && (r.file, r.harness, r.expected) == (row.file, row.harness, row.expected)
            && (e.file, e.harness, e.expected) == (Some(r.file), Some(r.harness), Some(r.expected))
            && (e.state, e.verdict, e.status, e.details) ==
               (Some(r.state), Some(r.verdict), Some(r.status), Some(r.details))
            && r.state == InactiveAccounted && r.verdict == Skip && r.status == Skipped
            && r.details == Text(row.reason) && e.trusted == Absent && e.knownFp == Absent && e.marks == {}
            && e.fallback == Num(0) && e.qualifiers == NoQualifiers
  {
  }

  // ---------------------------------------------------------------------
  // The summary
  // ---------------------------------------------------------------------

  /** Which plan rows each count of the summary is of. */
  predicate Told(f: Field, row: PlanRow, run: Run) {
    match f
    case Total => true
    case PassCount => row.active && Passes(row, run)
    case FailCount => row.active && !Passes(row, run)
    case SkipCount => !row.active
    case CompleteCount => row.active && Answer(row, run).Some?
    case GatedCount => !row.active || Answer(row, run).None?
    case ProofCount => row.active && GivesProof(row, run)
    case TrustedCount => row.active && GivesProof(row, run) && Passes(row, run)
    case CtrexCount => row.active && GivesCounterexample(row, run)
    case UnknownCount => row.active && Answer(row, run) == Some(Undecided)
    case ErrorCount => row.active && (Answer(row, run).None? || Answer(row, run) == Some(Errored))
    case ShouldPanicCount =>
      row.active && ((GivesProof(row, run) && run.output.panicsOnly) || run.output.qualifiers == ShouldPanic)
    case CleanCount => row.active && !(GivesProof(row, run) && run.output.panicsOnly) && run.output.qualifiers == Clean
    case CrosscheckedCount => row.active && Qualified(row, run) && run.output.qualifiers.crosschecked
    case SoundCount => row.active && Qualified(row, run) && run.output.qualifiers.sound
    case MemCount => row.active && Qualified(row, run) && run.output.qualifiers.mem
    case KnownFpCount => false
    case XfailCount => false
    case BmcCount => false
  }

  predicate Qualified(row: PlanRow, run: Run) {
    !(GivesProof(row, run) && run.output.panicsOnly) && run.output.qualifiers.Contains?
  }

  /** How many plan rows a count is of. */
  function Tell(f: Field, plan: seq<PlanRow>, driver: nat -> Run, from: nat): nat
    requires from <= |plan|
    decreases |plan| - from
  {
    if from == |plan| then 0
    else (if Told(f, plan[from], driver(from)) then 1 else 0) + Tell(f, plan, driver, from + 1)
  }

  lemma {:induction false} CountedRun(f: Field, row: PlanRow, run: Run)
    requires row.active
    ensures Counts(f, FlatOf(row, run)) <==> Told(f, row, run)
  {
    RunMeaning(row, run);
    VerdictMeaning(row, run);
  }

  lemma {:induction false} CountedInactive(f: Field, row: PlanRow, run: Run)
    requires !row.active
    ensures Counts(f, InactiveFlat(row)) <==> Told(f, row, run)
  {
    InactiveMeaning(row);
  }

  /** Every count of the summary is the number of plan rows it is of, told from the driver's output. */
  lemma {:induction false} SummaryMeaning(f: Field, plan: seq<PlanRow>, driver: nat -> Run, flats: seq<Entry>)
    requires FlatsOf(plan, driver, flats)
    ensures Get(Totals(Counts, flats), f) == Num(Tell(f, plan, driver, 0))
  {
    assert flats[0..] == flats;
    TellFrom(f, plan, driver, flats, 0);
  }

  lemma {:induction false} TellFrom(f: Field, plan: seq<PlanRow>, driver: nat -> Run, flats: seq<Entry>, from: nat)
    requires FlatsOf(plan, driver, flats) && from <= |plan|
    ensures Tally(Counts, f, flats[from..]) == Tell(f, plan, driver, from)
    decreases |plan| - from
  {
    if from < |plan| {
      TellFrom(f, plan, driver, flats, from + 1);
      assert flats[from..][1..] == flats[from+1..] && flats[from..][0] == flats[from];
      assert flats[from] == FlatAt(plan, driver, from);
      if plan[from].active {
        CountedRun(f, plan[from], driver(from));
      } else {
        CountedInactive(f, plan[from], driver(from));
      }
    }
  }

  // ---------------------------------------------------------------------
  // The records
  // ---------------------------------------------------------------------

  /** Accepted records are one for each plan row, under its key and with its expectation; a row that
      is run has a record of a run that was not skipped, the others one that was, for their reason. */
  lemma {:induction false} AcceptedMeaning(plan: seq<PlanRow>, records: seq<Record>, i: nat) returns (j: nat)
    requires Accepted(plan, records) && i < |plan|
    ensures j < |records| && (records[j].file, records[j].harness) == (plan[i].file, plan[i].harness)
    ensures forall k :: 0 <= k < |records| && k != j ==>
              (records[k].file, records[k].harness) != (plan[i].file, plan[i].harness)
    ensures records[j].schema == 2 && records[j].expected == plan[i].expected
    ensures plan[i].file != "" && plan[i].harness != ""
    ensures if plan[i].active
            then records[j].verdict != Skip && records[j].status != Skipped &&
                 records[j].state in {Complete, MissingVerdict, WatchdogCleanup, WatchdogTimeout}
            else records[j].verdict == Skip && records[j].status == Skipped &&
                 records[j].state == InactiveAccounted && records[j].details == Text(plan[i].reason)
  {
    assert PlanKey(plan[i]) in PlanKeys(plan);
    assert PlanKey(plan[i]) in RecordKeys(records);
    j :| 0 <= j < |records| && RecordKey(records[j]) == PlanKey(plan[i]);
    forall k | 0 <= k < |records| && k != j ensures RecordKey(records[k]) != PlanKey(plan[i]) {
      assert RecordKey(records[k]) != RecordKey(records[j]);
    }
    assert RecordFits(plan[i], records[j]);
  }

  /** And every accepted record is that of a plan row. */
  lemma {:induction false} AcceptedIsPlanned(plan: seq<PlanRow>, records: seq<Record>, j: nat) returns (i: nat)
    requires Accepted(plan, records) && j < |records|
    ensures i < |plan| && (records[j].file, records[j].harness) == (plan[i].file, plan[i].harness)
  {
    assert RecordKey(records[j]) in RecordKeys(records);
    assert RecordKey(records[j]) in PlanKeys(plan);
    i :| 0 <= i < |plan| && PlanKey(plan[i]) == RecordKey(records[j]);
  }
}
