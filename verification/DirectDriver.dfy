/** The report derived from direct driver runs (`scripts/direct_driver_proof_core.py`). */
module DirectDriver {
  import opened Delimiters
  import opened DriverCommand
  import opened DriverLog
  import opened Inventory
  import opened Ordering
  import opened ProofGate
  import opened Reports
  import opened Wrappers
  import PublicRunner

  /** A manifest entry; `log` is absent when it cannot be read. */
  datatype DirectRun = DirectRun(
    file: string, harness: string, exitCode: int, command: Command, log: Option<seq<LogLine>>, badTime: bool)

  datatype RunProblem =
    | NoRuns | BadFile(index: nat) | BadHarness(index: nat) | NotInInventory(index: nat) | DuplicateRun(index: nat)
    | BadExit(index: nat) | BadCommand(index: nat) | UnreadableLog(index: nat) | BadLog(index: nat)
    | BadTime(index: nat)

  function RunKey(paths: Paths, run: DirectRun): Key
    requires paths.normalize(run.file).Some?
  {
    (paths.normalize(run.file).value, run.harness)
  }

  /** All that `_derive_rows` asks of one run but that it is not a repeat. */
  predicate RunOk(paths: Paths, proofKeys: set<Key>, run: DirectRun) {
    && paths.normalize(run.file).Some? && Strip(run.harness) != ""
    && RunKey(paths, run) in proofKeys
    && run.exitCode == 0
    && CommandOk(paths, run.command, run.harness, paths.normalize(run.file).value)
    && run.log.Some? && LogOk(run.log.value, run.harness)
    && !run.badTime
  }

  ghost predicate KeyedBy(good: (DirectRun, Key) -> bool, runs: seq<DirectRun>, keys: seq<Key>) {
    |keys| == |runs| && forall i :: 0 <= i < |runs| ==> good(runs[i], keys[i])
  }

  lemma {:induction false} OneMoreGood(
    good: (DirectRun, Key) -> bool, runs: seq<DirectRun>, keys: seq<Key>, i: nat, key: Key)
    requires i < |runs| && KeyedBy(good, runs[..i], keys) && good(runs[i], key)
    ensures KeyedBy(good, runs[..i+1], keys + [key])
  {
    assert runs[..i+1] == runs[..i] + [runs[i]];
  }

  /** The run is fine, and this is its key. */
  function Good(paths: Paths, proofKeys: set<Key>): (DirectRun, Key) -> bool {
    (run: DirectRun, key: Key) => RunOk(paths, proofKeys, run) && key == RunKey(paths, run)
  }

  /** Every run is fine, and these are their keys. */
  ghost predicate Keyed(paths: Paths, proofKeys: set<Key>, runs: seq<DirectRun>, keys: seq<Key>) {
    KeyedBy(Good(paths, proofKeys), runs, keys)
  }

  function DirectRow(key: Key): Entry {
    Entry(Some(key.0), Some(key.1), Some(Proved), Some(Pass), Some(Proof), Absent, Is(true),
          Some(Complete), Some(FinalMarker(Proved)), Num(0), Clean, {})
  }

  function NameOf(e: Entry): Key {
    (if e.file.Some? then e.file.value else "", if e.harness.Some? then e.harness.value else "")
  }

  predicate EntryLe(a: Entry, b: Entry) { KeyLe(NameOf(a), NameOf(b)) }

  method CheckRun(paths: Paths, proofKeys: set<Key>, seen: set<Key>, run: DirectRun, at: nat)
    returns (problem: Option<RunProblem>)
    ensures problem.None? <==> RunOk(paths, proofKeys, run) && RunKey(paths, run) !in seen
  {
    var file := paths.normalize(run.file);
    if file.None? { return Some(BadFile(at)); }
    if Strip(run.harness) == "" { return Some(BadHarness(at)); }
    var key := (file.value, run.harness);
    if key !in proofKeys { return Some(NotInInventory(at)); }
    if key in seen { return Some(DuplicateRun(at)); }
    if run.exitCode != 0 { return Some(BadExit(at)); }
    var accepted := ValidateCommand(paths, run.command, run.harness, file.value);
    if !accepted { return Some(BadCommand(at)); }
    if run.log.None? { return Some(UnreadableLog(at)); }
    if !LogOk(run.log.value, run.harness) { return Some(BadLog(at)); }
    if run.badTime { return Some(BadTime(at)); }
    return None;
  }

  lemma {:induction false} OneMoreKeyed(paths: Paths, proofKeys: set<Key>, runs: seq<DirectRun>, keys: seq<Key>, i: nat)
    requires i < |runs| && Keyed(paths, proofKeys, runs[..i], keys) && RunOk(paths, proofKeys, runs[i])
    ensures Keyed(paths, proofKeys, runs[..i+1], keys + [RunKey(paths, runs[i])])
  {
    OneMoreGood(Good(paths, proofKeys), runs, keys, i, RunKey(paths, runs[i]));
  }

  /** The loop of `_derive_rows`. */
  method CheckRuns(paths: Paths, proofKeys: set<Key>, runs: seq<DirectRun>) returns (r: Result<seq<Key>, RunProblem>)
    ensures r.Ok? ==> Keyed(paths, proofKeys, runs, r.value) && Distinct(r.value)
    ensures r.Err? ==> !exists keys :: Keyed(paths, proofKeys, runs, keys) && Distinct(keys)
  {
    var keys: seq<Key> := [];
    var seen: set<Key> := {};
    var i := 0;
    while i < |runs|
      invariant 0 <= i <= |runs|
      invariant Keyed(paths, proofKeys, runs[..i], keys) && Distinct(keys)
      invariant forall k :: k in seen <==> k in keys
    {
      var problem := CheckRun(paths, proofKeys, seen, runs[i], i);
      if problem.Some? {
        NoKeys(paths, proofKeys, runs, keys, i);
        return Err(problem.value);
      }
      var key := RunKey(paths, runs[i]);
      OneMoreKeyed(paths, proofKeys, runs, keys, i);
      seen, keys := seen + {key}, keys + [key];
      i := i + 1;
    }
    assert runs[..i] == runs;
    return Ok(keys);
  }

  lemma {:induction false} NoKeys(paths: Paths, proofKeys: set<Key>, runs: seq<DirectRun>, keys: seq<Key>, i: nat)
    requires i < |runs| && Keyed(paths, proofKeys, runs[..i], keys)
    requires !RunOk(paths, proofKeys, runs[i]) || RunKey(paths, runs[i]) in keys
    ensures !exists all :: Keyed(paths, proofKeys, runs, all) && Distinct(all)
  {
    forall all | Keyed(paths, proofKeys, runs, all) ensures !Distinct(all) {
      var j :| 0 <= j < |keys| && keys[j] == RunKey(paths, runs[i]);
      assert runs[..i][j] == runs[j];
      assert all[j] == all[i];
    }
  }

  /** `_derive_rows`: one row a run, sorted by key; nothing is derived if any run is refused. */
  method DeriveRows(paths: Paths, proofKeys: set<Key>, runs: seq<DirectRun>) returns (r: Result<seq<Entry>, RunProblem>)
    ensures r.Ok? ==> IsDerived(paths, proofKeys, runs, r.value)
    ensures r.Err? ==> runs == [] || !exists keys :: Keyed(paths, proofKeys, runs, keys) && Distinct(keys)
  {
    if runs == [] { return Err(NoRuns); }
    var keys := CheckRuns(paths, proofKeys, runs);
    if keys.Err? { return Err(keys.error); }
    return Ok(StableSort(EntryLe, Map(DirectRow, keys.value)));
  }

  /** The rows of runs, at least one and all fine, each listed once, in key order. */
  ghost predicate IsDerived(paths: Paths, proofKeys: set<Key>, runs: seq<DirectRun>, rows: seq<Entry>) {
    runs != [] &&
    exists keys ::
      Keyed(paths, proofKeys, runs, keys) && Distinct(keys) && rows == StableSort(EntryLe, Map(DirectRow, keys))
  }

  /** What derived rows stand for. Every run names a harness of the proof inventory that no other run
      names, exited with zero, and has an acceptable command, log and time; and there is one row a run,
      in key order, a trusted, clean and complete proof. */
  lemma {:induction false} DerivedMeaning(paths: Paths, proofKeys: set<Key>, runs: seq<DirectRun>, rows: seq<Entry>)
    requires IsDerived(paths, proofKeys, runs, rows)
    ensures runs != [] && |rows| == |runs|
    ensures forall i :: 0 <= i < |runs| ==>
              && paths.normalize(runs[i].file).Some? && Strip(runs[i].harness) != ""
              && (paths.normalize(runs[i].file).value, runs[i].harness) in proofKeys
              && runs[i].exitCode == 0 && !runs[i].badTime
              && CommandOk(paths, runs[i].command, runs[i].harness, paths.normalize(runs[i].file).value)
              && runs[i].log.Some? && LogOk(runs[i].log.value, runs[i].harness)
    ensures forall i, j :: 0 <= i < j < |runs| ==>
              (paths.normalize(runs[i].file).value, runs[i].harness) !=
              (paths.normalize(runs[j].file).value, runs[j].harness)
    ensures forall i :: 0 <= i < |runs| ==>
              exists k :: 0 <= k < |rows| && IsProofRow(rows[k], paths.normalize(runs[i].file).value, runs[i].harness)
    ensures SortedBy(EntryLe, rows)
  {
    var keys: seq<Key> :|
      Keyed(paths, proofKeys, runs, keys) && Distinct(keys) && rows == StableSort(EntryLe, Map(DirectRow, keys));
    SortedNamesDistinct(keys);
    EntriesAreOrdered();
    SortSorts(EntryLe, Map(DirectRow, keys));
    SortMembers(EntryLe, Map(DirectRow, keys));
    forall i | 0 <= i < |runs| ensures RunOk(paths, proofKeys, runs[i]) && keys[i] == RunKey(paths, runs[i]) {
      assert Good(paths, proofKeys)(runs[i], keys[i]);
    }
    forall i | 0 <= i < |runs|
      ensures exists k :: 0 <= k < |rows| && IsProofRow(rows[k], paths.normalize(runs[i].file).value, runs[i].harness)
    {
      assert Map(DirectRow, keys)[i] == DirectRow(keys[i]);
      assert DirectRow(keys[i]) in rows;
      var k :| 0 <= k < |rows| && rows[k] == DirectRow(keys[i]);
      assert IsProofRow(rows[k], keys[i].0, keys[i].1);
    }
  }

  predicate IsProofRow(e: Entry, file: string, harness: string) {
    && (e.file, e.harness) == (Some(file), Some(harness))
    && e.verdict == Some(Proved) && e.status == Some(Pass) && e.expected == Some(Proof)
    && e.state == Some(Complete) && e.details == Some(FinalMarker(Proved)) && e.trusted == Is(true)
    && e.fallback == Num(0) && e.qualifiers == Clean && e.marks == {} && e.knownFp == Absent
  }

  lemma {:induction false} EntriesAreOrdered()
    ensures TotalPreorder(EntryLe)
  {
    forall x: Entry, y: Entry, z: Entry
      ensures (EntryLe(x, y) || EntryLe(y, x)) && (EntryLe(x, y) && EntryLe(y, z) ==> EntryLe(x, z))
    {
      KeysAreOrdered(NameOf(x), NameOf(y), NameOf(z));
    }
  }

  /** Which rows each count of `_summary` counts: all of them or none. */
  predicate DirectCounts(f: Field, e: Entry) {
    f.Total? || f.PassCount? || f.ProofCount? || f.TrustedCount? || f.CleanCount? || f.CompleteCount?
  }

  lemma {:induction false} DirectRowIsClean(key: Key)
    requires "tests/" <= key.0 && Strip(key.1) != ""
    ensures IsCleanRow(DirectRow(key)) && Accounted(DirectRow(key))
    ensures forall f :: DirectCounts(f, DirectRow(key)) == Recounts(f, DirectRow(key))
    ensures forall f :: DirectCounts(f, DirectRow(key)) == PublicRunner.Counts(f, DirectRow(key))
  {
    NotBlank(key.0);
  }

  predicate IsDirectRow(e: Entry) {
    var key := NameOf(e);
    e == DirectRow(key) && "tests/" <= key.0 && Strip(key.1) != ""
  }

  lemma {:induction false} SortedMember(keys: seq<Key>, e: Entry)
    requires e in StableSort(EntryLe, Map(DirectRow, keys))
    ensures NameOf(e) in keys && e == DirectRow(NameOf(e))
  {
    var unsorted := Map(DirectRow, keys);
    SortMembers(EntryLe, unsorted);
    var k :| 0 <= k < |unsorted| && unsorted[k] == e;
    assert NameOf(e) == keys[k];
  }

  lemma {:induction false} SortedNamesDistinct(keys: seq<Key>)
    requires Distinct(keys)
    ensures |StableSort(EntryLe, Map(DirectRow, keys))| == |keys|
    ensures Distinct(Map(NameOf, StableSort(EntryLe, Map(DirectRow, keys))))
  {
    var unsorted := Map(DirectRow, keys);
    var rows := StableSort(EntryLe, unsorted);
    SortContents(EntryLe, unsorted);
    MapOfPermuted(NameOf, unsorted, rows);
    assert Map(NameOf, unsorted) == keys;
    DistinctOfPermuted(Map(NameOf, unsorted), Map(NameOf, rows));
  }

  lemma {:induction false} SortedDirectRow(keys: seq<Key>, e: Entry)
    requires forall i :: 0 <= i < |keys| ==> "tests/" <= keys[i].0 && Strip(keys[i].1) != ""
    requires e in StableSort(EntryLe, Map(DirectRow, keys))
    ensures IsDirectRow(e) && IsCleanRow(e)
  {
    SortedMember(keys, e);
    DirectRowIsClean(NameOf(e));
  }

  lemma {:induction false} DistinctNames(rows: seq<Entry>)
    requires Distinct(Map(NameOf, rows))
    ensures forall i, j :: 0 <= i < j < |rows| ==> !SameEntry(rows[i], rows[j])
  {
    var names := Map(NameOf, rows);
    forall i, j | 0 <= i < j < |rows| ensures !SameEntry(rows[i], rows[j]) {
      assert names[i] != names[j];
    }
  }

  lemma {:induction false} SortedDirectRows(keys: seq<Key>, rows: seq<Entry>)
    requires Distinct(keys) && forall i :: 0 <= i < |keys| ==> "tests/" <= keys[i].0 && Strip(keys[i].1) != ""
    requires rows == StableSort(EntryLe, Map(DirectRow, keys))
    ensures |rows| == |keys| && (forall i :: 0 <= i < |rows| ==> IsDirectRow(rows[i])) && CleanRows(rows)
  {
    SortedNamesDistinct(keys);
    DistinctNames(rows);
    forall i | 0 <= i < |rows| ensures IsDirectRow(rows[i]) && IsCleanRow(rows[i]) {
      SortedDirectRow(keys, rows[i]);
    }
  }

  lemma {:induction false} SameTotals(rows: seq<Entry>)
    requires forall i :: 0 <= i < |rows| ==> IsDirectRow(rows[i])
    ensures Totals(DirectCounts, rows) == Totals(Recounts, rows) == Totals(PublicRunner.Counts, rows)
  {
    forall f: Field
      ensures Tally(DirectCounts, f, rows) == Tally(Recounts, f, rows) == Tally(PublicRunner.Counts, f, rows)
    {
      forall i | 0 <= i < |rows|
        ensures DirectCounts(f, rows[i]) == Recounts(f, rows[i]) &&
                DirectCounts(f, rows[i]) == PublicRunner.Counts(f, rows[i])
      {
        DirectRowIsClean(NameOf(rows[i]));
      }
      TalliesAgree(DirectCounts, f, Recounts, f, rows);
      TalliesAgree(DirectCounts, f, PublicRunner.Counts, f, rows);
    }
  }

  /** The report a direct run writes. */
  function DirectReport(rows: seq<Entry>): Report { Report(2, Totals(DirectCounts, rows), rows) }

  /** Whatever rows are derived from direct runs pass the gate for as many harnesses as there are
      runs and have no accounting gaps, and their constant summary is the one both other tools
      would count. */
  lemma {:induction false} DirectEvidencePasses(
    paths: Paths, proofKeys: set<Key>, runs: seq<DirectRun>, rows: seq<Entry>)
    requires NormalizesToTests(paths) && IsDerived(paths, proofKeys, runs, rows)
    ensures Failures(DirectReport(rows), Some(|runs|)) == []
    ensures Gaps(DirectReport(rows)) == []
    ensures Totals(DirectCounts, rows) == Totals(Recounts, rows) == Totals(PublicRunner.Counts, rows)
  {
    var keys: seq<Key> :|
      Keyed(paths, proofKeys, runs, keys) && Distinct(keys) && rows == StableSort(EntryLe, Map(DirectRow, keys));
    forall i | 0 <= i < |keys| ensures "tests/" <= keys[i].0 && Strip(keys[i].1) != "" {
      assert RunOk(paths, proofKeys, runs[i]) && keys[i] == RunKey(paths, runs[i]);
    }
    SortedDirectRows(keys, rows);
    SameTotals(rows);
    GateOnOwnSummary(Recounts, rows, Some(|runs|));
    NoGapsInDirectRows(rows);
  }

  lemma {:induction false} NoGapsInDirectRows(rows: seq<Entry>)
    requires forall i :: 0 <= i < |rows| ==> IsDirectRow(rows[i])
    ensures Gaps(DirectReport(rows)) == []
  {
    forall i | 0 <= i < |rows|
      ensures Accounted(rows[i]) && DirectCounts(KnownFpCount, rows[i]) == IsKnownFp(rows[i]) &&
              DirectCounts(TrustedCount, rows[i]) == IsTrusted(rows[i])
    {
      DirectRowIsClean(NameOf(rows[i]));
    }
    TallyIsCount(DirectCounts, KnownFpCount, IsKnownFp, rows);
    TallyIsCount(DirectCounts, TrustedCount, IsTrusted, rows);
    GapsMeaning(DirectReport(rows));
  }
}
