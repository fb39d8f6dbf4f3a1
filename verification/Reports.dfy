/** The schema-version-2 report every evidence tool reads or writes, and the accounting check of
    `scripts/compiletest_proof_accounting.py`. A field a JSON row may lack, or hold a value of the
    wrong type in, says so in its type. */
module Reports {
  import opened Inventory
  import opened Ordering
  import opened Wrappers

  datatype Verdict = Proved | Ctrexed | Undecided | Errored | Bmc | Skip | OtherVerdict(text: string)

  datatype Status = Pass | Fail | Skipped | Xfail | KnownFp | OtherStatus(text: string)

  datatype State =
    | Complete | MissingVerdict | WatchdogCleanup | WatchdogTimeout
    | IdentityMismatch | InactiveAccounted | OtherState(text: string)

  datatype Details =
    | FinalMarker(verdict: Verdict) | SelectedMismatch | OuterTimeout | MemoryCleanup
    | UnknownMarker(reason: string) | ArtifactError | RustcError | NoFinalMarker | Text(text: string)

  /** `proof_qualifiers`: the two exact words, or a text by what it contains. */
  datatype Qualifiers = NoQualifiers | Clean | ShouldPanic | Contains(crosschecked: bool, sound: bool, mem: bool)

  /** A JSON value where a Boolean is expected. */
  datatype Flag = Absent | Is(value: bool) | Junk(truthy: bool)

  /** A JSON value where a count is expected; `Digits` is a string of digits. */
  datatype Value = Missing | Num(n: int) | Bool(b: bool) | Digits(n: int) | NotACount

  /** The optional row fields a clean proof may not carry: retry fields that are present, and the
      others when they are not empty. */
  datatype Mark =
    | Retried | RetryAttempts | RetryResolvedBy | RetryFinal | RetryRecursive | RetryRelationCount
    | DemotionReasons | TranslationDrops | CtrexCategory | CtrexDetails
    | UnknownDetails | UnknownQuality | UnknownReason

  datatype Entry = Entry(
    file: Option<string>, harness: Option<string>,
    verdict: Option<Verdict>, status: Option<Status>, expected: Option<Outcome>,
    knownFp: Flag, trusted: Flag,
    state: Option<State>, details: Option<Details>,
    fallback: Value, qualifiers: Qualifiers, marks: set<Mark>)

  /** The counts of a summary, with those of its `proof_breakdown`. */
  datatype Field =
    | Total | PassCount | ProofCount | KnownFpCount | TrustedCount | CtrexCount | FailCount
    | UnknownCount | ErrorCount | BmcCount | XfailCount | SkipCount
    | CleanCount | ShouldPanicCount | CrosscheckedCount | SoundCount | MemCount
    | CompleteCount | GatedCount

  type Summary = map<Field, Value>

  datatype Report = Report(schema: int, summary: Summary, harnesses: seq<Entry>)

  function Get(s: Summary, f: Field): Value { if f in s then s[f] else Missing }

  /** How many rows a summary field counts, given which rows it counts. */
  function Tally(counts: (Field, Entry) -> bool, f: Field, rows: seq<Entry>): nat {
    if rows == [] then 0 else (if counts(f, rows[0]) then 1 else 0) + Tally(counts, f, rows[1..])
  }

  function Totals(counts: (Field, Entry) -> bool, rows: seq<Entry>): (s: Summary)
    ensures forall f :: Get(s, f) == Num(Tally(counts, f, rows))
  {
    map f: Field | true :: Num(Tally(counts, f, rows))
  }

  lemma {:induction false} TallyIsCount(counts: (Field, Entry) -> bool, f: Field, p: Entry -> bool, rows: seq<Entry>)
    requires forall i :: 0 <= i < |rows| ==> counts(f, rows[i]) == p(rows[i])
    ensures Tally(counts, f, rows) == Count(p, rows)
  {
    if rows != [] { TallyIsCount(counts, f, p, rows[1..]); }
  }

  /** Two ways of counting agree when they agree on every row. */
  lemma {:induction false} TalliesAgree(
    counts: (Field, Entry) -> bool, f: Field, others: (Field, Entry) -> bool, g: Field, rows: seq<Entry>)
    requires forall i :: 0 <= i < |rows| ==> counts(f, rows[i]) == others(g, rows[i])
    ensures Tally(counts, f, rows) == Tally(others, g, rows)
  {
    if rows != [] { TalliesAgree(counts, f, others, g, rows[1..]); }
  }

  lemma {:induction false} TallyBounds(counts: (Field, Entry) -> bool, f: Field, rows: seq<Entry>)
    ensures Tally(counts, f, rows) <= |rows|
    ensures Tally(counts, f, rows) == |rows| <==> forall i :: 0 <= i < |rows| ==> counts(f, rows[i])
    ensures Tally(counts, f, rows) == 0 <==> forall i :: 0 <= i < |rows| ==> !counts(f, rows[i])
  {
    if rows != [] {
      TallyBounds(counts, f, rows[1..]);
      assert rows == [rows[0]] + rows[1..];
    }
  }

  predicate Truthy(f: Flag) { f == Is(true) || (f.Junk? && f.truthy) }

  // ---------------------------------------------------------------------
  // Proof accounting
  // ---------------------------------------------------------------------

  predicate IsKnownFp(e: Entry) { e.status == Some(KnownFp) }

  /** A row without a status counts as passed here. */
  predicate IsTrusted(e: Entry) { e.verdict == Some(Proved) && (e.status.None? || e.status == Some(Pass)) }

  predicate FlagMatches(actual: Flag, expected: bool) {
    actual == Is(expected) || (!expected && actual == Absent)
  }

  datatype Gap = SummaryGap(field: Field) | KnownFpGap(index: nat) | TrustedGap(index: nat)

  function EntryGaps(e: Entry, at: nat): seq<Gap> {
    (if FlagMatches(e.knownFp, IsKnownFp(e)) then [] else [KnownFpGap(at)])
    + (if FlagMatches(e.trusted, IsTrusted(e)) then [] else [TrustedGap(at)])
  }

  function RowGaps(rows: seq<Entry>, at: nat): seq<Gap> {
    if rows == [] then [] else EntryGaps(rows[0], at) + RowGaps(rows[1..], at + 1)
  }

  function SummaryGaps(r: Report): seq<Gap> {
    (if Get(r.summary, KnownFpCount) == Num(Count(IsKnownFp, r.harnesses)) then [] else [SummaryGap(KnownFpCount)])
    + (if Get(r.summary, TrustedCount) == Num(Count(IsTrusted, r.harnesses)) then [] else [SummaryGap(TrustedCount)])
  }

  function Gaps(r: Report): seq<Gap> { SummaryGaps(r) + RowGaps(r.harnesses, 0) }

  method FindSummaryGaps(r: Report) returns (gaps: seq<Gap>)
    ensures gaps == SummaryGaps(r)
  {
    gaps := [];
    var knownFp, trusted := Count(IsKnownFp, r.harnesses), Count(IsTrusted, r.harnesses);
    if Get(r.summary, KnownFpCount) != Num(knownFp) { gaps := gaps + [SummaryGap(KnownFpCount)]; }
    if Get(r.summary, TrustedCount) != Num(trusted) { gaps := gaps + [SummaryGap(TrustedCount)]; }
  }

  method FindEntryGaps(e: Entry, at: nat) returns (gaps: seq<Gap>)
    ensures gaps == EntryGaps(e, at)
  {
    gaps := [];
    if !FlagMatches(e.knownFp, IsKnownFp(e)) { gaps := gaps + [KnownFpGap(at)]; }
    if !FlagMatches(e.trusted, IsTrusted(e)) { gaps := gaps + [TrustedGap(at)]; }
  }

  /** `find_proof_accounting_gaps`. */
  method FindProofAccountingGaps(r: Report) returns (gaps: seq<Gap>)
    ensures gaps == Gaps(r)
  {
    gaps := FindSummaryGaps(r);
    ghost var opening := gaps;
    var i := 0;
    assert r.harnesses[0..] == r.harnesses;
    while i < |r.harnesses|
      invariant 0 <= i <= |r.harnesses|
      invariant gaps + RowGaps(r.harnesses[i..], i) == opening + RowGaps(r.harnesses, 0)
    {
      assert r.harnesses[i..][0] == r.harnesses[i] && r.harnesses[i..][1..] == r.harnesses[i+1..];
      var more := FindEntryGaps(r.harnesses[i], i);
      ghost var rest := RowGaps(r.harnesses[i+1..], i + 1);
      assert gaps + (more + rest) == gaps + more + rest;
      gaps := gaps + more;
      i := i + 1;
    }
    assert gaps + [] == gaps;
  }

  predicate Accounted(e: Entry) {
    FlagMatches(e.knownFp, IsKnownFp(e)) && FlagMatches(e.trusted, IsTrusted(e))
  }

  /** A flag that is set says true; one that is not may be left out. */
  predicate Marked(f: Flag, yes: bool) { if yes then f == Is(true) else f == Absent || f == Is(false) }

  /** A row is accounted for when it is marked a known false positive exactly if its status says so,
      and trusted exactly if its verdict is a proof and nothing says it did not pass. */
  lemma {:induction false} AccountedMeaning(e: Entry)
    ensures Accounted(e) <==>
            && Marked(e.knownFp, e.status.Some? && e.status.value.KnownFp?)
            && Marked(e.trusted, e.verdict.Some? && e.verdict.value.Proved? &&
                                 forall s :: e.status == Some(s) ==> s.Pass?)
  {
    if e.status.Some? { assert e.status == Some(e.status.value); }
  }

  lemma {:induction false} RowGapsMeaning(rows: seq<Entry>, at: nat)
    ensures RowGaps(rows, at) == [] <==> forall i :: 0 <= i < |rows| ==> Accounted(rows[i])
  {
    if rows != [] {
      RowGapsMeaning(rows[1..], at + 1);
      assert rows == [rows[0]] + rows[1..];
      assert EntryGaps(rows[0], at) == [] <==> Accounted(rows[0]);
      if RowGaps(rows, at) == [] { assert |EntryGaps(rows[0], at)| == 0; }
    }
  }

  /** No gaps: both counts and every row's two flags are right. */
  lemma {:induction false} GapsMeaning(r: Report)
    ensures Gaps(r) == [] <==>
              && Get(r.summary, KnownFpCount) == Num(Count(IsKnownFp, r.harnesses))
              && Get(r.summary, TrustedCount) == Num(Count(IsTrusted, r.harnesses))
              && forall i :: 0 <= i < |r.harnesses| ==> Accounted(r.harnesses[i])
  {
    RowGapsMeaning(r.harnesses, 0);
    if Gaps(r) == [] { assert |SummaryGaps(r)| == 0; }
  }
}
