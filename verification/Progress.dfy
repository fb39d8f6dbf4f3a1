/** The progress tool, `tools/replacement-inventory/replacement_progress.py`: what a fresh report
    proves of the frozen inventory, and how it lines up with the public run that wrote the report. */
module Progress {
  import opened Delimiters
  import opened Inventory
  import opened Ordering
  import opened Reports
  import opened Wrappers
  import ProofGate
  import PublicRunner

  // ---------------------------------------------------------------------
  // Observations
  // ---------------------------------------------------------------------

  datatype Standing = Success | Failed | Inactive | OtherStanding(text: string)

  datatype Observed = Observed(
    harness: string, file: string, crate: Option<string>, standing: Standing,
    fallback: int, ctrexCategory: bool, failed: int, undetermined: int, unknown: int,
    verdict: Option<Verdict>, state: Option<State>, reportMatch: Option<bool>, proofQuality: Option<bool>)

  datatype Actual = Saw(outcome: Outcome) | SawInactive | NotSeen

  /** A verdict word the inventory also uses. */
  function AsOutcome(v: Verdict): Option<Outcome> {
    match v
    case Proved => Some(Proof)
    case Ctrexed => Some(Ctrex)
    case Undecided => Some(Unknown)
    case Errored => Some(Failure)
    case Bmc => Some(BmcSafe)
    case Skip => None
    case OtherVerdict(text) => if text == "BMC_SAFE" then Some(BmcSafe) else None
  }

  /** `Observed.classify`. */
  function Classify(o: Observed): Actual {
    if o.standing.Inactive? || o.verdict == Some(Skip) then SawInactive
    else if o.state.Some? && o.state != Some(Complete) then Saw(Failure)
    else if o.verdict.Some? && AsOutcome(o.verdict.value).Some? then Saw(AsOutcome(o.verdict.value).value)
    else if o.standing.Success? then
      if o.fallback != 0 then Saw(BmcSafe)
      else if o.undetermined == 0 && o.unknown == 0 then Saw(Proof)
      else Saw(Unknown)
    else if o.ctrexCategory then Saw(Ctrex)
    else if o.undetermined > 0 || o.unknown > 0 then Saw(Unknown)
    else if o.standing.Failed? && o.failed > 0 then Saw(Ctrex)
    else Saw(Failure)
  }

  /** `_as_int`: what is not a number counts as zero here. */
  function CountOrZero(v: Value): int {
    match v
    case Num(n) => n
    case Bool(b) => if b then 1 else 0
    case Digits(n) => n
    case _ => 0
  }

  /** The fields that spoil a proof here: fewer than the gate forbids. */
  const SPOILING: set<Mark> :=
    {Retried, RetryAttempts, RetryResolvedBy, RetryFinal, RetryRecursive, RetryRelationCount,
     DemotionReasons, TranslationDrops}

  function StandingOf(s: Status): Standing {
    match s
    case Pass => Success
    case Fail => Failed
    case Skipped => Inactive
    case _ => OtherStanding("")
  }

  /** `_observed_from_ay_compiletest` on a row with a verdict and a status the public run writes. */
  function ObservedOf(e: Entry): Observed
    requires e.status.Some? && PublicRunner.IsSettled(e) && e.verdict.Some?
  {
    var passed := e.status == Some(Pass);
    Observed(
      if e.harness.Some? then e.harness.value else "", if e.file.Some? then e.file.value else "", None,
      StandingOf(e.status.value), CountOrZero(e.fallback), CtrexCategory in e.marks, 0, 0, 0,
      e.verdict, e.state, Some(passed),
      if e.verdict != Some(Proved) then None
      else Some(passed && e.state == Some(Complete) && e.qualifiers == Clean && e.trusted == Is(true) &&
                CountOrZero(e.fallback) == 0 && e.marks * SPOILING == {}))
  }

  // ---------------------------------------------------------------------
  // Keys
  // ---------------------------------------------------------------------

  /** How names are normalised: a file's path and stem, a harness's full name and last segment. */
  datatype Names = Names(path: string -> string, stem: string -> string, full: string -> string, tail: string -> string)

  function Slashes(s: string): string {
    if s == [] then [] else [if s[0] == '\\' then '/' else s[0]] + Slashes(s[1..])
  }

  function NormalPath(file: string): string {
    var s := Slashes(file);
    if "./" <= s then s[2..] else s
  }

  function LastDot(s: string, i: nat): Option<nat>
    requires i <= |s|
  {
    if i == 0 then None else if s[i-1] == '.' then Some(i - 1) else LastDot(s, i - 1)
  }

  function StemOf(path: string): string {
    var parts := Parts(path);
    var name := if parts == [] then "" else parts[|parts| - 1];
    match LastDot(name, |name|)
    case None => name
    case Some(i) => if 0 < i < |name| - 1 then name[..i] else name
  }

  function LastSegment(s: string, i: nat): string
    requires i <= |s|
  {
    if i < 2 then s else if s[i-2] == ':' && s[i-1] == ':' then s[i..] else LastSegment(s, i - 1)
  }

  /** The program's own normalisation. */
  const PROGRAM := Names(NormalPath, StemOf, Strip, (s: string) => LastSegment(Strip(s), |Strip(s)|))

  datatype IndexKey =
    | FileKey(file: string, full: string) | CrateKey(text: string) | FullKey(full: string) | TailKey(tail: string)

  /** An absent crate name is printed as a word. */
  function CrateText(crate: Option<string>): string { if crate.Some? then crate.value else "None" }

  predicate Registers(n: Names, o: Observed, key: IndexKey) {
    match key
    case FileKey(file, full) => o.file != "" && n.path(o.file) == file && n.full(o.harness) == full
    case CrateKey(text) => CrateText(o.crate) + "::" + n.full(o.harness) == text
    case FullKey(full) => n.full(o.harness) == full
    case TailKey(_) => false
  }

  function First(n: Names, observed: seq<Observed>, key: IndexKey): Option<Observed> {
    if observed == [] then None
    else if Registers(n, observed[0], key) then Some(observed[0])
    else First(n, observed[1..], key)
  }

  function HasTail(n: Names, tail: string): Observed -> bool { (o: Observed) => n.tail(o.harness) == tail }

  /** The one observation with this last segment, if there is just one. */
  function Only(n: Names, observed: seq<Observed>, tail: string): Option<Observed> {
    var group := Filter(HasTail(n, tail), observed);
    if |group| == 1 then Some(group[0]) else None
  }

  /** What the index holds for a key. */
  function Held(n: Names, observed: seq<Observed>, key: IndexKey): Option<Observed> {
    if key.TailKey? then Only(n, observed, key.tail) else First(n, observed, key)
  }

  function At(index: map<IndexKey, Observed>, key: IndexKey): Option<Observed> {
    if key in index then Some(index[key]) else None
  }

  function SetDefault(index: map<IndexKey, Observed>, key: IndexKey, o: Observed): map<IndexKey, Observed> {
    if key in index then index else index[key := o]
  }

  lemma {:induction false} FirstSnoc(n: Names, observed: seq<Observed>, o: Observed, key: IndexKey)
    ensures First(n, observed + [o], key) ==
            if First(n, observed, key).Some? then First(n, observed, key)
            else if Registers(n, o, key) then Some(o) else None
  {
    if observed == [] {
      assert [] + [o] == [o] && [o][1..] == [];
    } else {
      assert (observed + [o])[1..] == observed[1..] + [o];
      FirstSnoc(n, observed[1..], o, key);
    }
  }

  method Register(n: Names, index: map<IndexKey, Observed>, o: Observed) returns (out: map<IndexKey, Observed>)
    ensures forall key :: At(out, key) ==
              if At(index, key).Some? then At(index, key) else if Registers(n, o, key) then Some(o) else None
  {
    out := index;
    var full := n.full(o.harness);
    if o.file != "" { out := SetDefault(out, FileKey(n.path(o.file), full), o); }
    out := SetDefault(out, FullKey(full), o);
    out := SetDefault(out, CrateKey(CrateText(o.crate) + "::" + full), o);
  }

  /** The first loop of `_index_observed`. */
  method IndexNames(n: Names, observed: seq<Observed>) returns (index: map<IndexKey, Observed>)
    ensures forall key :: At(index, key) == First(n, observed, key)
  {
    index := map[];
    var i := 0;
    while i < |observed|
      invariant 0 <= i <= |observed|
      invariant forall key :: At(index, key) == First(n, observed[..i], key)
    {
      assert observed[..i+1] == observed[..i] + [observed[i]];
      forall key ensures First(n, observed[..i+1], key) ==
                         if First(n, observed[..i], key).Some? then First(n, observed[..i], key)
                         else if Registers(n, observed[i], key) then Some(observed[i]) else None
      {
        FirstSnoc(n, observed[..i], observed[i], key);
      }
      index := Register(n, index, observed[i]);
      i := i + 1;
    }
    assert observed[..i] == observed;
  }

  /** The grouping loop of `_index_observed`: the groups, and their names in order of appearance. */
  method GroupTails(n: Names, observed: seq<Observed>) returns (groups: map<string, seq<Observed>>, order: seq<string>)
    ensures forall t :: t in groups <==> t in order
    ensures forall t :: if t in groups then groups[t] == Filter(HasTail(n, t), observed)
                        else Filter(HasTail(n, t), observed) == []
  {
    groups, order := map[], [];
    var i := 0;
    while i < |observed|
      invariant 0 <= i <= |observed|
      invariant forall t :: t in groups <==> t in order
      invariant forall t :: if t in groups then groups[t] == Filter(HasTail(n, t), observed[..i])
                            else Filter(HasTail(n, t), observed[..i]) == []
    {
      var o := observed[i];
      var tail := n.tail(o.harness);
      assert observed[..i+1] == observed[..i] + [o];
      forall t ensures Filter(HasTail(n, t), observed[..i+1]) ==
                       Filter(HasTail(n, t), observed[..i]) + (if t == tail then [o] else [])
      {
        FilterAppend(HasTail(n, t), observed[..i], [o]);
      }
      if tail !in groups {
        order := order + [tail];
        groups := groups[tail := []];
      }
      groups := groups[tail := groups[tail] + [o]];
      i := i + 1;
    }
    assert observed[..i] == observed;
  }

  /** `_index_observed`. */
  method IndexObserved(n: Names, observed: seq<Observed>) returns (index: map<IndexKey, Observed>)
    ensures forall key :: At(index, key) == Held(n, observed, key)
  {
    index := IndexNames(n, observed);
    forall t ensures First(n, observed, TailKey(t)).None? { NoTailFirst(n, observed, t); }
    var groups, order := GroupTails(n, observed);
    var j := 0;
    while j < |order|
      invariant 0 <= j <= |order|
      invariant forall key: IndexKey :: !key.TailKey? ==> At(index, key) == First(n, observed, key)
      invariant forall t :: At(index, TailKey(t)) == if t in order[..j] then Only(n, observed, t) else None
    {
      var tail := order[j];
      assert order[..j+1] == order[..j] + [tail];
      assert tail in groups && groups[tail] == Filter(HasTail(n, tail), observed);
      if |groups[tail]| == 1 { index := SetDefault(index, TailKey(tail), groups[tail][0]); }
      j := j + 1;
    }
    assert order[..j] == order;
  }

  lemma {:induction false} NoTailFirst(n: Names, observed: seq<Observed>, t: string)
    ensures First(n, observed, TailKey(t)).None?
  {
    if observed != [] { NoTailFirst(n, observed[1..], t); }
  }

  function Orelse(a: Option<Observed>, b: Option<Observed>): Option<Observed> { if a.Some? then a else b }

  /** What `_lookup` finds for a row: by file, by crate, by full name, by last segment. */
  function Found(n: Names, observed: seq<Observed>, row: Row): Option<Observed> {
    var full, path := n.full(row.harness), n.path(row.file);
    Orelse(First(n, observed, FileKey(path, full)),
           Orelse(First(n, observed, CrateKey(n.stem(path) + "::" + full)),
                  Orelse(First(n, observed, FullKey(full)), Only(n, observed, n.tail(row.harness)))))
  }

  method Lookup(n: Names, index: map<IndexKey, Observed>, row: Row, observed: seq<Observed>)
    returns (o: Option<Observed>)
    requires forall key :: At(index, key) == Held(n, observed, key)
    ensures o == Found(n, observed, row)
  {
    var full, path := n.full(row.harness), n.path(row.file);
    var keys :=
      [FileKey(path, full), CrateKey(n.stem(path) + "::" + full), FullKey(full), TailKey(n.tail(row.harness))];
    assert Held(n, observed, keys[0]) == First(n, observed, keys[0]);
    assert Held(n, observed, keys[1]) == First(n, observed, keys[1]);
    assert Held(n, observed, keys[2]) == First(n, observed, keys[2]);
    if keys[0] in index { return At(index, keys[0]); }
    if keys[1] in index { return At(index, keys[1]); }
    if keys[2] in index { return At(index, keys[2]); }
    return At(index, keys[3]);
  }

  // ---------------------------------------------------------------------
  // Progress
  // ---------------------------------------------------------------------

  datatype RowResult = RowResult(
    row: Row, observed: Option<Observed>, actual: Actual, proven: bool, closed: bool, fallback: int)

  /** What one row comes to, given the observation it was matched with. */
  function Judged(row: Row, observed: Option<Observed>): RowResult {
    if observed.None? then RowResult(row, None, NotSeen, false, false, 0)
    else
      var o := observed.value;
      var actual := Classify(o);
      var matches := o.reportMatch != Some(false);
      RowResult(row, observed, actual,
                row.expected.Proof? && actual == Saw(Proof) && o.standing.Success? && o.fallback == 0 && matches &&
                o.proofQuality != Some(false),
                !row.expected.Proof? && actual == Saw(row.expected) && matches,
                o.fallback)
  }

  predicate IsProof(r: RowResult) { r.row.expected.Proof? }
  predicate IsOpen(r: RowResult) { !r.row.expected.Proof? }
  predicate IsMissing(r: RowResult) { r.observed.None? }
  predicate IsProven(r: RowResult) { r.row.expected.Proof? && r.observed.Some? && r.proven }

  /** A proof only by way of a fallback. */
  predicate IsFallback(r: RowResult) {
    r.row.expected.Proof? && r.observed.Some? && !r.proven && r.observed.value.standing.Success? && r.fallback > 0
  }

  predicate IsRegressed(r: RowResult) {
    r.row.expected.Proof? && r.observed.Some? && !r.proven && !IsFallback(r)
  }

  predicate IsProofMissing(r: RowResult) { r.row.expected.Proof? && r.observed.None? }
  predicate IsClosed(r: RowResult) { !r.row.expected.Proof? && r.observed.Some? && r.closed }
  predicate IsUnjustified(r: RowResult) { !r.row.expected.Proof? && r.observed.Some? && !r.closed }
  predicate IsOpenMissing(r: RowResult) { !r.row.expected.Proof? && r.observed.None? }

  datatype Tallies = Tallies(
    proofTotal: nat, proven: nat, fellBack: nat, regressed: nat, proofMissing: nat,
    openTotal: nat, closed: nat, unjustified: nat, openMissing: nat, measured: nat, missing: nat)

  function TalliesOf(rows: seq<RowResult>): Tallies {
    Tallies(Count(IsProof, rows), Count(IsProven, rows), Count(IsFallback, rows), Count(IsRegressed, rows),
            Count(IsProofMissing, rows), Count(IsOpen, rows), Count(IsClosed, rows), Count(IsUnjustified, rows),
            Count(IsOpenMissing, rows), |rows| - Count(IsMissing, rows), Count(IsMissing, rows))
  }

  /** The counting at the end of the loop body of `compute_progress`. */
  method Tick(t: Tallies, r: RowResult) returns (out: Tallies)
    requires r == Judged(r.row, r.observed)
    ensures forall rows: seq<RowResult> :: t == TalliesOf(rows) ==> out == TalliesOf(rows + [r])
  {
    out := t;
    if r.observed.None? { out := out.(missing := out.missing + 1); } else { out := out.(measured := out.measured + 1); }
    if r.row.expected.Proof? {
      out := out.(proofTotal := out.proofTotal + 1);
      if r.observed.None? {
        out := out.(proofMissing := out.proofMissing + 1);
      } else if r.proven {
        out := out.(proven := out.proven + 1);
      } else if r.observed.value.standing.Success? && r.fallback > 0 {
        out := out.(fellBack := out.fellBack + 1);
      } else {
        out := out.(regressed := out.regressed + 1);
      }
    } else {
      out := out.(openTotal := out.openTotal + 1);
      if r.observed.None? {
        out := out.(openMissing := out.openMissing + 1);
      } else if r.closed {
        out := out.(closed := out.closed + 1);
      } else {
        out := out.(unjustified := out.unjustified + 1);
      }
    }
    forall rows: seq<RowResult> | t == TalliesOf(rows) ensures out == TalliesOf(rows + [r]) { Ticked(rows, r); }
  }

  lemma {:induction false} Ticked(rows: seq<RowResult>, r: RowResult)
    ensures Count(IsProof, rows + [r]) == Count(IsProof, rows) + (if IsProof(r) then 1 else 0)
    ensures Count(IsProven, rows + [r]) == Count(IsProven, rows) + (if IsProven(r) then 1 else 0)
    ensures Count(IsFallback, rows + [r]) == Count(IsFallback, rows) + (if IsFallback(r) then 1 else 0)
    ensures Count(IsRegressed, rows + [r]) == Count(IsRegressed, rows) + (if IsRegressed(r) then 1 else 0)
    ensures Count(IsProofMissing, rows + [r]) == Count(IsProofMissing, rows) + (if IsProofMissing(r) then 1 else 0)
    ensures Count(IsOpen, rows + [r]) == Count(IsOpen, rows) + (if IsOpen(r) then 1 else 0)
    ensures Count(IsClosed, rows + [r]) == Count(IsClosed, rows) + (if IsClosed(r) then 1 else 0)
    ensures Count(IsUnjustified, rows + [r]) == Count(IsUnjustified, rows) + (if IsUnjustified(r) then 1 else 0)
    ensures Count(IsOpenMissing, rows + [r]) == Count(IsOpenMissing, rows) + (if IsOpenMissing(r) then 1 else 0)
    ensures Count(IsMissing, rows + [r]) == Count(IsMissing, rows) + (if IsMissing(r) then 1 else 0)
  {
    CountAppend(IsProof, rows, [r]);
    CountAppend(IsProven, rows, [r]);
    CountAppend(IsFallback, rows, [r]);
    CountAppend(IsRegressed, rows, [r]);
    CountAppend(IsProofMissing, rows, [r]);
    CountAppend(IsOpen, rows, [r]);
    CountAppend(IsClosed, rows, [r]);
    CountAppend(IsUnjustified, rows, [r]);
    CountAppend(IsOpenMissing, rows, [r]);
    CountAppend(IsMissing, rows, [r]);
  }

  function Results(n: Names, observed: seq<Observed>, rows: seq<Row>): (r: seq<RowResult>)
    ensures |r| == |rows|
    ensures forall i :: 0 <= i < |rows| ==> r[i] == Judged(rows[i], Found(n, observed, rows[i]))
  {
    seq(|rows|, i requires 0 <= i < |rows| => Judged(rows[i], Found(n, observed, rows[i])))
  }

  /** `compute_progress`. */
  method ComputeProgress(n: Names, rows: seq<Row>, observed: seq<Observed>)
    returns (results: seq<RowResult>, t: Tallies)
    ensures results == Results(n, observed, rows)
    ensures t == TalliesOf(results)
  {
    var index := IndexObserved(n, observed);
    results, t := [], Tallies(0, 0, 0, 0, 0, 0, 0, 0, 0, 0, 0);
    var i := 0;
    while i < |rows|
      invariant 0 <= i <= |rows| && |results| == i
      invariant forall k :: 0 <= k < i ==> results[k] == Judged(rows[k], Found(n, observed, rows[k]))
      invariant t == TalliesOf(results)
    {
      var o := Lookup(n, index, rows[i], observed);
      var result := Judged(rows[i], o);
      t := Tick(t, result);
      results := results + [result];
      i := i + 1;
    }
  }

  /** `Progress.complete`. */
  predicate IsComplete(t: Tallies) {
    && t.missing == 0
    && t.proofTotal == t.proven && t.fellBack == 0 && t.regressed == 0
    && t.openTotal == t.closed && t.unjustified == 0
  }

  /** Every row falls in exactly one class: PROOF rows are proven, fallen back, regressed or
      missing, the others closed, unjustified or missing, and all are measured or missing. */
  lemma {:induction false} TalliesPartition(rows: seq<RowResult>)
    ensures var t := TalliesOf(rows);
            && t.proofTotal == t.proven + t.fellBack + t.regressed + t.proofMissing
            && t.openTotal == t.closed + t.unjustified + t.openMissing
            && t.missing == t.proofMissing + t.openMissing
            && t.proofTotal + t.openTotal == t.measured + t.missing == |rows|
  {
    if rows != [] { TalliesPartition(rows[1..]); }
  }

  /** The suite is complete exactly when every PROOF row is proven and every other row closed. */
  lemma {:induction false} CompleteExactly(n: Names, observed: seq<Observed>, rows: seq<Row>)
    ensures IsComplete(TalliesOf(Results(n, observed, rows))) <==>
            forall i :: 0 <= i < |rows| ==>
              var r := Results(n, observed, rows)[i]; if rows[i].expected.Proof? then r.proven else r.closed
  {
    var results := Results(n, observed, rows);
    TalliesPartition(results);
    CompleteMeaning(results);
  }

  predicate IsDone(r: RowResult) { IsProven(r) || IsClosed(r) }

  lemma {:induction false} DoneSplits(rows: seq<RowResult>)
    ensures Count(IsDone, rows) == Count(IsProven, rows) + Count(IsClosed, rows)
  {
    if rows != [] { DoneSplits(rows[1..]); }
  }

  lemma {:induction false} CompleteMeaning(rows: seq<RowResult>)
    requires forall i :: 0 <= i < |rows| ==> rows[i] == Judged(rows[i].row, rows[i].observed)
    ensures IsComplete(TalliesOf(rows)) <==>
            forall i :: 0 <= i < |rows| ==> if rows[i].row.expected.Proof? then rows[i].proven else rows[i].closed
  {
    TalliesPartition(rows);
    DoneSplits(rows);
    CountAll(IsDone, rows);
    assert forall i :: 0 <= i < |rows| ==>
      (IsDone(rows[i]) <==> if rows[i].row.expected.Proof? then rows[i].proven else rows[i].closed);
  }

  // ---------------------------------------------------------------------
  // Whose observation a row is given
  // ---------------------------------------------------------------------

  predicate IsFor(n: Names, o: Observed, row: Row) {
    o.file != "" && n.path(o.file) == n.path(row.file) && n.full(o.harness) == n.full(row.harness)
  }

  ghost predicate DistinctFileKeys(n: Names, observed: seq<Observed>) {
    forall i, j :: 0 <= i < j < |observed| && observed[i].file != "" && observed[j].file != "" ==>
      n.path(observed[i].file) != n.path(observed[j].file) || n.full(observed[i].harness) != n.full(observed[j].harness)
  }

  lemma {:induction false} FirstMeaning(n: Names, observed: seq<Observed>, key: IndexKey)
    ensures First(n, observed, key).Some? <==> exists i :: 0 <= i < |observed| && Registers(n, observed[i], key)
    ensures First(n, observed, key).Some? ==>
              exists i :: 0 <= i < |observed| && Registers(n, observed[i], key) &&
                First(n, observed, key) == Some(observed[i])
  {
    if observed != [] && !Registers(n, observed[0], key) {
      FirstMeaning(n, observed[1..], key);
      if i :| 0 <= i < |observed[1..]| && Registers(n, observed[1..][i], key)
              && First(n, observed, key) == Some(observed[1..][i]) {
        assert observed[i+1] == observed[1..][i];
      }
      if i :| 0 <= i < |observed| && Registers(n, observed[i], key) {
        assert observed[1..][i-1] == observed[i];
      }
    }
  }

  /** With distinct file keys a row in the report is matched with its own observation, whatever
      other names agree. */
  lemma {:induction false} OwnObservation(n: Names, observed: seq<Observed>, row: Row, k: nat)
    requires DistinctFileKeys(n, observed) && k < |observed| && IsFor(n, observed[k], row)
    ensures Found(n, observed, row) == Some(observed[k])
  {
    var key := FileKey(n.path(row.file), n.full(row.harness));
    assert Registers(n, observed[k], key);
    FirstMeaning(n, observed, key);
    var i :| 0 <= i < |observed| && Registers(n, observed[i], key) && First(n, observed, key) == Some(observed[i]);
    assert i == k;
  }

  /** A row that is not in the report is still credited, with somebody else's observation, exactly
      when a crate name, a full harness name or a unique last segment agrees. */
  lemma {:induction false} CreditedElsewhereExactly(n: Names, observed: seq<Observed>, row: Row)
    requires forall i :: 0 <= i < |observed| ==> !IsFor(n, observed[i], row)
    ensures Found(n, observed, row).Some? <==>
            || (exists i :: 0 <= i < |observed| && n.full(observed[i].harness) == n.full(row.harness))
            || (exists i :: 0 <= i < |observed| &&
                  CrateText(observed[i].crate) + "::" + n.full(observed[i].harness) ==
                  n.stem(n.path(row.file)) + "::" + n.full(row.harness))
            || |Filter(HasTail(n, n.tail(row.harness)), observed)| == 1
  {
    var full, path := n.full(row.harness), n.path(row.file);
    FirstMeaning(n, observed, FileKey(path, full));
    FirstMeaning(n, observed, CrateKey(n.stem(path) + "::" + full));
    FirstMeaning(n, observed, FullKey(full));
    assert First(n, observed, FileKey(path, full)).None?;
  }

  /** So a proof of one file's harness can stand for a same-named harness of another file that was
      never run. */
  lemma {:induction false} OtherFilesProofIsCredited(n: Names, o: Observed, row: Row)
    requires n.full(o.harness) == n.full(row.harness) && !IsFor(n, o, row)
    requires row.expected.Proof? && Judged(row, Some(o)).proven
    ensures IsComplete(TalliesOf(Results(n, [o], [row])))
  {
    var full, path := n.full(row.harness), n.path(row.file);
    assert Registers(n, o, FullKey(full));
    assert [o][1..] == [];
    assert First(n, [o], FileKey(path, full)) == None;
    assert First(n, [o], FullKey(full)) == Some(o);
    var crate := CrateKey(n.stem(path) + "::" + full);
    assert First(n, [o], crate) == if Registers(n, o, crate) then Some(o) else None;
    assert Found(n, [o], row) == Some(o);
    CompleteExactly(n, [o], [row]);
  }

  lemma {:induction false} SlashesKeep(file: string)
    requires '\\' !in file
    ensures Slashes(file) == file
  {
    if file != [] {
      assert file == [file[0]] + file[1..];
      SlashesKeep(file[1..]);
    }
  }

  /** A relative path as a report spells it. */
  predicate IsPlainPath(file: string) { '\\' !in file && !("./" <= file) }

  lemma {:induction false} PlainPathIsNormal(file: string)
    requires IsPlainPath(file)
    ensures NormalPath(file) == file
  {
    SlashesKeep(file);
  }

  lemma {:induction false} PlainPathsDiffer(o: Observed, row: Row)
    requires IsPlainPath(o.file) && IsPlainPath(row.file) && o.file != row.file
    ensures !IsFor(PROGRAM, o, row)
  {
    PlainPathIsNormal(o.file);
    PlainPathIsNormal(row.file);
    assert PROGRAM.path(o.file) == NormalPath(o.file) && PROGRAM.path(row.file) == NormalPath(row.file);
  }

  /** Under the program's own normalisation: a clean row for a harness of one file completes the
      suite whose one row is a harness of that name in another file. */
  lemma {:induction false} TwinFileIsCredited(e: Entry, twin: string, lane: string)
    requires ProofGate.IsCleanRow(e) && e.trusted == Is(true)
    requires IsPlainPath(e.file.value) && IsPlainPath(twin) && twin != e.file.value
    ensures var row := Row(twin, e.harness.value, Proof, lane);
            IsComplete(TalliesOf(Results(PROGRAM, [ObservedOf(e)], [row])))
  {
    var o, row := ObservedOf(e), Row(twin, e.harness.value, Proof, lane);
    PlainPathsDiffer(o, row);
    CleanEntryIsProven(e, row);
    OtherFilesProofIsCredited(PROGRAM, o, row);
  }

  /** `tests/a.rs`, `tests/b.rs` and so on. */
  function TestFile(letter: char): string { "tests/" + [letter] + ".rs" }

  lemma {:induction false} TestFilesDiffer(a: char, b: char)
    requires a != b && a != '\\' && b != '\\'
    ensures IsPlainPath(TestFile(a)) && IsPlainPath(TestFile(b)) && TestFile(a) != TestFile(b)
  {
    assert "tests/"[0] == 't' && TestFile(a)[0] == 't' && TestFile(b)[0] == 't';
    assert TestFile(a)[6] == a && TestFile(b)[6] == b;
  }

  /** So a clean row of `tests/a.rs` completes a suite that is one row of `tests/b.rs`. */
  lemma {:induction false} TestTwinIsCredited(e: Entry, a: char, b: char, lane: string)
    requires ProofGate.IsCleanRow(e) && e.trusted == Is(true) && e.file.value == TestFile(a)
    requires a != b && a != '\\' && b != '\\'
    ensures var row := Row(TestFile(b), e.harness.value, Proof, lane);
            IsComplete(TalliesOf(Results(PROGRAM, [ObservedOf(e)], [row])))
  {
    TestFilesDiffer(a, b);
    TwinFileIsCredited(e, TestFile(b), lane);
  }

  lemma {:induction false} CleanEntryIsProven(e: Entry, row: Row)
    requires ProofGate.IsCleanRow(e) && e.trusted == Is(true) && row.expected.Proof?
    ensures Judged(row, Some(ObservedOf(e))).proven
  {
  }

  // ---------------------------------------------------------------------
  // The public run's own report
  // ---------------------------------------------------------------------

  function ObservedAll(flats: seq<Entry>): seq<Observed>
    requires forall i :: 0 <= i < |flats| ==>
               flats[i].status.Some? && PublicRunner.IsSettled(flats[i]) && flats[i].verdict.Some?
  {
    seq(|flats|, i requires 0 <= i < |flats| => ObservedOf(flats[i]))
  }

  function RowFor(row: PublicRunner.PlanRow, lane: string): Row { Row(row.file, row.harness, row.expected, lane) }

  /** Plan rows that differ once their names are normalised. */
  ghost predicate DistinctNames(n: Names, plan: seq<PublicRunner.PlanRow>) {
    && (forall i :: 0 <= i < |plan| ==> plan[i].file != "")
    && forall i, j :: 0 <= i < j < |plan| ==>
         n.path(plan[i].file) != n.path(plan[j].file) || n.full(plan[i].harness) != n.full(plan[j].harness)
  }

  /** A PROOF row of the run counts as proven exactly when it passed with a clean qualifier, no
      fallback, and nothing retried, demoted or dropped: the gate asks for more. */
  lemma {:induction false} ProvenRunMeaning(row: PublicRunner.PlanRow, run: PublicRunner.Run, lane: string)
    requires row.active && row.expected.Proof?
    ensures var e := PublicRunner.FlatOf(row, run);
            Judged(RowFor(row, lane), Some(ObservedOf(e))).proven <==>
              && PublicRunner.Passes(row, run) && e.qualifiers == Clean && run.output.soundFallback == 0
              && run.output.marks * SPOILING == {}
  {
  }

  /** A row the gate would call clean is proven. */
  lemma {:induction false} CleanIsProven(row: PublicRunner.PlanRow, run: PublicRunner.Run, lane: string)
    requires row.active && ProofGate.IsCleanRow(PublicRunner.FlatOf(row, run))
    ensures Judged(RowFor(row, lane), Some(ObservedOf(PublicRunner.FlatOf(row, run)))).proven
  {
    assert row.expected.Proof?;
    ProvenRunMeaning(row, run, lane);
  }

  /** Any other row is closed exactly when it passed, but a BMC_SAFE row never is: the run can only
      pass it with a proof, which is not the outcome the inventory expects. */
  lemma {:induction false} ClosedRunMeaning(row: PublicRunner.PlanRow, run: PublicRunner.Run, lane: string)
    requires row.active && !row.expected.Proof?
    ensures Judged(RowFor(row, lane), Some(ObservedOf(PublicRunner.FlatOf(row, run)))).closed <==>
            PublicRunner.Passes(row, run) && !row.expected.BmcSafe?
  {
  }

  /** A cfg-disabled row is neither. */
  lemma {:induction false} InactiveIsNeither(row: PublicRunner.PlanRow, lane: string)
    ensures var r := Judged(RowFor(row, lane), Some(ObservedOf(PublicRunner.InactiveFlat(row)))); !r.proven && !r.closed
  {
  }

  /** What progress asks of one plan row and its run. */
  predicate Finished(row: PublicRunner.PlanRow, run: PublicRunner.Run) {
    && row.active && PublicRunner.Passes(row, run) && !row.expected.BmcSafe?
    && (row.expected.Proof? ==>
          && PublicRunner.FlatOf(row, run).qualifiers == Clean
          && run.output.soundFallback == 0 && run.output.marks * SPOILING == {})
  }

  lemma {:induction false} FinishedMeaning(
    plan: seq<PublicRunner.PlanRow>, driver: nat -> PublicRunner.Run, i: nat, lane: string)
    requires i < |plan|
    ensures var e := PublicRunner.FlatAt(plan, driver, i);
            && e.status.Some? && PublicRunner.IsSettled(e) && e.verdict.Some?
            && var r := Judged(RowFor(plan[i], lane), Some(ObservedOf(e)));
               Finished(plan[i], driver(i)) <==> if plan[i].expected.Proof? then r.proven else r.closed
  {
    var row, run := plan[i], driver(i);
    if !row.active { InactiveIsNeither(row, lane); }
    else if row.expected.Proof? { ProvenRunMeaning(row, run, lane); }
    else { ClosedRunMeaning(row, run, lane); }
  }

  ghost predicate InventoryOf(plan: seq<PublicRunner.PlanRow>, rows: seq<Row>) {
    |rows| == |plan| && forall i :: 0 <= i < |plan| ==> rows[i] == RowFor(plan[i], rows[i].lane)
  }

  lemma {:induction false} RunRowsAreSettled(
    plan: seq<PublicRunner.PlanRow>, driver: nat -> PublicRunner.Run, flats: seq<Entry>)
    requires PublicRunner.FlatsOf(plan, driver, flats)
    ensures forall i :: 0 <= i < |flats| ==>
              flats[i].status.Some? && PublicRunner.IsSettled(flats[i]) && flats[i].verdict.Some?
  {
    forall i | 0 <= i < |flats|
      ensures flats[i].status.Some? && PublicRunner.IsSettled(flats[i]) && flats[i].verdict.Some?
    {
      FinishedMeaning(plan, driver, i, "");
      assert flats[i] == PublicRunner.FlatAt(plan, driver, i);
    }
  }

  lemma {:induction false} NamesCarry(plan: seq<PublicRunner.PlanRow>, driver: nat -> PublicRunner.Run, i: nat)
    requires i < |plan|
    ensures var e := PublicRunner.FlatAt(plan, driver, i);
            e.status.Some? && PublicRunner.IsSettled(e) && e.verdict.Some? &&
            ObservedOf(e).file == plan[i].file && ObservedOf(e).harness == plan[i].harness
  {
  }

  /** Over the public run's own report, with distinct names, progress is complete exactly when every
      row is active, passed, is not BMC_SAFE, and if PROOF did so without a blemish. */
  lemma {:induction false} RunCompleteExactly(
    n: Names, plan: seq<PublicRunner.PlanRow>, driver: nat -> PublicRunner.Run, flats: seq<Entry>, rows: seq<Row>)
    requires DistinctNames(n, plan) && PublicRunner.FlatsOf(plan, driver, flats) && InventoryOf(plan, rows)
    ensures forall i :: 0 <= i < |flats| ==>
              flats[i].status.Some? && PublicRunner.IsSettled(flats[i]) && flats[i].verdict.Some?
    ensures IsComplete(TalliesOf(Results(n, ObservedAll(flats), rows))) <==>
            forall i :: 0 <= i < |plan| ==> Finished(plan[i], driver(i))
  {
    RunRowsAreSettled(plan, driver, flats);
    var observed := ObservedAll(flats);
    CompleteExactly(n, observed, rows);
    forall i | 0 <= i < |plan| ensures observed[i].file == plan[i].file && observed[i].harness == plan[i].harness {
      NamesCarry(plan, driver, i);
      assert flats[i] == PublicRunner.FlatAt(plan, driver, i);
    }
    forall i | 0 <= i < |plan|
      ensures Finished(plan[i], driver(i)) <==>
              var r := Results(n, observed, rows)[i]; if rows[i].expected.Proof? then r.proven else r.closed
    {
      RowFinished(n, plan, driver, flats, rows, observed, i);
    }
  }

  lemma {:induction false} RowFinished(
    n: Names, plan: seq<PublicRunner.PlanRow>, driver: nat -> PublicRunner.Run, flats: seq<Entry>, rows: seq<Row>,
    observed: seq<Observed>, i: nat)
    requires DistinctNames(n, plan) && |flats| == |rows| == |observed| == |plan| && i < |plan|
    requires flats[i] == PublicRunner.FlatAt(plan, driver, i) && rows[i] == RowFor(plan[i], rows[i].lane)
    requires forall k :: 0 <= k < |plan| ==> observed[k].file == plan[k].file && observed[k].harness == plan[k].harness
    requires flats[i].status.Some? && PublicRunner.IsSettled(flats[i]) && flats[i].verdict.Some?
    requires observed[i] == ObservedOf(flats[i])
    ensures Finished(plan[i], driver(i)) <==>
            var r := Judged(rows[i], Found(n, observed, rows[i]));
            if rows[i].expected.Proof? then r.proven else r.closed
  {
    assert DistinctFileKeys(n, observed);
    assert IsFor(n, observed[i], rows[i]);
    OwnObservation(n, observed, rows[i], i);
    FinishedMeaning(plan, driver, i, rows[i].lane);
  }

  /** A complete suite means the run itself exited with zero. */
  lemma {:induction false} CompleteMeansExitZero(
    n: Names, plan: seq<PublicRunner.PlanRow>, driver: nat -> PublicRunner.Run, flats: seq<Entry>, rows: seq<Row>)
    requires DistinctNames(n, plan) && PublicRunner.FlatsOf(plan, driver, flats) && InventoryOf(plan, rows)
    requires forall i :: 0 <= i < |flats| ==>
               flats[i].status.Some? && PublicRunner.IsSettled(flats[i]) && flats[i].verdict.Some?
    requires IsComplete(TalliesOf(Results(n, ObservedAll(flats), rows)))
    ensures PublicRunner.ExitCode(plan, flats) == 0
  {
    RunCompleteExactly(n, plan, driver, flats, rows);
    PublicRunner.ExitZeroExactly(plan, driver, flats);
    forall i | 0 <= i < |plan| ensures PublicRunner.Satisfied(plan[i], driver(i)) {
      assert Finished(plan[i], driver(i));
    }
  }

  /** The other way round fails: with one inactive or BMC_SAFE row the suite is never complete,
      whatever the run's exit status. */
  lemma {:induction false} NeverComplete(
    n: Names, plan: seq<PublicRunner.PlanRow>, driver: nat -> PublicRunner.Run, flats: seq<Entry>,
    rows: seq<Row>, i: nat)
    requires DistinctNames(n, plan) && PublicRunner.FlatsOf(plan, driver, flats) && InventoryOf(plan, rows)
    requires i < |plan| && (!plan[i].active || plan[i].expected.BmcSafe?)
    ensures forall k :: 0 <= k < |flats| ==>
              flats[k].status.Some? && PublicRunner.IsSettled(flats[k]) && flats[k].verdict.Some?
    ensures !IsComplete(TalliesOf(Results(n, ObservedAll(flats), rows)))
  {
    RunCompleteExactly(n, plan, driver, flats, rows);
    assert !Finished(plan[i], driver(i));
  }
}
