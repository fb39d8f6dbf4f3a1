/** The replacement inventory: the generator (`tools/replacement-inventory/generate_inventory.py`),
    the second closure builder (`scripts/generate_non_proof_closure.py`), and the validator that
    reads what both wrote (`scripts/replacement_harness_dispositions.py`). */
module Inventory {
  import opened Delimiters
  import opened Ordering
  import opened Wrappers

  // ---------------------------------------------------------------------
  // Rows and artifacts
  // ---------------------------------------------------------------------

  /** The inventory's outcome words; `Other` is a word that is none of them. */
  datatype Outcome = Proof | Ctrex | Unknown | Failure | BmcSafe | Other(text: string)

  datatype Row = Row(file: string, harness: string, expected: Outcome, lane: string)

  datatype CorpusRow = CorpusRow(file: string, harness: string, suite: string, survey: string)

  /** The sentence the builders write for a survey outcome, or any other text. */
  datatype Justification = OfSurvey(outcome: Outcome) | Free(text: string)

  datatype ClosureRow = ClosureRow(row: Row, disposition: string, justification: Justification)

  datatype Inventory = Inventory(schema: int, suite: string, denominator: int, digest: string, rows: seq<Row>)

  datatype Source = Source(inventory: string, denominator: int, digest: string)

  datatype Closure = Closure(
    schema: int, suite: string, denominator: int, digest: string, rows: seq<ClosureRow>, source: Source)

  /** SHA-256 of the rows' canonical JSON, in hexadecimal. */
  datatype Digests = Digests(rows: seq<Row> -> string, closure: seq<ClosureRow> -> string)

  ghost predicate IsHex(d: Digests) {
    forall rows :: |d.rows(rows)| == 64
  }

  type Key = (string, string)

  function KeyOf(r: Row): Key { (r.file, r.harness) }

  /** Python's order on `(file, harness)` tuples. */
  predicate KeyLe(a: Key, b: Key) {
    if a.0 == b.0 then StrLe(a.1, b.1) else StrLe(a.0, b.0)
  }

  predicate RowLe(a: Row, b: Row) { KeyLe(KeyOf(a), KeyOf(b)) }

  predicate ClosureLe(a: ClosureRow, b: ClosureRow) { RowLe(a.row, b.row) }

  lemma {:induction false} KeysAreOrdered(a: Key, b: Key, c: Key)
    ensures KeyLe(a, b) || KeyLe(b, a)
    ensures KeyLe(a, b) && KeyLe(b, a) ==> a == b
    ensures KeyLe(a, b) && KeyLe(b, c) ==> KeyLe(a, c)
  {
    StrLeTotal(a.0, b.0);
    StrLeTotal(a.1, b.1);
    StrLeTotal(b.0, c.0);
    if StrLe(a.0, b.0) && StrLe(b.0, c.0) { StrLeTransitive(a.0, b.0, c.0); }
    if StrLe(a.1, b.1) && StrLe(b.1, c.1) { StrLeTransitive(a.1, b.1, c.1); }
  }

  lemma {:induction false} RowsAreOrdered()
    ensures TotalPreorder(RowLe) && TotalPreorder(ClosureLe)
  {
    forall x: Row, y: Row, z: Row
      ensures (RowLe(x, y) || RowLe(y, x)) && (RowLe(x, y) && RowLe(y, z) ==> RowLe(x, z))
    {
      KeysAreOrdered(KeyOf(x), KeyOf(y), KeyOf(z));
    }
  }

  ghost predicate DistinctKeys(rows: seq<Row>) {
    forall i, j :: 0 <= i < j < |rows| ==> KeyOf(rows[i]) != KeyOf(rows[j])
  }

  predicate IsProofRow(r: Row) { r.expected == Proof }
  predicate IsOpenRow(r: Row) { r.expected != Proof }

  // ---------------------------------------------------------------------
  // The generator
  // ---------------------------------------------------------------------

  const HOME_SUITE := "tests/trust-mc"
  const MIXED_NAME := "replacement-harness-inventory.json"
  const EXPECTED_FAIL := "expected-fail"

  /** `_normalize_lane`. */
  function NormalizeLane(suite: string): string {
    var s := Strip(suite);
    if "tests/" <= s then s else "tests/" + s
  }

  lemma {:induction false} NormalizedOnce(suite: string)
    ensures NormalizeLane(NormalizeLane(suite)) == NormalizeLane(suite)
  {
    var lead, trail := StripDecomposes(suite);
    StripIdempotent(suite);
    NothingToStrip("tests/", Strip(suite));
  }

  lemma {:induction false} NothingToStrip(prefix: string, s: string)
    requires Trim(prefix) && (s == "" || Trim(s))
    ensures Strip(prefix + s) == prefix + s
  {
    var lane := prefix + s;
    assert lane[0] == prefix[0];
    assert lane[|lane|-1] == if s == "" then prefix[|prefix|-1] else s[|s|-1];
    StripPadded("", lane, "");
    assert "" + lane + "" == lane;
  }

  /** `_map_corpus_disposition`, on the stripped and upper-cased survey word. */
  function MapDisposition(survey: string): Option<Outcome> {
    if survey == "PROOF" then Some(Proof)
    else if survey == "CTREX" then Some(Ctrex)
    else if survey == "INDETERMINATE" then Some(Unknown)
    else None
  }

  function Lanes(suites: seq<string>): set<string> {
    set i | 0 <= i < |suites| :: NormalizeLane(suites[i])
  }

  function RowFrom(c: CorpusRow, expected: Outcome): Row { Row(c.file, c.harness, expected, c.suite) }

  /** The included rows in corpus order, or the first included row whose survey word is unknown. */
  function Chosen(corpus: seq<CorpusRow>, lanes: set<string>): Result<seq<Row>, CorpusRow> {
    if corpus == [] then Ok([])
    else if corpus[0].suite !in lanes then Chosen(corpus[1..], lanes)
    else if MapDisposition(corpus[0].survey).None? then Err(corpus[0])
    else
      match Chosen(corpus[1..], lanes)
      case Err(e) => Err(e)
      case Ok(rows) => Ok([RowFrom(corpus[0], MapDisposition(corpus[0].survey).value)] + rows)
  }

  function Keeps(keep: Option<set<Outcome>>): Row -> bool {
    (r: Row) => keep.None? || r.expected in keep.value
  }

  function Collected(corpus: seq<CorpusRow>, lanes: set<string>, keep: Option<set<Outcome>>):
    Result<seq<Row>, CorpusRow>
  {
    match Chosen(corpus, lanes)
    case Err(e) => Err(e)
    case Ok(rows) => Ok(StableSort(RowLe, Filter(Keeps(keep), rows)))
  }

  /** The rows of an outcome behind others. */
  function Behind(rows: seq<Row>, rest: Result<seq<Row>, CorpusRow>): Result<seq<Row>, CorpusRow> {
    match rest case Err(e) => Err(e) case Ok(more) => Ok(rows + more)
  }

  lemma {:induction false} NothingBefore(rest: Result<seq<Row>, CorpusRow>)
    ensures Behind([], rest) == rest
  {
    if rest.Ok? { assert [] + rest.value == rest.value; }
  }

  lemma {:induction false} OneMoreBefore(rows: seq<Row>, row: Row, rest: Result<seq<Row>, CorpusRow>)
    ensures Behind(rows, Behind([row], rest)) == Behind(rows + [row], rest)
  {
    if rest.Ok? { assert rows + ([row] + rest.value) == rows + [row] + rest.value; }
  }

  /** `_collect_rows`. */
  method CollectRows(corpus: seq<CorpusRow>, suites: seq<string>, keep: Option<set<Outcome>>)
    returns (r: Result<seq<Row>, CorpusRow>)
    ensures r == Collected(corpus, Lanes(suites), keep)
  {
    var included := Lanes(suites);
    var rows: seq<Row> := [];
    ghost var all: seq<Row> := [];
    var i := 0;
    assert corpus[0..] == corpus;
    NothingBefore(Chosen(corpus, included));
    while i < |corpus|
      invariant 0 <= i <= |corpus|
      invariant rows == Filter(Keeps(keep), all)
      invariant Chosen(corpus, included) == Behind(all, Chosen(corpus[i..], included))
    {
      var c := corpus[i];
      assert corpus[i..][0] == c && corpus[i..][1..] == corpus[i+1..];
      i := i + 1;
      if c.suite !in included { continue; }
      var expected := MapDisposition(c.survey);
      if expected.None? { return Err(c); }
      var row := RowFrom(c, expected.value);
      FilterAppend(Keeps(keep), all, [row]);
      OneMoreBefore(all, row, Chosen(corpus[i..], included));
      all := all + [row];
      if keep.Some? && expected.value !in keep.value { continue; }
      rows := rows + [row];
    }
    assert all + [] == all;
    return Ok(StableSort(RowLe, rows));
  }

  function Built(d: Digests, rows: seq<Row>): Inventory {
    Inventory(1, HOME_SUITE, |rows|, d.rows(rows), rows)
  }

  /** `build_inventory`. */
  method BuildInventory(d: Digests, corpus: seq<CorpusRow>, suites: seq<string>, keep: Option<set<Outcome>>)
    returns (r: Result<Inventory, CorpusRow>)
    ensures match Collected(corpus, Lanes(suites), keep)
            case Err(e) => r == Err(e)
            case Ok(rows) => r == Ok(Built(d, rows))
  {
    var collected := CollectRows(corpus, suites, keep);
    if collected.Err? { return Err(collected.error); }
    return Ok(Built(d, collected.value));
  }

  function Word(o: Outcome): string {
    match o
    case Proof => "PROOF"
    case Ctrex => "CTREX"
    case Unknown => "UNKNOWN"
    case Failure => "ERROR"
    case BmcSafe => "BMC_SAFE"
    case Other(text) => text
  }

  const SENTENCE :=
    "expected non-PROOF "
    + "verdict carried by the test's `expected` output file (survey disposition: "

  function TextOf(j: Justification): string {
    match j
    case Free(text) => text
    case OfSurvey(o) => SENTENCE + Word(o) + ")"
  }

  function Closed(r: Row): ClosureRow { ClosureRow(r, EXPECTED_FAIL, OfSurvey(r.expected)) }

  /** The closure of a mixed inventory: its other rows, in its order. */
  function ClosureRows(mixed: seq<Row>): seq<ClosureRow> {
    Map(Closed, Filter(IsOpenRow, mixed))
  }

  function ClosureOf(d: Digests, mixed: seq<Row>, suite: string, source: Source): Closure {
    var rows := ClosureRows(mixed);
    Closure(1, suite, |rows|, d.closure(rows), rows, source)
  }

  lemma {:induction false} MapKeepsSorted(rows: seq<Row>)
    requires SortedBy(RowLe, rows)
    ensures SortedBy(ClosureLe, Map(Closed, rows))
  {
  }

  lemma {:induction false} ClosureSorted(mixed: seq<Row>)
    requires SortedBy(RowLe, mixed)
    ensures StableSort(ClosureLe, ClosureRows(mixed)) == ClosureRows(mixed)
  {
    FilterKeepsSorted(RowLe, IsOpenRow, mixed);
    MapKeepsSorted(Filter(IsOpenRow, mixed));
    SortOfSorted(ClosureLe, ClosureRows(mixed));
  }

  lemma {:induction false} NextClosure(mixed: seq<Row>, i: nat)
    requires i < |mixed|
    ensures ClosureRows(mixed[..i+1]) ==
            ClosureRows(mixed[..i]) + (if IsOpenRow(mixed[i]) then [Closed(mixed[i])] else [])
  {
    assert mixed[..i+1] == mixed[..i] + [mixed[i]];
    FilterAppend(IsOpenRow, mixed[..i], [mixed[i]]);
    var last := Filter(IsOpenRow, [mixed[i]]);
    assert last == if IsOpenRow(mixed[i]) then [mixed[i]] else [];
    MapAppend(Closed, Filter(IsOpenRow, mixed[..i]), last);
    assert Map(Closed, last) == if IsOpenRow(mixed[i]) then [Closed(mixed[i])] else [];
  }

  /** `build_non_proof_closure`. */
  method BuildNonProofClosure(d: Digests, corpus: seq<CorpusRow>, suites: seq<string>)
    returns (r: Result<Closure, CorpusRow>)
    ensures match Collected(corpus, Lanes(suites), None)
            case Err(e) => r == Err(e)
            case Ok(mixed) => r == Ok(ClosureOf(d, mixed, HOME_SUITE, Source(MIXED_NAME, |mixed|, d.rows(mixed))))
  {
    var collected := CollectRows(corpus, suites, None);
    if collected.Err? { return Err(collected.error); }
    var mixed := collected.value;
    var rows := CloseRows(mixed);
    RowsAreOrdered();
    SortSorts(RowLe, Filter(Keeps(None), Chosen(corpus, Lanes(suites)).value));
    ClosureSorted(mixed);
    rows := StableSort(ClosureLe, rows);
    return Ok(Closure(1, HOME_SUITE, |rows|, d.closure(rows), rows, Source(MIXED_NAME, |mixed|, d.rows(mixed))));
  }

  method CloseRows(mixed: seq<Row>) returns (rows: seq<ClosureRow>)
    ensures rows == ClosureRows(mixed)
  {
    rows := [];
    var i := 0;
    while i < |mixed|
      invariant 0 <= i <= |mixed|
      invariant rows == ClosureRows(mixed[..i])
    {
      NextClosure(mixed, i);
      if mixed[i].expected != Proof { rows := rows + [Closed(mixed[i])]; }
      i := i + 1;
    }
    assert mixed[..i] == mixed;
  }

  // ---------------------------------------------------------------------
  // The second closure builder
  // ---------------------------------------------------------------------

  datatype Refusal =
    | UnknownOutcome(index: nat)
    | DenominatorMismatch
    | DigestLength
    | DigestMismatch
    | NoSuite

  function FirstOther(rows: seq<Row>, at: nat): Option<nat> {
    if rows == [] then None
    else if rows[0].expected.Other? then Some(at)
    else FirstOther(rows[1..], at + 1)
  }

  lemma {:induction false} FirstOtherMeaning(rows: seq<Row>, at: nat)
    ensures FirstOther(rows, at).None? <==> forall i :: 0 <= i < |rows| ==> !rows[i].expected.Other?
  {
    if rows != [] && !rows[0].expected.Other? {
      FirstOtherMeaning(rows[1..], at + 1);
      assert rows == [rows[0]] + rows[1..];
    }
  }

  function Reclosed(d: Digests, data: Inventory, name: string): Result<Closure, Refusal> {
    if FirstOther(data.rows, 0).Some? then Err(UnknownOutcome(FirstOther(data.rows, 0).value))
    else if data.denominator != |data.rows| then Err(DenominatorMismatch)
    else if |data.digest| != 64 then Err(DigestLength)
    else if data.digest != d.rows(data.rows) then Err(DigestMismatch)
    else if data.suite == "" then Err(NoSuite)
    else
      var rows := StableSort(ClosureLe, ClosureRows(data.rows));
      Ok(Closure(1, data.suite, |rows|, d.closure(rows), rows, Source(name, data.denominator, data.digest)))
  }

  /** The loop of `build_closure`. */
  method RecloseRows(rows: seq<Row>) returns (r: Result<seq<ClosureRow>, Refusal>)
    ensures match FirstOther(rows, 0)
            case Some(i) => r == Err(UnknownOutcome(i))
            case None => r == Ok(ClosureRows(rows))
  {
    var closed: seq<ClosureRow> := [];
    var i := 0;
    assert rows[0..] == rows;
    while i < |rows|
      invariant 0 <= i <= |rows|
      invariant closed == ClosureRows(rows[..i])
      invariant FirstOther(rows, 0) == FirstOther(rows[i..], i)
    {
      NextClosure(rows, i);
      assert rows[i..][0] == rows[i] && rows[i..][1..] == rows[i+1..];
      var row := rows[i];
      if row.expected.Other? { return Err(UnknownOutcome(i)); }
      i := i + 1;
      if row.expected == Proof { continue; }
      closed := closed + [Closed(row)];
    }
    assert rows[..i] == rows;
    return Ok(closed);
  }

  /** `build_closure`. */
  method BuildClosure(d: Digests, data: Inventory, name: string) returns (r: Result<Closure, Refusal>)
    ensures r == Reclosed(d, data, name)
  {
    var closed := RecloseRows(data.rows);
    if closed.Err? { return Err(closed.error); }
    var rows := StableSort(ClosureLe, closed.value);
    if data.denominator != |data.rows| { return Err(DenominatorMismatch); }
    if |data.digest| != 64 { return Err(DigestLength); }
    if data.digest != d.rows(data.rows) { return Err(DigestMismatch); }
    if data.suite == "" { return Err(NoSuite); }
    return Ok(Closure(1, data.suite, |rows|, d.closure(rows), rows, Source(name, data.denominator, data.digest)));
  }

  // ---------------------------------------------------------------------
  // The validator
  // ---------------------------------------------------------------------

  function UntilSlash(s: string): (n: nat)
    ensures n <= |s|
  {
    if s == [] || s[0] == '/' then 0 else 1 + UntilSlash(s[1..])
  }

  /** The parts of a relative path: what is between slashes, without empty and `.` parts. */
  function Parts(s: string): seq<string>
    decreases |s|
  {
    if s == [] then []
    else
      var n := UntilSlash(s);
      var rest := if n == |s| then [] else s[n+1..];
      (if n == 0 || s[..n] == "." then [] else [s[..n]]) + Parts(rest)
  }

  predicate SafePath(file: string) {
    "tests/" <= file && ".." !in Parts(file) && |file| >= 3 && file[|file|-3..] == ".rs"
  }

  function LaneOf(file: string): string {
    var parts := Parts(file);
    if |parts| == 0 then "" else if |parts| == 1 then parts[0] else parts[0] + "/" + parts[1]
  }

  /** A name between slashes. */
  predicate IsName(s: string) { s != [] && s != "." && '/' !in s }

  function Slashed(names: seq<string>): string {
    if names == [] then [] else if |names| == 1 then names[0] else names[0] + "/" + Slashed(names[1..])
  }

  lemma {:induction false} UntilSlashStops(name: string, more: string)
    requires '/' !in name && (more == [] || more[0] == '/')
    ensures UntilSlash(name + more) == |name|
  {
    if name != [] {
      assert (name + more)[1..] == name[1..] + more;
      UntilSlashStops(name[1..], more);
    }
  }

  /** The parts of a path are the names it was put together from. */
  lemma {:induction false} PartsMeaning(names: seq<string>)
    requires forall i :: 0 <= i < |names| ==> IsName(names[i])
    ensures Parts(Slashed(names)) == names
  {
    if |names| == 1 {
      assert names[0] + [] == names[0];
      UntilSlashStops(names[0], []);
    } else if |names| > 1 {
      var more := "/" + Slashed(names[1..]);
      assert Slashed(names) == names[0] + more;
      UntilSlashStops(names[0], more);
      assert (names[0] + more)[|names[0]|+1..] == Slashed(names[1..]);
      PartsMeaning(names[1..]);
    }
  }

  /** So a path under two directories is on the lane of both, and safe when the first is `tests`,
      no name is `..` and the last one ends in `.rs`. */
  lemma {:induction false} PathMeaning(names: seq<string>)
    requires |names| >= 2 && forall i :: 0 <= i < |names| ==> IsName(names[i])
    ensures var file := Slashed(names);
            && LaneOf(file) == names[0] + "/" + names[1]
            && (SafePath(file) <==> names[0] == "tests" && ".." !in names && |file| >= 3 && file[|file|-3..] == ".rs")
  {
    PartsMeaning(names);
    var file := Slashed(names);
    assert file == names[0] + "/" + Slashed(names[1..]);
    if "tests/" <= file { FirstName(names[0], Slashed(names[1..])); }
    if names[0] == "tests" { assert file[..6] == "tests/"; }
  }

  lemma {:induction false} FirstName(name: string, more: string)
    requires IsName(name) && "tests/" <= name + "/" + more
    ensures name == "tests"
  {
    var file := name + "/" + more;
    assert file[5] == '/' && file[|name|] == '/';
    assert forall i :: 0 <= i < |name| ==> file[i] == name[i];
    assert forall i :: 0 <= i < 5 ==> file[i] == "tests"[i];
    assert |name| == 5;
  }

  datatype Problem =
    | BadSchema
    | BadOutcome(index: nat)
    | UnsafePath(index: nat)
    | WrongLane(index: nat)
    | Duplicate(index: nat)
    | NotSorted
    | BadDenominator
    | BadDigest
    | NotTheProofSubset
    | BadDisposition(index: nat)
    | BadJustification(index: nat)
    | NotTheComplement
    | BadSource

  function RowProblem(r: Row, seen: set<Key>, at: nat): Option<Problem> {
    if r.expected.Other? then Some(BadOutcome(at))
    else if !SafePath(r.file) then Some(UnsafePath(at))
    else if r.lane != LaneOf(r.file) then Some(WrongLane(at))
    else if KeyOf(r) in seen then Some(Duplicate(at))
    else None
  }

  function FirstProblem(rows: seq<Row>, seen: set<Key>, at: nat): Option<Problem> {
    if rows == [] then None
    else if RowProblem(rows[0], seen, at).Some? then RowProblem(rows[0], seen, at)
    else FirstProblem(rows[1..], seen + {KeyOf(rows[0])}, at + 1)
  }

  function Validated(d: Digests, data: Inventory): Result<seq<Row>, Problem> {
    if data.schema != 1 then Err(BadSchema)
    else if FirstProblem(data.rows, {}, 0).Some? then Err(FirstProblem(data.rows, {}, 0).value)
    else if data.rows != StableSort(RowLe, data.rows) then Err(NotSorted)
    else if data.denominator != |data.rows| then Err(BadDenominator)
    else if data.digest != d.rows(data.rows) then Err(BadDigest)
    else Ok(data.rows)
  }

  /** The loop of `_validate_inventory`. */
  method CheckRows(rows: seq<Row>) returns (r: Option<Problem>)
    ensures r == FirstProblem(rows, {}, 0)
  {
    var seen: set<Key> := {};
    var i := 0;
    assert rows[0..] == rows;
    while i < |rows|
      invariant 0 <= i <= |rows|
      invariant FirstProblem(rows, {}, 0) == FirstProblem(rows[i..], seen, i)
    {
      assert rows[i..][0] == rows[i] && rows[i..][1..] == rows[i+1..];
      var problem := RowProblem(rows[i], seen, i);
      if problem.Some? { return problem; }
      seen := seen + {KeyOf(rows[i])};
      i := i + 1;
    }
    return None;
  }

  /** `_validate_inventory`. */
  method ValidateInventory(d: Digests, data: Inventory) returns (r: Result<seq<Row>, Problem>)
    ensures r == Validated(d, data)
  {
    if data.schema != 1 { return Err(BadSchema); }
    var problem := CheckRows(data.rows);
    if problem.Some? { return Err(problem.value); }
    if data.rows != StableSort(RowLe, data.rows) { return Err(NotSorted); }
    if data.denominator != |data.rows| { return Err(BadDenominator); }
    if data.digest != d.rows(data.rows) { return Err(BadDigest); }
    return Ok(data.rows);
  }

  predicate Placed(r: Row) { !r.expected.Other? && SafePath(r.file) && r.lane == LaneOf(r.file) }

  ghost predicate Unseen(rows: seq<Row>, seen: set<Key>) {
    forall i :: 0 <= i < |rows| ==> Placed(rows[i]) && KeyOf(rows[i]) !in seen
  }

  lemma {:induction false} NoProblem(rows: seq<Row>, seen: set<Key>, at: nat)
    requires Unseen(rows, seen) && DistinctKeys(rows)
    ensures FirstProblem(rows, seen, at).None?
  {
    if rows != [] {
      assert Placed(rows[0]);
      forall i | 0 <= i < |rows[1..]| ensures Placed(rows[1..][i]) && KeyOf(rows[1..][i]) !in seen + {KeyOf(rows[0])} {
        assert rows[1..][i] == rows[i+1];
      }
      NoProblem(rows[1..], seen + {KeyOf(rows[0])}, at + 1);
    }
  }

  lemma {:induction false} ProblemFree(rows: seq<Row>, seen: set<Key>, at: nat)
    requires FirstProblem(rows, seen, at).None?
    ensures Unseen(rows, seen) && DistinctKeys(rows)
  {
    if rows != [] {
      ProblemFree(rows[1..], seen + {KeyOf(rows[0])}, at + 1);
      assert Placed(rows[0]);
      forall i | 0 < i < |rows| ensures Placed(rows[i]) && KeyOf(rows[i]) !in seen && KeyOf(rows[i]) != KeyOf(rows[0]) {
        assert rows[i] == rows[1..][i-1];
      }
      forall i, j | 0 < i < j < |rows| ensures KeyOf(rows[i]) != KeyOf(rows[j]) {
        assert rows[i] == rows[1..][i-1] && rows[j] == rows[1..][j-1];
      }
    }
  }

  lemma {:induction false} FirstProblemMeaning(rows: seq<Row>)
    ensures FirstProblem(rows, {}, 0).None? <==> (forall i :: 0 <= i < |rows| ==> Placed(rows[i])) && DistinctKeys(rows)
  {
    if FirstProblem(rows, {}, 0).None? {
      ProblemFree(rows, {}, 0);
    } else if Unseen(rows, {}) && DistinctKeys(rows) {
      NoProblem(rows, {}, 0);
    }
  }

  /** What the validator accepts: well placed rows with distinct keys, in order, counted and
      digested. */
  lemma {:induction false} ValidatedMeaning(d: Digests, data: Inventory)
    ensures Validated(d, data).Ok? <==>
              && data.schema == 1
              && (forall i :: 0 <= i < |data.rows| ==> Placed(data.rows[i]))
              && DistinctKeys(data.rows)
              && SortedBy(RowLe, data.rows)
              && data.denominator == |data.rows|
              && data.digest == d.rows(data.rows)
  {
    FirstProblemMeaning(data.rows);
    RowsAreOrdered();
    SortSorts(RowLe, data.rows);
    if SortedBy(RowLe, data.rows) { SortOfSorted(RowLe, data.rows); }
  }

  function ClosureProblem(rows: seq<ClosureRow>, at: nat): Option<Problem> {
    if rows == [] then None
    else if rows[0].disposition != EXPECTED_FAIL then Some(BadDisposition(at))
    else if IsBlank(rows[0].justification) then Some(BadJustification(at))
    else ClosureProblem(rows[1..], at + 1)
  }

  predicate IsBlank(j: Justification) { Strip(TextOf(j)) == "" }

  function Subsets(d: Digests, mixed: seq<Row>, proof: Inventory, closure: Closure, source: Source): Option<Problem> {
    var proved := Validated(d, proof);
    if proved.Err? then Some(proved.error)
    else if proved.value != Filter(IsProofRow, mixed) then Some(NotTheProofSubset)
    else if closure.schema != 1 then Some(BadSchema)
    else if ClosureProblem(closure.rows, 0).Some? then ClosureProblem(closure.rows, 0)
    else if Map((c: ClosureRow) => c.row, closure.rows) != Filter(IsOpenRow, mixed) then Some(NotTheComplement)
    else if closure.denominator != |closure.rows| then Some(BadDenominator)
    else if closure.digest != d.closure(closure.rows) then Some(BadDigest)
    else if closure.source != source then Some(BadSource)
    else None
  }

  /** The loop over the closure's rows. */
  method ReadClosureRows(rows: seq<ClosureRow>) returns (r: Result<seq<Row>, Problem>)
    ensures match ClosureProblem(rows, 0)
            case Some(problem) => r == Err(problem)
            case None => r == Ok(Map((c: ClosureRow) => c.row, rows))
  {
    var keys: seq<Row> := [];
    var i := 0;
    assert rows[0..] == rows;
    while i < |rows|
      invariant 0 <= i <= |rows|
      invariant ClosureProblem(rows, 0) == ClosureProblem(rows[i..], i)
      invariant |keys| == i && forall k :: 0 <= k < i ==> keys[k] == rows[k].row
    {
      var row := rows[i];
      assert rows[i..][0] == row && rows[i..][1..] == rows[i+1..];
      if row.disposition != EXPECTED_FAIL { return Err(BadDisposition(i)); }
      if IsBlank(row.justification) { return Err(BadJustification(i)); }
      keys := keys + [row.row];
      i := i + 1;
    }
    assert keys == Map((c: ClosureRow) => c.row, rows);
    return Ok(keys);
  }

  /** `_validate_subsets`; `source` is what the closure must name: the mixed inventory's file
      name, row count and digest. */
  method ValidateSubsets(d: Digests, mixed: seq<Row>, proof: Inventory, closure: Closure, source: Source)
    returns (r: Option<Problem>)
    ensures r == Subsets(d, mixed, proof, closure, source)
  {
    var proved := ValidateInventory(d, proof);
    if proved.Err? { return Some(proved.error); }
    if proved.value != Filter(IsProofRow, mixed) { return Some(NotTheProofSubset); }
    if closure.schema != 1 { return Some(BadSchema); }
    var keys := ReadClosureRows(closure.rows);
    if keys.Err? { return Some(keys.error); }
    if keys.value != Filter(IsOpenRow, mixed) { return Some(NotTheComplement); }
    if closure.denominator != |closure.rows| { return Some(BadDenominator); }
    if closure.digest != d.closure(closure.rows) { return Some(BadDigest); }
    if closure.source != source { return Some(BadSource); }
    return None;
  }

  // ---------------------------------------------------------------------
  // What one tool writes, the next accepts
  // ---------------------------------------------------------------------

  lemma {:induction false} NotBlank(text: string)
    requires text != "" && !IsSpace(text[0])
    ensures Strip(text) != ""
  {
    var lead, trail := StripDecomposes(text);
  }

  lemma {:induction false} SentenceIsNotBlank(o: Outcome)
    ensures !IsBlank(OfSurvey(o))
  {
    SentenceStarts();
    StartsAlike(SENTENCE, Word(o), ")");
    NotBlank(TextOf(OfSurvey(o)));
  }

  lemma {:induction false} SentenceStarts()
    ensures SENTENCE != "" && !IsSpace(SENTENCE[0])
  {
    assert "expected non-PROOF "[0] == 'e';
  }

  lemma {:induction false} StartsAlike(a: string, b: string, c: string)
    requires a != ""
    ensures (a + b + c)[0] == a[0]
  {
  }

  lemma {:induction false} ClosedRowsAreFine(rows: seq<Row>, at: nat)
    ensures ClosureProblem(Map(Closed, rows), at).None?
  {
    if rows != [] {
      SentenceIsNotBlank(rows[0].expected);
      ClosedRowsAreFine(rows[1..], at + 1);
    }
  }

  lemma {:induction false} ReclosedValid(d: Digests, data: Inventory, name: string)
    requires IsHex(d) && Validated(d, data).Ok? && data.suite != ""
    ensures Reclosed(d, data, name) == Ok(ClosureOf(d, data.rows, data.suite, Source(name, |data.rows|, data.digest)))
  {
    ValidatedMeaning(d, data);
    FirstOtherMeaning(data.rows, 0);
    forall i | 0 <= i < |data.rows| ensures !data.rows[i].expected.Other? { assert Placed(data.rows[i]); }
    ClosureSorted(data.rows);
  }

  lemma {:induction false} ClosurePasses(d: Digests, mixed: seq<Row>, suite: string, source: Source, proof: Inventory)
    requires Validated(d, proof) == Ok(Filter(IsProofRow, mixed))
    ensures Subsets(d, mixed, proof, ClosureOf(d, mixed, suite, source), source) == None
  {
    var open := Filter(IsOpenRow, mixed);
    ClosedRowsAreFine(open, 0);
    assert Map((c: ClosureRow) => c.row, Map(Closed, open)) == open;
  }

  /** The closure of any inventory the validator accepts is built, and is accepted beside any PROOF
      subset the validator accepts. */
  lemma {:induction false} ClosureOfAnyValidInventory(d: Digests, data: Inventory, name: string, proof: Inventory)
    requires IsHex(d) && Validated(d, data).Ok? && data.suite != ""
    requires Validated(d, proof) == Ok(Filter(IsProofRow, data.rows))
    ensures Reclosed(d, data, name).Ok?
    ensures Subsets(d, data.rows, proof, Reclosed(d, data, name).value, Source(name, |data.rows|, data.digest)) == None
  {
    ReclosedValid(d, data, name);
    ClosurePasses(d, data.rows, data.suite, Source(name, |data.rows|, data.digest), proof);
  }

  /** Both builders write the same closure, whatever the corpus. */
  lemma {:induction false} BuildersAgree(d: Digests, corpus: seq<CorpusRow>, lanes: set<string>)
    requires IsHex(d) && Collected(corpus, lanes, None).Ok?
    ensures var mixed := Collected(corpus, lanes, None).value;
            Reclosed(d, Built(d, mixed), MIXED_NAME) ==
            Ok(ClosureOf(d, mixed, HOME_SUITE, Source(MIXED_NAME, |mixed|, d.rows(mixed))))
  {
    var mixed := Collected(corpus, lanes, None).value;
    var chosen := Chosen(corpus, lanes).value;
    RowsAreOrdered();
    ChosenRows(corpus, lanes);
    KeepsAll(chosen);
    SortSorts(RowLe, chosen);
    SortMembers(RowLe, chosen);
    ClosureSorted(mixed);
    FirstOtherMeaning(mixed, 0);
    forall i | 0 <= i < |mixed| ensures !mixed[i].expected.Other? {
      assert mixed[i] in mixed;
      var k :| 0 <= k < |chosen| && chosen[k] == mixed[i];
    }
  }

  lemma {:induction false} KeepsAll(rows: seq<Row>)
    ensures Filter(Keeps(None), rows) == rows
  {
    if rows != [] {
      KeepsAll(rows[1..]);
      assert [rows[0]] + rows[1..] == rows;
    }
  }

  function Included(corpus: seq<CorpusRow>, lanes: set<string>): seq<CorpusRow> {
    Filter((c: CorpusRow) => c.suite in lanes, corpus)
  }

  lemma {:induction false} ChosenRows(corpus: seq<CorpusRow>, lanes: set<string>)
    ensures var from := Included(corpus, lanes);
            && (Chosen(corpus, lanes).Ok? <==> forall i :: 0 <= i < |from| ==> MapDisposition(from[i].survey).Some?)
            && (Chosen(corpus, lanes).Ok? ==>
                  var rows := Chosen(corpus, lanes).value;
                  && |rows| == |from|
                  && forall i :: 0 <= i < |from| ==>
                       MapDisposition(from[i].survey).Some? && !rows[i].expected.Other? &&
                       rows[i] == RowFrom(from[i], MapDisposition(from[i].survey).value))
  {
    if corpus != [] {
      ChosenRows(corpus[1..], lanes);
      var from, more := Included(corpus, lanes), Included(corpus[1..], lanes);
      if corpus[0].suite in lanes {
        assert from == [corpus[0]] + more;
        if MapDisposition(corpus[0].survey).None? {
          assert from[0] == corpus[0];
        } else if Chosen(corpus, lanes).Err? {
          var i :| 0 <= i < |more| && MapDisposition(more[i].survey).None?;
          assert from[i+1] == more[i];
        }
      }
    }
  }

  predicate IsSurveyWord(survey: string) { survey == "PROOF" || survey == "CTREX" || survey == "INDETERMINATE" }

  /** What a survey word has the inventory expect: the same word, or UNKNOWN of an indeterminate one. */
  predicate Expects(survey: string, expected: Outcome) {
    && Word(expected) == (if survey == "INDETERMINATE" then "UNKNOWN" else survey)
    && (expected == Proof <==> survey == "PROOF")
    && (expected == Ctrex <==> survey == "CTREX")
    && (expected == Unknown <==> survey == "INDETERMINATE")
  }

  /** The row is the corpus row's, and expects what its survey word says. */
  predicate Tells(c: CorpusRow, r: Row) {
    (r.file, r.harness, r.lane) == (c.file, c.harness, c.suite) && Expects(c.survey, r.expected)
  }

  lemma {:induction false} DispositionMeaning(survey: string)
    ensures MapDisposition(survey).Some? <==> IsSurveyWord(survey)
    ensures MapDisposition(survey).Some? ==> Expects(survey, MapDisposition(survey).value)
  {
  }

  /** The chosen rows tell the included corpus rows one for one, whose words they expect; there are
      none exactly when some included word is none of the three. */
  lemma {:induction false} ChosenMeaning(corpus: seq<CorpusRow>, lanes: set<string>)
    ensures var from := Included(corpus, lanes);
            && (Chosen(corpus, lanes).Ok? <==> forall i :: 0 <= i < |from| ==> IsSurveyWord(from[i].survey))
            && (Chosen(corpus, lanes).Ok? ==>
                  var rows := Chosen(corpus, lanes).value;
                  |rows| == |from| && forall i :: 0 <= i < |from| ==> Tells(from[i], rows[i]))
  {
    ChosenRows(corpus, lanes);
    var from := Included(corpus, lanes);
    forall i | 0 <= i < |from|
      ensures MapDisposition(from[i].survey).Some? <==> IsSurveyWord(from[i].survey)
      ensures MapDisposition(from[i].survey).Some? ==> Expects(from[i].survey, MapDisposition(from[i].survey).value)
    {
      DispositionMeaning(from[i].survey);
    }
  }

  /** The rows collected are those of the chosen that are asked for, in key order; the refusal names an
      included corpus row with an unknown word, the first one. */
  lemma {:induction false} CollectedMeaning(corpus: seq<CorpusRow>, lanes: set<string>, keep: Option<set<Outcome>>)
    ensures Collected(corpus, lanes, keep).Ok? <==> Chosen(corpus, lanes).Ok?
    ensures Collected(corpus, lanes, keep).Ok? ==>
              var rows := Collected(corpus, lanes, keep).value;
              && SortedBy(RowLe, rows)
              && forall r :: multiset(rows)[r] ==
                             if keep.None? || r.expected in keep.value
                             then multiset(Chosen(corpus, lanes).value)[r] else 0
    ensures Collected(corpus, lanes, keep).Err? ==>
              exists i: nat :: IsFirstUnknown(Included(corpus, lanes), i) &&
                               Collected(corpus, lanes, keep).error == Included(corpus, lanes)[i]
  {
    if Chosen(corpus, lanes).Ok? {
      var chosen := Chosen(corpus, lanes).value;
      RowsAreOrdered();
      SortSorts(RowLe, Filter(Keeps(keep), chosen));
      SortContents(RowLe, Filter(Keeps(keep), chosen));
      FilterCounts(Keeps(keep), chosen);
    } else {
      var i := RefusedAt(corpus, lanes);
    }
  }

  predicate IsFirstUnknown(from: seq<CorpusRow>, i: nat) {
    i < |from| && !IsSurveyWord(from[i].survey) && forall j :: 0 <= j < i ==> IsSurveyWord(from[j].survey)
  }

  lemma {:induction false} FilterCounts(p: Row -> bool, rows: seq<Row>)
    ensures forall r :: multiset(Filter(p, rows))[r] == if p(r) then multiset(rows)[r] else 0
  {
    if rows != [] {
      FilterCounts(p, rows[1..]);
      assert rows == [rows[0]] + rows[1..];
    }
  }

  lemma {:induction false} RefusedAt(corpus: seq<CorpusRow>, lanes: set<string>) returns (i: nat)
    requires Chosen(corpus, lanes).Err?
    ensures IsFirstUnknown(Included(corpus, lanes), i) && Included(corpus, lanes)[i] == Chosen(corpus, lanes).error
  {
    var from, more := Included(corpus, lanes), Included(corpus[1..], lanes);
    if corpus[0].suite !in lanes {
      i := RefusedAt(corpus[1..], lanes);
    } else {
      DispositionMeaning(corpus[0].survey);
      assert from == [corpus[0]] + more;
      if MapDisposition(corpus[0].survey).None? {
        i := 0;
      } else {
        i := RefusedAt(corpus[1..], lanes);
        assert from[i+1] == more[i];
        i := i + 1;
      }
    }
  }

  /** A lane is a suite under `tests/`, which is put in front of one that is not there yet. */
  lemma {:induction false} LaneMeaning(suite: string)
    ensures var lane, s := NormalizeLane(suite), Strip(suite);
            "tests/" <= lane && (if "tests/" <= s then lane == s else lane[6..] == s)
  {
  }

  /** What the corpus must be like: safe paths, lanes that match them, distinct keys. */
  ghost predicate WellFormed(from: seq<CorpusRow>) {
    && (forall i :: 0 <= i < |from| ==> SafePath(from[i].file) && from[i].suite == LaneOf(from[i].file))
    && (forall i, j :: 0 <= i < j < |from| ==> (from[i].file, from[i].harness) != (from[j].file, from[j].harness))
  }

  lemma {:induction false} SortedKeysDistinct(rows: seq<Row>)
    ensures DistinctKeys(StableSort(RowLe, rows)) <==> DistinctKeys(rows)
  {
    var sorted := StableSort(RowLe, rows);
    SortContents(RowLe, rows);
    MapOfPermuted(KeyOf, rows, sorted);
    DistinctOfPermuted(Map(KeyOf, rows), Map(KeyOf, sorted));
    DistinctKeysMeaning(rows);
    DistinctKeysMeaning(sorted);
  }

  lemma {:induction false} DistinctKeysMeaning(rows: seq<Row>)
    ensures DistinctKeys(rows) <==> Distinct(Map(KeyOf, rows))
  {
    if DistinctKeys(rows) {
      assert Distinct(Map(KeyOf, rows));
    } else {
      var i, j :| 0 <= i < j < |rows| && KeyOf(rows[i]) == KeyOf(rows[j]);
      assert Map(KeyOf, rows)[i] == Map(KeyOf, rows)[j];
    }
  }

  lemma {:induction false} SortedRowsPlaced(rows: seq<Row>)
    ensures (forall r :: r in StableSort(RowLe, rows) ==> Placed(r)) <==> (forall r :: r in rows ==> Placed(r))
  {
    SortMembers(RowLe, rows);
  }

  /** A generated mixed inventory is accepted exactly when the included corpus is well formed. */
  lemma {:induction false} MixedAcceptedExactly(d: Digests, corpus: seq<CorpusRow>, lanes: set<string>)
    requires Collected(corpus, lanes, None).Ok?
    ensures Validated(d, Built(d, Collected(corpus, lanes, None).value)).Ok? <==> WellFormed(Included(corpus, lanes))
  {
    var from, chosen := Included(corpus, lanes), Chosen(corpus, lanes).value;
    var mixed := StableSort(RowLe, chosen);
    ChosenRows(corpus, lanes);
    KeepsAll(chosen);
    RowsAreOrdered();
    SortSorts(RowLe, chosen);
    SortContents(RowLe, chosen);
    SortedKeysDistinct(chosen);
    SortedRowsPlaced(chosen);
    PlacedByIndex(mixed);
    PlacedByIndex(chosen);
    ValidatedMeaning(d, Built(d, mixed));
    WellFormedRows(from, chosen);
  }

  lemma {:induction false} PlacedByIndex(rows: seq<Row>)
    ensures (forall r :: r in rows ==> Placed(r)) <==> forall i :: 0 <= i < |rows| ==> Placed(rows[i])
  {
  }

  lemma {:induction false} WellFormedRows(from: seq<CorpusRow>, rows: seq<Row>)
    requires |rows| == |from|
    requires forall i :: 0 <= i < |from| ==>
               rows[i].file == from[i].file && rows[i].harness == from[i].harness && rows[i].lane == from[i].suite
    requires forall i :: 0 <= i < |rows| ==> !rows[i].expected.Other?
    ensures WellFormed(from) <==> (forall i :: 0 <= i < |rows| ==> Placed(rows[i])) && DistinctKeys(rows)
  {
    if (forall i :: 0 <= i < |rows| ==> Placed(rows[i])) && DistinctKeys(rows) {
      forall i | 0 <= i < |from| ensures SafePath(from[i].file) && from[i].suite == LaneOf(from[i].file) {
        assert Placed(rows[i]);
      }
      forall i, j | 0 <= i < j < |from|
        ensures (from[i].file, from[i].harness) != (from[j].file, from[j].harness)
      {
        assert KeyOf(rows[i]) != KeyOf(rows[j]);
      }
    }
  }

  /** For every well formed corpus the three generated artifacts pass the validator together. */
  lemma {:induction false} GeneratedArtifactsPass(d: Digests, corpus: seq<CorpusRow>, lanes: set<string>)
    requires IsHex(d) && Collected(corpus, lanes, None).Ok? && WellFormed(Included(corpus, lanes))
    ensures Collected(corpus, lanes, Some({Proof})).Ok?
    ensures var mixed := Collected(corpus, lanes, None).value;
            var proof := Collected(corpus, lanes, Some({Proof})).value;
            var source := Source(MIXED_NAME, |mixed|, d.rows(mixed));
            && Validated(d, Built(d, mixed)) == Ok(mixed)
            && Validated(d, Built(d, proof)) == Ok(proof)
            && Subsets(d, mixed, Built(d, proof), ClosureOf(d, mixed, HOME_SUITE, source), source) == None
  {
    var chosen := Chosen(corpus, lanes).value;
    var mixed := Collected(corpus, lanes, None).value;
    MixedAcceptedExactly(d, corpus, lanes);
    KeepsAll(chosen);
    KeepsProof(chosen);
    RowsAreOrdered();
    FilterThenSort(RowLe, IsProofRow, chosen);
    var proof := Filter(IsProofRow, mixed);
    assert Collected(corpus, lanes, Some({Proof})) == Ok(proof);
    SubsetValidates(d, mixed);
    ClosureOfAnyValidInventory(d, Built(d, mixed), MIXED_NAME, Built(d, proof));
    BuildersAgree(d, corpus, lanes);
  }

  lemma {:induction false} KeepsProof(rows: seq<Row>)
    ensures Filter(Keeps(Some({Proof})), rows) == Filter(IsProofRow, rows)
  {
    if rows != [] { KeepsProof(rows[1..]); }
  }

  /** The PROOF subset of an accepted inventory is accepted. */
  lemma {:induction false} SubsetValidates(d: Digests, mixed: seq<Row>)
    requires Validated(d, Built(d, mixed)).Ok?
    ensures Validated(d, Built(d, Filter(IsProofRow, mixed))).Ok?
  {
    ValidatedMeaning(d, Built(d, mixed));
    ValidatedMeaning(d, Built(d, Filter(IsProofRow, mixed)));
    FilterKeepsSorted(RowLe, IsProofRow, mixed);
    FilterMembers(IsProofRow, mixed);
    PlacedByIndex(mixed);
    PlacedByIndex(Filter(IsProofRow, mixed));
    FilterKeepsDistinct(IsProofRow, mixed);
  }

  lemma {:induction false} FilterKeepsDistinct(p: Row -> bool, rows: seq<Row>)
    requires DistinctKeys(rows)
    ensures DistinctKeys(Filter(p, rows))
  {
    if rows != [] {
      FilterKeepsDistinct(p, rows[1..]);
      FilterMembers(p, rows[1..]);
      var rest := Filter(p, rows[1..]);
      forall j | 0 <= j < |rest| ensures KeyOf(rest[j]) != KeyOf(rows[0]) {
        assert rest[j] in rest;
        var k :| 0 <= k < |rows[1..]| && rows[1..][k] == rest[j];
        assert rows[k+1] == rest[j];
      }
    }
  }

  /** Whatever artifacts are accepted together, the PROOF rows and the closure's rows make up the
      mixed inventory, row for row, with nothing in both. */
  lemma {:induction false} AcceptedSubsetsPartition(
    d: Digests, mixed: seq<Row>, proof: Inventory, closure: Closure, source: Source)
    requires Subsets(d, mixed, proof, closure, source) == None
    ensures multiset(proof.rows) + multiset(Map((c: ClosureRow) => c.row, closure.rows)) == multiset(mixed)
    ensures proof.denominator + closure.denominator == |mixed|
    ensures forall i, j :: 0 <= i < |proof.rows| && 0 <= j < |closure.rows| ==> proof.rows[i] != closure.rows[j].row
  {
    Splits(mixed);
    var proved, open := Filter(IsProofRow, mixed), Filter(IsOpenRow, mixed);
    assert proof.rows == proved && proof.denominator == |proved|;
    var kept := Map((c: ClosureRow) => c.row, closure.rows);
    assert kept == open;
    assert |multiset(mixed)| == |multiset(proved)| + |multiset(open)|;
    FilterMembers(IsProofRow, mixed);
    FilterMembers(IsOpenRow, mixed);
    forall i, j | 0 <= i < |proof.rows| && 0 <= j < |closure.rows| ensures proof.rows[i] != closure.rows[j].row {
      assert proof.rows[i] in proved && kept[j] in open;
    }
  }

  lemma {:induction false} Splits(rows: seq<Row>)
    ensures multiset(Filter(IsProofRow, rows)) + multiset(Filter(IsOpenRow, rows)) == multiset(rows)
  {
    if rows != [] {
      Splits(rows[1..]);
      assert rows == [rows[0]] + rows[1..];
    }
  }
}
