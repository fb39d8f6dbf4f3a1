/** What the progress tool makes of one row, said of the report alone: which observation the row is
    matched with, what outcome that observation stands for, and which class the row is counted in. */
module ProgressMeaning {
  import opened Delimiters
  import opened Inventory
  import opened Ordering
  import opened Progress
  import opened Reports
  import opened Wrappers

  // ---------------------------------------------------------------------
  // The outcome of an observation
  // ---------------------------------------------------------------------

  /** The word a report writes for a verdict. */
  function VerdictText(v: Verdict): string {
    match v
    case Proved => "PROOF"
    case Ctrexed => "CTREX"
    case Undecided => "UNKNOWN"
    case Errored => "ERROR"
    case Bmc => "BMC"
    case Skip => "SKIP"
    case OtherVerdict(text) => text
  }

  predicate IsOutcomeWord(w: string) { w in ["PROOF", "CTREX", "UNKNOWN", "ERROR", "BMC_SAFE"] }

  /** Another verdict than the known ones is none of their words. */
  predicate Spelled(v: Verdict) { v.OtherVerdict? ==> v.text !in ["PROOF", "CTREX", "UNKNOWN", "ERROR", "BMC", "SKIP"] }

  predicate IsIdle(o: Observed) { o.standing.Inactive? || o.verdict == Some(Skip) }

  predicate IsBroken(o: Observed) { !IsIdle(o) && o.state.Some? && !o.state.value.Complete? }

  /** The word that decides, if there is one. */
  function Saying(o: Observed): Option<string> {
    if o.verdict.None? then None
    else
      var w := VerdictText(o.verdict.value);
      if w == "BMC" then Some("BMC_SAFE") else if IsOutcomeWord(w) then Some(w) else None
  }

  /** Nothing but the status and the counts of its checks says how this harness came out. */
  predicate IsCounted(o: Observed) { !IsIdle(o) && !IsBroken(o) && Saying(o).None? }

  predicate Inconclusive(o: Observed) { o.undetermined > 0 || o.unknown > 0 }

  /** Counts as reports hold them. */
  predicate HasCounts(o: Observed) { o.fallback >= 0 && o.failed >= 0 && o.undetermined >= 0 && o.unknown >= 0 }

  lemma {:induction false} VerdictIsItsWord(v: Verdict)
    requires Spelled(v)
    ensures VerdictText(v) == "BMC" ==> AsOutcome(v) == Some(BmcSafe)
    ensures VerdictText(v) != "BMC" && IsOutcomeWord(VerdictText(v)) ==>
              AsOutcome(v).Some? && Word(AsOutcome(v).value) == VerdictText(v)
    ensures VerdictText(v) != "BMC" && !IsOutcomeWord(VerdictText(v)) ==> AsOutcome(v).None?
  {
  }

  /** An observation is inactive if its status or verdict says so, an error if its run was not
      complete, and otherwise what its verdict says. */
  lemma {:induction false} SaidMeaning(o: Observed)
    requires o.verdict.Some? ==> Spelled(o.verdict.value)
    ensures Classify(o).SawInactive? <==> IsIdle(o)
    ensures IsBroken(o) ==> Classify(o) == Saw(Failure)
    ensures !IsIdle(o) && !IsBroken(o) && Saying(o).Some? ==>
              Classify(o).Saw? && Word(Classify(o).outcome) == Saying(o).value
  {
    if o.verdict.Some? { VerdictIsItsWord(o.verdict.value); }
  }

  /** Without such a word: a success is a proof, unless a fallback bounds it or a check stayed open;
      anything else is a counterexample, left open, or an error, as its category and counts say. */
  lemma {:induction false} CountedMeaning(o: Observed)
    requires o.verdict.Some? ==> Spelled(o.verdict.value)
    requires IsCounted(o) && HasCounts(o)
    ensures Classify(o) == Saw(Proof) <==> o.standing.Success? && o.fallback == 0 && !Inconclusive(o)
    ensures Classify(o) == Saw(BmcSafe) <==> o.standing.Success? && o.fallback > 0
    ensures Classify(o) == Saw(Ctrex) <==>
              !o.standing.Success? && (o.ctrexCategory || (o.standing.Failed? && o.failed > 0 && !Inconclusive(o)))
    ensures Classify(o) == Saw(Unknown) <==>
              Inconclusive(o) && if o.standing.Success? then o.fallback == 0 else !o.ctrexCategory
    ensures Classify(o) == Saw(Failure) <==>
              !o.standing.Success? && !o.ctrexCategory && !Inconclusive(o) && (o.standing.Failed? ==> o.failed == 0)
  {
    if o.verdict.Some? { VerdictIsItsWord(o.verdict.value); }
  }

  // ---------------------------------------------------------------------
  // The class of a row
  // ---------------------------------------------------------------------

  predicate Objected(o: Observed) { o.reportMatch == Some(false) }

  /** The observation stands for a proof: by its verdict, or by a success that left nothing open. */
  predicate SaysProof(o: Observed) {
    !IsIdle(o) && !IsBroken(o) &&
    if Saying(o).Some? then Saying(o).value == "PROOF" else o.standing.Success? && o.fallback == 0 && !Inconclusive(o)
  }

  lemma {:induction false} ProofMeaning(o: Observed)
    requires (o.verdict.Some? ==> Spelled(o.verdict.value)) && HasCounts(o)
    ensures Classify(o) == Saw(Proof) <==> SaysProof(o)
  {
    SaidMeaning(o);
    if IsCounted(o) {
      CountedMeaning(o);
    } else if !IsIdle(o) && !IsBroken(o) {
      WordIsProof(Classify(o).outcome, Saying(o).value);
    }
  }

  lemma {:induction false} WordIsProof(outcome: Outcome, w: string)
    requires Word(outcome) == w && IsOutcomeWord(w) && !outcome.Other?
    ensures outcome.Proof? <==> w == "PROOF"
  {
  }

  /** Which class each row is counted in: a PROOF row is proven when its observation is a successful
      proof without fallback that nothing objects to, a fallback when it succeeded with one, and
      else regressed. Another row is closed when it was seen as expected without objection. */
  lemma {:induction false} ClassMeaning(row: Row, o: Observed)
    requires (o.verdict.Some? ==> Spelled(o.verdict.value)) && HasCounts(o)
    ensures var r := Judged(row, Some(o));
            var sound := SaysProof(o) && o.standing.Success? && o.fallback == 0 && !Objected(o)
                         && o.proofQuality != Some(false);
            && (IsProven(r) <==> row.expected.Proof? && sound)
            && (IsFallback(r) <==> row.expected.Proof? && o.standing.Success? && o.fallback > 0)
            && (IsRegressed(r) <==> row.expected.Proof? && !sound && !(o.standing.Success? && o.fallback > 0))
            && (IsClosed(r) <==> !row.expected.Proof? && Classify(o) == Saw(row.expected) && !Objected(o))
            && (IsUnjustified(r) <==> !row.expected.Proof? && (Classify(o) != Saw(row.expected) || Objected(o)))
            && !IsMissing(r) && !IsProofMissing(r) && !IsOpenMissing(r)
  {
    ProofMeaning(o);
  }

  /** A row nothing was found for is missing, and nothing else. */
  lemma {:induction false} MissingMeaning(row: Row)
    ensures var r := Judged(row, None);
            && IsMissing(r) && (if row.expected.Proof? then IsProofMissing(r) else IsOpenMissing(r))
            && !IsProven(r) && !IsFallback(r) && !IsRegressed(r) && !IsClosed(r) && !IsUnjustified(r)
  {
  }

  // ---------------------------------------------------------------------
  // The observation of a row
  // ---------------------------------------------------------------------

  ghost predicate IsFirst(p: Observed -> bool, observed: seq<Observed>, o: Observed) {
    exists i :: 0 <= i < |observed| && observed[i] == o && p(observed[i]) && forall j :: 0 <= j < i ==> !p(observed[j])
  }

  ghost predicate IsOnly(p: Observed -> bool, observed: seq<Observed>, o: Observed) {
    exists i :: 0 <= i < |observed| && observed[i] == o && p(observed[i])
                && forall j :: 0 <= j < |observed| && j != i ==> !p(observed[j])
  }

  ghost predicate Nobody(p: Observed -> bool, observed: seq<Observed>) {
    forall j :: 0 <= j < |observed| ==> !p(observed[j])
  }

  function SameFile(n: Names, row: Row): Observed -> bool {
    (o: Observed) => o.file != "" && n.path(o.file) == n.path(row.file) && n.full(o.harness) == n.full(row.harness)
  }

  function SameCrate(n: Names, row: Row): Observed -> bool {
    (o: Observed) =>
      CrateText(o.crate) + "::" + n.full(o.harness) == n.stem(n.path(row.file)) + "::" + n.full(row.harness)
  }

  function SameName(n: Names, row: Row): Observed -> bool {
    (o: Observed) => n.full(o.harness) == n.full(row.harness)
  }

  function SameTail(n: Names, row: Row): Observed -> bool {
    (o: Observed) => n.tail(o.harness) == n.tail(row.harness)
  }

  lemma {:induction false} FirstIs(
    n: Names, observed: seq<Observed>, key: IndexKey, p: Observed -> bool, o: Observed)
    requires forall x :: Registers(n, x, key) <==> p(x)
    ensures First(n, observed, key) == Some(o) <==> IsFirst(p, observed, o)
    ensures First(n, observed, key).None? <==> Nobody(p, observed)
  {
    if observed != [] {
      FirstIs(n, observed[1..], key, p, o);
      ShiftFirst(p, observed, o);
    }
  }

  lemma {:induction false} ShiftFirst(p: Observed -> bool, observed: seq<Observed>, o: Observed)
    requires observed != []
    ensures IsFirst(p, observed, o) <==> if p(observed[0]) then observed[0] == o else IsFirst(p, observed[1..], o)
    ensures Nobody(p, observed) <==> !p(observed[0]) && Nobody(p, observed[1..])
  {
    var rest := observed[1..];
    assert forall j :: 0 < j < |observed| ==> observed[j] == rest[j-1];
    if !p(observed[0]) && IsFirst(p, observed, o) {
      var i :| 0 <= i < |observed| && observed[i] == o && p(observed[i]) && forall j :: 0 <= j < i ==> !p(observed[j]);
      assert rest[i-1] == o;
    }
    if !p(observed[0]) && IsFirst(p, rest, o) {
      var i :| 0 <= i < |rest| && rest[i] == o && p(rest[i]) && forall j :: 0 <= j < i ==> !p(rest[j]);
      assert observed[i+1] == o;
    }
  }

  lemma {:induction false} NobodyFilters(p: Observed -> bool, observed: seq<Observed>)
    ensures Filter(p, observed) == [] <==> Nobody(p, observed)
  {
    if observed != [] {
      NobodyFilters(p, observed[1..]);
      assert forall j :: 0 < j < |observed| ==> observed[j] == observed[1..][j-1];
    }
  }

  lemma {:induction false} ShiftOnly(p: Observed -> bool, observed: seq<Observed>, o: Observed)
    requires observed != []
    ensures p(observed[0]) ==> (IsOnly(p, observed, o) <==> observed[0] == o && Nobody(p, observed[1..]))
    ensures !p(observed[0]) ==> (IsOnly(p, observed, o) <==> IsOnly(p, observed[1..], o))
  {
    var rest := observed[1..];
    assert forall j :: 0 < j < |observed| ==> observed[j] == rest[j-1];
    if p(observed[0]) {
      assert Nobody(p, rest) ==> forall j :: 0 < j < |observed| ==> !p(observed[j]);
    }
    if !p(observed[0]) && IsOnly(p, observed, o) {
      var i :| 0 <= i < |observed| && observed[i] == o && p(observed[i])
               && forall j :: 0 <= j < |observed| && j != i ==> !p(observed[j]);
      assert rest[i-1] == o;
      assert forall j :: 0 <= j < |rest| && j != i - 1 ==> rest[j] == observed[j+1];
    }
    if !p(observed[0]) && IsOnly(p, rest, o) {
      var i :| 0 <= i < |rest| && rest[i] == o && p(rest[i])
               && forall j :: 0 <= j < |rest| && j != i ==> !p(rest[j]);
      assert observed[i+1] == o;
    }
  }

  lemma {:induction false} OnlyIs(p: Observed -> bool, observed: seq<Observed>, o: Observed)
    ensures Filter(p, observed) == [o] <==> IsOnly(p, observed, o)
  {
    if observed != [] {
      ShiftOnly(p, observed, o);
      if p(observed[0]) {
        NobodyFilters(p, observed[1..]);
        OneLong(observed[0], Filter(p, observed[1..]), o);
      } else {
        OnlyIs(p, observed[1..], o);
      }
    }
  }

  lemma {:induction false} OneLong(x: Observed, rest: seq<Observed>, o: Observed)
    ensures [x] + rest == [o] <==> x == o && rest == []
  {
    if [x] + rest == [o] {
      assert |[x] + rest| == 1;
      assert ([x] + rest)[0] == x;
    }
  }

  /** A row is matched with the first observation of its file and name, failing that the first whose
      crate is the file's stem, then the first of its name, then the only one of its last segment. */
  lemma {:induction false} FoundMeaning(n: Names, observed: seq<Observed>, row: Row, o: Observed)
    ensures var file, crate, name := SameFile(n, row), SameCrate(n, row), SameName(n, row);
            Found(n, observed, row) == Some(o) <==>
            || IsFirst(file, observed, o)
            || (Nobody(file, observed) && IsFirst(crate, observed, o))
            || (Nobody(file, observed) && Nobody(crate, observed) && IsFirst(name, observed, o))
            || (Nobody(file, observed) && Nobody(crate, observed) && Nobody(name, observed)
                && IsOnly(SameTail(n, row), observed, o))
  {
    var full, path := n.full(row.harness), n.path(row.file);
    FirstIs(n, observed, FileKey(path, full), SameFile(n, row), o);
    FirstIs(n, observed, CrateKey(n.stem(path) + "::" + full), SameCrate(n, row), o);
    FirstIs(n, observed, FullKey(full), SameName(n, row), o);
    var tail := HasTail(n, n.tail(row.harness));
    OnlyIs(tail, observed, o);
    assert IsOnly(tail, observed, o) <==> IsOnly(SameTail(n, row), observed, o);
    Excluded(SameFile(n, row), observed, o);
    Excluded(SameCrate(n, row), observed, o);
    Excluded(SameName(n, row), observed, o);
  }

  lemma {:induction false} Excluded(p: Observed -> bool, observed: seq<Observed>, o: Observed)
    ensures IsFirst(p, observed, o) ==> !Nobody(p, observed)
  {
  }

  // ---------------------------------------------------------------------
  // How the program normalises names
  // ---------------------------------------------------------------------

  /** Slashes replace backslashes, one leading `./` goes, and nothing else changes. */
  lemma {:induction false} SlashesMeaning(s: string)
    ensures |Slashes(s)| == |s|
    ensures forall i :: 0 <= i < |s| ==> Slashes(s)[i] == if s[i] == '\\' then '/' else s[i]
  {
    if s != [] { SlashesMeaning(s[1..]); }
  }

  lemma {:induction false} PathNormalised(s: string)
    ensures var slashed := Slashes(s);
            NormalPath(s) == slashed || slashed == "./" + NormalPath(s)
    ensures NormalPath(s) == Slashes(s) <==> !("./" <= Slashes(s))
  {
    var slashed := Slashes(s);
    if "./" <= slashed { assert slashed == "./" + slashed[2..]; }
  }

  /** `::` stands at position `i` of `s`. */
  predicate ColonsAt(s: string, i: nat) { i + 1 < |s| && s[i] == ':' && s[i+1] == ':' }

  /** The last segment of a name is what follows its last `::`, or the whole name without one. */
  lemma {:induction false} LastSegmentMeaning(s: string, i: nat)
    requires i <= |s|
    ensures var r := LastSegment(s, i);
            || (r == s && forall k: nat :: k + 1 < i ==> !ColonsAt(s, k))
            || exists k: nat :: k + 1 < i && ColonsAt(s, k) && r == s[k+2..]
                                && forall j: nat :: k < j && j + 1 < i ==> !ColonsAt(s, j)
  {
    if i >= 2 {
      if ColonsAt(s, i - 2) {
        assert LastSegment(s, i) == s[i-2+2..];
      } else {
        LastSegmentMeaning(s, i - 1);
        var r := LastSegment(s, i);
        if k: nat :| k + 1 < i - 1 && ColonsAt(s, k) && r == s[k+2..]
                     && forall j: nat :: k < j && j + 1 < i - 1 ==> !ColonsAt(s, j) {
          assert forall j: nat :: k < j && j + 1 < i ==> !ColonsAt(s, j);
        }
      }
    }
  }

  lemma {:induction false} LastDotMeaning(s: string, i: nat, k: nat)
    requires k < i <= |s| && s[k] == '.' && forall j :: k < j < i ==> s[j] != '.'
    ensures LastDot(s, i) == Some(k)
  {
    if k < i - 1 { LastDotMeaning(s, i - 1, k); }
  }

  /** A file's stem is its last name without its extension. */
  lemma {:induction false} StemMeaning(names: seq<string>, base: string, extension: string)
    requires forall i :: 0 <= i < |names| ==> IsName(names[i])
    requires base != [] && extension != [] && '.' !in extension && IsName(base + "." + extension)
    ensures StemOf(Slashed(names + [base + "." + extension])) == base
  {
    var name := base + "." + extension;
    PartsMeaning(names + [name]);
    var k := |base|;
    forall j | k < j < |name| ensures name[j] != '.' {
      assert name[j] == extension[j - k - 1];
    }
    LastDotMeaning(name, |name|, k);
    assert name[..k] == base;
  }
}
