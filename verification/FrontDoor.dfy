/** The front door's own command handling, `src/frontend/mod.rs`: suggesting a command for a
    mistyped one, and moving an engine subcommand in front of the flags before it. */
module FrontDoor {
  import opened Wrappers
  import opened ArgStrides
  import opened Args
  import opened ArgsProperties
  import opened EditDistance

  const COMMANDS: seq<string> := [
    "verify", "list", "example", "explain", "quickstart", "doctor", "flags", "version", "setup", "help"
  ]

  const ENGINE_SUBCOMMANDS: seq<string> := ["list", "autoharness", "playback", "verify-std"]

  // ---------------------------------------------------------------------
  // Suggestions
  // ---------------------------------------------------------------------

  /** How far a candidate is from the word: 1 for a prefix either way, else the edit distance. */
  function Score(word: string, candidate: string): nat {
    if word <= candidate || candidate <= word then 1 else Dist(word, candidate)
  }

  function Scores(word: string, candidates: seq<string>): (r: seq<nat>)
    ensures |r| == |candidates|
  {
    if candidates == [] then [] else [Score(word, candidates[0])] + Scores(word, candidates[1..])
  }

  lemma {:induction false} ScoreAt(word: string, candidates: seq<string>, i: nat)
    requires i < |candidates|
    ensures Scores(word, candidates)[i] == Score(word, candidates[i])
  {
    if i > 0 { ScoreAt(word, candidates[1..], i - 1); }
  }

  lemma {:induction false} NoneScores(word: string, candidates: seq<string>)
    ensures (forall c :: c in candidates ==> Score(word, c) > 2) <==>
            forall j :: 0 <= j < |candidates| ==> Scores(word, candidates)[j] > 2
  {
    var scores := Scores(word, candidates);
    if c :| c in candidates && Score(word, c) <= 2 {
      var j :| 0 <= j < |candidates| && candidates[j] == c;
      ScoreAt(word, candidates, j);
      assert scores[j] <= 2;
    } else {
      forall j | 0 <= j < |candidates| ensures scores[j] > 2 {
        ScoreAt(word, candidates, j);
        assert candidates[j] in candidates;
      }
    }
  }

  /** `k` is the earliest place of the least score, and that score is at most 2. */
  ghost predicate EarliestLeast(scores: seq<nat>, k: nat) {
    && k < |scores| && scores[k] <= 2
    && (forall j :: 0 <= j < k ==> scores[k] < scores[j])
    && (forall j :: k <= j < |scores| ==> scores[k] <= scores[j])
  }

  ghost predicate IsClosest(word: string, candidates: seq<string>, k: nat) {
    EarliestLeast(Scores(word, candidates), k)
  }

  method ScoreOf(word: string, candidate: string) returns (d: nat)
    ensures d == Score(word, candidate)
  {
    if word <= candidate || candidate <= word { d := 1; } else { d := Levenshtein(word, candidate); }
  }

  /** `closest`: the running best is replaced only by a strictly smaller score. */
  method Closest(word: string, candidates: seq<string>) returns (best: Option<string>)
    ensures best.None? <==> forall c :: c in candidates ==> Score(Lower(word), c) > 2
    ensures best.Some? ==> exists k: nat :: IsClosest(Lower(word), candidates, k) && candidates[k] == best.value
  {
    var w := Lower(word);
    ghost var scores := Scores(w, candidates);
    best := None;
    var distance := 3;
    ghost var at: nat := 0;
    var i := 0;
    while i < |candidates|
      invariant 0 <= i <= |candidates|
      invariant best.None? ==> distance == 3 && forall j :: 0 <= j < i ==> scores[j] > 2
      invariant best.Some? ==> at < i && best.value == candidates[at] && distance == scores[at]
      invariant best.Some? ==> EarliestLeast(scores[..i], at)
    {
      var candidate := candidates[i];
      var d := ScoreOf(w, candidate);
      ScoreAt(w, candidates, i);
      assert scores[..i+1] == scores[..i] + [d];
      if d <= 2 && (best.None? || d < distance) {
        best, distance, at := Some(candidate), d, i;
      }
      i := i + 1;
    }
    assert scores[..i] == scores;
    NoneScores(w, candidates);
  }

  /** The score is never 0: an exact match counts as a prefix. */
  lemma {:induction false} ScorePositive(word: string, candidate: string)
    ensures Score(word, candidate) >= 1
    ensures Score(word, candidate) == 1 <==>
            word <= candidate || candidate <= word ||
            exists script :: Turns(script, word, candidate) && |script| == 1
  {
    ZeroIffEqual(word, candidate);
    var script := ShortestScriptExists(word, candidate);
    forall s | Turns(s, word, candidate) ensures Dist(word, candidate) <= |s| { NoShorterScript(s, word, candidate); }
  }

  /** A word that is itself a candidate is suggested exactly when nothing before it scores 1. */
  lemma {:induction false} ExactMatchSuggested(word: string, candidates: seq<string>, e: nat, k: nat)
    requires e < |candidates| && candidates[e] == word
    requires IsClosest(word, candidates, k)
    requires forall j :: 0 <= j < e ==> candidates[j] != word
    ensures k == e <==> forall j :: 0 <= j < e ==> Score(word, candidates[j]) > 1
  {
    forall j | 0 <= j < |candidates|
      ensures Scores(word, candidates)[j] == Score(word, candidates[j]) && Score(word, candidates[j]) >= 1
    {
      ScoreAt(word, candidates, j);
      ScorePositive(word, candidates[j]);
    }
    assert Scores(word, candidates)[e] == 1;
  }

  /** So a word spelled like the command `verify-std` is answered with `verify`, which is listed
      before it, whatever is listed after the commands: when such a word is looked up as a command,
      and in `help verify-std`, where the topics follow. */
  lemma {:induction false} VerifyStdSuggestsVerify(word: string, others: seq<string>, k: nat)
    requires Lower(word) == "verify-std" && IsClosest(Lower(word), COMMANDS + ENGINE_SUBCOMMANDS + others, k)
    ensures k == 0 && (COMMANDS + ENGINE_SUBCOMMANDS + others)[k] == "verify"
  {
    var all := COMMANDS + ENGINE_SUBCOMMANDS + others;
    assert all[0] == COMMANDS[0] == "verify";
    VerifyIsPrefix(Lower(word));
    ScorePositive(Lower(word), all[k]);
    ScoreAt(Lower(word), all, 0);
    ScoreAt(Lower(word), all, k);
  }

  lemma {:induction false} VerifyIsPrefix(word: string)
    requires word == "verify-std"
    ensures Score(word, "verify") == 1
  {
    assert word[..6] == "verify";
  }

  /** A word inside a candidate is close to it exactly when it starts it or leaves at most two of its
      characters over. Containment, which the documentation of `closest` promises, is not enough. */
  lemma {:induction false} ContainedIsCloseExactly(word: string, x: string, y: string)
    ensures Score(word, x + word + y) <= 2 <==> word <= x + word + y || |x| + |y| <= 2
  {
    DistToContaining(word, x, y);
  }

  /** The same for a candidate inside the word. */
  lemma {:induction false} ContainingIsCloseExactly(candidate: string, x: string, y: string)
    ensures Score(x + candidate + y, candidate) <= 2 <==> candidate <= x + candidate + y || |x| + |y| <= 2
  {
    DistToContaining(candidate, x, y);
    Symmetric(candidate, x + candidate + y);
  }

  /** The word `harness`, looked up as a command: `autoharness` contains it, and is not suggested. */
  lemma {:induction false} HarnessIsNotFound(word: string, candidate: string, k: nat)
    requires word == "harness" && candidate == "autoharness"
    requires IsClosest(word, COMMANDS + ENGINE_SUBCOMMANDS, k)
    ensures candidate == "auto" + word + "" && Score(word, candidate) == 4
    ensures (COMMANDS + ENGINE_SUBCOMMANDS)[k] != candidate
  {
    HarnessScoresFour(word, candidate);
    ScoreAt(word, COMMANDS + ENGINE_SUBCOMMANDS, k);
  }

  lemma {:induction false} HarnessScoresFour(word: string, candidate: string)
    requires word == "harness" && candidate == "autoharness"
    ensures candidate == "auto" + word + "" && Score(word, candidate) == 4
  {
    DistToContaining(word, "auto", "");
    assert candidate[0] != word[0];
  }

  // ---------------------------------------------------------------------
  // Hoisting an engine subcommand
  // ---------------------------------------------------------------------

  /** How far the scan goes from an argument: nowhere from one that is no flag or a `--`. */
  function ScanStep(a: Os): nat {
    if a.Bytes? || a.s == "--" || !IsFlag(a.s) then 0 else if EatsNext(a.s) then 2 else 1
  }

  function ScanSteps(argv: seq<Os>): (r: seq<nat>)
    ensures |r| == |argv|
  {
    seq(|argv|, i requires 0 <= i < |argv| => ScanStep(argv[i]))
  }

  function FirstStop(steps: seq<nat>, i: nat): (k: nat)
    ensures k <= |steps| && (k < |steps| ==> i <= k && steps[k] == 0)
    decreases |steps| - i
  {
    if i >= |steps| then |steps| else if steps[i] == 0 then i else FirstStop(steps, i + steps[i])
  }

  /** The first argument that is neither a flag nor a flag's value; the length if there is none. */
  function FirstBare(argv: seq<Os>): (k: nat)
    ensures k <= |argv| && (k < |argv| ==> ScanStep(argv[k]) == 0)
  {
    FirstStop(ScanSteps(argv), 0)
  }

  predicate IsSubcommand(a: Os) { a.Text? && a.s in ENGINE_SUBCOMMANDS }

  predicate Hoistable(argv: seq<Os>) {
    var k := FirstBare(argv);
    0 < k < |argv| && IsSubcommand(argv[k])
  }

  function MoveToFront(argv: seq<Os>, k: nat): seq<Os>
    requires k < |argv|
  {
    [argv[k]] + argv[..k] + argv[k+1..]
  }

  function Hoisted(argv: seq<Os>): seq<Os> {
    if Hoistable(argv) then MoveToFront(argv, FirstBare(argv)) else argv
  }

  lemma {:induction false} FlagStep(argv: seq<Os>, i: nat)
    requires i < |argv| && argv[i].Text? && argv[i].s != "--" && IsFlag(argv[i].s)
    ensures FirstStop(ScanSteps(argv), i) == FirstStop(ScanSteps(argv), if EatsNext(argv[i].s) then i + 2 else i + 1)
  {
    assert ScanSteps(argv)[i] == ScanStep(argv[i]);
    StepOn(ScanSteps(argv), i);
  }

  lemma {:induction false} BareStep(argv: seq<Os>, i: nat)
    requires i < |argv| && (argv[i].Bytes? || argv[i].s == "--" || !IsFlag(argv[i].s))
    ensures FirstStop(ScanSteps(argv), i) == i
  {
    assert ScanSteps(argv)[i] == ScanStep(argv[i]) == 0;
    StepOn(ScanSteps(argv), i);
  }

  lemma {:induction false} StepOn(steps: seq<nat>, i: nat)
    requires i < |steps|
    ensures FirstStop(steps, i) == if steps[i] == 0 then i else FirstStop(steps, i + steps[i])
  {
  }

  lemma {:induction false} HoistsAt(argv: seq<Os>, k: nat)
    requires 0 < k < |argv| && FirstBare(argv) == k && IsSubcommand(argv[k])
    ensures Hoisted(argv) == [argv[k]] + argv[..k] + argv[k+1..]
  {
  }

  lemma {:induction false} LeavesAt(argv: seq<Os>, k: nat)
    requires k <= |argv| && FirstBare(argv) == k && (0 < k < |argv| ==> !IsSubcommand(argv[k]))
    ensures Hoisted(argv) == argv
  {
  }

  /** `hoist_engine_subcommand`. */
  method HoistEngineSubcommand(argv: seq<Os>) returns (r: seq<Os>)
    ensures r == Hoisted(argv)
  {
    var idx := 0;
    while idx < |argv|
      invariant FirstBare(argv) == FirstStop(ScanSteps(argv), idx)
      decreases |argv| - idx
    {
      if argv[idx].Bytes? {
        BareStep(argv, idx);
        LeavesAt(argv, idx);
        return argv;
      }
      var text := argv[idx].s;
      if text == "--" {
        BareStep(argv, idx);
        StopIsNoSubcommand();
        LeavesAt(argv, idx);
        return argv;
      }
      if IsFlag(text) {
        FlagStep(argv, idx);
        if EatsNext(text) { idx := idx + 1; }
        idx := idx + 1;
        continue;
      }
      BareStep(argv, idx);
      if idx > 0 && text in ENGINE_SUBCOMMANDS {
        HoistsAt(argv, idx);
        return [argv[idx]] + argv[..idx] + argv[idx+1..];
      }
      LeavesAt(argv, idx);
      return argv;
    }
    LeavesAt(argv, |argv|);
    return argv;
  }

  lemma {:induction false} StopIsNoSubcommand()
    ensures !IsSubcommand(Text("--"))
  {
    assert forall n :: n in ENGINE_SUBCOMMANDS ==> !IsFlag(n);
  }

  /** Hoisting only permutes: the subcommand moves, everything else keeps its order. */
  lemma {:induction false} HoistPermutes(argv: seq<Os>)
    ensures multiset(Hoisted(argv)) == multiset(argv)
    ensures Hoistable(argv) ==> Hoisted(argv)[1..] == argv[..FirstBare(argv)] + argv[FirstBare(argv)+1..]
  {
    if Hoistable(argv) {
      var k := FirstBare(argv);
      assert argv == argv[..k] + [argv[k]] + argv[k+1..];
      var r := MoveToFront(argv, k);
      assert r == [argv[k]] + (argv[..k] + argv[k+1..]);
    }
  }

  /** A hoisted line is left alone by a second hoist. */
  lemma {:induction false} HoistIdempotent(argv: seq<Os>)
    ensures Hoisted(Hoisted(argv)) == Hoisted(argv)
  {
    if Hoistable(argv) {
      var r := Hoisted(argv);
      assert r[0] == argv[FirstBare(argv)];
      assert forall n :: n in ENGINE_SUBCOMMANDS ==> !IsFlag(n);
      assert FirstBare(r) == 0;
    }
  }

  // ---------------------------------------------------------------------
  // Hoisting against the translation
  // ---------------------------------------------------------------------

  lemma {:induction false} StopLands(steps: seq<nat>, strides: seq<nat>, i: nat)
    requires |steps| == |strides| && FirstStop(steps, i) < |steps|
    requires forall j :: i <= j < FirstStop(steps, i) && steps[j] > 0 ==> strides[j] == steps[j]
    ensures Lands(strides, i, FirstStop(steps, i))
    decreases |steps| - i
  {
    if i < FirstStop(steps, i) { StopLands(steps, strides, i + steps[i]); }
  }

  lemma {:induction false} ScanStrides(argv: seq<Os>, j: nat)
    requires j < |argv| && ScanSteps(argv)[j] > 0 && !BareJobs(argv[j])
    ensures Strides(argv)[j] == ScanSteps(argv)[j]
  {
  }

  /** The argument hoisting stops at is one the translation would read by itself, never a value it
      would give to a flag, exactly when strides lead to it and nothing before it is refused; without
      bare jobs flags they do. */
  lemma {:induction false} StopIsAUnit(w: World, argv: seq<Os>)
    requires FirstBare(argv) < |argv|
    ensures var k := FirstBare(argv);
            && (StartsUnit(w, argv, 0, false, k) <==> Lands(Strides(argv), 0, k) && AcceptedUpTo(w, argv, 0, false, k))
            && ((forall j :: 0 <= j < k ==> !BareJobs(argv[j])) ==> Lands(Strides(argv), 0, k))
  {
    var k := FirstBare(argv);
    UnitsLandExactly(w, argv, 0, false, k);
    if forall j :: 0 <= j < k ==> !BareJobs(argv[j]) {
      forall j | 0 <= j < k && ScanSteps(argv)[j] > 0 ensures Strides(argv)[j] == ScanSteps(argv)[j] {
        ScanStrides(argv, j);
      }
      StopLands(ScanSteps(argv), Strides(argv), 0);
    }
  }

  lemma {:induction false} TwosLand(strides: seq<nat>, i: nat, k: nat)
    requires i <= k < |strides| && forall j :: i <= j < k ==> strides[j] == 2
    ensures Lands(strides, i, k) <==> (k - i) % 2 == 0
    decreases k - i
  {
    if i + 2 <= k { TwosLand(strides, i + 2, k); }
  }

  lemma {:induction false} OnesStop(steps: seq<nat>, i: nat, k: nat)
    requires i <= k < |steps| && (forall j :: i <= j < k ==> steps[j] == 1) && steps[k] == 0
    ensures FirstStop(steps, i) == k
    decreases k - i
  {
    if i < k { OnesStop(steps, i + 1, k); }
  }

  lemma {:induction false} BareJobsSteps(argv: seq<Os>, j: nat)
    requires j < |argv| && BareJobs(argv[j])
    ensures ScanSteps(argv)[j] == 1 && Strides(argv)[j] == 2
  {
    PlainNamesEatNothing(argv[j].s);
    BareJobsAreFlags(argv[j]);
  }

  lemma {:induction false} SubcommandStops(argv: seq<Os>, k: nat)
    requires k < |argv| && IsSubcommand(argv[k])
    ensures ScanSteps(argv)[k] == 0
  {
    assert forall n :: n in ENGINE_SUBCOMMANDS ==> !IsFlag(n);
  }

  lemma {:induction false} JobsRunAccepted(read: (nat, bool) -> Result<(Unit, nat), Reject>, i: nat, k: nat)
    requires forall j: nat :: i <= j < k ==> read(j, false).Ok? && read(j, false).value.1 == j + 2 &&
                                             !read(j, false).value.0.Input?
    ensures ReadsUpTo(read, i, false, k)
    decreases k - i
  {
    if i < k { JobsRunAccepted(read, i + 2, k); }
  }

  lemma {:induction false} JobsUnit(w: World, argv: seq<Os>, j: nat)
    requires j + 1 < |argv| && BareJobs(argv[j])
    ensures var r := UnitReader(w, argv)(j, false); r.Ok? && r.value.1 == j + 2 && !r.value.0.Input?
  {
    JobsStride(w, argv, j, false);
  }

  lemma {:induction false} JobsAccepted(w: World, argv: seq<Os>, k: nat)
    requires k < |argv| && forall j :: 0 <= j < k ==> BareJobs(argv[j])
    ensures AcceptedUpTo(w, argv, 0, false, k)
  {
    var read := UnitReader(w, argv);
    forall j: nat | 0 <= j < k
      ensures read(j, false).Ok? && read(j, false).value.1 == j + 2 && !read(j, false).value.0.Input?
    {
      JobsUnit(w, argv, j);
    }
    JobsRunAccepted(read, 0, k);
  }

  lemma {:induction false} JobsThenSubcommand(argv: seq<Os>, k: nat)
    requires 0 < k < |argv| && (forall j :: 0 <= j < k ==> BareJobs(argv[j])) && IsSubcommand(argv[k])
    ensures FirstBare(argv) == k && Hoisted(argv) == MoveToFront(argv, k)
    ensures Lands(Strides(argv), 0, k) <==> k % 2 == 0
  {
    forall j | 0 <= j < k ensures ScanSteps(argv)[j] == 1 && Strides(argv)[j] == 2 { BareJobsSteps(argv, j); }
    SubcommandStops(argv, k);
    OnesStop(ScanSteps(argv), 0, k);
    TwosLand(Strides(argv), 0, k);
  }

  /** After nothing but bare jobs flags a subcommand is always hoisted, and the translation would
      read it by itself exactly when the number of the flags is even. */
  lemma {:induction false} JobsParity(w: World, argv: seq<Os>, k: nat)
    requires 0 < k < |argv| && (forall j :: 0 <= j < k ==> BareJobs(argv[j])) && IsSubcommand(argv[k])
    ensures Hoisted(argv) == MoveToFront(argv, k)
    ensures StartsUnit(w, argv, 0, false, k) <==> k % 2 == 0
  {
    JobsThenSubcommand(argv, k);
    UnitsLandExactly(w, argv, 0, false, k);
    JobsAccepted(w, argv, k);
  }

  /** With a jobs flag it can fail: in `-j list demo.rs` the word `list` is hoisted as the
      subcommand, while the translation would give it to `-j` as the count. */
  lemma {:induction false} JobsValueIsHoisted(w: World)
    ensures var argv := [Text("-j"), Text("list"), Text("demo.rs")];
            Hoisted(argv) == [Text("list"), Text("-j"), Text("demo.rs")] &&
            !StartsUnit(w, argv, 0, false, 1)
  {
    var argv := [Text("-j"), Text("list"), Text("demo.rs")];
    PlainNamesEatNothing("-j");
    assert !IsFlag("list");
    assert ScanSteps(argv)[0] == 1 && ScanSteps(argv)[1] == 0;
    assert FirstStop(ScanSteps(argv), 1) == 1 && FirstBare(argv) == 1;
    assert ENGINE_SUBCOMMANDS[0] == "list";
    assert argv[..1] == [Text("-j")] && argv[2..] == [Text("demo.rs")];
    NotAttachedShort();
    var r := ReadUnit(w, argv, 0, false);
    assert r == Ok((Jobs(Some(Text("list"))), 2));
  }
}
