/** How the direct driver report reads a command (`scripts/direct_driver_proof_core.py`, lines 244 to
    313). */
module DriverCommand {
  import opened Delimiters
  import opened Wrappers

  /** `_normalize_file` and `_looks_like_test_file` for one repository root. */
  datatype Paths = Paths(normalize: string -> Option<string>, looksLikeTest: string -> bool)

  /** A command of the manifest: whether it invokes the wrapper script, and its other words. */
  datatype Command = Command(wrapped: bool, args: seq<string>)

  ghost predicate NormalizesToTests(p: Paths) {
    forall s :: p.normalize(s).Some? ==> "tests/" <= p.normalize(s).value
  }

  const VALUE_FLAGS: seq<string> := ["-Z", "--backend", "--ay-solver", "--ay-chc-track", "--harness"]

  predicate IsDashed(arg: string) { "-" <= arg }

  predicate IsJoined(arg: string, flag: string) { flag + "=" <= arg }

  /** What one word gives a flag: what follows the flag, what is joined to it by `=`, and for `-Z`
      what is joined to it directly. */
  function ValueAt(args: seq<string>, flag: string, i: nat): seq<string>
    requires i < |args|
  {
    if args[i] == flag && i + 1 < |args| then [args[i+1]]
    else if IsJoined(args[i], flag) then [args[i][|flag| + 1..]]
    else if flag == "-Z" && flag <= args[i] && args[i] != flag then [args[i][2..]]
    else []
  }

  /** `_flag_values`: every word is looked at, the values of other flags too. */
  function ValuesFrom(args: seq<string>, flag: string, i: nat): seq<string>
    requires i <= |args|
    decreases |args| - i
  {
    if i == |args| then [] else ValueAt(args, flag, i) + ValuesFrom(args, flag, i + 1)
  }

  lemma {:induction false} MoveValue(args: seq<string>, flag: string, i: nat, values: seq<string>)
    requires i < |args|
    ensures values + ValuesFrom(args, flag, i) == (values + ValueAt(args, flag, i)) + ValuesFrom(args, flag, i + 1)
  {
  }

  method FlagValues(args: seq<string>, flag: string) returns (values: seq<string>)
    ensures values == ValuesFrom(args, flag, 0)
  {
    values := [];
    var i := 0;
    while i < |args|
      invariant 0 <= i <= |args|
      invariant ValuesFrom(args, flag, 0) == values + ValuesFrom(args, flag, i)
    {
      var arg := args[i];
      ghost var was := values;
      MoveValue(args, flag, i, values);
      if arg == flag && i + 1 < |args| {
        values := values + [args[i+1]];
      } else if IsJoined(arg, flag) {
        values := values + [arg[|flag| + 1..]];
      } else if flag == "-Z" && flag <= arg && arg != flag {
        values := values + [arg[2..]];
      }
      assert values == was + ValueAt(args, flag, i);
      i := i + 1;
    }
  }

  /** The words left over: no dash, and not right after a flag that takes a value. */
  predicate IsPositional(args: seq<string>, i: nat)
    requires i < |args|
  {
    !IsDashed(args[i]) && !(i > 0 && TakesValue(args[i-1]))
  }

  function PositionalsFrom(args: seq<string>, i: nat): seq<string>
    requires i <= |args|
    decreases |args| - i
  {
    if i == |args| then []
    else (if IsPositional(args, i) then [args[i]] else []) + PositionalsFrom(args, i + 1)
  }

  predicate StartsAJoin(arg: string) {
    exists k :: 1 <= k < |VALUE_FLAGS| && IsJoined(arg, VALUE_FLAGS[k])
  }

  lemma {:induction false} ValueFlagsAreDashed(arg: string)
    ensures arg in VALUE_FLAGS ==> IsDashed(arg)
    ensures StartsAJoin(arg) ==> IsDashed(arg)
  {
    if StartsAJoin(arg) {
      var k :| 1 <= k < |VALUE_FLAGS| && IsJoined(arg, VALUE_FLAGS[k]);
      assert arg[0] == (VALUE_FLAGS[k] + "=")[0];
    }
  }

  predicate TakesValue(arg: string) { arg in VALUE_FLAGS }

  /** One trip of the consuming loop: whether this word goes, and whether the next one does. */
  method ConsumeAt(arg: string) returns (own: bool, next: bool)
    ensures own == IsDashed(arg) && next == TakesValue(arg)
  {
    ValueFlagsAreDashed(arg);
    if TakesValue(arg) { return true, true; }
    if StartsAJoin(arg) { return true, false; }
    if "-Z" <= arg && arg != "-Z" { return true, false; }
    return IsDashed(arg), false;
  }

  /** Whether the loop has dropped word `i` by the time it has looked at the first `seen` words. */
  predicate IsConsumed(args: seq<string>, i: int, seen: int)
    requires 0 <= i < |args|
  {
    (i < seen && IsDashed(args[i])) || (0 < i <= seen && TakesValue(args[i-1]))
  }

  /** The consuming loop of `_positionals`. */
  method Consume(args: seq<string>) returns (consumed: set<int>)
    ensures forall i :: 0 <= i < |args| ==> (i in consumed <==> IsConsumed(args, i, |args|))
  {
    consumed := {};
    var index := 0;
    while index < |args|
      invariant 0 <= index <= |args|
      invariant forall i :: 0 <= i < |args| ==> (i in consumed <==> IsConsumed(args, i, index))
    {
      var word, next := ConsumeAt(args[index]);
      ghost var was := consumed;
      if word { consumed := consumed + {index}; }
      if next && index + 1 < |args| { consumed := consumed + {index + 1}; }
      forall i | 0 <= i < |args| ensures i in consumed <==> IsConsumed(args, i, index + 1) {
        assert i in was <==> IsConsumed(args, i, index);
        if i == index + 1 { assert args[i-1] == args[index]; }
      }
      index := index + 1;
    }
  }

  /** `_positionals`: its four consuming branches come to the two conditions of `IsPositional`. */
  method Positionals(args: seq<string>) returns (words: seq<string>)
    ensures words == PositionalsFrom(args, 0)
  {
    var consumed := Consume(args);
    words := [];
    var i := |args|;
    while i > 0
      invariant 0 <= i <= |args|
      invariant words == PositionalsFrom(args, i)
    {
      i := i - 1;
      if i !in consumed { words := [args[i]] + words; }
    }
  }

  /** A word is left over exactly when some position holding it is. */
  lemma {:induction false} PositionalsMeaning(args: seq<string>, i: nat, word: string)
    requires i <= |args|
    ensures word in PositionalsFrom(args, i) <==>
            exists k: nat :: i <= k < |args| && IsPositional(args, k) && args[k] == word
    decreases |args| - i
  {
    if i < |args| {
      PositionalsMeaning(args, i + 1, word);
      assert PositionalsFrom(args, i) ==
             (if IsPositional(args, i) then [args[i]] else []) + PositionalsFrom(args, i + 1);
    }
  }

  // Reading each word once. Both readers above look at a word without asking whether the flag
  // before it has already taken it. The reader that does ask passes over such a word.

  /** The next word to look at, when each value goes to its flag and to nothing else. */
  function NextWord(args: seq<string>, i: nat): (next: nat)
    requires i < |args|
    ensures i < next <= |args|
  {
    if TakesValue(args[i]) && i + 1 < |args| then i + 2 else i + 1
  }

  function ValuesOnce(args: seq<string>, flag: string, i: nat): seq<string>
    requires i <= |args|
    decreases |args| - i
  {
    if i == |args| then [] else ValueAt(args, flag, i) + ValuesOnce(args, flag, NextWord(args, i))
  }

  function WordsOnce(args: seq<string>, i: nat): seq<string>
    requires i <= |args|
    decreases |args| - i
  {
    if i == |args| then [] else (if IsDashed(args[i]) then [] else [args[i]]) + WordsOnce(args, NextWord(args, i))
  }

  predicate GivesAValue(args: seq<string>, i: nat)
    requires i < |args|
  {
    exists k :: 0 <= k < |VALUE_FLAGS| && ValueAt(args, VALUE_FLAGS[k], i) != []
  }

  /** The word comes right after a flag that takes a value, and gives some flag a value itself. */
  predicate ReadTwice(args: seq<string>, i: nat)
    requires i < |args|
  {
    i > 0 && TakesValue(args[i-1]) && GivesAValue(args, i)
  }

  ghost predicate ReadersAgree(args: seq<string>) {
    && (forall k :: 0 <= k < |VALUE_FLAGS| ==>
          ValuesFrom(args, VALUE_FLAGS[k], 0) == ValuesOnce(args, VALUE_FLAGS[k], 0))
    && PositionalsFrom(args, 0) == WordsOnce(args, 0)
  }

  lemma {:induction false} FlagWithFollowerGives(args: seq<string>, i: nat)
    requires i + 1 < |args| && TakesValue(args[i])
    ensures GivesAValue(args, i)
  {
    var k :| 0 <= k < |VALUE_FLAGS| && VALUE_FLAGS[k] == args[i];
    assert ValueAt(args, VALUE_FLAGS[k], i) == [args[i+1]];
  }

  /** The word after a taken value takes none itself. */
  lemma {:induction false} NextIsFree(args: seq<string>, i: nat)
    requires i < |args| && forall j: nat :: j < |args| ==> !ReadTwice(args, j)
    ensures 0 < NextWord(args, i) < |args| ==> !TakesValue(args[NextWord(args, i)-1])
  {
    var next := NextWord(args, i);
    if next == i + 2 && next < |args| {
      assert !ReadTwice(args, i + 1);
      if TakesValue(args[i+1]) { FlagWithFollowerGives(args, i + 1); }
    }
  }

  lemma {:induction false} ValuesAgreeFrom(args: seq<string>, i: nat, flag: string)
    requires i <= |args| && flag in VALUE_FLAGS && forall j: nat :: j < |args| ==> !ReadTwice(args, j)
    ensures ValuesFrom(args, flag, i) == ValuesOnce(args, flag, i)
    decreases |args| - i
  {
    if i < |args| {
      var next := NextWord(args, i);
      if next == i + 2 { GivesNothing(args, flag, i + 1); }
      ValuesAgreeFrom(args, next, flag);
    }
  }

  lemma {:induction false} WordsAgreeFrom(args: seq<string>, i: nat)
    requires i <= |args| && forall j: nat :: j < |args| ==> !ReadTwice(args, j)
    requires 0 < i < |args| ==> !TakesValue(args[i-1])
    ensures PositionalsFrom(args, i) == WordsOnce(args, i)
    decreases |args| - i
  {
    if i < |args| {
      ValueFlagsAreDashed(args[i]);
      NextIsFree(args, i);
      WordsAgreeFrom(args, NextWord(args, i));
    }
  }

  lemma {:induction false} AgreeFrom(args: seq<string>, i: nat, flag: string)
    requires i <= |args| && flag in VALUE_FLAGS && forall j: nat :: j < |args| ==> !ReadTwice(args, j)
    requires 0 < i < |args| ==> !TakesValue(args[i-1])
    ensures ValuesFrom(args, flag, i) == ValuesOnce(args, flag, i)
    ensures PositionalsFrom(args, i) == WordsOnce(args, i)
  {
    ValuesAgreeFrom(args, i, flag);
    WordsAgreeFrom(args, i);
  }

  lemma {:induction false} GivesNothing(args: seq<string>, flag: string, i: nat)
    requires 0 < i < |args| && TakesValue(args[i-1]) && !ReadTwice(args, i) && flag in VALUE_FLAGS
    ensures ValueAt(args, flag, i) == []
  {
    var k :| 0 <= k < |VALUE_FLAGS| && VALUE_FLAGS[k] == flag;
    assert ValueAt(args, VALUE_FLAGS[k], i) == [];
  }

  lemma {:induction false} OnceIsNoMore(args: seq<string>, flag: string, i: nat)
    requires i <= |args|
    ensures |ValuesOnce(args, flag, i)| <= |ValuesFrom(args, flag, i)|
    decreases |args| - i
  {
    if i < |args| { OnceIsNoMore(args, flag, NextWord(args, i)); }
  }

  /** If some word is read twice, the first such word makes the values of a flag more than they are. */
  lemma {:induction false} ReadTwiceIsMore(args: seq<string>, i: nat, j: nat) returns (k: nat)
    requires i < j < |args| && ReadTwice(args, j)
    ensures k < |VALUE_FLAGS| && |ValuesOnce(args, VALUE_FLAGS[k], i)| < |ValuesFrom(args, VALUE_FLAGS[k], i)|
    decreases |args| - i
  {
    var next := NextWord(args, i);
    if next == i + 2 && GivesAValue(args, i + 1) {
      k :| 0 <= k < |VALUE_FLAGS| && ValueAt(args, VALUE_FLAGS[k], i + 1) != [];
      OnceIsNoMore(args, VALUE_FLAGS[k], next);
    } else {
      if next == i + 2 && j == next { FlagWithFollowerGives(args, i + 1); }
      k := ReadTwiceIsMore(args, next, j);
    }
  }

  /** The two readers of a command are the one that takes each word once exactly when no word right
      after a flag that takes a value is such a flag with a word after it, or has a value joined or
      fused to it. */
  lemma {:induction false} ReadersAgreeExactly(args: seq<string>)
    ensures ReadersAgree(args) <==> forall i: nat :: i < |args| ==> !ReadTwice(args, i)
  {
    if forall i: nat :: i < |args| ==> !ReadTwice(args, i) {
      forall k | 0 <= k < |VALUE_FLAGS|
        ensures ValuesFrom(args, VALUE_FLAGS[k], 0) == ValuesOnce(args, VALUE_FLAGS[k], 0)
      {
        AgreeFrom(args, 0, VALUE_FLAGS[k]);
      }
      AgreeFrom(args, 0, VALUE_FLAGS[0]);
    } else {
      var j: nat :| j < |args| && ReadTwice(args, j);
      var k := ReadTwiceIsMore(args, 0, j);
    }
  }

  predicate NamesFile(paths: Paths, words: seq<string>, file: string) {
    exists i :: 0 <= i < |words| && paths.looksLikeTest(words[i]) && paths.normalize(words[i]) == Some(file)
  }

  predicate AllNormalize(paths: Paths, words: seq<string>) {
    forall i :: 0 <= i < |words| && paths.looksLikeTest(words[i]) ==> paths.normalize(words[i]).Some?
  }

  /** What is asked of the values of the flags and of the words left over. */
  predicate Wanted(paths: Paths, values: string -> seq<string>, words: seq<string>, harness: string, file: string) {
    && "unstable-options" in values("-Z")
    && "ay" in values("--backend")
    && "ay" in values("--ay-solver")
    && "mem" in values("--ay-chc-track")
    && harness in values("--harness")
    && AllNormalize(paths, words)
    && NamesFile(paths, words, file)
  }

  /** `_validate_command`, after the environment assignments are dropped. */
  predicate CommandOk(paths: Paths, command: Command, harness: string, file: string) {
    var args := command.args;
    command.wrapped && "--ay-chc" in args &&
    Wanted(paths, (flag: string) => ValuesFrom(args, flag, 0), PositionalsFrom(args, 0), harness, file)
  }

  /** The words a reader that takes each word once looks at. */
  function LookedAtOnce(args: seq<string>, i: nat): (words: seq<string>)
    requires i <= |args|
    ensures forall word :: word in words ==> word in args
    decreases |args| - i
  {
    if i == |args| then [] else [args[i]] + LookedAtOnce(args, NextWord(args, i))
  }

  /** The same asked of a command in which each word is read once. */
  predicate CommandOnce(paths: Paths, command: Command, harness: string, file: string) {
    var args := command.args;
    command.wrapped && "--ay-chc" in LookedAtOnce(args, 0) &&
    Wanted(paths, (flag: string) => ValuesOnce(args, flag, 0), WordsOnce(args, 0), harness, file)
  }

  lemma {:induction false} SameWanted(
    paths: Paths, a: string -> seq<string>, b: string -> seq<string>, words: seq<string>, harness: string, file: string)
    requires forall k :: 0 <= k < |VALUE_FLAGS| ==> a(VALUE_FLAGS[k]) == b(VALUE_FLAGS[k])
    ensures Wanted(paths, a, words, harness, file) <==> Wanted(paths, b, words, harness, file)
  {
    assert VALUE_FLAGS[0] == "-Z" && VALUE_FLAGS[1] == "--backend" && VALUE_FLAGS[2] == "--ay-solver";
    assert VALUE_FLAGS[3] == "--ay-chc-track" && VALUE_FLAGS[4] == "--harness";
  }

  /** A command in which no word is read twice is accepted exactly when it is with each word read
      once, but that `--ay-chc` may be the value of a flag. */
  lemma {:induction false} AcceptedReadOnce(paths: Paths, command: Command, harness: string, file: string)
    requires forall i: nat :: i < |command.args| ==> !ReadTwice(command.args, i)
    ensures CommandOnce(paths, command, harness, file) <==>
            CommandOk(paths, command, harness, file) && "--ay-chc" in LookedAtOnce(command.args, 0)
  {
    var args := command.args;
    ReadersAgreeExactly(args);
    var all, once := (flag: string) => ValuesFrom(args, flag, 0), (flag: string) => ValuesOnce(args, flag, 0);
    SameWanted(paths, all, once, PositionalsFrom(args, 0), harness, file);
  }

  method ValidateCommand(paths: Paths, command: Command, harness: string, file: string) returns (ok: bool)
    ensures ok == CommandOk(paths, command, harness, file)
  {
    if !command.wrapped { return false; }
    var unstable := FlagValues(command.args, "-Z");
    var backends := FlagValues(command.args, "--backend");
    var solvers := FlagValues(command.args, "--ay-solver");
    var tracks := FlagValues(command.args, "--ay-chc-track");
    var harnesses := FlagValues(command.args, "--harness");
    var words := Positionals(command.args);
    return "unstable-options" in unstable && "ay" in backends && "ay" in solvers && "--ay-chc" in command.args &&
           "mem" in tracks && harness in harnesses && AllNormalize(paths, words) &&
           exists i :: 0 <= i < |words| && paths.looksLikeTest(words[i]) && paths.normalize(words[i]) == Some(file);
  }

  /** Some word gives the flag the value: the word after the flag, or the flag with `=` and the value, or
      `-Z` with the value right after it. */
  ghost predicate Gives(args: seq<string>, flag: string, value: string) {
    exists i: nat :: i < |args| && IsGiven(args, flag, value, i)
  }

  predicate IsGiven(args: seq<string>, flag: string, value: string, i: nat)
    requires i < |args|
  {
    || (args[i] == flag && i + 1 < |args| && args[i+1] == value)
    || args[i] == flag + "=" + value
    || (flag == "-Z" && args[i] == flag + value && value != "" && value[0] != '=')
  }

  lemma {:induction false} ValueAtMeaning(args: seq<string>, flag: string, i: nat, value: string)
    requires i < |args|
    ensures value in ValueAt(args, flag, i) <==> IsGiven(args, flag, value, i)
  {
    var arg := args[i];
    assert flag + "=" <= flag + "=" + value;
    if arg == flag {
      assert !IsJoined(arg, flag);
      assert arg != flag + "=" + value by { assert |flag + "=" + value| > |flag|; }
      assert value != "" ==> |flag + value| > |arg|;
    } else if IsJoined(arg, flag) {
      assert arg == (flag + "=") + arg[|flag| + 1..];
      assert arg[|flag|] == '=';
      if arg == flag + value && value != "" { assert value[0] == '='; }
    } else {
      if flag == "-Z" && flag <= arg { FusedMeaning(arg, value); }
      if arg == flag + value && value != "" { assert flag <= arg; }
    }
  }

  lemma {:induction false} FusedMeaning(arg: string, value: string)
    requires "-Z" <= arg && arg != "-Z" && !IsJoined(arg, "-Z")
    ensures value == arg[2..] <==> arg == "-Z" + value && value != "" && value[0] != '='
  {
    assert arg == "-Z" + arg[2..] && |arg| > 2;
    assert arg[..3] == "-Z" + [arg[2]];
  }

  ghost predicate GivesFrom(args: seq<string>, flag: string, value: string, i: nat) {
    exists k: nat :: i <= k < |args| && IsGiven(args, flag, value, k)
  }

  lemma {:induction false} GivesHereOrLater(args: seq<string>, flag: string, value: string, i: nat)
    requires i < |args|
    ensures GivesFrom(args, flag, value, i) <==> IsGiven(args, flag, value, i) || GivesFrom(args, flag, value, i + 1)
  {
  }

  lemma {:induction false} ValuesFromMeaning(args: seq<string>, flag: string, i: nat, value: string)
    requires i <= |args|
    ensures value in ValuesFrom(args, flag, i) <==> GivesFrom(args, flag, value, i)
    decreases |args| - i
  {
    if i < |args| {
      ValueAtMeaning(args, flag, i, value);
      GivesHereOrLater(args, flag, value, i);
      ValuesFromMeaning(args, flag, i + 1, value);
      var here, later := ValueAt(args, flag, i), ValuesFrom(args, flag, i + 1);
      assert value in here + later <==> value in here || value in later;
    }
  }

  /** What a command must hold to be accepted: the wrapper script, the wanted value of each flag, the
      switch `--ay-chc`, and among the words left over the row's test file; and no test file that cannot
      be resolved. */
  lemma {:induction false} CommandMeaning(paths: Paths, command: Command, harness: string, file: string)
    ensures var args := command.args;
            CommandOk(paths, command, harness, file) <==>
              && command.wrapped && "--ay-chc" in args
              && Gives(args, "-Z", "unstable-options") && Gives(args, "--backend", "ay")
              && Gives(args, "--ay-solver", "ay") && Gives(args, "--ay-chc-track", "mem")
              && Gives(args, "--harness", harness)
              && (forall k: nat :: k < |args| && IsPositional(args, k) && paths.looksLikeTest(args[k]) ==>
                    paths.normalize(args[k]).Some?)
              && exists k: nat :: k < |args| && IsPositional(args, k) && paths.looksLikeTest(args[k]) &&
                                  paths.normalize(args[k]) == Some(file)
  {
    var args := command.args;
    ValuesFromMeaning(args, "-Z", 0, "unstable-options");
    ValuesFromMeaning(args, "--backend", 0, "ay");
    ValuesFromMeaning(args, "--ay-solver", 0, "ay");
    ValuesFromMeaning(args, "--ay-chc-track", 0, "mem");
    ValuesFromMeaning(args, "--harness", 0, harness);
    WordsMeaning(paths, args, file);
  }

  lemma {:induction false} WordsMeaning(paths: Paths, args: seq<string>, file: string)
    ensures AllNormalize(paths, PositionalsFrom(args, 0)) <==>
              forall k: nat :: k < |args| && IsPositional(args, k) && paths.looksLikeTest(args[k]) ==>
                paths.normalize(args[k]).Some?
    ensures NamesFile(paths, PositionalsFrom(args, 0), file) <==>
              exists k: nat :: k < |args| && IsPositional(args, k) && paths.looksLikeTest(args[k]) &&
                               paths.normalize(args[k]) == Some(file)
  {
    var words := PositionalsFrom(args, 0);
    forall word ensures word in words <==> exists k: nat :: k < |args| && IsPositional(args, k) && args[k] == word {
      PositionalsMeaning(args, 0, word);
    }
    if AllNormalize(paths, words) {
      forall k: nat | k < |args| && IsPositional(args, k) && paths.looksLikeTest(args[k])
        ensures paths.normalize(args[k]).Some?
      {
        assert args[k] in words;
        var i :| 0 <= i < |words| && words[i] == args[k];
      }
    } else {
      var i :| 0 <= i < |words| && paths.looksLikeTest(words[i]) && paths.normalize(words[i]).None?;
      assert words[i] in words;
    }
    if NamesFile(paths, words, file) {
      var i :| 0 <= i < |words| && paths.looksLikeTest(words[i]) && paths.normalize(words[i]) == Some(file);
      assert words[i] in words;
    }
    if k: nat :| k < |args| && IsPositional(args, k) && paths.looksLikeTest(args[k])
                 && paths.normalize(args[k]) == Some(file) {
      assert args[k] in words;
      var i :| 0 <= i < |words| && words[i] == args[k];
    }
  }

  // Commands that pass although they ask for no backend: `--backend=ay` is what the track flag
  // before it takes.

  ghost predicate IsBorrowing(args: seq<string>) {
    && |args| == 9 && args[0] == "-Zunstable-options" && args[1] == "--ay-chc-track" && args[2] == "--backend=ay"
    && args[3] == "--ay-chc-track=mem" && args[4] == "--ay-solver=ay" && args[5] == "--ay-chc"
    && args[6] == "--harness" && !IsDashed(args[7]) && !IsDashed(args[8])
  }

  lemma {:induction false} NotAPrefix(args: seq<string>, flag: string, i: nat, at: nat)
    requires i < |args| && at < |flag| && (|args[i]| <= at || args[i][at] != flag[at])
    ensures ValueAt(args, flag, i) == []
  {
    assert !(flag <= args[i]);
    assert !IsJoined(args[i], flag) by { assert (flag + "=")[at] == flag[at]; }
  }

  lemma {:induction false} ValuesFromHas(args: seq<string>, flag: string, i: nat, at: nat, value: string)
    requires i <= at < |args| && ValueAt(args, flag, at) == [value]
    ensures value in ValuesFrom(args, flag, i)
    decreases at - i
  {
    if i < at { ValuesFromHas(args, flag, i + 1, at, value); }
  }

  lemma {:induction false} JoinedValue(args: seq<string>, flag: string, i: nat, arg: string, value: string)
    requires i < |args| && args[i] == arg && arg == flag + "=" + value
    ensures value in ValuesFrom(args, flag, 0)
  {
    assert args[i] != flag by { assert |args[i]| > |flag|; }
    assert args[i][..|flag| + 1] == flag + "=";
    assert args[i][|flag| + 1..] == value;
    ValuesFromHas(args, flag, 0, i, value);
  }

  lemma {:induction false} ValueFlagShape(arg: string)
    ensures TakesValue(arg) ==> 2 <= |arg| <= 14 && arg[|arg| - 1] in {'Z', 'd', 'r', 'k', 's'}
  {
  }

  lemma {:induction false} BorrowingSteps(args: seq<string>)
    requires IsBorrowing(args)
    ensures !TakesValue(args[0]) && TakesValue(args[1]) && !TakesValue(args[3]) && !TakesValue(args[4])
    ensures !TakesValue(args[5]) && TakesValue(args[6]) && !TakesValue(args[8])
  {
    ValueFlagShape(args[0]);
    ValueFlagShape(args[3]);
    ValueFlagShape(args[4]);
    ValueFlagShape(args[5]);
    ValueFlagsAreDashed(args[8]);
  }

  lemma {:induction false} NotForBackend(args: seq<string>, flag: string, i: nat)
    requires IsBorrowing(args) && flag == "--backend" && i < |args| && i != 2 && i != 7
    ensures ValueAt(args, flag, i) == []
  {
    NotAPrefix(args, flag, i, if i == 8 then 0 else 2);
  }

  lemma {:induction false} PassOver(args: seq<string>, flag: string, i: nat, next: nat)
    requires i < |args| && next == NextWord(args, i) && ValueAt(args, flag, i) == [] &&
             ValuesOnce(args, flag, next) == []
    ensures ValuesOnce(args, flag, i) == []
  {
  }

  lemma {:induction false} NoBackendOnce(args: seq<string>, flag: string)
    requires IsBorrowing(args) && flag == "--backend"
    ensures ValuesOnce(args, flag, 0) == []
  {
    BorrowingSteps(args);
    forall i: nat | i < |args| && i != 2 && i != 7
      ensures ValueAt(args, flag, i) == []
    {
      NotForBackend(args, flag, i);
    }
    PassOver(args, flag, 8, 9);
    PassOver(args, flag, 6, 8);
    PassOver(args, flag, 5, 6);
    PassOver(args, flag, 4, 5);
    PassOver(args, flag, 3, 4);
    PassOver(args, flag, 1, 3);
    PassOver(args, flag, 0, 1);
  }

  /** One word is the value of the flag before it and a flag of its own: the command is accepted,
      and read with each word once it has no backend. */
  lemma {:induction false} OneWordReadTwice(paths: Paths, command: Command, word: string, file: string)
    requires command.wrapped && IsBorrowing(command.args) && command.args[8] == word
    requires paths.looksLikeTest(word) && paths.normalize(word) == Some(file)
    ensures CommandOk(paths, command, command.args[7], file) && !CommandOnce(paths, command, command.args[7], file)
    ensures "--backend=ay" in ValuesFrom(command.args, "--ay-chc-track", 0)
    ensures ValuesOnce(command.args, "--backend", 0) == []
  {
    var args := command.args;
    BorrowedValues(args);
    NoBackendOnce(args, "--backend");
    BorrowingAccepted(paths, args, word, file);
    OnlyWord(args);
    assert args[5] == "--ay-chc";
  }

  lemma {:induction false} BorrowingAccepted(paths: Paths, args: seq<string>, word: string, file: string)
    requires IsBorrowing(args) && args[8] == word && paths.looksLikeTest(word) && paths.normalize(word) == Some(file)
    ensures Wanted(paths, (flag: string) => ValuesFrom(args, flag, 0), [word], args[7], file)
  {
    BorrowedValues(args);
    BorrowedBackend(args);
    BorrowedSolver(args);
    BorrowedTrack(args);
    assert [word][0] == word;
  }

  lemma {:induction false} BorrowedValues(args: seq<string>)
    requires IsBorrowing(args)
    ensures "unstable-options" in ValuesFrom(args, "-Z", 0)
    ensures "--backend=ay" in ValuesFrom(args, "--ay-chc-track", 0)
    ensures args[7] in ValuesFrom(args, "--harness", 0)
  {
    FusedValue(args, 0, "-Zunstable-options", "unstable-options");
    ValuesFromHas(args, "--ay-chc-track", 0, 1, "--backend=ay");
    ValuesFromHas(args, "--harness", 0, 6, args[7]);
  }

  lemma {:induction false} BorrowedBackend(args: seq<string>)
    requires IsBorrowing(args)
    ensures "ay" in ValuesFrom(args, "--backend", 0)
  {
    JoinedValue(args, "--backend", 2, "--backend=ay", "ay");
  }

  lemma {:induction false} BorrowedSolver(args: seq<string>)
    requires IsBorrowing(args)
    ensures "ay" in ValuesFrom(args, "--ay-solver", 0)
  {
    JoinedValue(args, "--ay-solver", 4, "--ay-solver=ay", "ay");
  }

  lemma {:induction false} BorrowedTrack(args: seq<string>)
    requires IsBorrowing(args)
    ensures "mem" in ValuesFrom(args, "--ay-chc-track", 0)
  {
    JoinedValue(args, "--ay-chc-track", 3, "--ay-chc-track=mem", "mem");
  }

  lemma {:induction false} FusedValue(args: seq<string>, i: nat, arg: string, value: string)
    requires i < |args| && args[i] == arg && arg == "-Z" + value && value != "" && value[0] != '='
    ensures value in ValuesFrom(args, "-Z", 0)
  {
    assert args[i][2] == value[0] && args[i][2..] == value && |args[i]| > 2;
    assert !IsJoined(args[i], "-Z") by { assert ("-Z" + "=")[2] == '='; }
    ValuesFromHas(args, "-Z", 0, i, value);
  }

  lemma {:induction false} OnlyWord(args: seq<string>)
    requires IsBorrowing(args)
    ensures PositionalsFrom(args, 0) == [args[8]]
  {
    assert !TakesValue(args[7]) by { ValueFlagsAreDashed(args[7]); }
    assert PositionalsFrom(args, 8) == [args[8]] by { assert IsPositional(args, 8) && PositionalsFrom(args, 9) == []; }
    assert TakesValue(args[6]);
    assert PositionalsFrom(args, 7) == [args[8]];
    DashedAreDropped(args, 7);
  }

  lemma {:induction false} DashedAreDropped(args: seq<string>, n: nat)
    requires n <= |args| && forall i :: 0 <= i < n ==> IsDashed(args[i])
    ensures PositionalsFrom(args, 0) == PositionalsFrom(args, n)
  {
    if n > 0 { DashedAreDropped(args, n - 1); }
  }
}
