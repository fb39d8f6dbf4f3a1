/** Where the units of the argument reading start, told from the arguments alone: the stride of an
    argument is two when it is a flag that takes the next one. */
module ArgStrides {
  import opened Wrappers
  import opened Args
  import opened ArgsProperties

  const FRONT_VALUE_FLAGS: seq<string> := ["--timeout", "--solver"]

  predicate EatsNext(text: string) { text in FRONT_VALUE_FLAGS || TakesAValue(text) }

  /** A flag that takes the next argument as its value. */
  predicate Takes(a: Os) { a.Text? && EatsNext(a.s) }

  // ---------------------------------------------------------------------
  // Units and strides
  // ---------------------------------------------------------------------

  /** A reader of single units that starts one at `i` also starts one at `k`. */
  ghost predicate StartsBy(read: (nat, bool) -> Result<(Unit, nat), Reject>, i: nat, inputSeen: bool, k: nat)
    decreases k - i
  {
    i == k ||
    (i < k && read(i, inputSeen).Ok? &&
     var un := read(i, inputSeen).value;
     i < un.1 && StartsBy(read, un.1, inputSeen || un.0.Input?, k))
  }

  /** Every unit that starts before `k` is read without a refusal. */
  ghost predicate ReadsUpTo(read: (nat, bool) -> Result<(Unit, nat), Reject>, i: nat, inputSeen: bool, k: nat)
    decreases k - i
  {
    i >= k ||
    (read(i, inputSeen).Ok? &&
     var un := read(i, inputSeen).value;
     i < un.1 && ReadsUpTo(read, un.1, inputSeen || un.0.Input?, k))
  }

  /** The translation starts a unit at `i` and so also at `k`. */
  ghost predicate StartsUnit(w: World, argv: seq<Os>, i: nat, inputSeen: bool, k: nat) {
    StartsBy(UnitReader(w, argv), i, inputSeen, k)
  }

  /** The translation refuses nothing from `i` that starts before `k`. */
  ghost predicate AcceptedUpTo(w: World, argv: seq<Os>, i: nat, inputSeen: bool, k: nat) {
    ReadsUpTo(UnitReader(w, argv), i, inputSeen, k)
  }

  /** A jobs flag without an attached count: the translation gives it the next argument. */
  predicate BareJobs(a: Os) { a == Text("--jobs") || a == Text("-j") }

  /** Enough of the shape of the value-taking flags to tell them from the others. */
  predicate LongShape(n: string) {
    |n| >= 5 && n[1] == '-' && n[2] != 'l' && n[2] != 'j' && n[2] != 'v' && n[2] != 'q' &&
    (n[2] == 'd' ==> n[4] == 'f') && |n| != 11
  }

  predicate ShortShape(n: string) {
    |n| == 2 && (n[1] == 'Z' || n[1] == 'e' || n[1] == 'F' || n[1] == 'p')
  }

  lemma {:induction false} LongFlags()
    ensures forall k {:trigger ENGINE_VALUE_FLAGS[k]} :: 0 <= k < |ENGINE_VALUE_FLAGS| ==>
            LongShape(ENGINE_VALUE_FLAGS[k])
  {
  }

  lemma {:induction false} OtherFlags()
    ensures forall k {:trigger FRONT_VALUE_FLAGS[k]} :: 0 <= k < |FRONT_VALUE_FLAGS| ==>
              LongShape(FRONT_VALUE_FLAGS[k]) && '=' !in FRONT_VALUE_FLAGS[k]
    ensures forall k {:trigger ENGINE_VALUE_FLAGS_SHORT[k]} :: 0 <= k < |ENGINE_VALUE_FLAGS_SHORT| ==>
              ShortShape(ENGINE_VALUE_FLAGS_SHORT[k]) && '=' !in ENGINE_VALUE_FLAGS_SHORT[k]
  {
  }

  lemma {:induction false} EatingShape(n: string)
    requires EatsNext(n)
    ensures (LongShape(n) || ShortShape(n)) && '=' !in n
  {
    LongFlags();
    LongFlagsHaveNoEq();
    OtherFlags();
  }

  lemma {:induction false} ArmShapes()
    ensures forall k {:trigger VALUE_ARMS[k]} :: 0 <= k < |VALUE_ARMS| ==>
              |VALUE_ARMS[k]| != 6 && (|VALUE_ARMS[k]| > 2 || VALUE_ARMS[k][1] == 'Z')
    ensures forall k {:trigger UNSUPPORTED[k]} :: 0 <= k < |UNSUPPORTED| ==> |UNSUPPORTED[k]| > 6
  {
  }

  lemma {:induction false} ValueArmsEatNext(name: string)
    requires name in VALUE_ARMS
    ensures EatsNext(name)
  {
    assert ENGINE_VALUE_FLAGS[10] == "--harness" && ENGINE_VALUE_FLAGS[22] == "--unwind";
    assert ENGINE_VALUE_FLAGS[14] == "--output-format" && ENGINE_VALUE_FLAGS[21] == "--unstable";
    assert FRONT_VALUE_FLAGS[0] == "--timeout" && FRONT_VALUE_FLAGS[1] == "--solver";
    assert ENGINE_VALUE_FLAGS_SHORT[0] == "-Z";
    assert VALUE_ARMS == [ENGINE_VALUE_FLAGS[10], ENGINE_VALUE_FLAGS[22], FRONT_VALUE_FLAGS[0],
                          FRONT_VALUE_FLAGS[1], ENGINE_VALUE_FLAGS[14], ENGINE_VALUE_FLAGS_SHORT[0],
                          ENGINE_VALUE_FLAGS[21]];
  }

  lemma {:induction false} PlainNamesEatNothing(name: string)
    requires IsPlainName(name)
    ensures !EatsNext(name)
  {
    PlainNamesHaveOtherShapes(name);
    if EatsNext(name) { EatingShape(name); }
  }

  lemma {:induction false} PlainNamesHaveOtherShapes(name: string)
    requires IsPlainName(name)
    ensures !LongShape(name) && !ShortShape(name)
  {
  }

  lemma {:induction false} FusedEatsNothing(text: string)
    requires "-Z" < text
    ensures !EatsNext(text)
  {
    assert text[1] == 'Z';
    if EatsNext(text) { EatingShape(text); }
  }

  /** At a flag that is not a bare jobs flag, hoisting and translation agree on the next stop. */
  lemma {:induction false} SameStride(w: World, argv: seq<Os>, i: nat, inputSeen: bool)
    requires i < |argv| && argv[i].Text? && argv[i].s != "--" && IsFlag(argv[i].s)
    requires !BareJobs(argv[i]) && ReadUnit(w, argv, i, inputSeen).Ok?
    ensures var un := ReadUnit(w, argv, i, inputSeen).value;
            !un.0.Input? &&
            un.1 == if EatsNext(argv[i].s) && i + 1 < |argv| then i + 2 else i + 1
  {
    var text := argv[i].s;
    var name, attached := Name(text), Attached(text);
    if name in VALUE_ARMS {
      ValueArmsEatNext(name);
      ValueArmStride(text, argv, i + 1);
    } else if PlainArm(name, argv[i], attached, argv, i + 1).Some? {
      PlainStride(text, argv, i + 1);
    } else {
      OtherStride(w, text, argv, i + 1, inputSeen);
    }
  }

  lemma {:induction false} ValueUnitIsNoInput(name: string, v: Os)
    ensures ValueUnit(name, v).Ok? ==> !ValueUnit(name, v).value.Input?
  {
  }

  lemma {:induction false} ValueArmStride(text: string, argv: seq<Os>, next: nat)
    requires next <= |argv| && EatsNext(Name(text))
    requires ValueArm(Name(text), Attached(text), argv, next).Ok?
    ensures var un := ValueArm(Name(text), Attached(text), argv, next).value;
            !un.0.Input? && un.1 == if EatsNext(text) && next < |argv| then next + 1 else next
  {
    NameAndValue(text);
    var vn := ValueOf(Name(text), Attached(text), argv, next).value;
    ValueUnitIsNoInput(Name(text), vn.0);
    if Attached(text).Some? { AttachedEatsNothing(text); }
  }

  lemma {:induction false} PlainStride(text: string, argv: seq<Os>, next: nat)
    requires next <= |argv| && !BareJobs(Text(text))
    requires PlainArm(Name(text), Text(text), Attached(text), argv, next).Some?
    ensures var un := PlainArm(Name(text), Text(text), Attached(text), argv, next).value;
            !un.0.Input? && un.1 == next && !EatsNext(text)
  {
    NameAndValue(text);
    if Attached(text).Some? { AttachedEatsNothing(text); } else { PlainNamesEatNothing(text); }
  }

  lemma {:induction false} OtherStride(w: World, text: string, argv: seq<Os>, next: nat, inputSeen: bool)
    requires next <= |argv| && IsFlag(text) && OtherArm(w, text, argv, next, inputSeen).Ok?
    requires Name(text) !in VALUE_ARMS
    ensures var un := OtherArm(w, text, argv, next, inputSeen).value;
            !un.0.Input? && un.1 == if EatsNext(text) && next < |argv| then next + 1 else next
  {
    NameAndValue(text);
    if Attached(text).Some? {
      AttachedEatsNothing(text);
    } else {
      assert VALUE_ARMS[2] == FRONT_VALUE_FLAGS[0] && VALUE_ARMS[3] == FRONT_VALUE_FLAGS[1];
      assert text !in FRONT_VALUE_FLAGS;
      if "-Z" <= text {
        assert VALUE_ARMS[5] == "-Z";
        assert text != "-Z" && |text| > 2;
        FusedEatsNothing(text);
      }
    }
  }

  lemma {:induction false} AttachedEatsNothing(text: string)
    requires Attached(text).Some?
    ensures !EatsNext(text)
  {
    assert text[EqAt(text)] in text;
    if EatsNext(text) { EatingShape(text); }
  }

  /** How many arguments one that the translation reads by itself takes, told from it alone. */
  function Stride(a: Os): (n: nat)
    ensures n == 1 || n == 2
  {
    if BareJobs(a) || Takes(a) then 2 else 1
  }

  /** How far each argument leads; nothing is read after a `--`. */
  function Strides(argv: seq<Os>): (r: seq<nat>)
    ensures |r| == |argv|
  {
    seq(|argv|, i requires 0 <= i < |argv| => if argv[i] == Text("--") then |argv| else Stride(argv[i]))
  }

  /** Walking from `i` by strides one comes to `k`. */
  predicate Lands(strides: seq<nat>, i: nat, k: nat)
    decreases k - i
  {
    i == k || (i < k && i < |strides| && strides[i] > 0 && Lands(strides, i + strides[i], k))
  }

  lemma {:induction false} EngineFlagsAreFlags()
    ensures forall k {:trigger ENGINE_VALUE_FLAGS[k]} :: 0 <= k < |ENGINE_VALUE_FLAGS| ==> IsFlag(ENGINE_VALUE_FLAGS[k])
  {
  }

  lemma {:induction false} OtherFlagsAreFlags()
    ensures forall k {:trigger FRONT_VALUE_FLAGS[k]} :: 0 <= k < |FRONT_VALUE_FLAGS| ==> IsFlag(FRONT_VALUE_FLAGS[k])
    ensures forall k {:trigger ENGINE_VALUE_FLAGS_SHORT[k]} :: 0 <= k < |ENGINE_VALUE_FLAGS_SHORT| ==>
              IsFlag(ENGINE_VALUE_FLAGS_SHORT[k])
  {
  }

  lemma {:induction false} EatingIsFlag(text: string)
    requires EatsNext(text)
    ensures IsFlag(text)
  {
    EngineFlagsAreFlags();
    OtherFlagsAreFlags();
  }

  lemma {:induction false} NoPlainArm(text: string, argv: seq<Os>, next: nat)
    requires next <= |argv| && !IsFlag(text)
    ensures PlainArm(text, Text(text), None, argv, next).None?
  {
  }

  lemma {:induction false} WordUnit(w: World, text: string, argv: seq<Os>, next: nat, inputSeen: bool)
    requires next <= |argv| && !IsFlag(text) && ReadNamed(w, text, argv, next, inputSeen).Ok?
    ensures ReadNamed(w, text, argv, next, inputSeen).value.1 == next
  {
    if EatsNext(text) { EatingIsFlag(text); }
    if text in VALUE_ARMS { ValueArmsEatNext(text); }
    assert !Attaches(text) && Name(text) == text && Attached(text).None?;
    NoPlainArm(text, argv, next);
  }

  lemma {:induction false} BareJobsAreFlags(a: Os)
    requires BareJobs(a)
    ensures IsFlag(a.s)
  {
  }

  lemma {:induction false} WordStride(w: World, argv: seq<Os>, i: nat, inputSeen: bool)
    requires i < |argv| && !(argv[i].Text? && IsFlag(argv[i].s)) && argv[i] != Text("--")
    requires ReadUnit(w, argv, i, inputSeen).Ok?
    ensures ReadUnit(w, argv, i, inputSeen).value.1 == i + 1 == i + Stride(argv[i])
  {
    if argv[i].Text? {
      var text := argv[i].s;
      WordUnit(w, text, argv, i + 1, inputSeen);
      if EatsNext(text) { EatingIsFlag(text); }
      if BareJobs(argv[i]) { BareJobsAreFlags(argv[i]); }
    }
  }

  /** One unit read takes as many arguments as its first one says, or as are left. */
  lemma {:induction false} UnitStride(w: World, argv: seq<Os>, i: nat, inputSeen: bool)
    requires i < |argv| && ReadUnit(w, argv, i, inputSeen).Ok?
    ensures var next := ReadUnit(w, argv, i, inputSeen).value.1;
            next == if i + Strides(argv)[i] < |argv| then i + Strides(argv)[i] else |argv|
  {
    if argv[i] == Text("--") {
      StopTakesAll(w, argv, i, inputSeen);
    } else if i + 1 < |argv| && BareJobs(argv[i]) {
      JobsStride(w, argv, i, inputSeen);
    } else if i + 1 < |argv| && argv[i].Text? && IsFlag(argv[i].s) {
      SameStride(w, argv, i, inputSeen);
    } else if i + 1 < |argv| {
      WordStride(w, argv, i, inputSeen);
    }
  }

  ghost predicate Follows(read: (nat, bool) -> Result<(Unit, nat), Reject>, strides: seq<nat>) {
    forall i: nat, seen :: i < |strides| && read(i, seen).Ok? ==>
      read(i, seen).value.1 == if i + strides[i] < |strides| then i + strides[i] else |strides|
  }

  lemma {:induction false} StartsWhereStridesLand(
    read: (nat, bool) -> Result<(Unit, nat), Reject>, strides: seq<nat>, i: nat, inputSeen: bool, k: nat)
    requires Follows(read, strides) && i <= k < |strides|
    ensures StartsBy(read, i, inputSeen, k) <==> Lands(strides, i, k) && ReadsUpTo(read, i, inputSeen, k)
    decreases |strides| - i
  {
    if i < k && read(i, inputSeen).Ok? {
      var un := read(i, inputSeen).value;
      if i < un.1 <= k { StartsWhereStridesLand(read, strides, un.1, inputSeen || un.0.Input?, k); }
    }
  }

  lemma {:induction false} ReadingReadsUpTo(
    read: (nat, bool) -> Result<(Unit, nat), Reject>, len: nat, i: nat, inputSeen: bool, k: nat)
    requires i <= len && k <= len && ReadingBy(read, len, i, inputSeen).Ok?
    ensures ReadsUpTo(read, i, inputSeen, k)
    decreases len - i
  {
    if i < k {
      var un := read(i, inputSeen).value;
      ReadingReadsUpTo(read, len, un.1, inputSeen || un.0.Input?, k);
    }
  }

  lemma {:induction false} ReaderFollows(w: World, argv: seq<Os>)
    ensures Follows(UnitReader(w, argv), Strides(argv))
  {
    var read, strides := UnitReader(w, argv), Strides(argv);
    UnitReaderReads(w, argv);
    forall j: nat, seen | j < |strides| && read(j, seen).Ok?
      ensures read(j, seen).value.1 == if j + strides[j] < |strides| then j + strides[j] else |strides|
    {
      UnitStride(w, argv, j, seen);
    }
  }

  /** Which arguments the translation reads by themselves, and which it gives to the flag before
      them, can be told from the arguments alone, up to the first one it refuses. */
  lemma {:induction false} UnitsLandExactly(w: World, argv: seq<Os>, i: nat, inputSeen: bool, k: nat)
    requires i <= k < |argv|
    ensures StartsUnit(w, argv, i, inputSeen, k) <==>
            Lands(Strides(argv), i, k) && AcceptedUpTo(w, argv, i, inputSeen, k)
    ensures Reading(w, argv, i, inputSeen).Ok? ==> AcceptedUpTo(w, argv, i, inputSeen, k)
  {
    var read := UnitReader(w, argv);
    ReaderFollows(w, argv);
    StartsWhereStridesLand(read, Strides(argv), i, inputSeen, k);
    UnitReaderReads(w, argv);
    ReadingByUnits(read, w, argv, i, inputSeen);
    if Reading(w, argv, i, inputSeen).Ok? { ReadingReadsUpTo(read, |argv|, i, inputSeen, k); }
  }

  lemma {:induction false} StopTakesAll(w: World, argv: seq<Os>, i: nat, inputSeen: bool)
    requires i < |argv| && argv[i] == Text("--")
    ensures ReadUnit(w, argv, i, inputSeen).Ok? && ReadUnit(w, argv, i, inputSeen).value.1 == |argv|
  {
  }

  // ---------------------------------------------------------------------
  // A flag's value is nothing else
  // ---------------------------------------------------------------------

  lemma {:induction false} NothingInside(strides: seq<nat>, i: nat, j: nat, k: nat)
    requires Lands(strides, i, j) && j < |strides| && j < k < j + strides[j]
    ensures !Lands(strides, i, k)
    decreases k - i
  {
    if i < j { NothingInside(strides, i + strides[i], j, k); }
  }

  lemma {:induction false} NothingStartsInside(
    read: (nat, bool) -> Result<(Unit, nat), Reject>, strides: seq<nat>, i: nat, inputSeen: bool, j: nat, k: nat)
    requires Follows(read, strides) && i <= j < |strides| && j < k < |strides| && k < j + strides[j]
    requires StartsBy(read, i, inputSeen, j)
    ensures !StartsBy(read, i, inputSeen, k)
  {
    StartsWhereStridesLand(read, strides, i, inputSeen, j);
    StartsWhereStridesLand(read, strides, i, inputSeen, k);
    NothingInside(strides, i, j, k);
  }

  /** Which arguments take the next one: a flag that takes a value, a bare jobs flag, and the `--`
      that takes everything. */
  lemma {:induction false} LongStrideMeaning(argv: seq<Os>, j: nat)
    requires j + 1 < |argv|
    ensures Strides(argv)[j] > 1 <==> Takes(argv[j]) || BareJobs(argv[j]) || argv[j] == Text("--")
  {
  }

  /** The argument is the value of the one before it, or behind a `--`. */
  ghost predicate IsTaken(w: World, argv: seq<Os>, k: nat)
    requires k < |argv|
  {
    k > 0 && Strides(argv)[k-1] > 1 && StartsUnit(w, argv, 0, false, k - 1)
  }

  lemma {:induction false} InsideStartsNoUnit(w: World, argv: seq<Os>, j: nat)
    requires j + 1 < |argv| && Strides(argv)[j] > 1 && StartsUnit(w, argv, 0, false, j)
    ensures !StartsUnit(w, argv, 0, false, j + 1)
  {
    ReaderFollows(w, argv);
    NothingStartsInside(UnitReader(w, argv), Strides(argv), 0, false, j, j + 1);
  }

  /** A flag's value starts no unit of its own. */
  lemma {:induction false} TakenStartsNoUnit(w: World, argv: seq<Os>, k: nat)
    requires k < |argv| && IsTaken(w, argv, k)
    ensures !StartsUnit(w, argv, 0, false, k)
  {
    InsideStartsNoUnit(w, argv, k - 1);
  }

  /** A path with the Rust extension, and no flag. */
  predicate IsRustPath(w: World, a: Os) { w.rs(a) && (a.Text? ==> !IsFlag(a.s)) }

  lemma {:induction false} RustPathIsInput(w: World, argv: seq<Os>, i: nat)
    requires i < |argv| && IsRustPath(w, argv[i])
    ensures ReadUnit(w, argv, i, false) == Ok((Input(argv[i]), i + 1))
  {
    if argv[i].Text? {
      var text := argv[i].s;
      assert Name(text) == text && Attached(text).None?;
      ValueNamesHaveArms(text);
      NoPlainArm(text, argv, i + 1);
      KnownWordsAreFlags(text);
    }
  }

  lemma {:induction false} KnownWordsAreFlags(text: string)
    ensures text in UNSUPPORTED || IsValueName(text) || text == "--" || "-Z" <= text ==> IsFlag(text)
  {
    assert forall k {:trigger UNSUPPORTED[k]} :: 0 <= k < |UNSUPPORTED| ==> IsFlag(UNSUPPORTED[k]);
  }

  /** Where the input of a reading stands. */
  lemma {:induction false} InputPlace(w: World, argv: seq<Os>, i: nat, x: Os) returns (k: nat)
    requires i <= |argv| && Reading(w, argv, i, false).Ok? && Input(x) in Reading(w, argv, i, false).value
    ensures i <= k < |argv| && argv[k] == x && IsRustPath(w, x) && StartsUnit(w, argv, i, false, k)
    ensures forall j :: i <= j < k && StartsUnit(w, argv, i, false, j) ==> !IsRustPath(w, argv[j])
  {
    UnitReaderReads(w, argv);
    k := InputPlaceBy(UnitReader(w, argv), w, argv, i, x);
  }

  lemma {:induction false} InputPlaceBy(
    read: (nat, bool) -> Result<(Unit, nat), Reject>, w: World, argv: seq<Os>, i: nat, x: Os)
    returns (k: nat)
    requires ReadsUnits(read, w, argv)
    requires i <= |argv| && Reading(w, argv, i, false).Ok? && Input(x) in Reading(w, argv, i, false).value
    ensures i <= k < |argv| && argv[k] == x && IsRustPath(w, x) && StartsBy(read, i, false, k)
    ensures forall j: nat :: i <= j < k && StartsBy(read, i, false, j) ==> !IsRustPath(w, argv[j])
    decreases |argv| - i
  {
    var un, seen := ReadingStep(w, argv, i, false);
    if un.0.Input? {
      k := i;
      InputIsOne(w, argv, i, false, un.0.raw);
      if un.0 != Input(x) { NoInputOnceSeen(w, argv, un.1); }
    } else {
      k := InputPlaceBy(read, w, argv, un.1, x);
      if IsRustPath(w, argv[i]) { RustPathIsInput(w, argv, i); }
    }
  }

  lemma {:induction false} NoRustPath(
    read: (nat, bool) -> Result<(Unit, nat), Reject>, w: World, argv: seq<Os>, i: nat, j: nat)
    requires ReadsUnits(read, w, argv) && i <= j < |argv| && Reading(w, argv, i, false).Ok?
    requires forall u :: u in Reading(w, argv, i, false).value ==> !u.Input?
    requires StartsBy(read, i, false, j)
    ensures !IsRustPath(w, argv[j])
    decreases |argv| - i
  {
    var un, seen := ReadingStep(w, argv, i, false);
    assert un.0 in Reading(w, argv, i, false).value;
    if i == j {
      if IsRustPath(w, argv[i]) { RustPathIsInput(w, argv, i); }
    } else {
      NoRustPath(read, w, argv, un.1, j);
    }
  }

  lemma {:induction false} InputIsOne(w: World, argv: seq<Os>, i: nat, inputSeen: bool, x: Os)
    requires i < |argv| && ReadUnit(w, argv, i, inputSeen).Ok? && ReadUnit(w, argv, i, inputSeen).value.0 == Input(x)
    ensures argv[i] == x && IsRustPath(w, x)
  {
    UnitSpells(w, argv, i, inputSeen);
    assert argv[i..ReadUnit(w, argv, i, inputSeen).value.1][0] == x;
  }

  lemma {:induction false} UnitIsNotTaken(w: World, argv: seq<Os>, k: nat)
    requires k < |argv| && StartsUnit(w, argv, 0, false, k)
    ensures !IsTaken(w, argv, k)
  {
    if IsTaken(w, argv, k) { TakenStartsNoUnit(w, argv, k); }
  }

  /** The input file that a translation reports is the first Rust path where a unit starts; so it is
      no flag's value. */
  lemma {:induction false} InputIsNoValue(w: World, argv: seq<Os>, x: Os) returns (k: nat)
    requires Reading(w, argv, 0, false).Ok? && InputOf(Reading(w, argv, 0, false).value) == Some(x)
    ensures k < |argv| && argv[k] == x && StartsUnit(w, argv, 0, false, k) && !IsTaken(w, argv, k)
    ensures IsRustPath(w, x)
    ensures forall j :: 0 <= j < k && StartsUnit(w, argv, 0, false, j) ==> !IsRustPath(w, argv[j])
  {
    OneInput(w, argv, 0);
    k := InputPlace(w, argv, 0, x);
    UnitIsNotTaken(w, argv, k);
  }

  /** Without an input there is no such path. */
  lemma {:induction false} NoInputMeaning(w: World, argv: seq<Os>, k: nat)
    requires Reading(w, argv, 0, false).Ok? && InputOf(Reading(w, argv, 0, false).value).None?
    requires k < |argv| && StartsUnit(w, argv, 0, false, k)
    ensures !IsRustPath(w, argv[k])
  {
    OneInput(w, argv, 0);
    UnitReaderReads(w, argv);
    var us := Reading(w, argv, 0, false).value;
    forall u | u in us ensures !u.Input? { var j :| 0 <= j < |us| && us[j] == u; }
    NoRustPath(UnitReader(w, argv), w, argv, 0, k);
  }

  lemma {:induction false} NotAttachedShort()
    ensures Name("-j") == "-j" && Attached("-j").None? && "-j" !in UNSUPPORTED && "-j" !in VALUE_ARMS
  {
    assert '=' !in "-j";
    ArmShapes();
  }

  lemma {:induction false} JobsStride(w: World, argv: seq<Os>, i: nat, inputSeen: bool)
    requires i + 1 < |argv| && BareJobs(argv[i])
    ensures ReadUnit(w, argv, i, inputSeen) == Ok((Jobs(Some(argv[i+1])), i + 2))
  {
    var text := argv[i].s;
    assert '=' !in "--jobs" && '=' !in "-j";
    assert Name(text) == text && Attached(text).None?;
    ArmShapes();
    assert text !in UNSUPPORTED && text !in VALUE_ARMS;
    assert PlainArm(text, argv[i], Attached(text), argv, i + 1) == Some((Jobs(Some(argv[i+1])), i + 2));
  }
}
