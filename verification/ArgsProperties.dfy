/** What the argument translation of `src/frontend/args.rs` promises its users. */
module ArgsProperties {
  import opened Wrappers
  import opened Args

  // ---------------------------------------------------------------------
  // Every argument is used exactly once
  // ---------------------------------------------------------------------

  /** `toks` spells flag `name` with value `v`: two arguments, or one with `=`. */
  predicate Carries(name: string, v: Os, toks: seq<Os>) {
    toks == [Text(name), v] || (v.Text? && toks == [Text(name + "=" + v.s)])
  }

  predicate Named(toks: seq<Os>, names: seq<string>) {
    |toks| == 1 && toks[0].Text? && Name(toks[0].s) in names
  }

  /** The grammar of the command line: which arguments may spell a unit. */
  ghost predicate Spells(w: World, u: Unit, toks: seq<Os>) {
    match u
    case Rest(tail) => toks == [Text("--")] + tail
    case Harness(v) => Carries("--harness", v, toks) && v != Text("")
    case ListMode => Named(toks, ["--list", "--harnesses"])
    case Unwind(v) => Carries("--unwind", v, toks) && v.Text? && IsU32(v.s)
    case Timeout(v) => Carries("--timeout", v, toks) && CheckTimeout(v).None?
    case Solver(n) => n in SOLVERS && exists v :: Carries("--solver", v, toks) && v.Text? && Lower(v.s) == n
    case Jobs(None) => toks == [Text("--jobs")] || toks == [Text("-j")]
    case Jobs(Some(v)) => Carries("--jobs", v, toks) || Carries("-j", v, toks)
    case Format(v) => Carries("--output-format", v, toks)
    case Verbose => Named(toks, ["--verbose", "-v"])
    case Debug(raw) => toks == [raw] && Named(toks, ["--debug"])
    case Quiet => Named(toks, ["--quiet", "-q"])
    case Unstable(v) => Carries("-Z", v, toks) || Carries("--unstable", v, toks)
    case FusedUnstable(raw) => toks == [raw] && raw.Text? && "-Z" < raw.s && Name(raw.s) != "-Z"
    case Input(raw) => toks == [raw] && w.rs(raw) && (raw.Text? ==> !IsFlag(raw.s))
    case Pass(raw, None) => toks == [raw] && IsForeign(raw)
    case Pass(raw, Some(v)) => toks == [raw, v] && IsForeign(raw) && raw.Text? && TakesAValue(raw.s)
  }

  /** Nothing the translation has a meaning for. */
  predicate IsForeign(raw: Os) {
    raw.Text? ==>
      raw.s != "--" && !("-Z" <= raw.s) && !IsValueName(Name(raw.s)) && !IsPlainName(Name(raw.s)) &&
      Name(raw.s) !in UNSUPPORTED
  }

  predicate IsValueName(name: string) {
    name == "--harness" || name == "--unwind" || name == "--timeout" || name == "--solver" ||
    name == "--output-format" || name == "-Z" || name == "--unstable"
  }

  predicate IsPlainName(name: string) {
    name == "--list" || name == "--harnesses" || name == "--jobs" || name == "-j" || name == "--verbose" ||
    name == "-v" || name == "--debug" || name == "--quiet" || name == "-q"
  }

  lemma {:induction false} ValueNamesHaveArms(name: string)
    ensures IsValueName(name) <==> name in VALUE_ARMS
  {
    assert VALUE_ARMS[0] == "--harness" && VALUE_ARMS[1] == "--unwind" && VALUE_ARMS[2] == "--timeout";
    assert VALUE_ARMS[3] == "--solver" && VALUE_ARMS[4] == "--output-format" && VALUE_ARMS[5] == "-Z";
    assert VALUE_ARMS[6] == "--unstable";
  }

  lemma {:induction false} PlainNamesHaveArms(
    name: string, raw: Os, attached: Option<Os>, argv: seq<Os>, next: nat)
    requires next <= |argv|
    ensures IsPlainName(name) <==> PlainArm(name, raw, attached, argv, next).Some?
  {
  }

  /** The unit is spelled by the arguments it takes, and lacks a value only at the end of the line. */
  ghost predicate Reads(w: World, argv: seq<Os>, i: nat, un: (Unit, nat)) {
    i < un.1 <= |argv| && Spells(w, un.0, argv[i..un.1]) && (Hungry(un.0) ==> un.1 == |argv|)
  }

  /** The unit is a flag without the value that it takes when an argument follows. */
  predicate Hungry(u: Unit) {
    u == Jobs(None) || (u.Pass? && u.arg.None? && u.raw.Text? && TakesAValue(u.raw.s))
  }

  lemma {:induction false} LongFlagsHaveNoEq()
    ensures forall k {:trigger ENGINE_VALUE_FLAGS[k]} :: 0 <= k < |ENGINE_VALUE_FLAGS| ==> '=' !in ENGINE_VALUE_FLAGS[k]
  {
  }

  lemma {:induction false} ShortFlagsHaveNoEq()
    ensures forall k {:trigger ENGINE_VALUE_FLAGS_SHORT[k]} :: 0 <= k < |ENGINE_VALUE_FLAGS_SHORT| ==>
              '=' !in ENGINE_VALUE_FLAGS_SHORT[k]
  {
  }

  lemma {:induction false} ValueFlagHasNoEq(text: string)
    requires TakesAValue(text)
    ensures '=' !in text
  {
    LongFlagsHaveNoEq();
    ShortFlagsHaveNoEq();
  }

  lemma {:induction false} ValueFlagIsBare(text: string)
    requires TakesAValue(text)
    ensures Attached(text).None?
  {
    ValueFlagHasNoEq(text);
  }

  lemma {:induction false} NameAndValue(text: string)
    ensures Attached(text).Some? ==> text == Name(text) + "=" + Attached(text).value.s
    ensures Attached(text).None? ==> Name(text) == text
  {
    if Attaches(text) {
      var n := EqAt(text);
      assert text == text[..n] + [text[n]] + text[n+1..];
    }
  }

  lemma {:induction false} CarriedValue(name: string, argv: seq<Os>, i: nat, v: Os, next: nat)
    requires i < |argv| && argv[i].Text? && Name(argv[i].s) == name
    requires ValueOf(name, Attached(argv[i].s), argv, i + 1) == Ok((v, next))
    ensures i < next <= |argv| && Carries(name, v, argv[i..next])
  {
    NameAndValue(argv[i].s);
    if Attached(argv[i].s).Some? {
      assert argv[i..next] == [argv[i]];
    } else {
      assert argv[i..next] == [argv[i], argv[i+1]];
    }
  }

  lemma {:induction false} ValueUnitSpells(w: World, name: string, v: Os, toks: seq<Os>)
    requires name in VALUE_ARMS && Carries(name, v, toks) && ValueUnit(name, v).Ok?
    ensures Spells(w, ValueUnit(name, v).value, toks)
    ensures !ValueUnit(name, v).value.Input? && !Hungry(ValueUnit(name, v).value)
  {
    ValueNamesHaveArms(name);
    var u := ValueUnit(name, v).value;
    if name == "--harness" {
      assert u == Harness(v);
    } else if name == "--unwind" {
      assert u == Unwind(v);
    } else if name == "--timeout" {
      assert u == Timeout(v);
    } else if name == "--solver" {
      assert u == Solver(Lower(v.s)) && Carries("--solver", v, toks);
    } else if name == "--output-format" {
      assert u == Format(v);
    } else {
      assert u == Unstable(v);
    }
  }

  lemma {:induction false} ValueArmSpells(w: World, argv: seq<Os>, i: nat, name: string)
    requires i < |argv| && argv[i].Text? && name == Name(argv[i].s) && name in VALUE_ARMS
    ensures match ValueArm(name, Attached(argv[i].s), argv, i + 1)
            case Err(_) => true
            case Ok(un) => i < un.1 <= |argv| && Spells(w, un.0, argv[i..un.1]) && !un.0.Input?
  {
    match ValueOf(name, Attached(argv[i].s), argv, i + 1)
    case Err(_) =>
    case Ok(vn) =>
      CarriedValue(name, argv, i, vn.0, vn.1);
      if ValueUnit(name, vn.0).Ok? { ValueUnitSpells(w, name, vn.0, argv[i..vn.1]); }
  }

  lemma {:induction false} PlainArmSpells(w: World, argv: seq<Os>, i: nat)
    requires i < |argv| && argv[i].Text?
    ensures match PlainArm(Name(argv[i].s), argv[i], Attached(argv[i].s), argv, i + 1)
            case None => true
            case Some(un) => i < un.1 <= |argv| && Spells(w, un.0, argv[i..un.1]) && !un.0.Input?
  {
    var name, attached := Name(argv[i].s), Attached(argv[i].s);
    assert argv[i..i+1] == [argv[i]];
    if name == "--jobs" || name == "-j" {
      NameAndValue(argv[i].s);
      if attached.Some? || i + 1 < |argv| {
        var vn := OptionalValue(attached, argv, i + 1);
        CarriedValue(name, argv, i, vn.0.value, vn.1);
      }
    }
  }

  lemma {:induction false} OtherUnitSpells(
    w: World, text: string, argv: seq<Os>, i: nat, takesNext: bool, inputSeen: bool)
    requires i < |argv| && argv[i] == Text(text) && (takesNext ==> TakesAValue(text))
    requires !("-Z" <= text) ==> IsForeign(argv[i])
    requires Name(text) != "-Z"
    ensures match OtherUnit(w, text, takesNext, argv, i + 1, inputSeen)
            case Err(_) => true
            case Ok(un) => i < un.1 <= |argv| && Spells(w, un.0, argv[i..un.1]) && (un.0.Input? ==> !inputSeen)
  {
    assert argv[i..i+1] == [argv[i]];
    if i + 1 < |argv| { assert argv[i..i+2] == [argv[i], argv[i+1]]; }
    if "-Z" <= text { NotBareZ(text); }
  }

  lemma {:induction false} NotBareZ(text: string)
    requires "-Z" <= text && Name(text) != "-Z"
    ensures "-Z" < text
  {
    assert '=' !in "-Z";
  }

  lemma {:induction false} OtherArmSpells(w: World, argv: seq<Os>, i: nat, inputSeen: bool)
    requires i < |argv| && argv[i].Text? && argv[i].s != "--" && Name(argv[i].s) !in UNSUPPORTED
    requires Name(argv[i].s) !in VALUE_ARMS
    requires PlainArm(Name(argv[i].s), argv[i], Attached(argv[i].s), argv, i + 1).None?
    ensures match OtherArm(w, argv[i].s, argv, i + 1, inputSeen)
            case Err(_) => true
            case Ok(un) => i < un.1 <= |argv| && Spells(w, un.0, argv[i..un.1]) && (un.0.Input? ==> !inputSeen)
  {
    var text := argv[i].s;
    ValueNamesHaveArms(Name(text));
    PlainNamesHaveArms(Name(text), argv[i], Attached(text), argv, i + 1);
    OtherUnitSpells(w, text, argv, i, Attached(text).None? && TakesAValue(text), inputSeen);
  }

  lemma {:induction false} OtherArmIsFed(w: World, text: string, argv: seq<Os>, next: nat, inputSeen: bool)
    requires next <= |argv| && OtherArm(w, text, argv, next, inputSeen).Ok?
    ensures Hungry(OtherArm(w, text, argv, next, inputSeen).value.0) ==>
            OtherArm(w, text, argv, next, inputSeen).value.1 == |argv|
  {
    if TakesAValue(text) { ValueFlagIsBare(text); }
  }

  lemma {:induction false} PlainArmIsFed(name: string, raw: Os, attached: Option<Os>, argv: seq<Os>, next: nat)
    requires next <= |argv| && PlainArm(name, raw, attached, argv, next).Some?
    ensures var un := PlainArm(name, raw, attached, argv, next).value;
            !un.0.Pass? && (un.0 == Jobs(None) ==> un.1 == |argv|)
  {
  }

  lemma {:induction false} ValueArmIsFed(name: string, attached: Option<Os>, argv: seq<Os>, next: nat)
    requires next <= |argv| && ValueArm(name, attached, argv, next).Ok?
    ensures !Hungry(ValueArm(name, attached, argv, next).value.0)
  {
    var vn := ValueOf(name, attached, argv, next).value;
    ValueUnitIsFed(name, vn.0);
  }

  lemma {:induction false} ValueUnitIsFed(name: string, v: Os)
    requires ValueUnit(name, v).Ok?
    ensures !ValueUnit(name, v).value.Pass? && !ValueUnit(name, v).value.Jobs?
  {
  }

  /** A flag goes without the value it takes only at the end of the line. */
  lemma {:induction false} HungryIsLast(w: World, argv: seq<Os>, i: nat, inputSeen: bool)
    requires i < |argv| && ReadUnit(w, argv, i, inputSeen).Ok?
    ensures Hungry(ReadUnit(w, argv, i, inputSeen).value.0) ==> ReadUnit(w, argv, i, inputSeen).value.1 == |argv|
  {
    if argv[i].Text? && argv[i].s != "--" {
      var text := argv[i].s;
      var name, attached := Name(text), Attached(text);
      if name in VALUE_ARMS {
        ValueArmIsFed(name, attached, argv, i + 1);
      } else if PlainArm(name, argv[i], attached, argv, i + 1).Some? {
        PlainArmIsFed(name, argv[i], attached, argv, i + 1);
      } else {
        OtherArmIsFed(w, text, argv, i + 1, inputSeen);
      }
    }
  }

  lemma {:induction false} UnitIsSpelled(w: World, argv: seq<Os>, i: nat, inputSeen: bool)
    requires i < |argv|
    ensures match ReadUnit(w, argv, i, inputSeen)
            case Err(_) => true
            case Ok(un) => Spells(w, un.0, argv[i..un.1]) && (un.0.Input? ==> !inputSeen)
  {
    if argv[i].Text? {
      var text := argv[i].s;
      if text == "--" {
        assert argv[i..] == [argv[i]] + argv[i+1..];
        assert argv[i..|argv|] == argv[i..];
      } else if Name(text) in UNSUPPORTED {
      } else if Name(text) in VALUE_ARMS {
        ValueArmSpells(w, argv, i, Name(text));
      } else if PlainArm(Name(text), argv[i], Attached(text), argv, i + 1).Some? {
        PlainArmSpells(w, argv, i);
      } else {
        OtherArmSpells(w, argv, i, inputSeen);
      }
    } else {
      assert argv[i..i+1] == [argv[i]];
    }
  }

  /** Every unit is spelled by the arguments it takes; a flag goes without its value only at the end
      of the line, and nothing is an input once one was seen. */
  lemma {:induction false} UnitSpells(w: World, argv: seq<Os>, i: nat, inputSeen: bool)
    requires i < |argv| && ReadUnit(w, argv, i, inputSeen).Ok?
    ensures Reads(w, argv, i, ReadUnit(w, argv, i, inputSeen).value)
    ensures ReadUnit(w, argv, i, inputSeen).value.0.Input? ==> !inputSeen
  {
    UnitIsSpelled(w, argv, i, inputSeen);
    HungryIsLast(w, argv, i, inputSeen);
  }

  function Flatten(cuts: seq<seq<Os>>): seq<Os> {
    if cuts == [] then [] else cuts[0] + Flatten(cuts[1..])
  }

  /** Piece by piece, and only the last unit may be a flag that lacks its value. */
  ghost predicate SpellsAll(w: World, us: seq<Unit>, cuts: seq<seq<Os>>) {
    |us| == |cuts| && forall k :: 0 <= k < |us| ==> Spells(w, us[k], cuts[k]) && (Hungry(us[k]) ==> k == |us| - 1)
  }

  lemma {:induction false} OneMorePiece(
    w: World, argv: seq<Os>, i: nat, un: (Unit, nat), us: seq<Unit>, rest: seq<seq<Os>>)
    requires i < |argv| && Reads(w, argv, i, un)
    requires Flatten(rest) == argv[un.1..] && SpellsAll(w, us, rest) && (us == [] <==> un.1 == |argv|)
    ensures Flatten([argv[i..un.1]] + rest) == argv[i..] && SpellsAll(w, [un.0] + us, [argv[i..un.1]] + rest)
  {
    var cuts := [argv[i..un.1]] + rest;
    assert cuts[1..] == rest;
    assert argv[i..] == argv[i..un.1] + argv[un.1..];
  }

  lemma {:induction false} ReadingStep(w: World, argv: seq<Os>, i: nat, inputSeen: bool)
    returns (un: (Unit, nat), seen: bool)
    requires i < |argv| && Reading(w, argv, i, inputSeen).Ok?
    ensures ReadUnit(w, argv, i, inputSeen) == Ok(un) && i < un.1 <= |argv| && seen == (inputSeen || un.0.Input?)
    ensures Reading(w, argv, un.1, seen).Ok?
    ensures Reading(w, argv, i, inputSeen).value == [un.0] + Reading(w, argv, un.1, seen).value
    ensures Reading(w, argv, un.1, seen).value == [] <==> un.1 == |argv|
  {
    un := ReadUnit(w, argv, i, inputSeen).value;
    seen := inputSeen || un.0.Input?;
  }

  /** The command line falls into consecutive pieces, one a unit, each a spelling of its unit, and
      only the last of them can be a flag without the value it takes. */
  lemma {:induction false} UnitsPartitionArgv(w: World, argv: seq<Os>, i: nat, inputSeen: bool)
    returns (cuts: seq<seq<Os>>)
    requires i <= |argv| && Reading(w, argv, i, inputSeen).Ok?
    ensures Flatten(cuts) == argv[i..]
    ensures SpellsAll(w, Reading(w, argv, i, inputSeen).value, cuts)
    decreases |argv| - i
  {
    if i == |argv| {
      cuts := [];
    } else {
      var un, seen := ReadingStep(w, argv, i, inputSeen);
      UnitSpells(w, argv, i, inputSeen);
      var rest := UnitsPartitionArgv(w, argv, un.1, seen);
      OneMorePiece(w, argv, i, un, Reading(w, argv, un.1, seen).value, rest);
      cuts := [argv[i..un.1]] + rest;
    }
  }

  // ---------------------------------------------------------------------
  // The input file
  // ---------------------------------------------------------------------

  lemma {:induction false} NoInputOnceSeen(w: World, argv: seq<Os>, i: nat)
    requires i <= |argv| && Reading(w, argv, i, true).Ok?
    ensures forall u :: u in Reading(w, argv, i, true).value ==> !u.Input?
    decreases |argv| - i
  {
    if i < |argv| {
      UnitSpells(w, argv, i, true);
      NoInputOnceSeen(w, argv, ReadUnit(w, argv, i, true).value.1);
    }
  }

  /** At most one argument is the input file, and it is one that the translation reports. */
  lemma {:induction false} OneInput(w: World, argv: seq<Os>, i: nat)
    requires i <= |argv| && Reading(w, argv, i, false).Ok?
    ensures HoldsOneInput(Reading(w, argv, i, false).value)
    decreases |argv| - i
  {
    if i < |argv| {
      var un, seen := ReadingStep(w, argv, i, false);
      var rest := Reading(w, argv, un.1, seen).value;
      if un.0.Input? {
        NoInputOnceSeen(w, argv, un.1);
      } else {
        OneInput(w, argv, un.1);
      }
      InputFirst(un.0, rest);
    }
  }

  /** The units hold at most one input, and it is the one reported. */
  ghost predicate HoldsOneInput(us: seq<Unit>) {
    match InputOf(us)
    case None => forall k :: 0 <= k < |us| ==> !us[k].Input?
    case Some(x) => exists k :: 0 <= k < |us| && us[k] == Input(x) &&
                                forall j :: 0 <= j < |us| && j != k ==> !us[j].Input?
  }

  lemma {:induction false} InputFirst(u: Unit, rest: seq<Unit>)
    requires HoldsOneInput(rest) || (u.Input? && forall v :: v in rest ==> !v.Input?)
    requires u.Input? ==> forall v :: v in rest ==> !v.Input?
    ensures HoldsOneInput([u] + rest)
  {
    var us := [u] + rest;
    InputOfCons(u, rest);
    if u.Input? {
      NoInputOf(rest);
      assert us[0] == u;
    } else if InputOf(rest).Some? {
      var k :| 0 <= k < |rest| && rest[k] == Input(InputOf(rest).value) &&
               forall j :: 0 <= j < |rest| && j != k ==> !rest[j].Input?;
      assert us[k+1] == rest[k];
    }
  }

  lemma {:induction false} NoInputOf(us: seq<Unit>)
    requires forall u :: u in us ==> !u.Input?
    ensures InputOf(us).None?
  {
    if us != [] { NoInputOf(us[..|us|-1]); }
  }

  lemma {:induction false} InputOfCons(u: Unit, us: seq<Unit>)
    ensures InputOf([u] + us) ==
            if InputOf(us).Some? then InputOf(us) else if u.Input? then Some(u.raw) else None
  {
    var vs := [u] + us;
    if us == [] {
      assert vs[..|vs|-1] == [] && vs[|vs|-1] == u;
    } else {
      assert vs[..|vs|-1] == [u] + us[..|us|-1] && vs[|vs|-1] == us[|us|-1];
      InputOfCons(u, us[..|us|-1]);
    }
  }

  // ---------------------------------------------------------------------
  // The deferred suffix
  // ---------------------------------------------------------------------

  /** `v` is the value of the last unit satisfying `p`. */
  ghost predicate LastOf(p: Unit -> bool, us: seq<Unit>, k: nat) {
    k < |us| && p(us[k]) && forall j :: k < j < |us| ==> !p(us[j])
  }

  predicate IsUnwind(u: Unit) { u.Unwind? }
  predicate IsTimeout(u: Unit) { u.Timeout? }

  /** The last `--unwind` on the command line is the one that counts. */
  lemma {:induction false} LastUnwindWins(us: seq<Unit>, k: nat)
    requires LastOf(IsUnwind, us, k)
    ensures LastUnwind(us) == Some(us[k].value)
  {
    if k + 1 < |us| { LastUnwindWins(us[..|us|-1], k); }
  }

  lemma {:induction false} LastTimeoutWins(us: seq<Unit>, k: nat)
    requires LastOf(IsTimeout, us, k)
    ensures LastTimeout(us) == Some(us[k].value)
  {
    if k + 1 < |us| { LastTimeoutWins(us[..|us|-1], k); }
  }

  lemma {:induction false} AnyMeansSome(p: Unit -> bool, us: seq<Unit>)
    ensures Any(p, us) <==> exists k :: 0 <= k < |us| && p(us[k])
  {
    if us != [] {
      AnyMeansSome(p, us[..|us|-1]);
      if Any(p, us[..|us|-1]) {
        var k :| 0 <= k < |us| - 1 && p(us[..|us|-1][k]);
        assert p(us[k]);
      }
    }
  }

  lemma {:induction false} AnyAppend(p: Unit -> bool, us: seq<Unit>, vs: seq<Unit>)
    ensures Any(p, us + vs) == (Any(p, us) || Any(p, vs))
  {
    if vs == [] {
      assert us + vs == us;
    } else {
      assert (us + vs)[..|us + vs|-1] == us + vs[..|vs|-1];
      AnyAppend(p, us, vs[..|vs|-1]);
    }
  }

  lemma {:induction false} RenderAllAppend(render: Unit -> seq<Os>, us: seq<Unit>, vs: seq<Unit>)
    ensures RenderAll(render, us + vs) == RenderAll(render, us) + RenderAll(render, vs)
  {
    if vs == [] {
      assert us + vs == us;
    } else {
      var vs', v := vs[..|vs|-1], vs[|vs|-1];
      assert (us + vs)[..|us + vs|-1] == us + vs' && (us + vs)[|us + vs|-1] == v;
      RenderAllAppend(render, us, vs');
    }
  }

  lemma {:induction false} LastsAppend(us: seq<Unit>, vs: seq<Unit>)
    ensures LastUnwind(us + vs) == if LastUnwind(vs).Some? then LastUnwind(vs) else LastUnwind(us)
    ensures LastTimeout(us + vs) == if LastTimeout(vs).Some? then LastTimeout(vs) else LastTimeout(us)
    ensures InputOf(us + vs) == if InputOf(vs).Some? then InputOf(vs) else InputOf(us)
  {
    if vs == [] {
      assert us + vs == us;
    } else {
      var vs', v := vs[..|vs|-1], vs[|vs|-1];
      assert (us + vs)[..|us + vs|-1] == us + vs' && (us + vs)[|us + vs|-1] == v;
      LastsAppend(us, vs');
    }
  }

  lemma {:induction false} RenderAppend(us: seq<Unit>, vs: seq<Unit>)
    ensures RenderUnits(us + vs) == RenderUnits(us) + RenderUnits(vs)
    ensures LastUnwind(us + vs) == if LastUnwind(vs).Some? then LastUnwind(vs) else LastUnwind(us)
    ensures LastTimeout(us + vs) == if LastTimeout(vs).Some? then LastTimeout(vs) else LastTimeout(us)
    ensures InputOf(us + vs) == if InputOf(vs).Some? then InputOf(vs) else InputOf(us)
  {
    RenderAllAppend(RenderUnit, us, vs);
    LastsAppend(us, vs);
  }

  lemma {:induction false} AnyAppendAll(us: seq<Unit>, vs: seq<Unit>)
    ensures Any(IsHarness, us + vs) == (Any(IsHarness, us) || Any(IsHarness, vs))
    ensures Any(IsList, us + vs) == (Any(IsList, us) || Any(IsList, vs))
    ensures Any(IsLoud, us + vs) == (Any(IsLoud, us) || Any(IsLoud, vs))
    ensures Any(IsJobs, us + vs) == (Any(IsJobs, us) || Any(IsJobs, vs))
    ensures Any(IsFormat, us + vs) == (Any(IsFormat, us) || Any(IsFormat, vs))
    ensures Any(OpensGate, us + vs) == (Any(OpensGate, us) || Any(OpensGate, vs))
  {
    AnyAppend(IsHarness, us, vs);
    AnyAppend(IsList, us, vs);
    AnyAppend(IsLoud, us, vs);
    AnyAppend(IsJobs, us, vs);
    AnyAppend(IsFormat, us, vs);
    AnyAppend(OpensGate, us, vs);
  }

  /** Units that leave no trace where they stand, only in the suffix. */
  predicate Deferred(u: Unit) { u.ListMode? || u.Unwind? || u.Timeout? }

  lemma {:induction false} DeferredRenders(us: seq<Unit>, d: Unit, vs: seq<Unit>)
    requires Deferred(d)
    ensures RenderUnits(us + [d] + vs) == RenderUnits(us + vs + [d])
  {
    RenderAppend(us + [d], vs);
    RenderAppend(us, vs);
    assert (us + [d])[..|us|] == us;
    var all := us + vs + [d];
    assert all[..|all|-1] == us + vs && all[|all|-1] == d;
    assert RenderUnits(us + [d]) == RenderUnits(us);
  }

  lemma {:induction false} DeferredRemembers(us: seq<Unit>, d: Unit, vs: seq<Unit>)
    requires Deferred(d)
    requires d.Unwind? ==> LastUnwind(vs).None?
    requires d.Timeout? ==> LastTimeout(vs).None?
    ensures Remember(us + [d] + vs) == Remember(us + vs + [d])
  {
    RenderAppend(us + [d], vs);
    RenderAppend(us, vs);
    NoticeOne(Remember(us), us, d);
    NoticeOne(Remember(us + vs), us + vs, d);
    NoticeFields(Remember(us), d);
    NoticeFields(Remember(us + vs), d);
    AnyAppendAll(us + [d], vs);
    AnyAppendAll(us, vs);
  }

  /** A deferred flag may be written anywhere, so long as no later one overrides it. */
  lemma {:induction false} DeferredAnywhere(us: seq<Unit>, d: Unit, vs: seq<Unit>)
    requires Deferred(d)
    requires d.Unwind? ==> LastUnwind(vs).None?
    requires d.Timeout? ==> LastTimeout(vs).None?
    ensures Render(us + [d] + vs) == Render(us + vs + [d])
  {
    DeferredRenders(us, d, vs);
    DeferredRemembers(us, d, vs);
  }

  /** `out` opens the engine's unstable options somewhere. */
  ghost predicate GateOpen(out: seq<Os>) {
    exists i :: 0 <= i < |out| &&
      (out[i] == Text("-Zunstable-options") ||
       (i + 1 < |out| && out[i] == Text("-Z") && out[i+1] == Text("unstable-options")))
  }

  lemma {:induction false} GateSurvives(a: seq<Os>, b: seq<Os>, c: seq<Os>)
    requires GateOpen(b)
    ensures GateOpen(a + b + c)
  {
    var i :| 0 <= i < |b| &&
      (b[i] == Text("-Zunstable-options") ||
       (i + 1 < |b| && b[i] == Text("-Z") && b[i+1] == Text("unstable-options")));
    var out := a + b + c;
    assert out[|a| + i] == b[i];
    if i + 1 < |b| { assert out[|a| + i + 1] == b[i+1]; }
  }

  lemma {:induction false} GateUnit(u: Unit)
    requires OpensGate(u)
    ensures GateOpen(RenderUnit(u))
  {
    var b := RenderUnit(u);
    assert b[0] == Text("-Zunstable-options") || (b[0] == Text("-Z") && b[1] == Text("unstable-options"));
  }

  lemma {:induction false} RenderSplit(render: Unit -> seq<Os>, us: seq<Unit>, k: nat)
    requires k < |us|
    ensures RenderAll(render, us) == RenderAll(render, us[..k]) + render(us[k]) + RenderAll(render, us[k+1..])
  {
    var upTo := us[..k+1];
    assert us == upTo + us[k+1..] && upTo[..k] == us[..k] && upTo[k] == us[k];
    RenderAllAppend(render, upTo, us[k+1..]);
  }

  lemma {:induction false} GateRendered(us: seq<Unit>)
    requires Any(OpensGate, us)
    ensures GateOpen(RenderUnits(us))
  {
    AnyMeansSome(OpensGate, us);
    var k :| 0 <= k < |us| && OpensGate(us[k]);
    RenderSplit(RenderUnit, us, k);
    GateUnit(us[k]);
    GateSurvives(RenderUnits(us[..k]), RenderUnit(us[k]), RenderUnits(us[k+1..]));
  }

  lemma {:induction false} Peel(body: seq<Os>, tail: seq<Os>)
    ensures (body + tail)[..|body|] == body && (body + tail)[|body|..] == tail
  {
  }

  /** The command line before the time limit. */
  ghost function BeforeTimeout(us: seq<Unit>): seq<Os> {
    var m := Remember(us);
    RenderUnits(us) + (TerseSuffix(m) + ListSuffix(m) + UnwindSuffix(m)) +
    (if m.gate then [] else [Text("-Z"), Text("unstable-options")])
  }

  lemma {:induction false} GateBefore(us: seq<Unit>)
    ensures GateOpen(BeforeTimeout(us))
  {
    var m := Remember(us);
    var mid := TerseSuffix(m) + ListSuffix(m) + UnwindSuffix(m);
    var body := RenderUnits(us);
    if m.gate {
      GateRendered(us);
      GateSurvives([], body, mid);
      assert [] + body + mid + [] == [] + body + mid == body + mid + [];
    } else {
      var gate := [Text("-Z"), Text("unstable-options")];
      assert GateOpen(gate) by { assert gate[0] == Text("-Z") && gate[1] == Text("unstable-options"); }
      GateSurvives(body + mid, gate, []);
      assert body + mid + gate + [] == body + mid + gate;
    }
  }

  lemma {:induction false} OutSplits(us: seq<Unit>)
    requires LastTimeout(us).Some?
    ensures Render(us).out == BeforeTimeout(us) + [Text("--harness-timeout"), LastTimeout(us).value]
  {
    var m := Remember(us);
    var mid := TerseSuffix(m) + ListSuffix(m) + UnwindSuffix(m);
    var gate := if m.gate then [] else [Text("-Z"), Text("unstable-options")];
    var tail := [Text("--harness-timeout"), m.timeout.value];
    Regroup(RenderUnits(us), mid, gate, tail, []);
    assert mid + gate + tail + [] == mid + (gate + tail);
  }

  /** A translated time limit ends the engine's command line, and its gate is open before it. */
  lemma {:induction false} TimeoutIsGated(us: seq<Unit>)
    requires LastTimeout(us).Some?
    ensures var out := Render(us).out;
            |out| >= 2 && out[|out|-2..] == [Text("--harness-timeout"), LastTimeout(us).value] &&
            GateOpen(out[..|out|-2])
  {
    OutSplits(us);
    GateBefore(us);
    Peel(BeforeTimeout(us), [Text("--harness-timeout"), LastTimeout(us).value]);
  }

  /** The engine sees the per-harness `--unwind` exactly when some `--harness` was given, wherever. */
  lemma {:induction false} UnwindSpelling(us: seq<Unit>)
    requires LastUnwind(us).Some?
    ensures UnwindSuffix(Remember(us)) == [Text("--unwind"), LastUnwind(us).value] <==>
            exists k :: 0 <= k < |us| && us[k].Harness?
    ensures UnwindSuffix(Remember(us)) == [Text("--default-unwind"), LastUnwind(us).value] <==>
            forall k :: 0 <= k < |us| ==> !us[k].Harness?
  {
    AnyMeansSome(IsHarness, us);
    assert forall u: Unit :: IsHarness(u) == u.Harness?;
    assert "--unwind" != "--default-unwind" by { assert |"--unwind"| != |"--default-unwind"|; }
    var s := UnwindSuffix(Remember(us));
    assert s[0] == Text(if Any(IsHarness, us) then "--unwind" else "--default-unwind");
  }

  // ---------------------------------------------------------------------
  // The two entry points
  // ---------------------------------------------------------------------

  datatype Plan = Plan(args: seq<Os>, needsSolver: bool, verbose: bool)

  /** `translate`: one file, which must exist, goes first. */
  method Translate(w: World, argv: seq<Os>) returns (r: Result<Plan, Reject>)
    ensures r == TranslateFileSpec(w, argv)
  {
    var f := TranslateFlags(w, argv);
    if f.Err? { return Err(f.error); }
    if f.value.input.None? { return Err(NoInput); }
    if !w.isFile(f.value.input.value) { return Err(NoSuchFile(f.value.input.value)); }
    return Ok(Plan([f.value.input.value] + f.value.out, f.value.needsSolver, f.value.verbose));
  }

  function TranslateFileSpec(w: World, argv: seq<Os>): Result<Plan, Reject> {
    match TranslateSpec(w, argv)
    case Err(e) => Err(e)
    case Ok(f) =>
      if f.input.None? then Err(NoInput)
      else if !w.isFile(f.input.value) then Err(NoSuchFile(f.input.value))
      else Ok(Plan([f.input.value] + f.out, f.needsSolver, f.verbose))
  }

  /** `translate_cargo`: a package, so no file at all. */
  method TranslateCargo(w: World, argv: seq<Os>) returns (r: Result<Plan, Reject>)
    ensures r == TranslateCargoSpec(w, argv)
  {
    var f := TranslateFlags(w, argv);
    if f.Err? { return Err(f.error); }
    if f.value.input.Some? { return Err(FileForCargo(f.value.input.value)); }
    return Ok(Plan(f.value.out, f.value.needsSolver, f.value.verbose));
  }

  function TranslateCargoSpec(w: World, argv: seq<Os>): Result<Plan, Reject> {
    match TranslateSpec(w, argv)
    case Err(e) => Err(e)
    case Ok(f) =>
      if f.input.Some? then Err(FileForCargo(f.input.value))
      else Ok(Plan(f.out, f.needsSolver, f.verbose))
  }

  /** A reading by any reader of single units. */
  function ReadingBy(read: (nat, bool) -> Result<(Unit, nat), Reject>, len: nat, i: nat, seen: bool):
    Result<seq<Unit>, Reject>
    requires i <= len
    decreases len - i
  {
    if i == len then Ok([])
    else
      match read(i, seen)
      case Err(e) => Err(e)
      case Ok(un) =>
        if !(i < un.1 <= len) then Err(NoInput)
        else
          match ReadingBy(read, len, un.1, seen || un.0.Input?)
          case Err(e) => Err(e)
          case Ok(rest) => Ok([un.0] + rest)
  }

  function UnitReader(w: World, argv: seq<Os>): (nat, bool) -> Result<(Unit, nat), Reject> {
    (i: nat, seen: bool) => if i < |argv| then ReadUnit(w, argv, i, seen) else Err(NoInput)
  }

  ghost predicate ReadsUnits(read: (nat, bool) -> Result<(Unit, nat), Reject>, w: World, argv: seq<Os>) {
    forall i: nat, seen :: i < |argv| ==> read(i, seen) == ReadUnit(w, argv, i, seen)
  }

  lemma {:induction false} UnitReaderReads(w: World, argv: seq<Os>)
    ensures ReadsUnits(UnitReader(w, argv), w, argv)
  {
  }

  lemma {:induction false} ReadingByUnits(
    read: (nat, bool) -> Result<(Unit, nat), Reject>, w: World, argv: seq<Os>, i: nat, seen: bool)
    requires i <= |argv| && ReadsUnits(read, w, argv)
    ensures ReadingBy(read, |argv|, i, seen) == Reading(w, argv, i, seen)
    decreases |argv| - i
  {
    if i < |argv| && read(i, seen).Ok? {
      var un := read(i, seen).value;
      ReadingByUnits(read, w, argv, un.1, seen || un.0.Input?);
    }
  }

  /** Two readers that read alike but for the index, read the same units. */
  lemma {:induction false} ShiftedReading(
    a: (nat, bool) -> Result<(Unit, nat), Reject>, b: (nat, bool) -> Result<(Unit, nat), Reject>, len: nat, i: nat,
    us: seq<Unit>)
    requires i <= len && ReadingBy(a, len, i, false) == Ok(us) && forall k :: 0 <= k < |us| ==> !us[k].Input?
    requires forall k: nat :: k < len ==> Shifts(a, b, k)
    ensures ReadingBy(b, len + 1, i + 1, true) == Ok(us)
    decreases len - i
  {
    if i < len {
      assert Shifts(a, b, i);
      var un := a(i, false).value;
      assert us[0] == un.0 && !un.0.Input?;
      var rest := ReadingBy(a, len, un.1, false).value;
      assert us == [un.0] + rest;
      assert forall k :: 0 <= k < |rest| ==> rest[k] == us[k+1];
      ShiftedReading(a, b, len, un.1, rest);
    }
  }

  predicate Shifts(
    a: (nat, bool) -> Result<(Unit, nat), Reject>, b: (nat, bool) -> Result<(Unit, nat), Reject>, k: nat) {
    a(k, false).Ok? && !a(k, false).value.0.Input? ==>
      b(k + 1, true) == Ok((a(k, false).value.0, a(k, false).value.1 + 1))
  }

  /** A command line without an input file reads the same after one. */
  lemma {:induction false} SameReadingAfterInput(w: World, argv: seq<Os>, full: seq<Os>, us: seq<Unit>)
    requires |full| == |argv| + 1 && full[1..] == argv
    requires Reading(w, argv, 0, false) == Ok(us)
    requires forall k :: 0 <= k < |us| ==> !us[k].Input?
    ensures Reading(w, full, 1, true) == Ok(us)
  {
    UnitReaderReads(w, argv);
    UnitReaderReads(w, full);
    SameReadingBy(UnitReader(w, argv), UnitReader(w, full), w, argv, full, us);
  }

  lemma {:induction false} SameReadingBy(
    a: (nat, bool) -> Result<(Unit, nat), Reject>, b: (nat, bool) -> Result<(Unit, nat), Reject>,
    w: World, argv: seq<Os>, full: seq<Os>, us: seq<Unit>)
    requires |full| == |argv| + 1 && full[1..] == argv
    requires ReadsUnits(a, w, argv) && ReadsUnits(b, w, full)
    requires Reading(w, argv, 0, false) == Ok(us)
    requires forall k :: 0 <= k < |us| ==> !us[k].Input?
    ensures Reading(w, full, 1, true) == Ok(us)
  {
    ReadingByUnits(a, w, argv, 0, false);
    ReadingByUnits(b, w, full, 1, true);
    forall k: nat | k < |argv| ensures Shifts(a, b, k) { UnitShifts(a, b, w, argv, full, k); }
    ShiftedReading(a, b, |argv|, 0, us);
  }

  lemma {:induction false} UnitShifts(
    a: (nat, bool) -> Result<(Unit, nat), Reject>, b: (nat, bool) -> Result<(Unit, nat), Reject>,
    w: World, argv: seq<Os>, full: seq<Os>, k: nat)
    requires |full| == |argv| + 1 && full[1..] == argv && k < |argv|
    requires ReadsUnits(a, w, argv) && ReadsUnits(b, w, full)
    ensures Shifts(a, b, k)
  {
    SameUnitAfterInput(w, argv, full, k);
    ShiftsWhen(a, b, k, ReadUnit(w, argv, k, false), ReadUnit(w, full, k + 1, true));
  }

  /** The second reading is the first, one further on, unless the first refuses or reads an input. */
  predicate IsShifted(first: Result<(Unit, nat), Reject>, second: Result<(Unit, nat), Reject>) {
    first.Ok? && !first.value.0.Input? ==> second == Ok((first.value.0, first.value.1 + 1))
  }

  lemma {:induction false} ShiftsWhen(
    a: (nat, bool) -> Result<(Unit, nat), Reject>, b: (nat, bool) -> Result<(Unit, nat), Reject>, k: nat,
    first: Result<(Unit, nat), Reject>, second: Result<(Unit, nat), Reject>)
    requires a(k, false) == first && b(k + 1, true) == second && IsShifted(first, second)
    ensures Shifts(a, b, k)
  {
  }

  lemma {:induction false} SameOtherUnit(
    w: World, text: string, takesNext: bool, argv: seq<Os>, full: seq<Os>, next: nat)
    requires next <= |argv| && |full| == |argv| + 1 && (next < |argv| ==> full[next+1] == argv[next])
    ensures IsShifted(OtherUnit(w, text, takesNext, argv, next, false),
                      OtherUnit(w, text, takesNext, full, next + 1, true))
  {
  }

  lemma {:induction false} SamePlainArm(
    name: string, raw: Os, attached: Option<Os>, argv: seq<Os>, full: seq<Os>, next: nat)
    requires next <= |argv| && |full| == |argv| + 1 && (next < |argv| ==> full[next+1] == argv[next])
    ensures match PlainArm(name, raw, attached, argv, next)
            case None => PlainArm(name, raw, attached, full, next + 1).None?
            case Some(un) => PlainArm(name, raw, attached, full, next + 1) == Some((un.0, un.1 + 1))
  {
  }

  lemma {:induction false} SameValueArm(
    name: string, attached: Option<Os>, argv: seq<Os>, full: seq<Os>, next: nat)
    requires next <= |argv| && |full| == |argv| + 1 && (next < |argv| ==> full[next+1] == argv[next])
    ensures IsShifted(ValueArm(name, attached, argv, next), ValueArm(name, attached, full, next + 1))
  {
  }

  lemma {:induction false} SameNamed(w: World, text: string, argv: seq<Os>, full: seq<Os>, next: nat)
    requires next <= |argv| && |full| == |argv| + 1 && (next < |argv| ==> full[next+1] == argv[next])
    ensures IsShifted(ReadNamed(w, text, argv, next, false), ReadNamed(w, text, full, next + 1, true))
  {
    var name, attached := Name(text), Attached(text);
    if name in VALUE_ARMS {
      SameValueArm(name, attached, argv, full, next);
    } else {
      SamePlainArm(name, Text(text), attached, argv, full, next);
      SameOtherUnit(w, text, attached.None? && TakesAValue(text), argv, full, next);
    }
  }

  lemma {:induction false} SameStop(w: World, argv: seq<Os>, full: seq<Os>, i: nat)
    requires i < |argv| && |full| == |argv| + 1 && full[1..] == argv && argv[i] == Text("--")
    ensures IsShifted(ReadUnit(w, argv, i, false), ReadUnit(w, full, i + 1, true))
  {
    assert full[i+1] == full[1..][i] && full[i+2..] == full[1..][i+1..];
  }

  lemma {:induction false} SameBytes(w: World, argv: seq<Os>, full: seq<Os>, i: nat)
    requires i < |argv| && |full| == |argv| + 1 && full[i+1] == argv[i] && argv[i].Bytes?
    ensures IsShifted(ReadUnit(w, argv, i, false), ReadUnit(w, full, i + 1, true))
  {
  }

  lemma {:induction false} SameText(w: World, argv: seq<Os>, full: seq<Os>, i: nat, text: string)
    requires i < |argv| && |full| == |argv| + 1 && argv[i] == Text(text) && full[i+1] == Text(text) && text != "--"
    requires i + 1 < |argv| ==> full[i+2] == argv[i+1]
    ensures IsShifted(ReadUnit(w, argv, i, false), ReadUnit(w, full, i + 1, true))
  {
    SameNamed(w, text, argv, full, i + 1);
  }

  lemma {:induction false} SameUnitAfterInput(w: World, argv: seq<Os>, full: seq<Os>, i: nat)
    requires i < |argv| && |full| == |argv| + 1 && full[1..] == argv
    ensures IsShifted(ReadUnit(w, argv, i, false), ReadUnit(w, full, i + 1, true))
  {
    assert full[i+1] == full[1..][i];
    if argv[i].Bytes? {
      SameBytes(w, argv, full, i);
    } else if argv[i].s == "--" {
      SameStop(w, argv, full, i);
    } else {
      if i + 1 < |argv| { assert full[i+2] == full[1..][i+1]; }
      SameText(w, argv, full, i, argv[i].s);
    }
  }

  lemma {:induction false} AfterInput(file: Os, us: seq<Unit>)
    requires InputOf(us).None?
    ensures Render([Input(file)] + us) == Render(us).(input := Some(file))
  {
    RenderAppend([Input(file)], us);
    AnyAppendAll([Input(file)], us);
    assert [Input(file)][..0] == [];
    assert RenderAll(RenderUnit, [Input(file)]) == RenderAll(RenderUnit, []) + RenderUnit(Input(file));
    assert [] + RenderUnits(us) == RenderUnits(us);
    assert Remember([Input(file)] + us) == Remember(us).(input := Some(file));
  }

  /** Every flag `cargo trust-mc` accepts, `trust-mc file.rs` accepts with the same translation. */
  lemma {:induction false} EntryPointsAgree(w: World, file: Os, argv: seq<Os>)
    requires TranslateCargoSpec(w, argv).Ok?
    requires w.rs(file) && w.isFile(file) && (file.Text? ==> !IsFlag(file.s))
    ensures var cargo := TranslateCargoSpec(w, argv).value;
            TranslateFileSpec(w, [file] + argv) ==
            Ok(Plan([file] + cargo.args, cargo.needsSolver, cargo.verbose))
  {
    var us := Reading(w, argv, 0, false).value;
    OneInput(w, argv, 0);
    var full := [file] + argv;
    assert full[1..] == argv;
    SameReadingAfterInput(w, argv, full, us);
    FirstIsInput(w, full);
    assert Reading(w, full, 0, false) == Ok([Input(file)] + us);
    AfterInput(file, us);
  }

  lemma {:induction false} FirstIsInput(w: World, argv: seq<Os>)
    requires argv != [] && w.rs(argv[0]) && (argv[0].Text? ==> !IsFlag(argv[0].s))
    ensures ReadUnit(w, argv, 0, false) == Ok((Input(argv[0]), 1))
  {
    if argv[0].Text? {
      var text := argv[0].s;
      assert Name(text) == text;
      assert forall n :: n in UNSUPPORTED || n in VALUE_ARMS ==> IsFlag(n);
    }
  }
}
