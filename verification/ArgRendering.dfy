/** What the argument translation hands to the engine, told from the arguments themselves. */
module ArgRendering {
  import opened Wrappers
  import opened Args
  import opened ArgsProperties

  // ---------------------------------------------------------------------
  // One unit
  // ---------------------------------------------------------------------

  /** A flag with its value in an argument of its own. */
  function Separated(toks: seq<Os>): seq<Os> {
    if |toks| == 1 && toks[0].Text? && Attached(toks[0].s).Some?
    then [Text(Name(toks[0].s)), Attached(toks[0].s).value]
    else toks
  }

  /** What the arguments of a unit become: the engine's own flags and what it does not know stay, other
      spellings are replaced, and what waits for the end of the line or names the input is left out. */
  ghost predicate Becomes(u: Unit, toks: seq<Os>, out: seq<Os>)
    requires toks != []
  {
    match u
    case Harness(_) => out == Separated(toks)
    case Format(_) => out == Separated(toks)
    case Debug(_) => out == toks
    case FusedUnstable(_) => out == toks
    case Pass(_, _) => out == toks
    case Unstable(_) => out == [Text("-Z")] + Separated(toks)[1..]
    case Jobs(_) => out == [Text("--jobs")] + Separated(toks)[1..]
    case Verbose => out == [Text("--verbose")]
    case Quiet => out == [Text("--quiet")]
    case Solver(_) =>
      |Separated(toks)| == 2 && Separated(toks)[1].Text? &&
      out == [Text("--smt-solver"), Text(Lower(Separated(toks)[1].s))]
    case Rest(_) => out == toks[1..]
    case ListMode => out == []
    case Unwind(_) => out == []
    case Timeout(_) => out == []
    case Input(_) => out == []
  }

  lemma {:induction false} FirstEq(name: string, rest: string)
    requires '=' !in name
    ensures EqAt(name + "=" + rest) == |name|
  {
    var t := name + "=" + rest;
    if name != [] {
      FirstEq(name[1..], rest);
      assert t[0] == name[0] && t[1..] == name[1..] + "=" + rest;
    }
  }

  lemma {:induction false} CarriedApart(name: string, v: Os, toks: seq<Os>)
    requires Carries(name, v, toks) && IsFlag(name) && '=' !in name
    ensures toks != [] && Separated(toks) == [Text(name), v]
  {
    if |toks| == 1 {
      var text := name + "=" + v.s;
      FirstEq(name, v.s);
      assert text[..|name|] == name && text[|name| + 1..] == v.s;
    }
  }

  lemma {:induction false} FlagNames(name: string)
    requires IsValueName(name) || name == "--jobs" || name == "-j"
    ensures IsFlag(name) && '=' !in name
  {
  }

  lemma {:induction false} BareJobsStay(name: string)
    requires name == "--jobs" || name == "-j"
    ensures Separated([Text(name)]) == [Text(name)]
  {
    FlagNames(name);
    NoEqNoValue(name);
  }

  lemma {:induction false} NoEqNoValue(text: string)
    requires '=' !in text
    ensures Attached(text).None? && Name(text) == text
  {
  }

  lemma {:induction false} ValueUnitBecomes(w: World, u: Unit, toks: seq<Os>)
    requires Spells(w, u, toks) && (u.Harness? || u.Format? || u.Unstable? || u.Solver?)
    ensures toks != [] && Becomes(u, toks, RenderUnit(u))
  {
    match u
    case Harness(v) =>
      FlagNames("--harness");
      CarriedApart("--harness", v, toks);
    case Format(v) =>
      FlagNames("--output-format");
      CarriedApart("--output-format", v, toks);
    case Unstable(v) =>
      var name := if Carries("-Z", v, toks) then "-Z" else "--unstable";
      FlagNames(name);
      CarriedApart(name, v, toks);
    case Solver(n) =>
      var v :| Carries("--solver", v, toks) && v.Text? && Lower(v.s) == n;
      FlagNames("--solver");
      CarriedApart("--solver", v, toks);
  }

  lemma {:induction false} JobsBecomes(w: World, u: Unit, toks: seq<Os>)
    requires Spells(w, u, toks) && u.Jobs?
    ensures toks != [] && Becomes(u, toks, RenderUnit(u))
  {
    if u.count.None? {
      var name := if toks == [Text("--jobs")] then "--jobs" else "-j";
      BareJobsStay(name);
    } else {
      var name := if Carries("--jobs", u.count.value, toks) then "--jobs" else "-j";
      FlagNames(name);
      CarriedApart(name, u.count.value, toks);
    }
  }

  /** Whatever spells a unit becomes what the translation renders of it. */
  lemma {:induction false} RenderMeaning(w: World, u: Unit, toks: seq<Os>)
    requires Spells(w, u, toks)
    ensures toks != [] && Becomes(u, toks, RenderUnit(u))
  {
    if u.Harness? || u.Format? || u.Unstable? || u.Solver? {
      ValueUnitBecomes(w, u, toks);
    } else if u.Jobs? {
      JobsBecomes(w, u, toks);
    }
  }

  // ---------------------------------------------------------------------
  // The whole line
  // ---------------------------------------------------------------------

  lemma {:induction false} RendersPiecewise(us: seq<Unit>, outs: seq<seq<Os>>)
    requires |us| == |outs| && forall k :: 0 <= k < |us| ==> RenderUnit(us[k]) == outs[k]
    ensures RenderUnits(us) == Flatten(outs)
  {
    if us != [] {
      RendersPiecewise(us[1..], outs[1..]);
      RendersFirst(us);
    }
  }

  lemma {:induction false} RendersFirst(us: seq<Unit>)
    requires us != []
    ensures RenderUnits(us) == RenderUnit(us[0]) + RenderUnits(us[1..])
  {
    RenderAllAppend(RenderUnit, [us[0]], us[1..]);
    RendersOne(RenderUnit, us[0]);
    assert us == [us[0]] + us[1..];
  }

  lemma {:induction false} RendersOne(render: Unit -> seq<Os>, u: Unit)
    ensures RenderAll(render, [u]) == render(u)
  {
    assert [u][..0] == [];
    assert [] + render(u) == render(u);
  }

  /** The result in words: what the units render to one after another, and then what waited for the end. */
  lemma {:induction false} ResultMeaning(us: seq<Unit>)
    ensures var r := Render(us);
            && (r.needsSolver <==> forall k :: 0 <= k < |us| ==> !us[k].ListMode?)
            && (r.verbose <==> exists k :: 0 <= k < |us| && (us[k].Verbose? || us[k].Debug?))
            && r.out ==
               RenderUnits(us) +
               ((if Has(IsJobs, us) && !Has(IsFormat, us) then [Text("--output-format"), Text("terse")] else []) +
                (if Has(IsList, us) then [Text("--harnesses")] else []) +
                BoundFlags(us) + LimitFlags(us))
  {
    AnyMeansSome(IsList, us);
    AnyMeansSome(IsLoud, us);
    AnyMeansSome(IsJobs, us);
    AnyMeansSome(IsFormat, us);
    AnyMeansSome(IsHarness, us);
    AnyMeansSome(OpensGate, us);
  }

  ghost predicate Has(p: Unit -> bool, us: seq<Unit>) { exists k :: 0 <= k < |us| && p(us[k]) }

  /** The loop bound, under the flag for one harness or that for the crate. */
  ghost function BoundFlags(us: seq<Unit>): seq<Os> {
    if LastUnwind(us).None? then []
    else [if Has(IsHarness, us) then Text("--unwind") else Text("--default-unwind"), LastUnwind(us).value]
  }

  /** The time limit, behind its gate unless some unit has opened that. */
  ghost function LimitFlags(us: seq<Unit>): seq<Os> {
    if LastTimeout(us).None? then []
    else (if Has(OpensGate, us) then [] else [Text("-Z"), Text("unstable-options")])
         + [Text("--harness-timeout"), LastTimeout(us).value]
  }

  /** An accepted line falls into pieces that spell its units, and what each of them becomes, in order
      and followed by what waited for the end, is what the engine gets. */
  lemma {:induction false} TranslationMeaning(w: World, argv: seq<Os>)
    returns (us: seq<Unit>, cuts: seq<seq<Os>>, outs: seq<seq<Os>>)
    requires Reading(w, argv, 0, false).Ok?
    ensures Flatten(cuts) == argv && SpellsAll(w, us, cuts) && TranslateSpec(w, argv) == Ok(Render(us))
    ensures |outs| == |us| && forall k :: 0 <= k < |us| ==> cuts[k] != [] && Becomes(us[k], cuts[k], outs[k])
    ensures RenderUnits(us) == Flatten(outs)
  {
    us := Reading(w, argv, 0, false).value;
    cuts := UnitsPartitionArgv(w, argv, 0, false);
    assert argv[0..] == argv;
    outs := seq(|us|, k requires 0 <= k < |us| => RenderUnit(us[k]));
    forall k | 0 <= k < |us| ensures cuts[k] != [] && Becomes(us[k], cuts[k], outs[k]) {
      RenderMeaning(w, us[k], cuts[k]);
    }
    RendersPiecewise(us, outs);
  }

  // ---------------------------------------------------------------------
  // Lines the engine would take as they are
  // ---------------------------------------------------------------------

  predicate IsEngineName(name: string) {
    name == "--harness" || name == "--output-format" || name == "-Z" || name == "--jobs" || name == "--verbose" ||
    name == "--debug" || name == "--quiet"
  }

  /** One of the engine's own flags, with a value in an argument of its own, or nothing the translation
      knows. */
  predicate IsEnginePiece(toks: seq<Os>) {
    toks != [] &&
    (IsForeign(toks[0]) ||
     (toks[0].Text? && (IsEngineName(toks[0].s) || ("-Z" < toks[0].s && Name(toks[0].s) != "-Z"))))
  }

  lemma {:induction false} CarriedFirst(name: string, v: Os, toks: seq<Os>)
    requires Carries(name, v, toks) && IsFlag(name) && '=' !in name && IsEnginePiece(toks)
    requires IsValueName(name) || IsPlainName(name)
    ensures IsEngineName(name) && toks == [Text(name), v]
  {
    CarriedApart(name, v, toks);
    NoEqNoValue(name);
    assert toks[0].Text? && Name(toks[0].s) == name;
    NamedIsEngine(toks[0].s, name);
  }

  /** A known name is spelled bare in an engine's piece. */
  lemma {:induction false} NamedIsEngine(text: string, name: string)
    requires Name(text) == name && (IsValueName(name) || IsPlainName(name))
    requires IsEngineName(text) || ("-Z" < text && Name(text) != "-Z")
    ensures text == name && IsEngineName(name)
  {
    NameStarts(text);
    if IsEngineName(text) {
      EngineNameIsBare(text);
    } else {
      KnownInFused(text, name);
    }
  }

  lemma {:induction false} NameStarts(text: string)
    ensures Name(text) <= text
  {
  }

  lemma {:induction false} EngineNameIsBare(text: string)
    requires IsEngineName(text)
    ensures Name(text) == text
  {
    EngineNamesHaveNoEq(text);
    NoEqNoValue(text);
  }

  lemma {:induction false} EngineNamesHaveNoEq(text: string)
    requires IsEngineName(text)
    ensures '=' !in text
  {
  }

  /** The one known name that a text fused to `-Z` starts with is `-Z`. */
  lemma {:induction false} KnownInFused(text: string, name: string)
    requires "-Z" < text && name <= text && (IsValueName(name) || IsPlainName(name))
    ensures name == "-Z"
  {
    KnownSecond(name);
    assert text[1] == "-Z"[1] && name[1] == text[1];
  }

  lemma {:induction false} KnownSecond(name: string)
    requires IsValueName(name) || IsPlainName(name)
    ensures |name| >= 2 && (name[1] == 'Z' ==> name == "-Z")
  {
  }

  lemma {:induction false} NamedStays(toks: seq<Os>, names: seq<string>)
    requires Named(toks, names) && IsPlainName(Name(toks[0].s)) && IsEnginePiece(toks)
    ensures IsEngineName(toks[0].s) && toks[0].s in names && toks == [toks[0]]
  {
    NamedIsEngine(toks[0].s, Name(toks[0].s));
  }

  lemma {:induction false} PairsArePlain(name: string)
    ensures name in ["--list", "--harnesses"] ==> IsPlainName(name)
    ensures name in ["--verbose", "-v"] ==> IsPlainName(name)
    ensures name in ["--quiet", "-q"] ==> IsPlainName(name)
  {
  }

  lemma {:induction false} CarriedStays(name: string, v: Os, toks: seq<Os>)
    requires Carries(name, v, toks) && IsEnginePiece(toks) && (IsValueName(name) || name == "--jobs" || name == "-j")
    ensures IsEngineName(name) && toks == [Text(name), v]
  {
    FlagNames(name);
    CarriedFirst(name, v, toks);
  }

  lemma {:induction false} ValueUnitStays(w: World, u: Unit, toks: seq<Os>)
    requires Spells(w, u, toks) && IsEnginePiece(toks)
    requires u.Harness? || u.Format? || u.Unstable? || (u.Jobs? && u.count.Some?)
    ensures RenderUnit(u) == toks
  {
    match u
    case Harness(v) => CarriedStays("--harness", v, toks);
    case Format(v) => CarriedStays("--output-format", v, toks);
    case Unstable(v) =>
      CarriedStays(if Carries("-Z", v, toks) then "-Z" else "--unstable", v, toks);
    case Jobs(c) =>
      CarriedStays(if Carries("--jobs", c.value, toks) then "--jobs" else "-j", c.value, toks);
  }

  lemma {:induction false} LongNames(name: string)
    requires IsEngineName(name)
    ensures name in ["--verbose", "-v"] ==> name == "--verbose"
    ensures name in ["--quiet", "-q"] ==> name == "--quiet"
  {
  }

  lemma {:induction false} VerboseStays(toks: seq<Os>)
    requires Named(toks, ["--verbose", "-v"]) && IsEnginePiece(toks)
    ensures toks == [Text("--verbose")]
  {
    PairsArePlain(Name(toks[0].s));
    NamedStays(toks, ["--verbose", "-v"]);
    LongNames(toks[0].s);
  }

  lemma {:induction false} QuietStays(toks: seq<Os>)
    requires Named(toks, ["--quiet", "-q"]) && IsEnginePiece(toks)
    ensures toks == [Text("--quiet")]
  {
    PairsArePlain(Name(toks[0].s));
    NamedStays(toks, ["--quiet", "-q"]);
    LongNames(toks[0].s);
  }

  lemma {:induction false} BareJobsPiece(toks: seq<Os>)
    requires (toks == [Text("--jobs")] || toks == [Text("-j")]) && IsEnginePiece(toks)
    ensures toks == [Text("--jobs")]
  {
    NamedIsEngine(toks[0].s, toks[0].s) by { BareJobsStay(toks[0].s); FlagNames(toks[0].s); NoEqNoValue(toks[0].s); }
  }

  lemma {:induction false} PlainUnitStays(w: World, u: Unit, toks: seq<Os>)
    requires Spells(w, u, toks) && IsEnginePiece(toks) && (u.Verbose? || u.Quiet? || u == Jobs(None))
    ensures RenderUnit(u) == toks
  {
    if u.Verbose? { VerboseStays(toks); } else if u.Quiet? { QuietStays(toks); } else { BareJobsPiece(toks); }
  }

  /** A piece that the engine would take is no unit the translation has a spelling of its own for. */
  lemma {:induction false} EnginePieceUnit(w: World, u: Unit, toks: seq<Os>)
    requires Spells(w, u, toks) && (u.ListMode? || u.Unwind? || u.Timeout? || u.Solver? || u.Rest?)
    ensures !IsEnginePiece(toks)
  {
    if u.ListMode? {
      ListPiece(toks);
    } else if u.Rest? {
      StopPiece(toks);
    } else {
      DeferredValue(w, u, toks);
    }
  }

  lemma {:induction false} ListPiece(toks: seq<Os>)
    requires Named(toks, ["--list", "--harnesses"])
    ensures !IsEnginePiece(toks)
  {
    if IsEnginePiece(toks) {
      PairsArePlain(Name(toks[0].s));
      NamedStays(toks, ["--list", "--harnesses"]);
      NotListNames(toks[0].s);
    }
  }

  lemma {:induction false} NotListNames(name: string)
    requires IsEngineName(name)
    ensures name !in ["--list", "--harnesses"]
  {
  }

  lemma {:induction false} StopPiece(toks: seq<Os>)
    requires toks != [] && toks[0] == Text("--")
    ensures !IsEnginePiece(toks)
  {
  }

  lemma {:induction false} DeferredValue(w: World, u: Unit, toks: seq<Os>)
    requires Spells(w, u, toks) && (u.Unwind? || u.Timeout? || u.Solver?)
    ensures !IsEnginePiece(toks)
  {
    if IsEnginePiece(toks) {
      match u
      case Unwind(v) => CarriedStays("--unwind", v, toks);
      case Timeout(v) => CarriedStays("--timeout", v, toks);
      case Solver(n) =>
        var v :| Carries("--solver", v, toks) && v.Text? && Lower(v.s) == n;
        CarriedStays("--solver", v, toks);
    }
  }

  lemma {:induction false} PieceStays(w: World, u: Unit, toks: seq<Os>)
    requires Spells(w, u, toks) && IsEnginePiece(toks) && !u.Input?
    ensures RenderUnit(u) == toks
  {
    if u.ListMode? || u.Unwind? || u.Timeout? || u.Solver? || u.Rest? {
      EnginePieceUnit(w, u, toks);
    } else if u.Harness? || u.Format? || u.Unstable? || (u.Jobs? && u.count.Some?) {
      ValueUnitStays(w, u, toks);
    } else if u.Verbose? || u.Quiet? || u.Jobs? {
      PlainUnitStays(w, u, toks);
    }
  }

  /** A line without an input that falls into pieces the engine would take comes out as it is, but for
      the output format that a jobs flag needs. */
  lemma {:induction false} EngineLineUnchanged(w: World, argv: seq<Os>, us: seq<Unit>, cuts: seq<seq<Os>>)
    requires Reading(w, argv, 0, false) == Ok(us) && SpellsAll(w, us, cuts) && Flatten(cuts) == argv
    requires forall k :: 0 <= k < |us| ==> IsEnginePiece(cuts[k]) && !us[k].Input?
    ensures TranslateSpec(w, argv).Ok?
    ensures var r := TranslateSpec(w, argv).value;
            && r.input == None && r.needsSolver
            && r.out == argv + if Has(IsJobs, us) && !Has(IsFormat, us)
                               then [Text("--output-format"), Text("terse")] else []
  {
    forall k | 0 <= k < |us|
      ensures RenderUnit(us[k]) == cuts[k] && !us[k].ListMode? && !us[k].Unwind? && !us[k].Timeout?
    {
      if us[k].ListMode? || us[k].Unwind? || us[k].Timeout? { EnginePieceUnit(w, us[k], cuts[k]); }
      PieceStays(w, us[k], cuts[k]);
    }
    RendersPiecewise(us, cuts);
    NothingDeferred(us);
    ResultMeaning(us);
    AnyMeansSome(IsList, us);
  }

  lemma {:induction false} NothingDeferred(us: seq<Unit>)
    requires forall k :: 0 <= k < |us| ==> !us[k].Unwind? && !us[k].Timeout? && !us[k].Input?
    ensures LastUnwind(us).None? && LastTimeout(us).None? && InputOf(us).None?
  {
    if us != [] { NothingDeferred(us[..|us|-1]); }
  }
}
