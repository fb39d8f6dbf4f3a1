/** Which command lines the argument translation refuses. */
module ArgRefusals {
  import opened Wrappers
  import opened Args
  import opened ArgsProperties

  // ---------------------------------------------------------------------
  // Values
  // ---------------------------------------------------------------------

  /** Some digits, not all zero, and at most one of the letters `s`, `m` and `h` after them. */
  ghost predicate IsLimit(text: string) {
    exists digits: string, unit: string ::
      IsAmount(text, digits, unit) && exists i :: 0 <= i < |digits| && digits[i] != '0'
  }

  predicate IsAmount(text: string, digits: string, unit: string) {
    text == digits + unit && digits != "" && Digits(digits)
    && |unit| <= 1 && (unit != "" ==> unit[0] in {'s', 'm', 'h'})
  }

  lemma {:induction false} TrimmedAmount(text: string, digits: string, unit: string)
    requires IsAmount(text, digits, unit)
    ensures TrimUnits(text) == digits
  {
    var last := digits[|digits| - 1];
    assert '0' <= last <= '9';
    if unit == "" {
      assert text == digits;
    } else {
      assert text[|text| - 1] == unit[0] && text[..|text| - 1] == digits;
    }
  }

  lemma {:induction false} TrimmedLetter(text: string)
    requires |text| - |TrimUnits(text)| == 1
    ensures text[|text| - 1] in {'s', 'm', 'h'} && TrimUnits(text) == text[..|text| - 1]
  {
  }

  /** A time limit is accepted exactly when it is such a text; all zeros are refused with words of
      their own. */
  lemma {:induction false} LimitMeaning(v: Os)
    ensures CheckTimeout(v).None? <==> v.Text? && IsLimit(v.s)
    ensures CheckTimeout(v) == Some(ZeroTimeout) <==>
              v.Text? && !IsLimit(v.s) && exists digits: string, unit: string :: IsAmount(v.s, digits, unit)
  {
    if v.Text? {
      var digits := TrimUnits(v.s);
      var unit := v.s[|digits|..];
      if digits != "" && Digits(digits) && |unit| <= 1 {
        if unit != "" { TrimmedLetter(v.s); }
        assert v.s == digits + unit && IsAmount(v.s, digits, unit);
      }
      forall d: string, u: string | IsAmount(v.s, d, u) ensures d == digits && u == unit {
        TrimmedAmount(v.s, d, u);
      }
    }
  }

  /** A value its flag does not accept. */
  ghost predicate IsBadValue(name: string, v: Os) {
    || (name == "--harness" && v == Text(""))
    || (name == "--unwind" && !(v.Text? && IsU32(v.s)))
    || (name == "--timeout" && !(v.Text? && IsLimit(v.s)))
    || (name == "--solver" && !(v.Text? && (Lower(v.s) == "auto" || Lower(v.s) == "ay" || Lower(v.s) == "direct")))
  }

  lemma {:induction false} SolverNames(name: string)
    ensures name in SOLVERS <==> name == "auto" || name == "ay" || name == "direct"
  {
    assert SOLVERS[0] == "auto" && SOLVERS[1] == "ay" && SOLVERS[2] == "direct";
  }

  lemma {:induction false} BadValueMeaning(name: string, v: Os)
    requires IsValueName(name)
    ensures ValueUnit(name, v).Err? <==> IsBadValue(name, v)
  {
    LimitMeaning(v);
    if v.Text? { SolverNames(Lower(v.s)); }
  }

  // ---------------------------------------------------------------------
  // Units
  // ---------------------------------------------------------------------

  /** The unit that starts here is refused: an unsupported flag, a flag whose value is missing or bad,
      or, before the input, a path that is there and no Rust file. */
  ghost predicate IsRefused(w: World, argv: seq<Os>, i: nat, inputSeen: bool)
    requires i < |argv|
  {
    argv[i].Text? && argv[i].s != "--" &&
    var text := argv[i].s;
    || Name(text) in UNSUPPORTED
    || (IsValueName(Name(text)) &&
        if Attached(text).Some? then IsBadValue(Name(text), Attached(text).value)
        else i + 1 == |argv| || IsBadValue(Name(text), argv[i+1]))
    || (!IsFlag(text) && !inputSeen && !w.rs(argv[i]) && (w.isFile(argv[i]) || w.isDir(argv[i])))
  }

  lemma {:induction false} ValueRefused(text: string, argv: seq<Os>, i: nat)
    requires i < |argv| && IsValueName(Name(text))
    ensures ValueArm(Name(text), Attached(text), argv, i + 1).Err? <==>
              if Attached(text).Some? then IsBadValue(Name(text), Attached(text).value)
              else i + 1 == |argv| || IsBadValue(Name(text), argv[i+1])
  {
    if Attached(text).Some? {
      BadValueMeaning(Name(text), Attached(text).value);
    } else if i + 1 < |argv| {
      BadValueMeaning(Name(text), argv[i+1]);
    }
  }

  lemma {:induction false} OtherRefused(
    w: World, text: string, takesNext: bool, argv: seq<Os>, next: nat, inputSeen: bool)
    requires next <= |argv|
    ensures OtherUnit(w, text, takesNext, argv, next, inputSeen).Err? <==>
              !("-Z" <= text) && !IsFlag(text) && !inputSeen && !w.rs(Text(text)) &&
              (w.isFile(Text(text)) || w.isDir(Text(text)))
  {
  }

  lemma {:induction false} KnownNamesAreFlags(text: string)
    requires IsValueName(Name(text)) || IsPlainName(Name(text)) || "-Z" <= text
    ensures IsFlag(text)
  {
    if IsValueName(Name(text)) || IsPlainName(Name(text)) { KnownStart(Name(text)); }
  }

  lemma {:induction false} KnownStart(name: string)
    requires IsValueName(name) || IsPlainName(name)
    ensures name != "" && name[0] == '-'
  {
  }

  /** A unit is refused exactly for one of these reasons. */
  lemma {:induction false} RefusedExactly(w: World, argv: seq<Os>, i: nat, inputSeen: bool)
    requires i < |argv|
    ensures ReadUnit(w, argv, i, inputSeen).Err? <==> IsRefused(w, argv, i, inputSeen)
  {
    if argv[i].Text? && argv[i].s != "--" && Name(argv[i].s) !in UNSUPPORTED {
      NamedRefused(w, argv[i].s, argv, i, inputSeen);
    }
  }

  lemma {:induction false} NamedRefused(w: World, text: string, argv: seq<Os>, i: nat, inputSeen: bool)
    requires i < |argv|
    ensures ReadNamed(w, text, argv, i + 1, inputSeen).Err? <==>
              || (IsValueName(Name(text)) &&
                  if Attached(text).Some? then IsBadValue(Name(text), Attached(text).value)
                  else i + 1 == |argv| || IsBadValue(Name(text), argv[i+1]))
              || (!IsFlag(text) && !inputSeen && !w.rs(Text(text)) && (w.isFile(Text(text)) || w.isDir(Text(text))))
  {
    var name, attached := Name(text), Attached(text);
    ValueNamesHaveArms(name);
    PlainNamesHaveArms(name, Text(text), attached, argv, i + 1);
    if IsValueName(name) || IsPlainName(name) || "-Z" <= text { KnownNamesAreFlags(text); }
    if IsValueName(name) {
      ValueRefused(text, argv, i);
    } else if !IsPlainName(name) {
      OtherRefused(w, text, attached.None? && TakesAValue(text), argv, i + 1, inputSeen);
    }
  }
}
