/** Argument translation, `src/frontend/args.rs`: the one loop that maps the front door's
    spellings onto the engine's flags, against a reading of the command line as a list of units
    that are mapped one by one and followed by a deferred suffix. */
module Args {
  import opened Wrappers

  // ---------------------------------------------------------------------
  // Tokens, and what the program asks the file system about them
  // ---------------------------------------------------------------------

  /** A command-line argument: UTF-8 text, or bytes that are not. */
  datatype Os = Text(s: string) | Bytes(bytes: seq<bv8>)

  /** The path questions: has it the extension `rs`, is it a file, is it a directory. */
  datatype World = World(rs: Os -> bool, isFile: Os -> bool, isDir: Os -> bool)

  datatype Reject =
    | Unsupported(flag: string)
    | NeedsValue(flag: string)
    | EmptyHarness
    | BadUnwind(value: Os)
    | ZeroTimeout
    | BadTimeout(value: Os)
    | BadSolver(value: Os)
    | NotRust(text: string)
    | IsDirectory(text: string)
    | NoInput
    | NoSuchFile(path: Os)
    | FileForCargo(path: Os)

  const UNSUPPORTED: seq<string> := [
    "--cbmc-args", "--solver-args", "--gen-c", "--print-llbc", "--write-json-symtab",
    "--synthesize-loop-contracts", "--no-slice-formula", "--run-sanity-checks", "--visualize",
    "--enable-unstable", "--dry-run"
  ]

  const SOLVERS: seq<string> := ["auto", "ay", "direct"]

  const ENGINE_VALUE_FLAGS: seq<string> := [
    "--backend", "--bench", "--bin", "--concrete-playback", "--conformance-harness",
    "--default-unwind", "--example", "--exclude", "--export-smtlib", "--features", "--harness",
    "--harness-timeout", "--manifest-path", "--message-format", "--output-format", "--package",
    "--proof-summary-json", "--sarif", "--target-dir", "--test", "--trust-vc-bundle",
    "--unstable", "--unwind"
  ]

  const ENGINE_VALUE_FLAGS_SHORT: seq<string> := ["-Z", "-e", "-F", "-p"]

  predicate TakesAValue(name: string) {
    name in ENGINE_VALUE_FLAGS || name in ENGINE_VALUE_FLAGS_SHORT
  }

  predicate IsFlag(text: string) { |text| > 0 && text[0] == '-' }

  // ---------------------------------------------------------------------
  // Splitting `--flag=value`, and the three value checks
  // ---------------------------------------------------------------------

  /** Index of the first `=`, or the length. */
  function EqAt(t: string): (n: nat)
    ensures n <= |t| && '=' !in t[..n] && (n < |t| ==> t[n] == '=')
  {
    if t == [] || t[0] == '=' then 0
    else
      assert forall k :: 0 <= k <= EqAt(t[1..]) ==> t[..k+1] == [t[0]] + t[1..][..k];
      EqAt(t[1..]) + 1
  }

  predicate Attaches(text: string) { IsFlag(text) && EqAt(text) < |text| }

  function Name(text: string): string { if Attaches(text) then text[..EqAt(text)] else text }

  function Attached(text: string): Option<Os> {
    if Attaches(text) then Some(Text(text[EqAt(text) + 1..])) else None
  }

  predicate Digits(s: string) { forall i :: 0 <= i < |s| ==> '0' <= s[i] <= '9' }

  function DecimalValue(s: string): nat
    requires Digits(s)
  {
    if s == [] then 0 else 10 * DecimalValue(s[..|s|-1]) + (s[|s|-1] as int - '0' as int)
  }

  /** What `str::parse::<u32>` accepts. */
  predicate IsU32(s: string) {
    var d := if |s| > 0 && s[0] == '+' then s[1..] else s;
    d != [] && Digits(d) && DecimalValue(d) < 0x1_0000_0000
  }

  predicate UnitLetter(c: char) { c == 's' || c == 'm' || c == 'h' }

  function TrimUnits(s: string): (r: string)
    ensures r <= s
  {
    if s != [] && UnitLetter(s[|s|-1]) then TrimUnits(s[..|s|-1]) else s
  }

  function CheckTimeout(v: Os): Option<Reject> {
    if v.Bytes? then Some(BadTimeout(v))
    else
      var d := TrimUnits(v.s);
      if d != [] && Digits(d) && |v.s| - |d| <= 1 then
        if forall i :: 0 <= i < |d| ==> d[i] == '0' then Some(ZeroTimeout) else None
      else Some(BadTimeout(v))
  }

  function LowerChar(c: char): char {
    if 'A' <= c <= 'Z' then (c as int + 32) as char else c
  }

  function Lower(s: string): (r: string)
    ensures |r| == |s|
  {
    if s == [] then [] else [LowerChar(s[0])] + Lower(s[1..])
  }

  // ---------------------------------------------------------------------
  // The declarative reading: units, one after another
  // ---------------------------------------------------------------------

  datatype Unit =
    | Rest(tail: seq<Os>)
    | Harness(value: Os)
    | ListMode
    | Unwind(value: Os)
    | Timeout(value: Os)
    | Solver(name: string)
    | Jobs(count: Option<Os>)
    | Format(value: Os)
    | Verbose
    | Debug(raw: Os)
    | Quiet
    | Unstable(value: Os)
    | FusedUnstable(raw: Os)
    | Input(raw: Os)
    | Pass(raw: Os, arg: Option<Os>)

  /** A flag's value and the index after it: attached, or the next token, or missing. */
  function ValueOf(name: string, attached: Option<Os>, argv: seq<Os>, next: nat): Result<(Os, nat), Reject>
    requires next <= |argv|
  {
    if attached.Some? then Ok((attached.value, next))
    else if next < |argv| then Ok((argv[next], next + 1))
    else Err(NeedsValue(name))
  }

  function OptionalValue(attached: Option<Os>, argv: seq<Os>, next: nat): (Option<Os>, nat)
    requires next <= |argv|
  {
    if attached.Some? then (attached, next)
    else if next < |argv| then (Some(argv[next]), next + 1)
    else (None, next)
  }

  function ValueUnit(name: string, v: Os): Result<Unit, Reject>
  {
    if name == "--harness" then (if v == Text("") then Err(EmptyHarness) else Ok(Harness(v)))
    else if name == "--unwind" then
      (if v.Text? && IsU32(v.s) then Ok(Unwind(v)) else Err(BadUnwind(v)))
    else if name == "--timeout" then
      (match CheckTimeout(v) case None => Ok(Timeout(v)) case Some(e) => Err(e))
    else if name == "--solver" then
      (if v.Text? && Lower(v.s) in SOLVERS then Ok(Solver(Lower(v.s))) else Err(BadSolver(v)))
    else if name == "--output-format" then Ok(Format(v))
    else Ok(Unstable(v))
  }

  /** The flags the loop pulls a mandatory value for. */
  const VALUE_ARMS: seq<string> :=
    ["--harness", "--unwind", "--timeout", "--solver", "--output-format", "-Z", "--unstable"]

  /** Arms that need no value, or an optional one; `None` when no such arm applies. */
  function PlainArm(name: string, raw: Os, attached: Option<Os>, argv: seq<Os>, next: nat): (r: Option<(Unit, nat)>)
    requires next <= |argv|
    ensures r.Some? ==> next <= r.value.1 <= |argv|
  {
    if name == "--list" || name == "--harnesses" then Some((ListMode, next))
    else if name == "--jobs" || name == "-j" then
      var vn := OptionalValue(attached, argv, next);
      Some((Jobs(vn.0), vn.1))
    else if name == "--verbose" || name == "-v" then Some((Verbose, next))
    else if name == "--debug" then Some((Debug(raw), next))
    else if name == "--quiet" || name == "-q" then Some((Quiet, next))
    else None
  }

  /** Whatever no named arm claims: a fused `-Z`, the input file, a path that is not one, or
      something for the engine, with its value if it is known to take one. */
  function OtherArm(w: World, text: string, argv: seq<Os>, next: nat, inputSeen: bool): (r: Result<(Unit, nat), Reject>)
    requires next <= |argv|
    ensures r.Ok? ==> next <= r.value.1 <= |argv|
  {
    OtherUnit(w, text, Attached(text).None? && TakesAValue(text), argv, next, inputSeen)
  }

  function OtherUnit(w: World, text: string, takesNext: bool, argv: seq<Os>, next: nat, inputSeen: bool):
    (r: Result<(Unit, nat), Reject>)
    requires next <= |argv|
    ensures r.Ok? ==> next <= r.value.1 <= |argv|
  {
    var raw := Text(text);
    if "-Z" <= text then Ok((FusedUnstable(raw), next))
    else if !IsFlag(text) && !inputSeen && w.rs(raw) then Ok((Input(raw), next))
    else if !IsFlag(text) && !inputSeen && w.isFile(raw) then Err(NotRust(text))
    else if !IsFlag(text) && !inputSeen && w.isDir(raw) then Err(IsDirectory(text))
    else if takesNext && next < |argv| then Ok((Pass(raw, Some(argv[next])), next + 1))
    else Ok((Pass(raw, None), next))
  }

  function ValueArm(name: string, attached: Option<Os>, argv: seq<Os>, next: nat): (r: Result<(Unit, nat), Reject>)
    requires next <= |argv|
    ensures r.Ok? ==> next <= r.value.1 <= |argv|
  {
    match ValueOf(name, attached, argv, next)
    case Err(e) => Err(e)
    case Ok(vn) =>
      match ValueUnit(name, vn.0)
      case Err(e) => Err(e)
      case Ok(u) => Ok((u, vn.1))
  }

  /** A text that is neither the stop nor refused; `next` is the index after it. */
  function ReadNamed(
    w: World, text: string, argv: seq<Os>, next: nat, inputSeen: bool): (r: Result<(Unit, nat), Reject>)
    requires next <= |argv|
    ensures r.Ok? ==> next <= r.value.1 <= |argv|
  {
    var name, attached := Name(text), Attached(text);
    if name in VALUE_ARMS then ValueArm(name, attached, argv, next)
    else
      match PlainArm(name, Text(text), attached, argv, next)
      case Some(un) => Ok(un)
      case None => OtherArm(w, text, argv, next, inputSeen)
  }

  /** The unit that starts at `i`, and where the next one starts. */
  function ReadUnit(w: World, argv: seq<Os>, i: nat, inputSeen: bool): (r: Result<(Unit, nat), Reject>)
    requires i < |argv|
    ensures r.Ok? ==> i < r.value.1 <= |argv|
  {
    match argv[i]
    case Bytes(_) =>
      Ok((if !inputSeen && w.rs(argv[i]) then Input(argv[i]) else Pass(argv[i], None), i + 1))
    case Text(text) =>
      if text == "--" then Ok((Rest(argv[i+1..]), |argv|))
      else if Name(text) in UNSUPPORTED then Err(Unsupported(Name(text)))
      else ReadNamed(w, text, argv, i + 1, inputSeen)
  }

  function Reading(w: World, argv: seq<Os>, i: nat, inputSeen: bool): Result<seq<Unit>, Reject>
    requires i <= |argv|
    decreases |argv| - i
  {
    if i == |argv| then Ok([])
    else
      match ReadUnit(w, argv, i, inputSeen)
      case Err(e) => Err(e)
      case Ok(un) =>
        match Reading(w, argv, un.1, inputSeen || un.0.Input?)
        case Err(e) => Err(e)
        case Ok(rest) => Ok([un.0] + rest)
  }

  // ---------------------------------------------------------------------
  // Rendering a reading
  // ---------------------------------------------------------------------

  function RenderUnit(u: Unit): seq<Os> {
    match u
    case Rest(tail) => tail
    case Harness(v) => [Text("--harness"), v]
    case ListMode => []
    case Unwind(_) => []
    case Timeout(_) => []
    case Solver(n) => [Text("--smt-solver"), Text(n)]
    case Jobs(c) => [Text("--jobs")] + (if c.Some? then [c.value] else [])
    case Format(v) => [Text("--output-format"), v]
    case Verbose => [Text("--verbose")]
    case Debug(raw) => [raw]
    case Quiet => [Text("--quiet")]
    case Unstable(v) => [Text("-Z"), v]
    case FusedUnstable(raw) => [raw]
    case Input(_) => []
    case Pass(raw, a) => [raw] + (if a.Some? then [a.value] else [])
  }

  function RenderUnits(us: seq<Unit>): seq<Os> { RenderAll(RenderUnit, us) }

  function RenderAll(render: Unit -> seq<Os>, us: seq<Unit>): seq<Os> {
    if us == [] then [] else RenderAll(render, us[..|us|-1]) + render(us[|us|-1])
  }

  predicate OpensGate(u: Unit) {
    u == Unstable(Text("unstable-options")) || u == FusedUnstable(Text("-Zunstable-options"))
  }

  predicate Any(p: Unit -> bool, us: seq<Unit>) {
    us != [] && (p(us[|us|-1]) || Any(p, us[..|us|-1]))
  }

  predicate IsHarness(u: Unit) { u.Harness? }
  predicate IsList(u: Unit) { u.ListMode? }
  predicate IsLoud(u: Unit) { u.Verbose? || u.Debug? }
  predicate IsJobs(u: Unit) { u.Jobs? }
  predicate IsFormat(u: Unit) { u.Format? }

  function LastUnwind(us: seq<Unit>): Option<Os> {
    if us == [] then None
    else if us[|us|-1].Unwind? then Some(us[|us|-1].value)
    else LastUnwind(us[..|us|-1])
  }

  function LastTimeout(us: seq<Unit>): Option<Os> {
    if us == [] then None
    else if us[|us|-1].Timeout? then Some(us[|us|-1].value)
    else LastTimeout(us[..|us|-1])
  }

  function InputOf(us: seq<Unit>): Option<Os> {
    if us == [] then None
    else if us[|us|-1].Input? then Some(us[|us|-1].raw)
    else InputOf(us[..|us|-1])
  }

  /** Everything about a reading that only its end can settle. */
  datatype Seen = Seen(input: Option<Os>, harness: bool, list: bool, verbose: bool,
                       unwind: Option<Os>, timeout: Option<Os>, gate: bool, jobs: bool, format: bool)

  function Remember(us: seq<Unit>): Seen {
    Seen(InputOf(us), Any(IsHarness, us), Any(IsList, us), Any(IsLoud, us), LastUnwind(us), LastTimeout(us),
         Any(OpensGate, us), Any(IsJobs, us), Any(IsFormat, us))
  }

  function TerseSuffix(m: Seen): seq<Os> {
    if m.jobs && !m.format then [Text("--output-format"), Text("terse")] else []
  }

  function ListSuffix(m: Seen): seq<Os> { if m.list then [Text("--harnesses")] else [] }

  function UnwindSuffix(m: Seen): seq<Os> {
    if m.unwind.None? then []
    else [Text(if m.harness then "--unwind" else "--default-unwind"), m.unwind.value]
  }

  function TimeoutSuffix(m: Seen): seq<Os> {
    if m.timeout.None? then []
    else (if m.gate then [] else [Text("-Z"), Text("unstable-options")]) +
         [Text("--harness-timeout"), m.timeout.value]
  }

  function Suffix(m: Seen): seq<Os> {
    TerseSuffix(m) + ListSuffix(m) + UnwindSuffix(m) + TimeoutSuffix(m)
  }

  datatype Flags = Flags(out: seq<Os>, input: Option<Os>, needsSolver: bool, verbose: bool)

  function Render(us: seq<Unit>): Flags {
    var m := Remember(us);
    Flags(RenderUnits(us) + Suffix(m), m.input, !m.list, m.verbose)
  }

  function TranslateSpec(w: World, argv: seq<Os>): Result<Flags, Reject> {
    match Reading(w, argv, 0, false)
    case Err(e) => Err(e)
    case Ok(us) => Ok(Render(us))
  }

  // ---------------------------------------------------------------------
  // The loop
  // ---------------------------------------------------------------------

  /** `take_value`: the attached value, or the next argument, advancing the index past it. */
  method TakeValue(name: string, attached: Option<Os>, argv: seq<Os>, idx: nat)
    returns (r: Result<Os, Reject>, next: nat)
    requires idx <= |argv|
    ensures idx <= next <= |argv|
    ensures match ValueOf(name, attached, argv, idx)
            case Err(e) => r == Err(e)
            case Ok(vn) => r == Ok(vn.0) && next == vn.1
  {
    next := idx;
    if attached.Some? { return Ok(attached.value), next; }
    if idx < |argv| { return Ok(argv[idx]), idx + 1; }
    return Err(NeedsValue(name)), next;
  }

  /** How one more unit changes what is remembered. */
  function Notice(m: Seen, u: Unit): Seen {
    match u
    case Input(raw) => m.(input := Some(raw))
    case Harness(_) => m.(harness := true)
    case ListMode => m.(list := true)
    case Verbose => m.(verbose := true)
    case Debug(_) => m.(verbose := true)
    case Unwind(v) => m.(unwind := Some(v))
    case Timeout(v) => m.(timeout := Some(v))
    case Jobs(_) => m.(jobs := true)
    case Format(_) => m.(format := true)
    case Unstable(_) => if OpensGate(u) then m.(gate := true) else m
    case FusedUnstable(_) => if OpensGate(u) then m.(gate := true) else m
    case Rest(_) => m
    case Solver(_) => m
    case Quiet => m
    case Pass(_, _) => m
  }

  lemma {:induction false} NoticeFields(m: Seen, u: Unit)
    ensures Notice(m, u) ==
      Seen(if u.Input? then Some(u.raw) else m.input,
           u.Harness? || m.harness, u.ListMode? || m.list, IsLoud(u) || m.verbose,
           if u.Unwind? then Some(u.value) else m.unwind,
           if u.Timeout? then Some(u.value) else m.timeout,
           OpensGate(u) || m.gate, u.Jobs? || m.jobs, u.Format? || m.format)
  {
  }

  lemma {:induction false} AnySnoc(p: Unit -> bool, us: seq<Unit>, u: Unit)
    ensures Any(p, us + [u]) == (p(u) || Any(p, us))
  {
    assert (us + [u])[..|us|] == us;
  }

  lemma {:induction false} NoticeOne(m: Seen, us: seq<Unit>, u: Unit)
    requires m == Remember(us)
    ensures Notice(m, u) == Remember(us + [u])
    ensures RenderUnits(us + [u]) == RenderUnits(us) + RenderUnit(u)
  {
    var vs := us + [u];
    assert vs[..|vs|-1] == us && vs[|vs|-1] == u;
    NoticeFields(m, u);
    AnySnoc(IsHarness, us, u);
    AnySnoc(IsList, us, u);
    AnySnoc(IsLoud, us, u);
    AnySnoc(IsJobs, us, u);
    AnySnoc(IsFormat, us, u);
    AnySnoc(OpensGate, us, u);
  }

  /** The units of an outcome behind others. */
  function Behind(done: seq<Unit>, rest: Result<seq<Unit>, Reject>): Result<seq<Unit>, Reject> {
    match rest case Err(e) => Err(e) case Ok(us) => Ok(done + us)
  }

  lemma {:induction false} BehindTwice(done: seq<Unit>, u: Unit, rest: Result<seq<Unit>, Reject>)
    ensures Behind(done, Behind([u], rest)) == Behind(done + [u], rest)
  {
    if rest.Ok? { assert done + ([u] + rest.value) == done + [u] + rest.value; }
  }

  lemma {:induction false} BehindNothing(rest: Result<seq<Unit>, Reject>)
    ensures Behind([], rest) == rest
  {
    if rest.Ok? { assert [] + rest.value == rest.value; }
  }

  /** What is left of the reading once `done` has been read. */
  ghost predicate Continues(w: World, argv: seq<Os>, done: seq<Unit>, idx: nat, inputSeen: bool) {
    idx <= |argv| && Reading(w, argv, 0, false) == Behind(done, Reading(w, argv, idx, inputSeen))
  }

  lemma {:induction false} FirstUnit(w: World, argv: seq<Os>, idx: nat, inputSeen: bool)
    requires idx < |argv|
    ensures match ReadUnit(w, argv, idx, inputSeen)
            case Err(e) => Reading(w, argv, idx, inputSeen) == Err(e)
            case Ok(un) =>
              Reading(w, argv, idx, inputSeen) == Behind([un.0], Reading(w, argv, un.1, inputSeen || un.0.Input?))
  {
  }

  lemma {:induction false} ContinueOne(w: World, argv: seq<Os>, done: seq<Unit>, idx: nat, inputSeen: bool)
    requires Continues(w, argv, done, idx, inputSeen) && idx < |argv|
    ensures match ReadUnit(w, argv, idx, inputSeen)
            case Err(e) => Reading(w, argv, 0, false) == Err(e)
            case Ok(un) => Continues(w, argv, done + [un.0], un.1, inputSeen || un.0.Input?)
  {
    FirstUnit(w, argv, idx, inputSeen);
    var r := ReadUnit(w, argv, idx, inputSeen);
    if r.Ok? { BehindTwice(done, r.value.0, Reading(w, argv, r.value.1, inputSeen || r.value.0.Input?)); }
  }

  /** The arms that carry a value, once it has been taken. */
  method ValueArms(name: string, value: Os, was: Seen, before: seq<Os>)
    returns (bad: Option<Reject>, m: Seen, out: seq<Os>)
    ensures match ValueUnit(name, value)
            case Err(e) => bad == Some(e)
            case Ok(u) => bad == None && m == Notice(was, u) && out == before + RenderUnit(u)
  {
    bad, m, out := None, was, before;
    if name == "--harness" {
      if value == Text("") { return Some(EmptyHarness), m, out; }
      m := m.(harness := true);
      out := out + [Text("--harness"), value];
    } else if name == "--unwind" {
      if !(value.Text? && IsU32(value.s)) { return Some(BadUnwind(value)), m, out; }
      m := m.(unwind := Some(value));
    } else if name == "--timeout" {
      bad := CheckTimeout(value);
      if bad.Some? { return; }
      m := m.(timeout := Some(value));
    } else if name == "--solver" {
      if !(value.Text? && Lower(value.s) in SOLVERS) { return Some(BadSolver(value)), m, out; }
      out := out + [Text("--smt-solver"), Text(Lower(value.s))];
    } else if name == "--output-format" {
      m := m.(format := true);
      out := out + [Text("--output-format"), value];
    } else {
      if value == Text("unstable-options") { m := m.(gate := true); }
      out := out + [Text("-Z"), value];
    }
  }

  /** The arms without a value, or with an optional one. */
  method PlainArms(name: string, raw: Os, attached: Option<Os>, argv: seq<Os>, idx: nat, was: Seen, before: seq<Os>)
    returns (applied: bool, next: nat, m: Seen, out: seq<Os>)
    requires idx <= |argv|
    ensures match PlainArm(name, raw, attached, argv, idx)
            case None => !applied && next == idx && m == was && out == before
            case Some(un) => applied && next == un.1 && m == Notice(was, un.0) && out == before + RenderUnit(un.0)
  {
    applied, next, m, out := true, idx, was, before;
    if name == "--list" || name == "--harnesses" {
      m := m.(list := true);
    } else if name == "--jobs" || name == "-j" {
      m := m.(jobs := true);
      out := out + [Text("--jobs")];
      if attached.Some? {
        out := out + [attached.value];
      } else if next < |argv| {
        out := out + [argv[next]];
        next := next + 1;
      }
    } else if name == "--verbose" || name == "-v" {
      m := m.(verbose := true);
      out := out + [Text("--verbose")];
    } else if name == "--debug" {
      m := m.(verbose := true);
      out := out + [raw];
    } else if name == "--quiet" || name == "-q" {
      out := out + [Text("--quiet")];
    } else {
      applied := false;
    }
  }

  lemma {:induction false} FusedGate(text: string)
    requires "-Z" <= text
    ensures text[2..] == "unstable-options" <==> text == "-Zunstable-options"
  {
    assert text == "-Z" + text[2..];
    assert "-Zunstable-options"[2..] == "unstable-options";
  }

  /** The arms below the named ones. */
  method OtherArms(w: World, text: string, takesNext: bool, argv: seq<Os>, idx: nat, was: Seen, before: seq<Os>)
    returns (bad: Option<Reject>, next: nat, m: Seen, out: seq<Os>)
    requires idx <= |argv|
    ensures match OtherUnit(w, text, takesNext, argv, idx, was.input.Some?)
            case Err(e) => bad == Some(e)
            case Ok(un) => bad == None && next == un.1 && m == Notice(was, un.0) && out == before + RenderUnit(un.0)
  {
    bad, next, m, out := None, idx, was, before;
    var raw := Text(text);
    if "-Z" <= text {
      m, out := FusedArm(text, m, out);
    } else if !IsFlag(text) && m.input.None? && w.rs(raw) {
      m := m.(input := Some(raw));
    } else if !IsFlag(text) && m.input.None? && w.isFile(raw) {
      bad := Some(NotRust(text));
    } else if !IsFlag(text) && m.input.None? && w.isDir(raw) {
      bad := Some(IsDirectory(text));
    } else {
      next, out := PassArm(text, takesNext, argv, next, out);
    }
  }

  method FusedArm(text: string, was: Seen, before: seq<Os>) returns (m: Seen, out: seq<Os>)
    requires "-Z" <= text
    ensures m == Notice(was, FusedUnstable(Text(text))) && out == before + [Text(text)]
  {
    m, out := was, before + [Text(text)];
    FusedGate(text);
    if text[2..] == "unstable-options" { m := m.(gate := true); }
  }

  method PassArm(text: string, takesNext: bool, argv: seq<Os>, idx: nat, before: seq<Os>)
    returns (next: nat, out: seq<Os>)
    requires idx <= |argv|
    ensures if takesNext && idx < |argv|
            then next == idx + 1 && out == before + RenderUnit(Pass(Text(text), Some(argv[idx])))
            else next == idx && out == before + RenderUnit(Pass(Text(text), None))
  {
    next, out := idx, before + [Text(text)];
    if takesNext && next < |argv| {
      out := out + [argv[next]];
      next := next + 1;
    }
  }

  /** The body of the loop: one argument, or a flag with its value. */
  method OneStep(w: World, argv: seq<Os>, start: nat, was: Seen, before: seq<Os>)
    returns (bad: Option<Reject>, idx: nat, m: Seen, out: seq<Os>)
    requires start < |argv|
    ensures match ReadUnit(w, argv, start, was.input.Some?)
            case Err(e) => bad == Some(e)
            case Ok(un) => bad == None && idx == un.1 && m == Notice(was, un.0) && out == before + RenderUnit(un.0)
  {
    bad, idx, m, out := None, start + 1, was, before;
    var raw := argv[start];
    if raw.Bytes? {
      if m.input.None? && w.rs(raw) {
        m := m.(input := Some(raw));
      } else {
        out := out + [raw];
      }
      return;
    }
    var text := raw.s;
    var name, attached := Name(text), Attached(text);
    if text == "--" {
      out := out + argv[idx..];
      idx := |argv|;
    } else if name in UNSUPPORTED {
      bad := Some(Unsupported(name));
    } else if name in VALUE_ARMS {
      var taken, next := TakeValue(name, attached, argv, idx);
      if taken.Err? { return Some(taken.error), idx, m, out; }
      idx := next;
      bad, m, out := ValueArms(name, taken.value, m, out);
    } else {
      var applied;
      applied, idx, m, out := PlainArms(name, raw, attached, argv, idx, m, out);
      if !applied {
        bad, idx, m, out := OtherArms(w, text, attached.None? && TakesAValue(text), argv, idx, m, out);
      }
    }
  }

  /** `translate_flags`: one loop in which the index, the output and everything remembered
      advance together, and the suffix that has to wait for the end. */
  method TranslateFlags(w: World, argv: seq<Os>) returns (r: Result<Flags, Reject>)
    ensures r == TranslateSpec(w, argv)
  {
    var out: seq<Os> := [];
    var m := Seen(None, false, false, false, None, None, false, false, false);
    ghost var done: seq<Unit> := [];
    var idx := 0;
    BehindNothing(Reading(w, argv, 0, false));
    while idx < |argv|
      invariant idx <= |argv|
      invariant Continues(w, argv, done, idx, m.input.Some?)
      invariant m == Remember(done)
      invariant out == RenderUnits(done)
    {
      ContinueOne(w, argv, done, idx, m.input.Some?);
      ghost var was, here := m, ReadUnit(w, argv, idx, m.input.Some?);
      var bad;
      bad, idx, m, out := OneStep(w, argv, idx, m, out);
      if bad.Some? { return Err(bad.value); }
      NoticeFields(was, here.value.0);
      NoticeOne(was, done, here.value.0);
      done := done + [here.value.0];
    }
    assert done + [] == done;
    out := AppendSuffix(m, out);
    return Ok(Flags(out, m.input, !m.list, m.verbose));
  }

  lemma {:induction false} Regroup<T>(s: seq<T>, a: seq<T>, b: seq<T>, c: seq<T>, d: seq<T>)
    ensures s + a + b + c + d == s + (a + b + c + d)
  {
  }

  /** The tail of `translate_flags`, after the loop. */
  method AppendSuffix(m: Seen, before: seq<Os>) returns (out: seq<Os>)
    ensures out == before + Suffix(m)
  {
    out := before;
    if m.jobs && !m.format { out := out + [Text("--output-format"), Text("terse")]; }
    ghost var s1 := out;
    assert s1 == before + TerseSuffix(m);
    if m.list { out := out + [Text("--harnesses")]; }
    ghost var s2 := out;
    assert s2 == s1 + ListSuffix(m);
    if m.unwind.Some? {
      out := out + [Text(if m.harness then "--unwind" else "--default-unwind"), m.unwind.value];
    }
    out := AppendTimeout(m, out);
    Regroup(before, TerseSuffix(m), ListSuffix(m), UnwindSuffix(m), TimeoutSuffix(m));
  }

  method AppendTimeout(m: Seen, before: seq<Os>) returns (out: seq<Os>)
    ensures out == before + TimeoutSuffix(m)
  {
    out := before;
    if m.timeout.Some? {
      if !m.gate { out := out + [Text("-Z"), Text("unstable-options")]; }
      out := out + [Text("--harness-timeout"), m.timeout.value];
    }
  }
}
