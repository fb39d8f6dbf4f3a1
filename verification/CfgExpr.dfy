/** Attribute metas of `scripts/extract_proof_harnesses.py`: the recursive cfg evaluator, and the
    Boolean meaning it has on every printed cfg expression. */
module CfgExpr {
  import opened Wrappers
  import opened Delimiters

  // ---------------------------------------------------------------------
  // The evaluator
  // ---------------------------------------------------------------------

  /** The arguments of a group that opens at `p` and ends the text. */
  function GroupArgs(meta: string, p: nat): Option<seq<string>> {
    match MatchSpan(meta, p)
    case None => None
    case Some(k) => if Strip(meta[k+1..]) != "" then None else Some(SplitFrom(meta[p+1..k], 0, []))
  }

  /** `_meta_call_args`: the top-level arguments of `name ( ... )`, if `meta` is such a call. */
  function MetaCallArgs(meta: string, name: string): Option<seq<string>> {
    if name <= meta then GroupArgs(meta, |name| + SkipSpaces(meta[|name|..])) else None
  }

  /** Every argument is shorter than the call around it. */
  lemma {:induction false} ArgsShorter(meta: string, name: string)
    ensures MetaCallArgs(meta, name).Some? ==>
              forall k :: 0 <= k < |MetaCallArgs(meta, name).value| ==> |MetaCallArgs(meta, name).value[k]| < |meta|
  {
    if name <= meta {
      var p := |name| + SkipSpaces(meta[|name|..]);
      var m := MatchSpan(meta, p);
      if m.Some? { PiecesFit(meta[p+1..m.value], 0, []); }
    }
  }

  /** `_cfg_expr_active_by_default`. */
  predicate CfgActive(expr: string)
    decreases |expr|
  {
    var e := Strip(expr);
    if e == "kani" then true
    else
      ArgsShorter(e, "all");
      ArgsShorter(e, "any");
      ArgsShorter(e, "not");
      var all := MetaCallArgs(e, "all");
      if all.Some? then forall k :: 0 <= k < |all.value| ==> CfgActive(all.value[k])
      else
        var some := MetaCallArgs(e, "any");
        if some.Some? then exists k :: 0 <= k < |some.value| && CfgActive(some.value[k])
        else
          var no := MetaCallArgs(e, "not");
          no.Some? && |no.value| == 1 && !CfgActive(no.value[0])
  }

  /** `_is_inactive_cfg_meta`. */
  predicate IsInactiveCfgMeta(meta: string) {
    var args := MetaCallArgs(Strip(meta), "cfg");
    args.Some? && |args.value| == 1 && !CfgActive(args.value[0])
  }

  /** A parenthesised tail: `( ... )` with anything between. */
  predicate Parenthesised(s: string) { |s| >= 2 && s[0] == '(' && s[|s|-1] == ')' }

  /** `_is_kani_harness_meta`, for a meta on one line. */
  predicate IsHarnessMeta(meta: string) {
    var m := Strip(meta);
    ("kani::proof" <= m &&
     var rest := Strip(m[|"kani::proof"|..]);
     rest == "" || Parenthesised(rest)) ||
    ("kani::proof_for_contract" <= m && Parenthesised(Strip(m[|"kani::proof_for_contract"|..])))
  }

  /** `_is_cfg_attr_kani_harness`. */
  predicate IsCfgAttrHarness(meta: string) {
    var args := MetaCallArgs(meta, "cfg_attr");
    args.Some? && |args.value| >= 2 && Strip(args.value[0]) == "kani" &&
    exists k :: 1 <= k < |args.value| && IsHarnessMeta(args.value[k])
  }

  // ---------------------------------------------------------------------
  // Expression trees, with every layout they may be printed in
  // ---------------------------------------------------------------------

  datatype Op = All | Any | Not

  /** A cfg expression and the blanks around its parts. A call may end in a comma. */
  datatype Cfg =
    | Kani(lead: string, trail: string)
    | Flag(lead: string, text: string, trail: string)
    | Call(op: Op, lead: string, gap: string, args: seq<Cfg>, comma: bool, pad: string, trail: string)

  function OpName(op: Op): string {
    match op case All => "all" case Any => "any" case Not => "not"
  }

  ghost predicate WellFormed(t: Cfg) {
    Blank(t.lead) && Blank(t.trail) &&
    match t
    case Kani(_, _) => true
    case Flag(_, text, _) => Plain(text) && Trim(text) && text != "kani"
    case Call(_, _, gap, args, comma, pad, _) =>
      Blank(gap) && Blank(pad) && (comma ==> args != []) && forall a :: a in args ==> WellFormed(a)
  }

  function Print(t: Cfg): string
    decreases t, 1
  {
    t.lead + Core(t) + t.trail
  }

  function Core(t: Cfg): string
    decreases t, 0
  {
    match t
    case Kani(_, _) => "kani"
    case Flag(_, text, _) => text
    case Call(op, _, gap, args, comma, pad, _) => OpName(op) + gap + ("(" + Inner(args, comma, pad) + ")")
  }

  /** What stands between the parentheses. */
  function Inner(args: seq<Cfg>, comma: bool, pad: string): string
    decreases args, 0
  {
    if args == [] then pad
    else if |args| == 1 then Print(args[0]) + ((if comma then "," else "") + pad)
    else Print(args[0]) + ("," + Inner(args[1..], comma, pad))
  }

  /** The Boolean meaning: `kani` is set, every other flag is not. */
  predicate Meaning(t: Cfg) {
    match t
    case Kani(_, _) => true
    case Flag(_, _, _) => false
    case Call(All, _, _, args, _, _, _) => forall k :: 0 <= k < |args| ==> Meaning(args[k])
    case Call(Any, _, _, args, _, _, _) => exists k :: 0 <= k < |args| && Meaning(args[k])
    case Call(Not, _, _, args, _, _, _) => |args| == 1 && !Meaning(args[0])
  }

  // ---------------------------------------------------------------------
  // Pieces between commas
  // ---------------------------------------------------------------------

  /** A text and the blanks around it. */
  datatype Piece = Piece(lead: string, core: string, trail: string)

  function PieceText(p: Piece): string { p.lead + p.core + p.trail }

  function CoresOf(ps: seq<Piece>): (r: seq<string>)
    ensures |r| == |ps|
  {
    seq(|ps|, k requires 0 <= k < |ps| => ps[k].core)
  }

  /** The pieces with commas between them, and perhaps one after the last. */
  function Joined(ps: seq<Piece>, comma: bool, pad: string): string {
    if ps == [] then pad
    else if |ps| == 1 then PieceText(ps[0]) + ((if comma then "," else "") + pad)
    else PieceText(ps[0]) + ("," + Joined(ps[1..], comma, pad))
  }

  /** The splitter and the matcher pass over the piece, and it has nothing to strip. */
  ghost predicate IsPiece(p: Piece) { Blank(p.lead) && Blank(p.trail) && Nested(p.core) && Trim(p.core) }

  ghost predicate Scannable(ps: seq<Piece>) { forall k :: 0 <= k < |ps| ==> IsPiece(ps[k]) }

  function PiecesOf(args: seq<Cfg>): (r: seq<Piece>)
    ensures |r| == |args|
  {
    seq(|args|, k requires 0 <= k < |args| => Piece(args[k].lead, Core(args[k]), args[k].trail))
  }

  lemma {:induction false} InnerIsPieces(args: seq<Cfg>, comma: bool, pad: string)
    ensures Inner(args, comma, pad) == Joined(PiecesOf(args), comma, pad)
  {
    if args != [] {
      assert PieceText(PiecesOf(args)[0]) == Print(args[0]);
      assert PiecesOf(args)[1..] == PiecesOf(args[1..]);
      InnerIsPieces(args[1..], comma, pad);
    }
  }

  lemma {:induction false} PieceNested(p: Piece)
    requires IsPiece(p)
    ensures Nested(PieceText(p))
  {
    BlankIsPlain(p.lead);
    BlankIsPlain(p.trail);
    PlainNested(p.lead);
    PlainNested(p.trail);
    NestedAppend(p.lead, p.core);
    NestedAppend(p.lead + p.core, p.trail);
  }

  lemma {:induction false} PiecesNested(ps: seq<Piece>, comma: bool, pad: string)
    requires Blank(pad) && Scannable(ps)
    ensures NestedInside(Joined(ps, comma, pad))
  {
    BlankIsPlain(pad);
    PlainNested(pad);
    CommaInside();
    if ps != [] {
      PieceNested(ps[0]);
      if |ps| == 1 {
        var tail := (if comma then "," else "") + pad;
        if comma { InsideAppend(",", pad); } else { assert tail == pad; }
        InsideAppend(PieceText(ps[0]), tail);
      } else {
        PiecesNested(ps[1..], comma, pad);
        InsideAppend(",", Joined(ps[1..], comma, pad));
        InsideAppend(PieceText(ps[0]), "," + Joined(ps[1..], comma, pad));
      }
    }
  }

  // ---------------------------------------------------------------------
  // Printed text is well nested
  // ---------------------------------------------------------------------

  lemma {:induction false} BlankIsPlain(s: string)
    requires Blank(s)
    ensures Plain(s)
  {
  }

  /** Printed text may be scanned across: by the comma splitter and by the delimiter matcher. */
  ghost predicate Nested(t: string) {
    ParenNeutral(t) && forall d: nat :: Sink(t, d) == Some(d)
  }

  /** The same inside a call, where commas do not split. */
  ghost predicate NestedInside(t: string) {
    ParenNeutral(t) && forall d: nat :: d > 0 ==> Sink(t, d) == Some(d)
  }

  lemma {:induction false} PlainNested(t: string)
    requires Plain(t)
    ensures Nested(t)
  {
    PlainNeutral(t);
    forall d: nat ensures Sink(t, d) == Some(d) { PlainSinks(t, d); }
  }

  lemma {:induction false} NestedAppend(t: string, u: string)
    requires Nested(t) && Nested(u)
    ensures Nested(t + u)
  {
    NeutralAppend(t, u);
    forall d: nat ensures Sink(t + u, d) == Some(d) { SinkAppend(t, u, d); }
  }

  lemma {:induction false} InsideAppend(t: string, u: string)
    requires NestedInside(t) && NestedInside(u)
    ensures NestedInside(t + u)
  {
    NeutralAppend(t, u);
    forall d: nat | d > 0 ensures Sink(t + u, d) == Some(d) { SinkAppend(t, u, d); }
  }

  lemma {:induction false} CommaInside()
    ensures NestedInside(",")
  {
    CommaNeutral();
    forall d: nat | d > 0 ensures Sink(",", d) == Some(d) { assert ","[1..] == ""; }
  }

  lemma {:induction false} ParensNest(t: string)
    requires NestedInside(t)
    ensures Nested("(" + t + ")")
  {
    NeutralParens(t);
    forall d: nat ensures Sink("(" + t + ")", d) == Some(d) {
      var p := "(" + t + ")";
      assert p[1..] == t + ")";
      SinkAppend(t, ")", d + 1);
      assert ")"[1..] == "";
    }
  }

  lemma {:induction false} NamePlain(op: Op)
    ensures Plain(OpName(op)) && Trim(OpName(op)) && |OpName(op)| == 3
  {
  }

  lemma {:induction false} PrintNested(t: Cfg)
    requires WellFormed(t)
    ensures Nested(Core(t)) && Nested(Print(t)) && Trim(Core(t))
    decreases t, 1
  {
    BlankIsPlain(t.lead);
    BlankIsPlain(t.trail);
    PlainNested(t.lead);
    PlainNested(t.trail);
    match t {
      case Kani(_, _) =>
        PlainNested("kani");
      case Flag(_, text, _) =>
        PlainNested(text);
      case Call(op, _, gap, args, comma, pad, _) =>
        InnerNested(args, comma, pad);
        ParensNest(Inner(args, comma, pad));
        NamePlain(op);
        BlankIsPlain(gap);
        PlainNested(OpName(op));
        PlainNested(gap);
        NestedAppend(OpName(op), gap);
        NestedAppend(OpName(op) + gap, "(" + Inner(args, comma, pad) + ")");
        var c := Core(t);
        assert c[0] == OpName(op)[0] && c[|c|-1] == ')';
    }
    NestedAppend(t.lead, Core(t));
    NestedAppend(t.lead + Core(t), t.trail);
  }

  lemma {:induction false} InnerNested(args: seq<Cfg>, comma: bool, pad: string)
    requires Blank(pad) && forall a :: a in args ==> WellFormed(a)
    ensures NestedInside(Inner(args, comma, pad)) && Scannable(PiecesOf(args))
    decreases args, 0
  {
    forall k | 0 <= k < |args|
      ensures IsPiece(PiecesOf(args)[k])
    {
      PrintNested(args[k]);
    }
    PiecesNested(PiecesOf(args), comma, pad);
    InnerIsPieces(args, comma, pad);
  }

  // ---------------------------------------------------------------------
  // Parsing undoes printing
  // ---------------------------------------------------------------------

  function Cores(args: seq<Cfg>): (r: seq<string>)
    ensures |r| == |args|
  {
    if args == [] then [] else [Core(args[0])] + Cores(args[1..])
  }

  lemma {:induction false} CoresAt(args: seq<Cfg>, k: nat)
    requires k < |args|
    ensures Cores(args)[k] == Core(args[k])
  {
    if k > 0 { CoresAt(args[1..], k - 1); }
  }

  lemma {:induction false} CoresOfPieces(args: seq<Cfg>)
    ensures Cores(args) == CoresOf(PiecesOf(args))
  {
    forall k | 0 <= k < |args| ensures Cores(args)[k] == Core(args[k]) { CoresAt(args, k); }
  }

  lemma {:induction false} OnePiece(t: string, rest: string)
    requires Nested(t)
    ensures SplitFrom(t + ("," + rest), 0, []) == [Strip(t)] + SplitFrom(rest, 0, [])
    ensures SplitFrom(t + rest, 0, []) == SplitFrom(rest, 0, t)
  {
    SplitSunk(t, "," + rest, 0, []);
    SplitSunk(t, rest, 0, []);
    assert [] + t == t && ("," + rest)[1..] == rest;
  }

  lemma {:induction false} BlankPiece(pad: string)
    requires Blank(pad)
    ensures SplitFrom(pad, 0, []) == []
  {
    BlankIsPlain(pad);
    PlainNested(pad);
    OnePiece(pad, "");
    assert pad + "" == pad;
    StripPadded(pad, "", "");
    assert pad + "" + "" == pad;
  }

  lemma {:induction false} TailPiece(t: string, rest: string)
    requires Blank(rest) && Strip(t + rest) != ""
    ensures SplitFrom(rest, 0, t) == [Strip(t + rest)]
  {
    BlankIsPlain(rest);
    PlainSinks(rest, 0);
    SplitSunk(rest, "", 0, t);
    assert rest + "" == rest;
  }

  lemma {:induction false} LastPiece(t: string, core: string, lead: string, trail: string, pad: string)
    requires Nested(t) && t == lead + core + trail && Trim(core) && Blank(lead) && Blank(trail) && Blank(pad)
    ensures SplitFrom(t + ("," + pad), 0, []) == [core]
    ensures SplitFrom(t + pad, 0, []) == [core]
  {
    OnePiece(t, pad);
    BlankPiece(pad);
    StripLast(t, core, lead, trail, pad);
    TailPiece(t, pad);
  }

  lemma {:induction false} StripLast(t: string, core: string, lead: string, trail: string, pad: string)
    requires t == lead + core + trail && Trim(core) && Blank(lead) && Blank(trail) && Blank(pad)
    ensures Strip(t) == core && Strip(t + pad) == core
  {
    StripPadded(lead, core, trail);
    assert t + pad == lead + core + (trail + pad);
    StripPadded(lead, core, trail + pad);
  }

  /** The splitter gives back the pieces, whatever the layout. */
  lemma {:induction false} SplitPieces(ps: seq<Piece>, comma: bool, pad: string)
    requires Blank(pad) && Scannable(ps)
    ensures SplitFrom(Joined(ps, comma, pad), 0, []) == CoresOf(ps)
    decreases |ps|
  {
    if ps == [] {
      BlankPiece(pad);
    } else {
      var a := ps[0];
      PieceNested(a);
      if |ps| == 1 {
        LastPiece(PieceText(a), a.core, a.lead, a.trail, pad);
        assert "" + pad == pad;
        assert CoresOf(ps) == [a.core];
      } else {
        OnePiece(PieceText(a), Joined(ps[1..], comma, pad));
        StripPadded(a.lead, a.core, a.trail);
        SplitPieces(ps[1..], comma, pad);
        assert CoresOf(ps) == [a.core] + CoresOf(ps[1..]);
      }
    }
  }

  /** The splitter gives back the arguments, whatever the layout. */
  lemma {:induction false} SplitInner(args: seq<Cfg>, comma: bool, pad: string)
    requires Blank(pad) && forall a :: a in args ==> WellFormed(a)
    ensures SplitFrom(Inner(args, comma, pad), 0, []) == Cores(args)
  {
    InnerNested(args, comma, pad);
    SplitPieces(PiecesOf(args), comma, pad);
    InnerIsPieces(args, comma, pad);
    CoresOfPieces(args);
  }

  lemma {:induction false} SkipBlank(gap: string, rest: string)
    requires Blank(gap) && rest != "" && !IsSpace(rest[0])
    ensures SkipSpaces(gap + rest) == |gap|
  {
    if gap == [] {
      assert gap + rest == rest;
    } else {
      assert (gap + rest)[1..] == gap[1..] + rest;
      SkipBlank(gap[1..], rest);
    }
  }

  lemma {:induction false} MatchParens(before: string, inner: string, after: string)
    requires ParenNeutral(inner)
    ensures var text := before + ("(" + inner + ")") + after;
            MatchSpan(text, |before|) == Some(|before| + 1 + |inner|)
  {
    var text := before + ("(" + inner + ")") + after;
    assert text[|before|] == '(';
    assert text[|before|+1..] == inner + (")" + after);
    NeutralAt(inner, ")" + after, 1);
    OpenStep(after, 1);
  }

  lemma {:induction false} CallReads(meta: string, p: nat, inner: string)
    requires |meta| == p + 2 + |inner| && MatchSpan(meta, p) == Some(p + 1 + |inner|)
    requires meta[p+1..p+1+|inner|] == inner
    ensures GroupArgs(meta, p) == Some(SplitFrom(inner, 0, []))
  {
    NothingAfter(meta, p + 1 + |inner|);
  }

  lemma {:induction false} NameSkipped(meta: string, name: string, p: nat, args: seq<string>)
    requires name <= meta && p == |name| + SkipSpaces(meta[|name|..])
    requires GroupArgs(meta, p) == Some(args)
    ensures MetaCallArgs(meta, name) == Some(args)
  {
  }

  lemma {:induction false} GroupStarts(meta: string, name: string, gap: string, group: string)
    requires meta == name + gap + group && SkipSpaces(gap + group) == |gap|
    ensures name <= meta && SkipSpaces(meta[|name|..]) == |gap|
  {
    assert meta[|name|..] == gap + group;
  }

  lemma {:induction false} NothingAfter(meta: string, k: nat)
    requires |meta| == k + 1
    ensures Strip(meta[k+1..]) == ""
  {
    assert meta[k+1..] == "";
  }

  /** A call of printed pieces is read back as a call with exactly these. */
  lemma {:induction false} PiecesParse(name: string, gap: string, ps: seq<Piece>, comma: bool, pad: string)
    requires Blank(gap) && Blank(pad) && Scannable(ps)
    ensures MetaCallArgs(name + gap + ("(" + Joined(ps, comma, pad) + ")"), name) == Some(CoresOf(ps))
  {
    var meta := name + gap + ("(" + Joined(ps, comma, pad) + ")");
    PiecesNested(ps, comma, pad);
    SplitPieces(ps, comma, pad);
    GroupIsRead(meta, name + gap, |name + gap|, Joined(ps, comma, pad), CoresOf(ps));
    GroupIsReached(meta, name, gap, "(" + Joined(ps, comma, pad) + ")");
    NameSkipped(meta, name, |name| + |gap|, CoresOf(ps));
  }

  /** A printed call is read back as a call with exactly its arguments. */
  lemma {:induction false} CallParses(name: string, gap: string, args: seq<Cfg>, comma: bool, pad: string)
    requires Blank(gap) && Blank(pad) && forall a :: a in args ==> WellFormed(a)
    ensures MetaCallArgs(name + gap + ("(" + Inner(args, comma, pad) + ")"), name) == Some(Cores(args))
  {
    InnerNested(args, comma, pad);
    PiecesParse(name, gap, PiecesOf(args), comma, pad);
    InnerIsPieces(args, comma, pad);
    CoresOfPieces(args);
  }

  lemma {:induction false} GroupIsReached(meta: string, name: string, gap: string, group: string)
    requires Blank(gap) && meta == name + gap + group && group != "" && !IsSpace(group[0])
    ensures name <= meta && |name| + |gap| == |name| + SkipSpaces(meta[|name|..])
  {
    SkipBlank(gap, group);
    GroupStarts(meta, name, gap, group);
  }

  lemma {:induction false} GroupIsRead(meta: string, before: string, p: nat, inner: string, args: seq<string>)
    requires ParenNeutral(inner) && meta == before + ("(" + inner + ")") && p == |before|
    requires args == SplitFrom(inner, 0, [])
    ensures GroupArgs(meta, p) == Some(args)
  {
    GroupReads(meta, before, p, inner);
  }

  lemma {:induction false} GroupReads(meta: string, before: string, p: nat, inner: string)
    requires ParenNeutral(inner) && meta == before + ("(" + inner + ")") && p == |before|
    ensures GroupArgs(meta, p) == Some(SplitFrom(inner, 0, []))
  {
    MatchParens(before, inner, "");
    assert meta + "" == meta;
    assert meta[p+1..p+1+|inner|] == inner;
    CallReads(meta, p, inner);
  }

  /** Text without delimiters is no call. */
  lemma {:induction false} PlainIsNoCall(meta: string, name: string)
    requires Plain(meta)
    ensures MetaCallArgs(meta, name).None?
  {
  }

  lemma {:induction false} StripPrinted(t: Cfg)
    requires WellFormed(t)
    ensures Strip(Print(t)) == Core(t) && Strip(Core(t)) == Core(t)
  {
    PrintNested(t);
    StripPadded(t.lead, Core(t), t.trail);
    StripPadded("", Core(t), "");
    assert "" + Core(t) + "" == Core(t);
  }

  lemma {:induction false} CoreIsNotKani(t: Cfg)
    requires WellFormed(t) && !t.Kani?
    ensures Core(t) != "kani"
  {
    if t.Call? { NamePlain(t.op); }
  }

  /** The evaluator gives every printed cfg expression its Boolean meaning. */
  lemma {:induction false} CfgMeaning(t: Cfg)
    requires WellFormed(t)
    ensures CfgActive(Core(t)) == Meaning(t) && CfgActive(Print(t)) == Meaning(t)
    decreases t
  {
    StripPrinted(t);
    EvalStrips(Print(t));
    match t {
      case Kani(_, _) =>
      case Flag(_, text, _) =>
        PlainIsNoCall(text, "all");
        PlainIsNoCall(text, "any");
        PlainIsNoCall(text, "not");
      case Call(_, _, _, args, _, _, _) =>
        CoreIsNotKani(t);
        forall k | 0 <= k < |args| ensures CfgActive(Cores(args)[k]) == Meaning(args[k]) {
          CoresAt(args, k);
          CfgMeaning(args[k]);
        }
        CallMeaning(t);
    }
  }

  lemma {:induction false} EvalAll(e: string, args: seq<string>)
    requires Strip(e) == e && e != "kani" && MetaCallArgs(e, "all") == Some(args)
    ensures CfgActive(e) <==> forall k :: 0 <= k < |args| ==> CfgActive(args[k])
  {
  }

  lemma {:induction false} EvalAny(e: string, args: seq<string>)
    requires Strip(e) == e && e != "kani" && MetaCallArgs(e, "all").None? && MetaCallArgs(e, "any") == Some(args)
    ensures CfgActive(e) <==> exists k :: 0 <= k < |args| && CfgActive(args[k])
  {
  }

  lemma {:induction false} EvalNot(e: string, args: seq<string>)
    requires Strip(e) == e && e != "kani" && MetaCallArgs(e, "all").None? && MetaCallArgs(e, "any").None?
    requires MetaCallArgs(e, "not") == Some(args)
    ensures CfgActive(e) <==> |args| == 1 && !CfgActive(args[0])
  {
  }

  lemma {:induction false} EvalStrips(s: string)
    requires Strip(Strip(s)) == Strip(s)
    ensures CfgActive(s) == CfgActive(Strip(s))
  {
  }

  ghost predicate ArgsAgree(t: Cfg)
    requires t.Call?
  {
    forall k :: 0 <= k < |t.args| ==> CfgActive(Cores(t.args)[k]) == Meaning(t.args[k])
  }

  lemma {:induction false} CoreParses(t: Cfg)
    requires WellFormed(t) && t.Call?
    ensures MetaCallArgs(Core(t), OpName(t.op)) == Some(Cores(t.args))
  {
    CallParses(OpName(t.op), t.gap, t.args, t.comma, t.pad);
  }

  lemma {:induction false} CoreHasOneName(t: Cfg, name: string)
    requires t.Call? && |name| == 3 && name != OpName(t.op)
    ensures MetaCallArgs(Core(t), name).None?
  {
    NamePlain(t.op);
    assert Core(t)[..3] == OpName(t.op);
  }

  lemma {:induction false} CallMeaning(t: Cfg)
    requires WellFormed(t) && t.Call? && Core(t) != "kani" && Strip(Core(t)) == Core(t) && ArgsAgree(t)
    ensures CfgActive(Core(t)) == Meaning(t)
  {
    CoreParses(t);
    if t.op != All { CoreHasOneName(t, "all"); }
    if t.op == Not { CoreHasOneName(t, "any"); }
    CallEvaluates(t, Core(t), Cores(t.args));
  }

  lemma {:induction false} CallEvaluates(t: Cfg, e: string, cores: seq<string>)
    requires t.Call? && |cores| == |t.args| && Strip(e) == e && e != "kani"
    requires MetaCallArgs(e, OpName(t.op)) == Some(cores)
    requires t.op != All ==> MetaCallArgs(e, "all").None?
    requires t.op == Not ==> MetaCallArgs(e, "any").None?
    requires forall k :: 0 <= k < |cores| ==> CfgActive(cores[k]) == Meaning(t.args[k])
    ensures CfgActive(e) == Meaning(t)
  {
    match t.op
    case All => EvalAll(e, cores);
    case Any => EvalAny(e, cores);
    case Not => EvalNot(e, cores);
  }

  lemma {:induction false} InactiveReads(meta: string, arg: string)
    requires Strip(meta) == meta && MetaCallArgs(meta, "cfg") == Some([arg])
    ensures IsInactiveCfgMeta(meta) <==> !CfgActive(arg)
  {
  }

  /** `#[cfg(tree)]` is treated as inactive exactly when the tree is false. */
  lemma {:induction false} CfgAttributeMeaning(tree: Cfg, gap: string, comma: bool, pad: string)
    requires WellFormed(tree) && Blank(gap) && Blank(pad)
    ensures IsInactiveCfgMeta("cfg" + gap + ("(" + Inner([tree], comma, pad) + ")")) <==> !Meaning(tree)
  {
    CallParses("cfg", gap, [tree], comma, pad);
    StripCall("cfg", gap, Inner([tree], comma, pad));
    assert Cores([tree]) == [Core(tree)];
    InactiveReads("cfg" + gap + ("(" + Inner([tree], comma, pad) + ")"), Core(tree));
    CfgMeaning(tree);
  }

  lemma {:induction false} StripCall(name: string, gap: string, inner: string)
    requires Trim(name)
    ensures var meta := name + gap + ("(" + inner + ")"); Strip(meta) == meta
  {
    var meta := name + gap + ("(" + inner + ")");
    assert meta[0] == name[0] && meta[|meta|-1] == ')';
    StripPadded("", meta, "");
    assert "" + meta + "" == meta;
  }
}
