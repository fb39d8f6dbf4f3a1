/** The attributes harness files carry, as printed text, and how the tests of
    `scripts/extract_proof_harnesses.py` judge them. */
module HarnessAttributes {
  import opened CfgExpr
  import opened Delimiters
  import opened Extractor
  import opened Wrappers

  // ---------------------------------------------------------------------
  // Attributes
  // ---------------------------------------------------------------------

  /** An attribute and its layout: the four kinds the script knows, and any other, which is a path and
      whatever follows it, if anything. */
  datatype Attribute =
    | Proof
    | ProofCall(gap: string, args: string)
    | Contract(gap: string, args: string)
    | CfgOf(gap: string, tree: Cfg, comma: bool, pad: string)
    | CfgAttr(gap: string, condition: Cfg, parts: seq<Part>, comma: bool, pad: string)
    | Foreign(path: string, rest: string)

  /** An attribute under a `cfg_attr`, with the blanks around it. */
  datatype Part = Part(lead: string, attr: Attribute, trail: string)

  const PROOF := "kani::proof"
  const CONTRACT := "kani::proof_for_contract"

  predicate IsPathChar(c: char) { 'a' <= c <= 'z' || 'A' <= c <= 'Z' || '0' <= c <= '9' || c == '_' || c == ':' }

  predicate IsPath(s: string) { forall i :: 0 <= i < |s| ==> IsPathChar(s[i]) }

  /** What follows a path, and does not go on with it. */
  predicate IsRest(s: string) { s == "" || !IsPathChar(s[0]) }

  ghost predicate Layout(a: Attribute)
    decreases a, 1
  {
    match a
    case Proof => true
    case ProofCall(gap, _) => Blank(gap)
    case Contract(gap, _) => Blank(gap)
    case CfgOf(gap, tree, _, pad) => Blank(gap) && Blank(pad) && WellFormed(tree)
    case CfgAttr(gap, condition, parts, _, pad) =>
      Blank(gap) && Blank(pad) && WellFormed(condition) && forall p :: p in parts ==> PartLayout(p)
    case Foreign(path, rest) =>
      IsPath(path) && path != "" && IsRest(rest)
      && path != PROOF && path != CONTRACT && path != "cfg" && path != "cfg_attr"
  }

  /** Between commas an attribute's own arguments must not confuse the splitter: their delimiters are
      balanced and hold every comma. */
  ghost predicate PartLayout(p: Part)
    decreases p, 0
  {
    Blank(p.lead) && Blank(p.trail) && Layout(p.attr) &&
    match p.attr
    case ProofCall(_, args) => NestedInside(args)
    case Contract(_, args) => NestedInside(args)
    case Foreign(path, rest) => Nested(rest) && Trim(path + rest)
    case _ => true
  }

  function TextOf(a: Attribute): string
    decreases a, 1
  {
    match a
    case Proof => PROOF
    case ProofCall(gap, args) => PROOF + gap + ("(" + args + ")")
    case Contract(gap, args) => CONTRACT + gap + ("(" + args + ")")
    case CfgOf(gap, tree, comma, pad) => "cfg" + gap + ("(" + Inner([tree], comma, pad) + ")")
    case CfgAttr(gap, condition, parts, comma, pad) =>
      "cfg_attr" + gap + ("(" + Joined([ConditionPiece(condition)] + PartPieces(parts), comma, pad) + ")")
    case Foreign(path, rest) => path + rest
  }

  function ConditionPiece(condition: Cfg): Piece { Piece(condition.lead, Core(condition), condition.trail) }

  function PartPieces(parts: seq<Part>): (r: seq<Piece>)
    ensures |r| == |parts|
    decreases parts, 0
  {
    if parts == [] then []
    else [Piece(parts[0].lead, TextOf(parts[0].attr), parts[0].trail)] + PartPieces(parts[1..])
  }

  /** An attribute that by itself makes the function under it a harness. */
  predicate IsProofAttribute(a: Attribute) { a.Proof? || a.ProofCall? || a.Contract? }

  /** Does the attribute make the function under it a harness when `kani` is set? One `cfg_attr` inside
      another is not looked into. */
  predicate MarksHarness(a: Attribute) {
    IsProofAttribute(a) ||
    (a.CfgAttr? && a.condition.Kani? && exists k :: 0 <= k < |a.parts| && IsProofAttribute(a.parts[k].attr))
  }

  /** Does the attribute take the item away when `kani` alone is set? */
  predicate Disables(a: Attribute) { a.CfgOf? && !Meaning(a.tree) }

  // ---------------------------------------------------------------------
  // Paths
  // ---------------------------------------------------------------------

  lemma {:induction false} KnownPaths()
    ensures IsPath(PROOF) && IsPath(CONTRACT) && IsPath("cfg") && IsPath("cfg_attr")
    ensures Trim(PROOF) && Trim(CONTRACT) && Plain(PROOF) && Plain(CONTRACT) && Plain("cfg") && Plain("cfg_attr")
    ensures |PROOF| > 3 && |CONTRACT| > 3 && PROOF[0] == 'k' && CONTRACT[0] == 'k'
  {
  }

  lemma {:induction false} PathCharIsPlain(c: char)
    requires IsPathChar(c)
    ensures !IsSpace(c) && !IsOpener(c) && !Opens(c) && !Closes(c) && c != ','
  {
  }

  lemma {:induction false} PathIsPlain(path: string)
    requires IsPath(path)
    ensures Plain(path) && forall i :: 0 <= i < |path| ==> !IsSpace(path[i])
  {
    forall i | 0 <= i < |path| ensures !IsSpace(path[i]) && !Opens(path[i]) && !Closes(path[i]) && path[i] != ',' {
      PathCharIsPlain(path[i]);
    }
  }

  /** A known path that another path's attribute starts with is a proper prefix of that path. */
  lemma {:induction false} OtherPathGoesOn(path: string, rest: string, known: string)
    requires IsPath(path) && IsRest(rest) && IsPath(known) && path != known && known <= path + rest
    ensures |known| < |path| && (path + rest)[|known|] == path[|known|] && IsPathChar(path[|known|])
  {
    assert (path + rest)[..|path|] == path;
  }

  /** Neither nothing nor a group follows the known path then. */
  lemma {:induction false} GoesOnWithPath(m: string, k: nat)
    requires k < |m| && IsPathChar(m[k])
    ensures Strip(m[k..]) != "" && !Parenthesised(Strip(m[k..])) && SkipSpaces(m[k..]) == 0 && MatchSpan(m, k).None?
  {
    PathCharIsPlain(m[k]);
    var tail := m[k..];
    var lead, trail := StripDecomposes(tail);
    assert tail[0] == m[k];
    assert (lead + Strip(tail) + trail)[0] == tail[0];
  }

  /** Stripping an attribute of another path leaves one. */
  lemma {:induction false} StripOther(path: string, rest: string) returns (rest': string)
    requires IsPath(path) && IsRest(rest) && path != ""
    ensures Strip(path + rest) == path + rest' && IsRest(rest')
  {
    PathIsPlain(path);
    var lead, trail := StripDecomposes(rest);
    if Strip(rest) == "" {
      rest' := "";
      assert path + rest == "" + path + (lead + trail);
      StripPadded("", path, lead + trail);
      assert path + rest' == path;
    } else {
      rest' := lead + Strip(rest);
      StripTail(path, rest', trail);
      assert path + rest == path + (rest' + trail);
      assert (rest' + trail)[0] == rest[0];
    }
  }

  lemma {:induction false} StripTail(path: string, rest: string, trail: string)
    requires path != "" && !IsSpace(path[0]) && rest != "" && !IsSpace(rest[|rest| - 1]) && Blank(trail)
    ensures Strip(path + (rest + trail)) == path + rest
  {
    var core := path + rest;
    assert path + (rest + trail) == "" + core + trail;
    assert core[0] == path[0] && core[|core| - 1] == rest[|rest| - 1];
    StripPadded("", core, trail);
  }

  // ---------------------------------------------------------------------
  // How attributes are judged
  // ---------------------------------------------------------------------

  lemma {:induction false} OtherIsNoHarness(path: string, rest: string)
    requires Layout(Foreign(path, rest))
    ensures !IsHarnessMeta(path + rest)
  {
    KnownPaths();
    var rest' := StripOther(path, rest);
    var m := path + rest';
    if PROOF <= m {
      OtherPathGoesOn(path, rest', PROOF);
      GoesOnWithPath(m, |PROOF|);
    }
    if CONTRACT <= m {
      OtherPathGoesOn(path, rest', CONTRACT);
      GoesOnWithPath(m, |CONTRACT|);
    }
  }

  lemma {:induction false} OtherIsNoCall(path: string, rest: string, name: string)
    requires IsPath(path) && IsRest(rest) && IsPath(name) && path != name
    ensures MetaCallArgs(path + rest, name).None?
  {
    if name <= path + rest {
      OtherPathGoesOn(path, rest, name);
      GoesOnWithPath(path + rest, |name|);
    }
  }

  lemma {:induction false} OtherJudged(path: string, rest: string)
    requires Layout(Foreign(path, rest))
    ensures !IsHarnessMeta(path + rest) && !IsCfgAttrHarness(path + rest) && !IsInactiveCfgMeta(path + rest)
  {
    KnownPaths();
    OtherIsNoHarness(path, rest);
    OtherIsNoCall(path, rest, "cfg_attr");
    var rest' := StripOther(path, rest);
    OtherIsNoCall(path, rest', "cfg");
  }

  lemma {:induction false} CallTail(name: string, gap: string, args: string)
    requires Blank(gap) && Trim(name)
    ensures var m := name + gap + ("(" + args + ")");
            Strip(m) == m && name <= m && Parenthesised(Strip(m[|name|..]))
  {
    var group := "(" + args + ")";
    var m := name + gap + group;
    StripCall(name, gap, args);
    assert m[|name|..] == gap + group + "";
    StripPadded(gap, group, "");
  }

  lemma {:induction false} OtherStart(meta: string)
    requires Strip(meta) == meta && |meta| > 0 && meta[0] != 'k'
    ensures !IsHarnessMeta(meta)
  {
    KnownPaths();
  }

  lemma {:induction false} CfgStart(name: string, gap: string, inner: string)
    requires (name == "cfg" || name == "cfg_attr") && Blank(gap)
    ensures !IsHarnessMeta(name + gap + ("(" + inner + ")"))
  {
    StripCall(name, gap, inner);
    OtherStart(name + gap + ("(" + inner + ")"));
  }

  /** The four kinds and the others, by the harness test alone. */
  lemma {:induction false} HarnessTest(a: Attribute)
    requires Layout(a)
    ensures IsHarnessMeta(TextOf(a)) <==> IsProofAttribute(a)
  {
    KnownPaths();
    match a
    case Proof => PlainProofMeta();
    case ProofCall(gap, args) => CallTail(PROOF, gap, args);
    case Contract(gap, args) => CallTail(CONTRACT, gap, args);
    case CfgOf(gap, tree, comma, pad) => CfgStart("cfg", gap, Inner([tree], comma, pad));
    case CfgAttr(gap, condition, parts, comma, pad) =>
      CfgStart("cfg_attr", gap, Joined([ConditionPiece(condition)] + PartPieces(parts), comma, pad));
    case Foreign(path, rest) => OtherIsNoHarness(path, rest);
  }

  // ---------------------------------------------------------------------
  // Attributes under a `cfg_attr`
  // ---------------------------------------------------------------------

  lemma {:induction false} CallNested(name: string, gap: string, inner: string)
    requires Plain(name) && Trim(name) && Blank(gap) && NestedInside(inner)
    ensures Nested(name + gap + ("(" + inner + ")")) && Trim(name + gap + ("(" + inner + ")"))
  {
    PlainNested(name);
    BlankIsPlain(gap);
    PlainNested(gap);
    ParensNest(inner);
    NestedAppend(name, gap);
    NestedAppend(name + gap, "(" + inner + ")");
    var m := name + gap + ("(" + inner + ")");
    assert m[0] == name[0] && m[|m| - 1] == ')';
  }

  lemma {:induction false} PartIsPiece(p: Part)
    requires PartLayout(p)
    ensures IsPiece(Piece(p.lead, TextOf(p.attr), p.trail))
    decreases p
  {
    KnownPaths();
    match p.attr
    case Proof => PlainNested(PROOF);
    case ProofCall(gap, args) => CallNested(PROOF, gap, args);
    case Contract(gap, args) => CallNested(CONTRACT, gap, args);
    case CfgOf(gap, tree, comma, pad) =>
      InnerNested([tree], comma, pad);
      CfgNames("cfg");
      CallNested("cfg", gap, Inner([tree], comma, pad));
    case CfgAttr(gap, condition, parts, comma, pad) =>
      PartsArePieces(condition, parts);
      PiecesNested([ConditionPiece(condition)] + PartPieces(parts), comma, pad);
      CfgNames("cfg_attr");
      CallNested("cfg_attr", gap, Joined([ConditionPiece(condition)] + PartPieces(parts), comma, pad));
    case Foreign(path, rest) =>
      PathIsPlain(path);
      PlainNested(path);
      NestedAppend(path, rest);
  }

  lemma {:induction false} CfgNames(name: string)
    requires name == "cfg" || name == "cfg_attr"
    ensures Plain(name) && Trim(name)
  {
  }

  lemma {:induction false} PartPiecesAt(parts: seq<Part>, k: nat)
    requires k < |parts|
    ensures PartPieces(parts)[k] == Piece(parts[k].lead, TextOf(parts[k].attr), parts[k].trail)
  {
    if k > 0 { PartPiecesAt(parts[1..], k - 1); }
  }

  lemma {:induction false} PartsArePieces(condition: Cfg, parts: seq<Part>)
    requires WellFormed(condition) && forall p :: p in parts ==> PartLayout(p)
    ensures Scannable([ConditionPiece(condition)] + PartPieces(parts))
    decreases parts
  {
    PrintNested(condition);
    var ps := [ConditionPiece(condition)] + PartPieces(parts);
    forall k | 0 <= k < |ps| ensures IsPiece(ps[k]) {
      if k > 0 {
        PartPiecesAt(parts, k - 1);
        PartIsPiece(parts[k - 1]);
      }
    }
  }

  lemma {:induction false} CfgAttrJudged(gap: string, condition: Cfg, parts: seq<Part>, comma: bool, pad: string)
    requires Layout(CfgAttr(gap, condition, parts, comma, pad))
    ensures var a := CfgAttr(gap, condition, parts, comma, pad);
            (IsCfgAttrHarness(TextOf(a)) <==> MarksHarness(a)) && !IsInactiveCfgMeta(TextOf(a))
  {
    var ps := [ConditionPiece(condition)] + PartPieces(parts);
    var inner := Joined(ps, comma, pad);
    var m := "cfg_attr" + gap + ("(" + inner + ")");
    PartsArePieces(condition, parts);
    PiecesParse("cfg_attr", gap, ps, comma, pad);
    forall k | 0 <= k < |parts| ensures IsHarnessMeta(CoresOf(ps)[k+1]) <==> IsProofAttribute(parts[k].attr) {
      assert parts[k] in parts && PartLayout(parts[k]);
      PartPiecesAt(parts, k);
      HarnessTest(parts[k].attr);
    }
    CfgAttrReads(m, condition, parts, CoresOf(ps));
    CfgAttrIsNoCfg(gap, inner);
  }

  lemma {:induction false} CfgAttrReads(m: string, condition: Cfg, parts: seq<Part>, cores: seq<string>)
    requires MetaCallArgs(m, "cfg_attr") == Some(cores) && WellFormed(condition)
    requires |cores| == |parts| + 1 && cores[0] == Core(condition)
    requires forall k :: 0 <= k < |parts| ==> (IsHarnessMeta(cores[k+1]) <==> IsProofAttribute(parts[k].attr))
    ensures IsCfgAttrHarness(m) <==>
            condition.Kani? && exists k :: 0 <= k < |parts| && IsProofAttribute(parts[k].attr)
  {
    StripPrinted(condition);
    if !condition.Kani? { CoreIsNotKani(condition); }
    if condition.Kani? && exists k :: 0 <= k < |parts| && IsProofAttribute(parts[k].attr) {
      var k :| 0 <= k < |parts| && IsProofAttribute(parts[k].attr);
      assert IsHarnessMeta(cores[k+1]);
    }
    if IsCfgAttrHarness(m) {
      var k :| 1 <= k < |cores| && IsHarnessMeta(cores[k]);
      assert IsHarnessMeta(cores[(k-1)+1]) && IsProofAttribute(parts[k-1].attr);
    }
  }

  lemma {:induction false} CfgAttrIsNoCfg(gap: string, inner: string)
    requires Blank(gap)
    ensures !IsInactiveCfgMeta("cfg_attr" + gap + ("(" + inner + ")"))
  {
    var m := "cfg_attr" + gap + ("(" + inner + ")");
    StripCall("cfg_attr", gap, inner);
    assert m[3] == "cfg_attr"[3] == '_';
    GoesOnWithPath(m, 3);
  }

  lemma {:induction false} CfgIsNoCfgAttr(gap: string, inner: string)
    requires Blank(gap)
    ensures !IsCfgAttrHarness("cfg" + gap + ("(" + inner + ")"))
  {
    var m := "cfg" + gap + ("(" + inner + ")");
    assert m[3] == if gap == "" then '(' else gap[0];
    assert "cfg_attr"[3] == '_';
  }

  lemma {:induction false} ProofIsNoCfg(meta: string)
    requires meta != "" && meta[0] == 'k' && Strip(meta) == meta
    ensures !IsCfgAttrHarness(meta) && !IsInactiveCfgMeta(meta)
  {
    assert "cfg"[0] == 'c' && "cfg_attr"[0] == 'c';
  }

  /** The program's judge gives every printed attribute its meaning. */
  lemma {:induction false} AttributeJudged(a: Attribute)
    requires Layout(a)
    ensures KANI.harness(TextOf(a)) <==> MarksHarness(a)
    ensures KANI.inactive(TextOf(a)) <==> Disables(a)
  {
    KnownPaths();
    HarnessTest(a);
    match a
    case Proof => BareProofIsNoCfg();
    case ProofCall(gap, args) => ProofCallIsNoCfg(PROOF, gap, args);
    case Contract(gap, args) => ProofCallIsNoCfg(CONTRACT, gap, args);
    case CfgOf(gap, tree, comma, pad) =>
      CfgAttributeMeaning(tree, gap, comma, pad);
      CfgIsNoCfgAttr(gap, Inner([tree], comma, pad));
    case CfgAttr(gap, condition, parts, comma, pad) => CfgAttrJudged(gap, condition, parts, comma, pad);
    case Foreign(path, rest) => OtherJudged(path, rest);
  }

  lemma {:induction false} BareProofIsNoCfg()
    ensures !IsCfgAttrHarness(PROOF) && !IsInactiveCfgMeta(PROOF)
  {
    KnownPaths();
    StripPadded("", PROOF, "");
    assert "" + PROOF + "" == PROOF;
    ProofIsNoCfg(PROOF);
  }

  lemma {:induction false} ProofCallIsNoCfg(name: string, gap: string, args: string)
    requires Trim(name) && name[0] == 'k' && Blank(gap)
    ensures var m := name + gap + ("(" + args + ")"); !IsCfgAttrHarness(m) && !IsInactiveCfgMeta(m)
  {
    CallTail(name, gap, args);
    ProofIsNoCfg(name + gap + ("(" + args + ")"));
  }

  /** For one: a contract's own attributes, with any condition, make no harness. */
  lemma {:induction false} RequiresIsNoHarness(path: string, condition: string)
    requires path == "kani::requires"
    ensures !KANI.harness(path + ("(" + condition + ")")) && !KANI.inactive(path + ("(" + condition + ")"))
  {
    RequiresIsOther(path);
    AttributeJudged(Foreign(path, "(" + condition + ")"));
  }

  lemma {:induction false} RequiresIsOther(path: string)
    requires path == "kani::requires"
    ensures IsPath(path) && path != "" && path != PROOF && path != CONTRACT && path != "cfg" && path != "cfg_attr"
  {
    assert path[6] == 'r' && PROOF[6] == 'p' && CONTRACT[6] == 'p';
  }

  // ---------------------------------------------------------------------
  // Trees whose attributes are printed
  // ---------------------------------------------------------------------

  /** A source tree with attributes in place of their text. */
  datatype Tree =
    | FnTree(attrs: seq<Attribute>, name: string, body: seq<Tree>)
    | ModTree(attrs: seq<Attribute>, name: string, items: seq<Tree>)

  ghost predicate LaidOut(t: Tree) {
    (forall a :: a in t.attrs ==> Layout(a)) &&
    match t
    case FnTree(_, _, body) => forall c :: c in body ==> LaidOut(c)
    case ModTree(_, _, items) => forall c :: c in items ==> LaidOut(c)
  }

  function Lines(attrs: seq<Attribute>): (r: seq<AttrLine>)
    ensures |r| == |attrs|
  {
    seq(|attrs|, i requires 0 <= i < |attrs| => Meta(TextOf(attrs[i]), 0))
  }

  function ItemOf(t: Tree): Item
    decreases t, 0
  {
    match t
    case FnTree(attrs, name, body) => Fn(Lines(attrs), name, 0, ItemsOf(body))
    case ModTree(attrs, name, items) => Mod(Lines(attrs), name, 0, ItemsOf(items))
  }

  function ItemsOf(ts: seq<Tree>): seq<Item>
    decreases ts, 0
  {
    if ts == [] then [] else [ItemOf(ts[0])] + ItemsOf(ts[1..])
  }

  predicate IsLive(attrs: seq<Attribute>) {
    (exists i :: 0 <= i < |attrs| && MarksHarness(attrs[i])) && !(exists i :: 0 <= i < |attrs| && Disables(attrs[i]))
  }

  /** `path::name` of each live function, in order. */
  function LiveNames(ts: seq<Tree>, path: string): seq<string>
    decreases ts, 0
  {
    if ts == [] then [] else LiveNamesOf(ts[0], path) + LiveNames(ts[1..], path)
  }

  function LiveNamesOf(t: Tree, path: string): seq<string>
    decreases t, 0
  {
    match t
    case FnTree(attrs, name, body) => (if IsLive(attrs) then [path + name] else []) + LiveNames(body, path)
    case ModTree(_, name, items) => LiveNames(items, path + name + "::")
  }

  lemma {:induction false} LiveMeaning(attrs: seq<Attribute>)
    requires forall a :: a in attrs ==> Layout(a)
    ensures Live(KANI, Lines(attrs)) <==> IsLive(attrs)
  {
    var lines := Lines(attrs);
    forall i | 0 <= i < |attrs|
      ensures lines[i].Meta? && (KANI.harness(lines[i].meta) <==> MarksHarness(attrs[i])) &&
              (KANI.inactive(lines[i].meta) <==> Disables(attrs[i]))
    {
      AttributeJudged(attrs[i]);
    }
    LiveByLines(KANI, lines, attrs);
  }

  lemma {:induction false} LiveByLines(j: Judge, lines: seq<AttrLine>, attrs: seq<Attribute>)
    requires |lines| == |attrs| && forall i :: 0 <= i < |lines| ==> lines[i].Meta?
    requires forall i :: 0 <= i < |lines| ==> (j.harness(lines[i].meta) <==> MarksHarness(attrs[i]))
    requires forall i :: 0 <= i < |lines| ==> (j.inactive(lines[i].meta) <==> Disables(attrs[i]))
    ensures Live(j, lines) <==> IsLive(attrs)
  {
  }

  /** The text before a name: the modules around it, each followed by `::`. */
  function Path(stack: seq<Entry>): string {
    if stack == [] then "" else Path(stack[..|stack|-1]) + stack[|stack|-1].name + "::"
  }

  lemma {:induction false} QualifiedByPath(name: string, stack: seq<Entry>)
    ensures Qualify(name, stack) == Path(stack) + name
    decreases |stack|
  {
    if stack == [] {
      assert "" + name == name;
    } else {
      var top, below := stack[|stack|-1].name, stack[..|stack|-1];
      QualifiedByPath(top + "::" + name, below);
      assert Path(below) + (top + "::" + name) == (Path(below) + top + "::") + name;
    }
  }

  lemma {:induction false} NamesOfTrees(ts: seq<Tree>, stack: seq<Entry>, depth: int)
    requires forall t :: t in ts ==> LaidOut(t)
    ensures NamesIn(KANI, ItemsOf(ts), stack, depth) == LiveNames(ts, Path(stack))
    decreases ts, 0
  {
    if ts != [] {
      NamesOfTree(ts[0], stack, depth);
      NamesOfTrees(ts[1..], stack, depth);
      assert ItemsOf(ts)[1..] == ItemsOf(ts[1..]);
    }
  }

  lemma {:induction false} NamesOfTree(t: Tree, stack: seq<Entry>, depth: int)
    requires LaidOut(t)
    ensures Names(KANI, ItemOf(t), stack, depth) == LiveNamesOf(t, Path(stack))
    decreases t, 0
  {
    match t
    case FnTree(attrs, name, body) =>
      LiveMeaning(attrs);
      QualifiedByPath(name, stack);
      NamesOfTrees(body, stack, depth + 1);
    case ModTree(_, name, items) =>
      var inside := stack + [Entry(name, depth)];
      assert inside[..|inside|-1] == stack;
      NamesOfTrees(items, inside, depth + 1);
  }

  /** From the text of any tree of modules and functions with such attributes the program returns
      exactly the live functions' qualified names, each once, in increasing order. */
  lemma {:induction false} PrintedTreesAreRead(ts: seq<Tree>)
    requires forall t :: t in ts ==> LaidOut(t)
    ensures var r := SortedSet(Run(KANI, PrintItems(ItemsOf(ts)), START).found);
            StrictlySorted(r) && forall x :: x in r <==> x in LiveNames(ts, "")
  {
    ExtractionIsExact(KANI, ItemsOf(ts));
    NamesOfTrees(ts, [], 0);
  }
}
