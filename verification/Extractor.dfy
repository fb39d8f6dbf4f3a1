/** The line scanner of `scripts/extract_proof_harnesses.py` for files without proof-emitting
    macros: a module stack keyed by brace depth, and three flags carried from attribute to item.
    Lines are already classified; attribute metas are text and are judged by `CfgExpr`. */
module Extractor {
  import opened Ordering
  import opened CfgExpr
  import Delimiters

  // ---------------------------------------------------------------------
  // Lines and the scanner's state
  // ---------------------------------------------------------------------

  datatype Kind = Attr(meta: string) | ModDecl(name: string) | FnDecl(name: string) | Skippable | Other

  /** A classified line and its braces, outside strings and comments. */
  datatype Line = Line(kind: Kind, opens: nat, closes: nat)

  datatype Entry = Entry(name: string, at: int)

  datatype Scan = Scan(stack: seq<Entry>, depth: int, found: seq<string>, want: bool, blocked: bool, pending: bool)

  const START := Scan([], 0, [], false, false, false)

  /** `_qualify`: module names, outermost first, then the function. */
  function Qualify(name: string, stack: seq<Entry>): string
    decreases |stack|
  {
    if stack == [] then name else Qualify(stack[|stack|-1].name + "::" + name, stack[..|stack|-1])
  }

  function PopClosed(stack: seq<Entry>, depth: int): (r: seq<Entry>)
    ensures r <= stack
    ensures r == [] || r[|r|-1].at < depth
  {
    if stack != [] && depth <= stack[|stack|-1].at then PopClosed(stack[..|stack|-1], depth) else stack
  }

  function Pushed(line: Line, stack: seq<Entry>, depth: int): seq<Entry> {
    if line.kind.ModDecl? then stack + [Entry(line.kind.name, depth)] else stack
  }

  /** `_update_mod_stack`. */
  method UpdateModStack(line: Line, stack: seq<Entry>, depth: int) returns (stack': seq<Entry>, depth': int)
    ensures depth' == depth + line.opens - line.closes
    ensures stack' == PopClosed(Pushed(line, stack, depth), depth')
  {
    stack' := stack;
    if line.kind.ModDecl? { stack' := stack' + [Entry(line.kind.name, depth)]; }
    depth' := depth + line.opens - line.closes;
    while stack' != [] && depth' <= stack'[|stack'|-1].at
      invariant PopClosed(stack', depth') == PopClosed(Pushed(line, stack, depth), depth')
      decreases |stack'|
    {
      stack' := stack'[..|stack'|-1];
    }
  }

  function Braces(line: Line, st: Scan): Scan {
    var depth := st.depth + line.opens - line.closes;
    st.(stack := PopClosed(Pushed(line, st.stack, st.depth), depth), depth := depth)
  }

  /** What the scanner asks about an attribute: is it a harness attribute, is it an inactive cfg. */
  datatype Judge = Judge(harness: string -> bool, inactive: string -> bool)

  /** The program's own judge, on the text of the attribute. */
  const KANI := Judge(m => IsHarnessMeta(m) || IsCfgAttrHarness(m), m => IsInactiveCfgMeta(m))

  /** `_apply_attr_meta`. */
  function ApplyAttrMeta(j: Judge, meta: string, st: Scan): Scan {
    var cfg := if j.inactive(meta) then st.(pending := true, blocked := st.blocked || st.want) else st;
    if j.harness(meta)
    then cfg.(want := true, blocked := cfg.blocked || cfg.pending) else cfg
  }

  /** One line of the scan. */
  function Step(j: Judge, line: Line, st0: Scan): Scan {
    var st := Braces(line, st0);
    match line.kind
    case Attr(meta) => ApplyAttrMeta(j, meta, st)
    case Skippable => st
    case _ =>
      var named := if st.want && line.kind.FnDecl? && !st.blocked
                   then st.(found := st.found + [Qualify(line.kind.name, st.stack)]) else st;
      named.(want := false, blocked := if st.want then false else st.blocked, pending := false)
  }

  function Run(j: Judge, lines: seq<Line>, st: Scan): Scan {
    if lines == [] then st else Run(j, lines[1..], Step(j, lines[0], st))
  }

  function Dedup(s: seq<string>): seq<string> {
    if s == [] then []
    else if s[|s|-1] in s[..|s|-1] then Dedup(s[..|s|-1])
    else Dedup(s[..|s|-1]) + [s[|s|-1]]
  }

  /** `sorted(set(names))`. */
  function SortedSet(names: seq<string>): seq<string> { StableSort(StrLe, Dedup(names)) }

  lemma {:induction false} RunStep(j: Judge, lines: seq<Line>, i: nat, st: Scan)
    requires i < |lines|
    ensures Run(j, lines[i..], st) == Run(j, lines[i+1..], Step(j, lines[i], st))
  {
    assert lines[i..][1..] == lines[i+1..];
  }

  /** The body of the scanning loop. */
  method ReadLine(j: Judge, line: Line, was: Scan) returns (st: Scan)
    ensures st == Step(j, line, was)
  {
    var stack, depth := UpdateModStack(line, was.stack, was.depth);
    st := was.(stack := stack, depth := depth);
    if line.kind.Attr? {
      st := ApplyAttrMeta(j, line.kind.meta, st);
      return;
    }
    if !st.want {
      if !line.kind.Skippable? { st := st.(pending := false); }
      return;
    }
    if line.kind.Skippable? { return; }
    if line.kind.FnDecl? && !st.blocked { st := st.(found := st.found + [Qualify(line.kind.name, st.stack)]); }
    st := st.(want := false, blocked := false, pending := false);
  }

  /** `extract_proof_harnesses`. */
  method ExtractProofHarnesses(j: Judge, lines: seq<Line>) returns (r: seq<string>)
    ensures r == SortedSet(Run(j, lines, START).found)
  {
    var st := START;
    var i := 0;
    assert lines[0..] == lines;
    while i < |lines|
      invariant 0 <= i <= |lines|
      invariant Run(j, lines, START) == Run(j, lines[i..], st)
    {
      RunStep(j, lines, i, st);
      st := ReadLine(j, lines[i], st);
      i := i + 1;
    }
    assert lines[i..] == [];
    r := SortedSet(st.found);
  }

  // ---------------------------------------------------------------------
  // What every scan keeps, whatever the lines
  // ---------------------------------------------------------------------

  /** Depths rise strictly up the stack and stay below the brace depth. */
  ghost predicate Rising(stack: seq<Entry>, depth: int) {
    (forall i, j :: 0 <= i < j < |stack| ==> stack[i].at < stack[j].at) &&
    forall i :: 0 <= i < |stack| ==> stack[i].at < depth
  }

  ghost predicate FlagsAgree(st: Scan) { st.blocked == (st.want && st.pending) }

  lemma {:induction false} PopKeepsRising(stack: seq<Entry>, depth: int)
    requires forall i, j :: 0 <= i < j < |stack| ==> stack[i].at < stack[j].at
    ensures Rising(PopClosed(stack, depth), depth)
  {
    if stack != [] && depth <= stack[|stack|-1].at { PopKeepsRising(stack[..|stack|-1], depth); }
  }

  lemma {:induction false} StackKeeps(line: Line, st: Scan)
    requires Rising(st.stack, st.depth)
    ensures Rising(Braces(line, st).stack, Braces(line, st).depth)
  {
    var pushed := Pushed(line, st.stack, st.depth);
    assert forall i, k :: 0 <= i < k < |pushed| ==> pushed[i].at < pushed[k].at;
    PopKeepsRising(pushed, st.depth + line.opens - line.closes);
  }

  lemma {:induction false} FlagsKeep(j: Judge, line: Line, st: Scan)
    requires FlagsAgree(st)
    ensures FlagsAgree(Step(j, line, st))
    ensures Step(j, line, st).stack == Braces(line, st).stack && Step(j, line, st).depth == Braces(line, st).depth
  {
  }

  lemma {:induction false} StepKeeps(j: Judge, line: Line, st: Scan)
    requires Rising(st.stack, st.depth) && FlagsAgree(st)
    ensures Rising(Step(j, line, st).stack, Step(j, line, st).depth) && FlagsAgree(Step(j, line, st))
  {
    StackKeeps(line, st);
    FlagsKeep(j, line, st);
  }

  /** For any lines at all, balanced or not, the module stack rises strictly below the brace
      depth, and a harness is blocked exactly when it was seen together with an inactive cfg. */
  lemma {:induction false} ScanInvariant(j: Judge, lines: seq<Line>, st: Scan)
    requires Rising(st.stack, st.depth) && FlagsAgree(st)
    ensures Rising(Run(j, lines, st).stack, Run(j, lines, st).depth) && FlagsAgree(Run(j, lines, st))
  {
    if lines != [] {
      StepKeeps(j, lines[0], st);
      ScanInvariant(j, lines[1..], Step(j, lines[0], st));
    }
  }

  // ---------------------------------------------------------------------
  // Source trees, printed one item a line
  // ---------------------------------------------------------------------

  /** A line of an attribute block: an attribute, or a comment or blank between attributes. */
  datatype AttrLine = Meta(meta: string, braces: nat) | Comment(braces: nat)

  /** `braces` counts brace pairs that open and close on the item's own first line. */
  datatype Item =
    | Fn(attrs: seq<AttrLine>, name: string, braces: nat, body: seq<Item>)
    | FnLine(attrs: seq<AttrLine>, name: string, braces: nat)
    | Mod(attrs: seq<AttrLine>, name: string, braces: nat, items: seq<Item>)
    | ModLine(attrs: seq<AttrLine>, name: string, braces: nat)
    | Block(attrs: seq<AttrLine>, braces: nat, items: seq<Item>)
    | Stmt(attrs: seq<AttrLine>, braces: nat)
    | Gap(braces: nat)

  function PrintAttr(a: AttrLine): Line {
    match a
    case Meta(m, n) => Line(Attr(m), n, n)
    case Comment(n) => Line(Skippable, n, n)
  }

  function PrintAttrs(attrs: seq<AttrLine>): seq<Line> {
    if attrs == [] then [] else [PrintAttr(attrs[0])] + PrintAttrs(attrs[1..])
  }

  const CLOSE := Line(Other, 0, 1)

  function PrintItem(t: Item): seq<Line>
    decreases t, 0
  {
    match t
    case Fn(attrs, name, n, body) => PrintAttrs(attrs) + ([Line(FnDecl(name), n + 1, n)] + (PrintItems(body) + [CLOSE]))
    case FnLine(attrs, name, n) => PrintAttrs(attrs) + [Line(FnDecl(name), n, n)]
    case Mod(attrs, name, n, items) =>
      PrintAttrs(attrs) + ([Line(ModDecl(name), n + 1, n)] + (PrintItems(items) + [CLOSE]))
    case ModLine(attrs, name, n) => PrintAttrs(attrs) + [Line(ModDecl(name), n, n)]
    case Block(attrs, n, items) => PrintAttrs(attrs) + ([Line(Other, n + 1, n)] + (PrintItems(items) + [CLOSE]))
    case Stmt(attrs, n) => PrintAttrs(attrs) + [Line(Other, n, n)]
    case Gap(n) => [Line(Skippable, n, n)]
  }

  function PrintItems(items: seq<Item>): seq<Line>
    decreases items, 0
  {
    if items == [] then [] else PrintItem(items[0]) + PrintItems(items[1..])
  }

  // ---------------------------------------------------------------------
  // What the tree contains
  // ---------------------------------------------------------------------

  predicate Harness(j: Judge, attrs: seq<AttrLine>) {
    exists k :: 0 <= k < |attrs| && attrs[k].Meta? && j.harness(attrs[k].meta)
  }

  predicate Inactive(j: Judge, attrs: seq<AttrLine>) {
    exists k :: 0 <= k < |attrs| && attrs[k].Meta? && j.inactive(attrs[k].meta)
  }

  predicate Live(j: Judge, attrs: seq<AttrLine>) { Harness(j, attrs) && !Inactive(j, attrs) }

  /** The live harness functions in order, qualified by the modules around them; the cfg of a
      module, block or function body around them does not matter. */
  function Names(j: Judge, t: Item, stack: seq<Entry>, depth: int): seq<string>
    decreases t, 0
  {
    match t
    case Fn(attrs, name, _, body) =>
      (if Live(j, attrs) then [Qualify(name, stack)] else []) + NamesIn(j, body, stack, depth + 1)
    case FnLine(attrs, name, _) => if Live(j, attrs) then [Qualify(name, stack)] else []
    case Mod(_, name, _, items) => NamesIn(j, items, stack + [Entry(name, depth)], depth + 1)
    case Block(_, _, items) => NamesIn(j, items, stack, depth + 1)
    case _ => []
  }

  function NamesIn(j: Judge, items: seq<Item>, stack: seq<Entry>, depth: int): seq<string>
    decreases items, 0
  {
    if items == [] then [] else Names(j, items[0], stack, depth) + NamesIn(j, items[1..], stack, depth)
  }

  // ---------------------------------------------------------------------
  // The scanner finds exactly those names
  // ---------------------------------------------------------------------

  lemma {:induction false} RunAppend(j: Judge, a: seq<Line>, b: seq<Line>, st: Scan)
    ensures Run(j, a + b, st) == Run(j, b, Run(j, a, st))
  {
    if a == [] {
      assert a + b == b;
    } else {
      assert (a + b)[1..] == a[1..] + b;
      RunAppend(j, a[1..], b, Step(j, a[0], st));
    }
  }

  lemma {:induction false} RunOne(j: Judge, line: Line, st: Scan)
    ensures Run(j, [line], st) == Step(j, line, st)
  {
    assert [line][1..] == [];
  }

  /** Between items: nothing pending. */
  ghost predicate Clean(st: Scan) {
    Rising(st.stack, st.depth) && !st.want && !st.blocked && !st.pending
  }

  lemma {:induction false} NoPop(stack: seq<Entry>, depth: int)
    requires Rising(stack, depth)
    ensures PopClosed(stack, depth) == stack
  {
  }

  /** The state with harness and inactive-cfg sightings added. */
  function Flagged(st: Scan, want: bool, pending: bool): Scan {
    st.(want := st.want || want, pending := st.pending || pending,
        blocked := (st.want || want) && (st.pending || pending))
  }

  lemma {:induction false} AttrStep(j: Judge, a: AttrLine, st: Scan)
    requires Rising(st.stack, st.depth) && FlagsAgree(st)
    ensures Step(j, PrintAttr(a), st) == Flagged(st, a.Meta? && j.harness(a.meta), a.Meta? && j.inactive(a.meta))
  {
    NoPop(st.stack, st.depth);
  }

  /** An attribute block only sets the flags: harness seen, inactive cfg seen, both. */
  lemma {:induction false} AttrsScan(j: Judge, attrs: seq<AttrLine>, st: Scan)
    requires Rising(st.stack, st.depth) && FlagsAgree(st)
    ensures Run(j, PrintAttrs(attrs), st) == Flagged(st, Harness(j, attrs), Inactive(j, attrs))
  {
    if attrs != [] {
      var a, rest := attrs[0], attrs[1..];
      var st1 := Flagged(st, a.Meta? && j.harness(a.meta), a.Meta? && j.inactive(a.meta));
      AttrStep(j, a, st);
      AttrsScan(j, rest, st1);
      AttrsCons(j, attrs);
      assert PrintAttrs(attrs)[1..] == PrintAttrs(rest);
    }
  }

  lemma {:induction false} AttrsCons(j: Judge, attrs: seq<AttrLine>)
    requires attrs != []
    ensures Harness(j, attrs) == (Harness(j, attrs[1..]) || (attrs[0].Meta? && j.harness(attrs[0].meta)))
    ensures Inactive(j, attrs) == (Inactive(j, attrs[1..]) || (attrs[0].Meta? && j.inactive(attrs[0].meta)))
  {
    var rest := attrs[1..];
    assert forall k :: 1 <= k < |attrs| ==> attrs[k] == rest[k-1];
    if Harness(j, rest) {
      var k :| 0 <= k < |rest| && rest[k].Meta? && j.harness(rest[k].meta);
      assert attrs[k+1] == rest[k];
    }
    if Inactive(j, rest) {
      var k :| 0 <= k < |rest| && rest[k].Meta? && j.inactive(rest[k].meta);
      assert attrs[k+1] == rest[k];
    }
  }

  /** The line an item starts with, once its attributes have set the flags. */
  lemma {:induction false} HeadStep(j: Judge, head: Line, st: Scan, want: bool, pending: bool)
    requires Clean(st) && !head.kind.Attr? && !head.kind.Skippable? && head.opens >= head.closes
    requires head.kind.ModDecl? ==> head.opens > head.closes
    ensures Step(j, head, Flagged(st, want, pending)) ==
            st.(stack := Pushed(head, st.stack, st.depth),
                depth := st.depth + head.opens - head.closes,
                found := st.found + if head.kind.FnDecl? && want && !pending
                                    then [Qualify(head.kind.name, st.stack)] else [])
  {
    NoPop(Pushed(head, st.stack, st.depth), st.depth + head.opens - head.closes);
    assert st.found + [] == st.found;
  }

  /** The line an item starts with, after its attributes. */
  lemma {:induction false} HeadScan(j: Judge, attrs: seq<AttrLine>, head: Line, st: Scan)
    requires Clean(st) && !head.kind.Attr? && !head.kind.Skippable? && head.opens >= head.closes
    requires head.kind.ModDecl? ==> head.opens > head.closes
    ensures Run(j, PrintAttrs(attrs) + [head], st) ==
            st.(stack := Pushed(head, st.stack, st.depth),
                depth := st.depth + head.opens - head.closes,
                found := st.found + if head.kind.FnDecl? && Live(j, attrs)
                                    then [Qualify(head.kind.name, st.stack)] else [])
  {
    AttrsScan(j, attrs, st);
    RunAppend(j, PrintAttrs(attrs), [head], st);
    RunOne(j, head, Run(j, PrintAttrs(attrs), st));
    HeadStep(j, head, st, Harness(j, attrs), Inactive(j, attrs));
  }

  /** The closing brace of an item entered at `outer` brings the stack back. */
  lemma {:induction false} CloseScan(j: Judge, st: Scan, outer: seq<Entry>)
    requires Clean(st) && Rising(outer, st.depth - 1)
    requires st.stack == outer ||
             (st.stack != [] && st.stack[..|st.stack|-1] == outer && st.stack[|st.stack|-1].at == st.depth - 1)
    ensures Run(j, [CLOSE], st) == st.(stack := outer, depth := st.depth - 1)
  {
    RunOne(j, CLOSE, st);
    NoPop(outer, st.depth - 1);
  }

  /** Scanning an item adds its live harnesses and leaves everything else as it was. */
  lemma {:induction false} ItemScan(j: Judge, t: Item, st: Scan)
    requires Clean(st)
    ensures Run(j, PrintItem(t), st) == Adding(st, Names(j, t, st.stack, st.depth))
    decreases t, 2
  {
    match t {
      case Fn(_, name, n, _) => NestScan(j, t, Line(FnDecl(name), n + 1, n), st);
      case Mod(_, name, n, _) => NestScan(j, t, Line(ModDecl(name), n + 1, n), st);
      case Block(_, n, _) => NestScan(j, t, Line(Other, n + 1, n), st);
      case FnLine(attrs, name, n) => HeadScan(j, attrs, Line(FnDecl(name), n, n), st);
      case Stmt(attrs, n) => HeadScan(j, attrs, Line(Other, n, n), st);
      case ModLine(attrs, name, n) => ModLineScan(j, attrs, name, n, st);
      case Gap(n) =>
        RunOne(j, Line(Skippable, n, n), st);
        NoPop(st.stack, st.depth);
    }
  }

  lemma {:induction false} ModLineScan(j: Judge, attrs: seq<AttrLine>, name: string, n: nat, st: Scan)
    requires Clean(st)
    ensures Run(j, PrintAttrs(attrs) + [Line(ModDecl(name), n, n)], st) == st
  {
    var head := Line(ModDecl(name), n, n);
    AttrsScan(j, attrs, st);
    RunAppend(j, PrintAttrs(attrs), [head], st);
    RunOne(j, head, Run(j, PrintAttrs(attrs), st));
    var pushed := Pushed(head, st.stack, st.depth);
    assert pushed[..|pushed|-1] == st.stack;
    NoPop(st.stack, st.depth);
  }

  predicate Nests(t: Item) { t.Fn? || t.Mod? || t.Block? }

  /** The line a nesting item starts with, after its attributes. */
  function HeadOf(t: Item): Line
    requires Nests(t)
  {
    Line(if t.Fn? then FnDecl(t.name) else if t.Mod? then ModDecl(t.name) else Other, t.braces + 1, t.braces)
  }

  function Children(t: Item): seq<Item>
    requires Nests(t)
  {
    if t.Fn? then t.body else t.items
  }

  lemma {:induction false} PrintNest(t: Item, head: Line)
    requires Nests(t)
    requires head == HeadOf(t)
    ensures PrintItem(t) == (PrintAttrs(t.attrs) + [head]) + (PrintItems(Children(t)) + [CLOSE])
  {
  }

  /** The state with some more names found. */
  function Adding(st: Scan, names: seq<string>): Scan { st.(found := st.found + names) }

  lemma {:induction false} AddTwice(st: Scan, a: seq<string>, b: seq<string>)
    ensures Adding(Adding(st, a), b) == Adding(st, a + b)
    ensures Clean(st) ==> Clean(Adding(st, a))
  {
    assert st.found + a + b == st.found + (a + b);
  }

  /** The state just inside an item: its head line read, its own name found if it is live. */
  function Inside(j: Judge, t: Item, st: Scan): Scan
    requires Nests(t)
  {
    Adding(st.(stack := if t.Mod? then st.stack + [Entry(t.name, st.depth)] else st.stack, depth := st.depth + 1),
           if t.Fn? && Live(j, t.attrs) then [Qualify(t.name, st.stack)] else [])
  }

  lemma {:induction false} EnterScan(j: Judge, t: Item, head: Line, st: Scan)
    requires Clean(st) && Nests(t)
    requires head == HeadOf(t)
    ensures Run(j, PrintAttrs(t.attrs) + [head], st) == Inside(j, t, st) && Clean(Inside(j, t, st))
  {
    HeadScan(j, t.attrs, head, st);
  }

  lemma {:induction false} NamesSplit(j: Judge, t: Item, st: Scan)
    requires Nests(t)
    ensures var inside := Inside(j, t, st);
            var body := NamesIn(j, Children(t), inside.stack, inside.depth);
            Adding(inside, body).(stack := st.stack, depth := st.depth) == Adding(st, Names(j, t, st.stack, st.depth))
  {
    var inside := Inside(j, t, st);
    var body := NamesIn(j, Children(t), inside.stack, inside.depth);
    var own := if t.Fn? && Live(j, t.attrs) then [Qualify(t.name, st.stack)] else [];
    assert st.found + own + body == st.found + (own + body);
    assert [] + body == body;
  }

  lemma {:induction false} NestScan(j: Judge, t: Item, head: Line, st: Scan)
    requires Clean(st) && Nests(t)
    requires head == HeadOf(t)
    ensures Run(j, PrintItem(t), st) == Adding(st, Names(j, t, st.stack, st.depth))
    decreases t, 1
  {
    var front, items := PrintAttrs(t.attrs) + [head], Children(t);
    var inside := Inside(j, t, st);
    EnterScan(j, t, head, st);
    ItemsScan(j, items, inside);
    var after := Adding(inside, NamesIn(j, items, inside.stack, inside.depth));
    CloseScan(j, after, st.stack);
    NamesSplit(j, t, st);
    RunAppend(j, front, PrintItems(items) + [CLOSE], st);
    RunAppend(j, PrintItems(items), [CLOSE], inside);
    PrintNest(t, head);
  }

  lemma {:induction false} ItemsScan(j: Judge, items: seq<Item>, st: Scan)
    requires Clean(st)
    ensures Run(j, PrintItems(items), st) == Adding(st, NamesIn(j, items, st.stack, st.depth))
    decreases items, 0
  {
    if items == [] {
      assert st.found + [] == st.found;
    } else {
      var first, rest := Names(j, items[0], st.stack, st.depth), NamesIn(j, items[1..], st.stack, st.depth);
      ItemScan(j, items[0], st);
      RunAppend(j, PrintItem(items[0]), PrintItems(items[1..]), st);
      AddTwice(st, first, rest);
      ItemsScan(j, items[1..], Adding(st, first));
    }
  }

  // ---------------------------------------------------------------------
  // The result, as a sorted set
  // ---------------------------------------------------------------------

  ghost predicate StrictlySorted(s: seq<string>) {
    forall i, j :: 0 <= i < j < |s| ==> s[i] != s[j] && StrLe(s[i], s[j])
  }

  lemma {:induction false} DedupMeaning(s: seq<string>)
    ensures forall x :: x in Dedup(s) <==> x in s
    ensures Distinct(Dedup(s))
  {
    if s != [] {
      DedupMeaning(s[..|s|-1]);
      assert s == s[..|s|-1] + [s[|s|-1]];
    }
  }

  lemma {:induction false} StrLeIsTotalOrder()
    ensures TotalPreorder(StrLe)
  {
    forall x, y ensures StrLe(x, y) || StrLe(y, x) { StrLeTotal(x, y); }
    forall x, y, z | StrLe(x, y) && StrLe(y, z) ensures StrLe(x, z) { StrLeTransitive(x, y, z); }
  }

  lemma {:induction false} DistinctByCount(s: seq<string>)
    ensures Distinct(s) <==> forall x :: multiset(s)[x] <= 1
  {
    if s != [] {
      var t := s[1..];
      assert s == [s[0]] + t;
      assert multiset(s) == multiset{s[0]} + multiset(t);
      DistinctByCount(t);
      assert s[0] in t <==> s[0] in multiset(t);
      if !Distinct(t) {
        var x :| multiset(t)[x] > 1;
        assert multiset(s)[x] > 1;
        var i, k :| 0 <= i < k < |t| && t[i] == t[k];
        assert s[i+1] == s[k+1];
      } else if s[0] in t {
        var k :| 0 <= k < |t| && t[k] == s[0];
        assert s[0] == s[k+1];
        assert multiset(s)[s[0]] > 1;
      }
    }
  }

  /** `SortedSet` lists each name once, in increasing order. */
  lemma {:induction false} SortedSetMeaning(names: seq<string>)
    ensures StrictlySorted(SortedSet(names))
    ensures forall x :: x in SortedSet(names) <==> x in names
  {
    var d := Dedup(names);
    DedupMeaning(names);
    StrLeIsTotalOrder();
    SortSorts(StrLe, d);
    SortMembers(StrLe, d);
    SortContents(StrLe, d);
    DistinctByCount(d);
    DistinctByCount(SortedSet(names));
  }

  /** Parsing undoes printing: from any printed tree the extractor returns exactly its live
      harnesses, each once, in order. */
  lemma {:induction false} ExtractionIsExact(j: Judge, items: seq<Item>)
    ensures var r := SortedSet(Run(j, PrintItems(items), START).found);
            StrictlySorted(r) && forall x :: x in r <==> x in NamesIn(j, items, [], 0)
    ensures Run(j, PrintItems(items), START) == START.(found := NamesIn(j, items, [], 0))
  {
    ItemsScan(j, items, START);
    assert START.found + NamesIn(j, items, [], 0) == NamesIn(j, items, [], 0);
    SortedSetMeaning(NamesIn(j, items, [], 0));
  }

  // ---------------------------------------------------------------------
  // Against the language: an inactive item takes everything inside it along
  // ---------------------------------------------------------------------

  /** The harnesses that are really compiled: none inside an item with an inactive cfg. */
  function Compiled(j: Judge, t: Item, stack: seq<Entry>, depth: int): seq<string>
    decreases t, 0
  {
    if !t.Gap? && Inactive(j, t.attrs) then []
    else
      match t
      case Fn(attrs, name, _, body) =>
        (if Harness(j, attrs) then [Qualify(name, stack)] else []) + CompiledIn(j, body, stack, depth + 1)
      case FnLine(attrs, name, _) => if Harness(j, attrs) then [Qualify(name, stack)] else []
      case Mod(_, name, _, items) => CompiledIn(j, items, stack + [Entry(name, depth)], depth + 1)
      case Block(_, _, items) => CompiledIn(j, items, stack, depth + 1)
      case _ => []
  }

  function CompiledIn(j: Judge, items: seq<Item>, stack: seq<Entry>, depth: int): seq<string>
    decreases items, 0
  {
    if items == [] then [] else Compiled(j, items[0], stack, depth) + CompiledIn(j, items[1..], stack, depth)
  }

  /** Some function below has a harness attribute and no inactive cfg of its own. */
  predicate HasLive(j: Judge, items: seq<Item>)
    decreases items, 0
  {
    items != [] && (HasLiveItem(j, items[0]) || HasLive(j, items[1..]))
  }

  predicate HasLiveItem(j: Judge, t: Item)
    decreases t, 0
  {
    match t
    case Fn(attrs, _, _, body) => Live(j, attrs) || HasLive(j, body)
    case FnLine(attrs, _, _) => Live(j, attrs)
    case Mod(_, _, _, items) => HasLive(j, items)
    case Block(_, _, items) => HasLive(j, items)
    case _ => false
  }

  /** No item with an inactive cfg contains a live harness. */
  predicate NothingHidden(j: Judge, items: seq<Item>)
    decreases items, 0
  {
    items == [] || (NothingHiddenIn(j, items[0]) && NothingHidden(j, items[1..]))
  }

  predicate NothingHiddenIn(j: Judge, t: Item)
    decreases t, 0
  {
    match t
    case Fn(attrs, _, _, body) => if Inactive(j, attrs) then !HasLive(j, body) else NothingHidden(j, body)
    case Mod(attrs, _, _, items) => if Inactive(j, attrs) then !HasLive(j, items) else NothingHidden(j, items)
    case Block(attrs, _, items) => if Inactive(j, attrs) then !HasLive(j, items) else NothingHidden(j, items)
    case _ => true
  }

  lemma {:induction false} LiveMeansNamed(j: Judge, items: seq<Item>, stack: seq<Entry>, depth: int)
    ensures HasLive(j, items) <==> NamesIn(j, items, stack, depth) != []
    decreases items, 0
  {
    if items != [] {
      LiveItemMeansNamed(j, items[0], stack, depth);
      LiveMeansNamed(j, items[1..], stack, depth);
    }
  }

  lemma {:induction false} LiveItemMeansNamed(j: Judge, t: Item, stack: seq<Entry>, depth: int)
    ensures HasLiveItem(j, t) <==> Names(j, t, stack, depth) != []
    decreases t, 0
  {
    match t
    case Fn(_, _, _, body) => LiveMeansNamed(j, body, stack, depth + 1);
    case Mod(_, name, _, items) => LiveMeansNamed(j, items, stack + [Entry(name, depth)], depth + 1);
    case Block(_, _, items) => LiveMeansNamed(j, items, stack, depth + 1);
    case _ =>
  }

  /** The scan finds as many harnesses, each counted as often as it occurs, as are compiled exactly
      when nothing is hidden; it never finds fewer. */
  lemma {:induction false} CompiledIffNothingHidden(j: Judge, items: seq<Item>, stack: seq<Entry>, depth: int)
    ensures |CompiledIn(j, items, stack, depth)| <= |NamesIn(j, items, stack, depth)|
    ensures NothingHidden(j, items) ==> NamesIn(j, items, stack, depth) == CompiledIn(j, items, stack, depth)
    ensures !NothingHidden(j, items) ==> |CompiledIn(j, items, stack, depth)| < |NamesIn(j, items, stack, depth)|
    decreases items, 0
  {
    if items != [] {
      CompiledIffNothingHiddenIn(j, items[0], stack, depth);
      CompiledIffNothingHidden(j, items[1..], stack, depth);
    }
  }

  lemma {:induction false} CompiledIffNothingHiddenIn(j: Judge, t: Item, stack: seq<Entry>, depth: int)
    ensures |Compiled(j, t, stack, depth)| <= |Names(j, t, stack, depth)|
    ensures NothingHiddenIn(j, t) ==> Names(j, t, stack, depth) == Compiled(j, t, stack, depth)
    ensures !NothingHiddenIn(j, t) ==> |Compiled(j, t, stack, depth)| < |Names(j, t, stack, depth)|
    decreases t, 0
  {
    match t
    case Fn(_, _, _, body) =>
      CompiledIffNothingHidden(j, body, stack, depth + 1);
      LiveMeansNamed(j, body, stack, depth + 1);
    case Mod(_, name, _, items) =>
      CompiledIffNothingHidden(j, items, stack + [Entry(name, depth)], depth + 1);
      LiveMeansNamed(j, items, stack + [Entry(name, depth)], depth + 1);
    case Block(_, _, items) =>
      CompiledIffNothingHidden(j, items, stack, depth + 1);
      LiveMeansNamed(j, items, stack, depth + 1);
    case _ =>
  }

  /** The live harnesses below an item with an inactive cfg: found, but not compiled. */
  function Hidden(j: Judge, t: Item, stack: seq<Entry>, depth: int): seq<string>
    decreases t, 0
  {
    if !t.Gap? && Inactive(j, t.attrs) then Names(j, t, stack, depth)
    else
      match t
      case Fn(_, _, _, body) => HiddenIn(j, body, stack, depth + 1)
      case Mod(_, name, _, items) => HiddenIn(j, items, stack + [Entry(name, depth)], depth + 1)
      case Block(_, _, items) => HiddenIn(j, items, stack, depth + 1)
      case _ => []
  }

  function HiddenIn(j: Judge, items: seq<Item>, stack: seq<Entry>, depth: int): seq<string>
    decreases items, 0
  {
    if items == [] then [] else Hidden(j, items[0], stack, depth) + HiddenIn(j, items[1..], stack, depth)
  }

  lemma {:induction false} NamedAreCompiledOrHidden(
    j: Judge, items: seq<Item>, stack: seq<Entry>, depth: int, x: string)
    ensures x in NamesIn(j, items, stack, depth) <==>
            x in CompiledIn(j, items, stack, depth) || x in HiddenIn(j, items, stack, depth)
    decreases items, 0
  {
    if items != [] {
      NamedIsCompiledOrHidden(j, items[0], stack, depth, x);
      NamedAreCompiledOrHidden(j, items[1..], stack, depth, x);
    }
  }

  lemma {:induction false} NamedIsCompiledOrHidden(j: Judge, t: Item, stack: seq<Entry>, depth: int, x: string)
    ensures x in Names(j, t, stack, depth) <==> x in Compiled(j, t, stack, depth) || x in Hidden(j, t, stack, depth)
    decreases t, 0
  {
    match t
    case Fn(_, _, _, body) => NamedAreCompiledOrHidden(j, body, stack, depth + 1, x);
    case Mod(_, name, _, items) => NamedAreCompiledOrHidden(j, items, stack + [Entry(name, depth)], depth + 1, x);
    case Block(_, _, items) => NamedAreCompiledOrHidden(j, items, stack, depth + 1, x);
    case _ =>
  }

  lemma {:induction false} StrLeSeparates(s: seq<string>)
    ensures Separates(StrLe, s)
  {
    forall x, y | StrLe(x, y) && StrLe(y, x) ensures x == y { StrLeTotal(x, y); }
  }

  lemma {:induction false} SameSortedSet(a: seq<string>, b: seq<string>)
    ensures SortedSet(a) == SortedSet(b) <==> forall x :: x in a <==> x in b
  {
    SortedSetMeaning(a);
    SortedSetMeaning(b);
    if forall x :: x in a <==> x in b {
      var s, t := Dedup(a), Dedup(b);
      DedupMeaning(a);
      DedupMeaning(b);
      DistinctCounts(s);
      DistinctCounts(t);
      forall x ensures multiset(s)[x] == multiset(t)[x] {
        assert x in s <==> x in t;
        assert x in s <==> x in multiset(s);
        assert x in t <==> x in multiset(t);
      }
      assert multiset(s) == multiset(t);
      StrLeIsTotalOrder();
      StrLeSeparates(s);
      SortForgetsOrder(StrLe, s, t);
    } else {
      var x :| (x in a) != (x in b);
      assert (x in SortedSet(a)) != (x in SortedSet(b));
    }
  }

  /** What the extractor returns is the compiled harnesses, each once, exactly when each hidden name
      is also that of a compiled one; and every compiled name is always in it. */
  lemma {:induction false} ReturnsCompiledExactly(j: Judge, items: seq<Item>)
    ensures var r := SortedSet(Run(j, PrintItems(items), START).found);
            var compiled := CompiledIn(j, items, [], 0);
            && (forall x :: x in compiled ==> x in r)
            && (r == SortedSet(compiled) <==> forall x :: x in HiddenIn(j, items, [], 0) ==> x in compiled)
  {
    var names, compiled, hidden := NamesIn(j, items, [], 0), CompiledIn(j, items, [], 0), HiddenIn(j, items, [], 0);
    ExtractionIsExact(j, items);
    forall x ensures x in names <==> x in compiled || x in hidden { NamedAreCompiledOrHidden(j, items, [], 0, x); }
    SameSortedSet(names, compiled);
  }

  lemma {:induction false} HarnessLine(j: Judge, proof: string, stack: seq<Entry>)
    requires j.harness(proof) && !j.inactive(proof) && stack == [Entry("m", 0)]
    ensures NamesIn(j, [FnLine([Meta(proof, 0)], "f", 1)], stack, 1) == ["m::f"]
  {
    var attrs := [Meta(proof, 0)];
    assert attrs[0].Meta?;
    assert Harness(j, attrs) && !Inactive(j, attrs);
    assert stack[|stack|-1].name == "m" && stack[..0] == [];
    assert "m" + "::" + "f" == "m::f";
    assert Qualify("f", stack) == Qualify("m::f", []) == "m::f";
    var items := [FnLine(attrs, "f", 1)];
    assert items[1..] == [];
    assert Names(j, items[0], stack, 1) == ["m::f"];
    assert ["m::f"] + NamesIn(j, items[1..], stack, 1) == ["m::f"];
  }

  lemma {:induction false} OneModule(j: Judge, off: string, inside: Item, names: seq<string>)
    requires j.inactive(off) && NamesIn(j, [inside], [Entry("m", 0)], 1) == names
    ensures var items := [Mod([Meta(off, 0)], "m", 0, [inside])];
            NamesIn(j, items, [], 0) == names && CompiledIn(j, items, [], 0) == []
  {
    var m := Mod([Meta(off, 0)], "m", 0, [inside]);
    assert m.attrs[0].Meta?;
    assert [] + [Entry("m", 0)] == [Entry("m", 0)] && [m][1..] == [];
    assert names + [] == names;
  }

  /** A concrete miss: `#[cfg(disabled)] mod m {`, `#[kani::proof]`, `fn f() {}`, `}` yields `m::f`. */
  lemma {:induction false} InactiveModuleIsIgnored(j: Judge, off: string, proof: string)
    requires j.inactive(off) && j.harness(proof) && !j.inactive(proof)
    ensures var items := [Mod([Meta(off, 0)], "m", 0, [FnLine([Meta(proof, 0)], "f", 1)])];
            NamesIn(j, items, [], 0) == ["m::f"] && CompiledIn(j, items, [], 0) == []
  {
    HarnessLine(j, proof, [Entry("m", 0)]);
    OneModule(j, off, FnLine([Meta(proof, 0)], "f", 1), ["m::f"]);
  }

  lemma {:induction false} TwoModules(
    j: Judge, first: seq<AttrLine>, second: seq<AttrLine>, inside: Item, names: seq<string>)
    requires Inactive(j, first) && !Inactive(j, second)
    requires NamesIn(j, [inside], [Entry("m", 0)], 1) == names == CompiledIn(j, [inside], [Entry("m", 0)], 1)
    ensures var items := [Mod(first, "m", 0, [inside]), Mod(second, "m", 0, [inside])];
            NamesIn(j, items, [], 0) == names + names &&
              CompiledIn(j, items, [], 0) == names == HiddenIn(j, items, [], 0)
  {
    var a, b := Mod(first, "m", 0, [inside]), Mod(second, "m", 0, [inside]);
    assert [] + [Entry("m", 0)] == [Entry("m", 0)];
    var items := [a, b];
    assert items[1..] == [b] && [b][1..] == [] && items[0] == a;
    assert Names(j, a, [], 0) == names && Names(j, b, [], 0) == names;
    assert names + [] == names && [] + names == names;
    assert Compiled(j, a, [], 0) == [] && Compiled(j, b, [], 0) == names;
    assert NamesIn(j, [b], [], 0) == names + [] && CompiledIn(j, [b], [], 0) == names + [];
    assert Hidden(j, a, [], 0) == names;
    CompiledIffNothingHidden(j, [inside], [Entry("m", 0)], 1);
    NothingHiddenHidesNothing(j, [inside], [Entry("m", 0)], 1);
    assert Hidden(j, b, [], 0) == [];
    assert HiddenIn(j, [b], [], 0) == [];
  }

  lemma {:induction false} NothingHiddenHidesNothing(j: Judge, items: seq<Item>, stack: seq<Entry>, depth: int)
    requires NothingHidden(j, items)
    ensures HiddenIn(j, items, stack, depth) == []
    decreases items, 0
  {
    if items != [] {
      NothingHiddenHidesNothingIn(j, items[0], stack, depth);
      NothingHiddenHidesNothing(j, items[1..], stack, depth);
    }
  }

  lemma {:induction false} NothingHiddenHidesNothingIn(j: Judge, t: Item, stack: seq<Entry>, depth: int)
    requires NothingHiddenIn(j, t)
    ensures Hidden(j, t, stack, depth) == []
    decreases t, 0
  {
    match t
    case Fn(attrs, _, _, body) =>
      if Inactive(j, attrs) {
        LiveMeansNamed(j, body, stack, depth + 1);
      } else {
        NothingHiddenHidesNothing(j, body, stack, depth + 1);
      }
    case Mod(attrs, name, _, items) =>
      var inside := stack + [Entry(name, depth)];
      if Inactive(j, attrs) {
        LiveMeansNamed(j, items, inside, depth + 1);
      } else {
        NothingHiddenHidesNothing(j, items, inside, depth + 1);
      }
    case Block(attrs, _, items) =>
      if Inactive(j, attrs) {
        LiveMeansNamed(j, items, stack, depth + 1);
      } else {
        NothingHiddenHidesNothing(j, items, stack, depth + 1);
      }
    case _ =>
  }

  /** Two modules of one name, one of them disabled, both with the harness `f`: a name is hidden, and
      the set returned is right all the same. */
  lemma {:induction false} HiddenTwinDoesNoHarm(j: Judge, off: string, on: string, proof: string)
    requires j.inactive(off) && !j.inactive(on) && j.harness(proof) && !j.inactive(proof)
    ensures var f := FnLine([Meta(proof, 0)], "f", 1);
            var items := [Mod([Meta(off, 0)], "m", 0, [f]), Mod([Meta(on, 0)], "m", 0, [f])];
            && HiddenIn(j, items, [], 0) == ["m::f"] && !NothingHidden(j, items)
            && SortedSet(Run(j, PrintItems(items), START).found) == SortedSet(CompiledIn(j, items, [], 0))
  {
    var f := FnLine([Meta(proof, 0)], "f", 1);
    var first, second := [Meta(off, 0)], [Meta(on, 0)];
    var items := [Mod(first, "m", 0, [f]), Mod(second, "m", 0, [f])];
    HarnessLine(j, proof, [Entry("m", 0)]);
    assert first[0].Meta? && second[0].Meta? && f.attrs[0].Meta?;
    assert [f][1..] == [];
    assert NothingHiddenIn(j, f) && NothingHidden(j, []) && NothingHidden(j, [f]);
    CompiledIffNothingHidden(j, [f], [Entry("m", 0)], 1);
    TwoModules(j, first, second, f, ["m::f"]);
    CompiledIffNothingHidden(j, items, [], 0);
    ReturnsCompiledExactly(j, items);
  }

  /** The program's judge does answer like that on these two attributes. */
  lemma {:induction false} KaniJudges()
    ensures KANI.inactive("cfg(disabled)") && KANI.harness("kani::proof") && !KANI.inactive("kani::proof")
  {
    CfgDisabledIsInactive();
    PlainProofMeta();
  }

  lemma {:induction false} CfgDisabledIsInactive()
    ensures IsInactiveCfgMeta("cfg(disabled)")
  {
    PlainFlag("disabled");
    assert "cfg(" + "disabled" + ")" == "cfg(disabled)";
    FlagIsInactive("disabled", "cfg(disabled)");
  }

  lemma {:induction false} PlainFlag(text: string)
    requires text == "disabled"
    ensures WellFormed(Flag("", text, ""))
  {
  }

  lemma {:induction false} FlagIsInactive(text: string, meta: string)
    requires WellFormed(Flag("", text, "")) && meta == "cfg(" + text + ")"
    ensures IsInactiveCfgMeta(meta)
  {
    var tree := Flag("", text, "");
    InnerOfOne(tree, text);
    assert meta == "cfg" + "" + ("(" + Inner([tree], false, "") + ")");
    CfgAttributeMeaning(tree, "", false, "");
  }

  lemma {:induction false} InnerOfOne(tree: Cfg, text: string)
    requires tree == Flag("", text, "")
    ensures Inner([tree], false, "") == text
  {
    assert Print(tree) == text;
  }

  lemma {:induction false} PlainProofMeta()
    ensures IsHarnessMeta("kani::proof") && !IsInactiveCfgMeta("kani::proof")
  {
    var m := "kani::proof";
    Delimiters.StripPadded("", m, "");
    assert "" + m + "" == m;
    assert Delimiters.Strip(m) == m;
    assert m[|m|..] == "" && Delimiters.Strip("") == "";
    assert !("cfg" <= m);
  }
}
