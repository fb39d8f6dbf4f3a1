/** Text scanning of `scripts/extract_proof_harnesses.py`: whitespace, balanced delimiters and
    the top-level comma splitter. */
module Delimiters {
  import opened Wrappers

  // ---------------------------------------------------------------------
  // Whitespace
  // ---------------------------------------------------------------------

  /** Python's `str.isspace`, which `strip` and the pattern `\s` share. */
  predicate IsSpace(c: char) {
    var n := c as int;
    9 <= n <= 13 || 28 <= n <= 32 || n == 0x85 || n == 0xA0 || n == 0x1680 ||
    0x2000 <= n <= 0x200A || n == 0x2028 || n == 0x2029 || n == 0x202F || n == 0x205F || n == 0x3000
  }

  predicate Blank(s: string) { forall i :: 0 <= i < |s| ==> IsSpace(s[i]) }

  function TrimLeft(s: string): (r: string)
    ensures |r| <= |s|
    ensures r == "" || !IsSpace(r[0])
  {
    if s != [] && IsSpace(s[0]) then TrimLeft(s[1..]) else s
  }

  function TrimRight(s: string): (r: string)
    ensures r <= s
    ensures r == "" || !IsSpace(r[|r|-1])
  {
    if s != [] && IsSpace(s[|s|-1]) then TrimRight(s[..|s|-1]) else s
  }

  function Strip(s: string): (r: string)
    ensures |r| <= |s|
  {
    TrimLeft(TrimRight(s))
  }

  /** A text with nothing to strip. */
  predicate Trim(s: string) { s != "" && !IsSpace(s[0]) && !IsSpace(s[|s|-1]) }

  lemma {:induction false} TrimLeftOver(lead: string, s: string)
    requires Blank(lead)
    ensures TrimLeft(lead + s) == TrimLeft(s)
  {
    if lead == [] {
      assert lead + s == s;
    } else {
      assert (lead + s)[1..] == lead[1..] + s;
      TrimLeftOver(lead[1..], s);
    }
  }

  lemma {:induction false} TrimRightOver(s: string, trail: string)
    requires Blank(trail)
    ensures TrimRight(s + trail) == TrimRight(s)
  {
    if trail == [] {
      assert s + trail == s;
    } else {
      var t := trail[..|trail|-1];
      assert (s + trail)[..|s + trail|-1] == s + t;
      TrimRightOver(s, t);
    }
  }

  /** Padding is what `strip` removes, and all it removes. */
  lemma {:induction false} StripPadded(lead: string, core: string, trail: string)
    requires Blank(lead) && Blank(trail) && (core == "" || Trim(core))
    ensures Strip(lead + core + trail) == core
  {
    TrimRightOver(lead + core, trail);
    if core == "" {
      TrimRightOver("", lead);
      assert "" + lead == lead + core;
    } else {
      var lc := lead + core;
      assert lc[|lc|-1] == core[|core|-1];
      assert TrimRight(lc) == lc;
      TrimLeftOver(lead, core);
    }
  }

  lemma {:induction false} TrimLeftSuffix(s: string) returns (k: nat)
    ensures k <= |s| && TrimLeft(s) == s[k..] && Blank(s[..k])
  {
    if s != [] && IsSpace(s[0]) {
      k := TrimLeftSuffix(s[1..]);
      k := k + 1;
      assert s[..k] == [s[0]] + s[1..][..k-1];
    } else {
      k := 0;
    }
  }

  lemma {:induction false} TrimRightPrefix(s: string)
    ensures Blank(s[|TrimRight(s)|..])
  {
    if s != [] && IsSpace(s[|s|-1]) {
      var t := s[..|s|-1];
      TrimRightPrefix(t);
      assert s[|TrimRight(t)|..] == t[|TrimRight(t)|..] + [s[|s|-1]];
    }
  }

  /** Every text is padding, a core with nothing to strip, and padding. */
  lemma {:induction false} StripDecomposes(s: string) returns (lead: string, trail: string)
    ensures s == lead + Strip(s) + trail && Blank(lead) && Blank(trail)
    ensures Strip(s) == "" || Trim(Strip(s))
  {
    var r := TrimRight(s);
    TrimRightPrefix(s);
    var k := TrimLeftSuffix(r);
    lead, trail := r[..k], s[|r|..];
    assert s == r + trail && r == lead + r[k..];
    if Strip(s) != "" { assert Strip(s)[|Strip(s)|-1] == r[|r|-1]; }
  }

  lemma {:induction false} StripIdempotent(s: string)
    ensures Strip(Strip(s)) == Strip(s)
  {
    var lead, trail := StripDecomposes(s);
    StripPadded("", Strip(s), "");
    assert "" + Strip(s) + "" == Strip(s);
  }

  function SkipSpaces(s: string): (n: nat)
    ensures n <= |s| && Blank(s[..n]) && (n < |s| ==> !IsSpace(s[n]))
  {
    if s != [] && IsSpace(s[0]) then
      var n := SkipSpaces(s[1..]) + 1;
      assert s[..n] == [s[0]] + s[1..][..n-1];
      n
    else 0
  }

  /** `_skip_ws`: the first position from `pos` that holds no whitespace, or the end. */
  method SkipWs(text: string, pos: nat) returns (r: nat)
    ensures pos >= |text| ==> r == pos
    ensures pos < |text| ==> r == pos + SkipSpaces(text[pos..])
  {
    r := pos;
    while r < |text| && IsSpace(text[r])
      invariant pos <= r
      invariant pos < |text| ==> r <= |text| && pos + SkipSpaces(text[pos..]) == r + SkipSpaces(text[r..])
      invariant pos >= |text| ==> r == pos
    {
      assert text[r..][1..] == text[r+1..];
      r := r + 1;
    }
  }

  // ---------------------------------------------------------------------
  // Balanced delimiters
  // ---------------------------------------------------------------------

  predicate IsOpener(c: char) { c == '(' || c == '[' || c == '{' }

  function CloserOf(c: char): char
    requires IsOpener(c)
  {
    if c == '(' then ')' else if c == '[' then ']' else '}'
  }

  /** Offset of the closer that takes `depth` open delimiters down to none. */
  function CloseIn(s: string, o: char, c: char, depth: nat): (r: Option<nat>)
    ensures r.Some? ==> r.value < |s| && s[r.value] == c
  {
    if s == [] then None
    else
      var d := if s[0] == o then depth + 1 else if s[0] == c && depth > 0 then depth - 1 else depth;
      if s[0] != o && s[0] == c && d == 0 then Some(0)
      else
        match CloseIn(s[1..], o, c, d)
        case None => None
        case Some(k) => Some(k + 1)
  }

  function MatchSpan(text: string, pos: nat): (r: Option<nat>)
    ensures r.Some? ==> pos < r.value < |text|
  {
    if pos >= |text| || !IsOpener(text[pos]) then None
    else
      match CloseIn(text[pos+1..], text[pos], CloserOf(text[pos]), 1)
      case None => None
      case Some(k) => Some(pos + 1 + k)
  }

  function Step(ch: char, o: char, c: char): int { if ch == o then 1 else if ch == c then -1 else 0 }

  /** Openers less closers of one kind. */
  function Depth(s: string, o: char, c: char): int {
    if s == [] then 0 else Step(s[0], o, c) + Depth(s[1..], o, c)
  }

  /** Through its first `n` characters, `s` leaves at least one of `depth` delimiters open. */
  ghost predicate StaysOpen(s: string, o: char, c: char, depth: int, n: nat) {
    n <= |s| && forall j {:trigger s[..j]} :: 0 <= j <= n ==> depth + Depth(s[..j], o, c) > 0
  }

  lemma {:induction false} DepthPrefix(s: string, o: char, c: char, j: nat)
    requires 1 <= j <= |s|
    ensures Depth(s[..j], o, c) == Step(s[0], o, c) + Depth(s[1..][..j-1], o, c)
  {
    assert s[..j][1..] == s[1..][..j-1];
  }

  lemma {:induction false} OneMoreOpen(s: string, o: char, c: char, depth: int, n: nat)
    requires depth > 0 && s != [] && 0 < n <= |s|
    requires StaysOpen(s[1..], o, c, depth + Step(s[0], o, c), n - 1)
    ensures StaysOpen(s, o, c, depth, n)
  {
    forall j | 0 <= j <= n ensures depth + Depth(s[..j], o, c) > 0 {
      if j > 0 { DepthPrefix(s, o, c, j); }
    }
  }

  /** The delimiters come out even at the match and nowhere before, or never. */
  ghost predicate IsMatch(s: string, o: char, c: char, depth: int, r: Option<nat>) {
    match r
    case None => StaysOpen(s, o, c, depth, |s|)
    case Some(k) => k < |s| && StaysOpen(s, o, c, depth, k) && depth + Depth(s[..k+1], o, c) == 0
  }

  lemma {:induction false} MatchLater(s: string, o: char, c: char, depth: int, r: Option<nat>)
    requires depth > 0 && s != [] && IsMatch(s[1..], o, c, depth + Step(s[0], o, c), r)
    ensures IsMatch(s, o, c, depth, if r.Some? then Some(r.value + 1) else None)
  {
    OneMoreOpen(s, o, c, depth, if r.Some? then r.value + 1 else |s|);
    if r.Some? { DepthPrefix(s, o, c, r.value + 2); }
  }

  lemma {:induction false} MatchNow(s: string, o: char, c: char, depth: int)
    requires depth > 0 && s != [] && depth + Step(s[0], o, c) == 0
    ensures IsMatch(s, o, c, depth, Some(0))
  {
    DepthPrefix(s, o, c, 1);
    assert s[..0] == [];
  }

  /** What the match means. */
  lemma {:induction false} CloseInMeaning(s: string, o: char, c: char, depth: nat)
    requires o != c && depth > 0
    ensures IsMatch(s, o, c, depth, CloseIn(s, o, c, depth))
  {
    if s != [] {
      var d := depth + Step(s[0], o, c);
      if d == 0 {
        MatchNow(s, o, c, depth);
      } else {
        CloseInMeaning(s[1..], o, c, d);
        MatchLater(s, o, c, depth, CloseIn(s[1..], o, c, d));
      }
    }
  }

  /** The match from an opener: the first place where it is closed, none if it never is. */
  lemma {:induction false} MatchSpanMeaning(text: string, pos: nat)
    requires pos < |text| && IsOpener(text[pos])
    ensures var o, c, rest := text[pos], CloserOf(text[pos]), text[pos+1..];
            match MatchSpan(text, pos)
            case None => StaysOpen(rest, o, c, 1, |rest|)
            case Some(k) => pos < k < |text| && StaysOpen(rest, o, c, 1, k - pos - 1) &&
                            1 + Depth(rest[..k - pos], o, c) == 0
  {
    CloseInMeaning(text[pos+1..], text[pos], CloserOf(text[pos]), 1);
  }

  /** `_match_balanced`: the span between the opener at `pos` and its closer. */
  method MatchBalanced(text: string, pos: nat) returns (r: Option<(nat, nat)>)
    ensures match MatchSpan(text, pos) case None => r == None case Some(k) => r == Some((pos + 1, k))
  {
    if pos >= |text| || !IsOpener(text[pos]) { return None; }
    var opener := text[pos];
    var closer := CloserOf(opener);
    var depth := 1;
    var k := pos + 1;
    var start := k;
    while k < |text|
      invariant start <= k <= |text| && depth > 0
      invariant MatchSpan(text, pos) ==
                match CloseIn(text[k..], opener, closer, depth)
                case None => None
                case Some(n) => Some(k + n)
    {
      var ch := text[k];
      assert text[k..][1..] == text[k+1..];
      if ch == opener {
        depth := depth + 1;
      } else if ch == closer {
        depth := depth - 1;
        if depth == 0 { return Some((start, k)); }
      }
      k := k + 1;
    }
    return None;
  }

  // ---------------------------------------------------------------------
  // Splitting on top-level commas
  // ---------------------------------------------------------------------

  predicate Opens(c: char) { c == '(' || c == '[' || c == '{' || c == '<' }
  predicate Closes(c: char) { c == ')' || c == ']' || c == '}' || c == '>' }

  /** The pieces of `text` when `current` has been read at `depth`. */
  function SplitFrom(text: string, depth: nat, current: string): seq<string>
    decreases |text|
  {
    if text == [] then (if Strip(current) == "" then [] else [Strip(current)])
    else
      var ch, rest := text[0], text[1..];
      if Opens(ch) then SplitFrom(rest, depth + 1, current + [ch])
      else if Closes(ch) then SplitFrom(rest, if depth > 0 then depth - 1 else 0, current + [ch])
      else if ch == ',' && depth == 0 then [Strip(current)] + SplitFrom(rest, depth, [])
      else SplitFrom(rest, depth, current + [ch])
  }

  /** No piece is longer than what was split. */
  lemma {:induction false} PiecesFit(text: string, depth: nat, current: string)
    ensures forall k :: 0 <= k < |SplitFrom(text, depth, current)| ==>
              |SplitFrom(text, depth, current)[k]| <= |current| + |text|
    decreases |text|
  {
    if text != [] {
      var ch, rest := text[0], text[1..];
      if Opens(ch) {
        PiecesFit(rest, depth + 1, current + [ch]);
      } else if Closes(ch) {
        PiecesFit(rest, if depth > 0 then depth - 1 else 0, current + [ch]);
      } else if ch == ',' && depth == 0 {
        PiecesFit(rest, depth, []);
      } else {
        PiecesFit(rest, depth, current + [ch]);
      }
    }
  }

  // What the split means, for any text: the pieces joined by commas are the text, and the commas it
  // is cut at are those outside every delimiter. A closer too many leaves the depth at zero.

  function Turn(c: char, depth: nat): nat {
    if Opens(c) then depth + 1 else if Closes(c) && depth > 0 then depth - 1 else depth
  }

  function After(text: string, depth: nat): nat
    decreases |text|
  {
    if text == [] then depth else After(text[1..], Turn(text[0], depth))
  }

  /** No comma stands outside every delimiter. */
  predicate Uncut(text: string, depth: nat)
    decreases |text|
  {
    text == [] || (!(text[0] == ',' && depth == 0) && Uncut(text[1..], Turn(text[0], depth)))
  }

  function JoinCommas(pieces: seq<string>): string {
    if pieces == [] then [] else if |pieces| == 1 then pieces[0] else pieces[0] + "," + JoinCommas(pieces[1..])
  }

  predicate EndsOutside(pieces: seq<string>, depth: nat) {
    pieces != [] && Uncut(pieces[0], depth) &&
    (|pieces| > 1 ==> After(pieces[0], depth) == 0 && EndsOutside(pieces[1..], 0))
  }

  predicate IsSplit(pieces: seq<string>, text: string, depth: nat) {
    JoinCommas(pieces) == text && EndsOutside(pieces, depth)
  }

  /** The pieces with `lead` before the first. */
  function Led(lead: string, pieces: seq<string>): (r: seq<string>)
    requires pieces != []
    ensures |r| == |pieces| && r[1..] == pieces[1..]
  {
    [lead + pieces[0]] + pieces[1..]
  }

  function Pieces(text: string, depth: nat): (r: seq<string>)
    ensures r != []
    decreases |text|
  {
    if text == [] then [[]]
    else if text[0] == ',' && depth == 0 then [[]] + Pieces(text[1..], 0)
    else Led([text[0]], Pieces(text[1..], Turn(text[0], depth)))
  }

  lemma {:induction false} LedByNothing(pieces: seq<string>)
    requires pieces != []
    ensures Led([], pieces) == pieces
  {
    assert [] + pieces[0] == pieces[0];
  }

  lemma {:induction false} LedTwice(a: string, b: string, pieces: seq<string>)
    requires pieces != []
    ensures Led(a, Led(b, pieces)) == Led(a + b, pieces)
  {
    assert a + (b + pieces[0]) == a + b + pieces[0];
  }

  /** What is returned of the pieces: each stripped, but not a last one that is blank. */
  function Returned(pieces: seq<string>): seq<string> {
    if pieces == [] then []
    else if |pieces| == 1 then (if Strip(pieces[0]) == "" then [] else [Strip(pieces[0])])
    else [Strip(pieces[0])] + Returned(pieces[1..])
  }

  lemma {:induction false} PiecesSplit(text: string, depth: nat)
    ensures IsSplit(Pieces(text, depth), text, depth)
    decreases |text|
  {
    if text != [] {
      var ch, rest := text[0], text[1..];
      var pieces := Pieces(text, depth);
      assert text == [ch] + rest;
      if ch == ',' && depth == 0 {
        PiecesSplit(rest, 0);
        assert pieces[1..] == Pieces(rest, 0);
        assert JoinCommas(pieces) == [] + "," + JoinCommas(pieces[1..]);
      } else {
        PiecesSplit(rest, Turn(ch, depth));
        FirstGrows(ch, Pieces(rest, Turn(ch, depth)), depth);
      }
    }
  }

  lemma {:induction false} FirstGrows(ch: char, pieces: seq<string>, depth: nat)
    requires pieces != [] && !(ch == ',' && depth == 0)
    ensures var grown := Led([ch], pieces);
            JoinCommas(grown) == [ch] + JoinCommas(pieces) &&
            (EndsOutside(grown, depth) <==> EndsOutside(pieces, Turn(ch, depth)))
  {
    assert Led([ch], pieces)[0][1..] == pieces[0];
    if |pieces| > 1 {
      assert [ch] + pieces[0] + "," + JoinCommas(pieces[1..]) == [ch] + (pieces[0] + "," + JoinCommas(pieces[1..]));
    }
  }

  lemma {:induction false} SplitIsUnique(pieces: seq<string>, text: string, depth: nat)
    requires IsSplit(pieces, text, depth)
    ensures pieces == Pieces(text, depth)
    decreases |text|
  {
    var first := pieces[0];
    if first == [] {
      if |pieces| > 1 {
        assert text[0] == ',' && text[1..] == JoinCommas(pieces[1..]);
        SplitIsUnique(pieces[1..], text[1..], 0);
        assert pieces == [first] + pieces[1..];
      } else {
        assert text == [] && pieces == [[]];
      }
    } else {
      var ch, shrunk := first[0], [first[1..]] + pieces[1..];
      assert [ch] + first[1..] == first;
      assert Led([ch], shrunk) == pieces;
      FirstGrows(ch, shrunk, depth);
      assert text[1..] == JoinCommas(shrunk);
      SplitIsUnique(shrunk, text[1..], Turn(ch, depth));
    }
  }

  lemma {:induction false} SplitReturns(text: string, depth: nat, current: string)
    ensures SplitFrom(text, depth, current) == Returned(Led(current, Pieces(text, depth)))
    decreases |text|
  {
    if text == [] {
      assert current + [] == current;
    } else if text[0] == ',' && depth == 0 {
      var rest := Pieces(text[1..], 0);
      SplitReturns(text[1..], 0, []);
      LedByNothing(rest);
      assert current + [] == current;
      assert Led(current, [[]] + rest) == [current] + rest;
      assert ([current] + rest)[1..] == rest;
    } else {
      SplitReturns(text[1..], Turn(text[0], depth), current + [text[0]]);
      LedTwice(current, [text[0]], Pieces(text[1..], Turn(text[0], depth)));
    }
  }

  /** Every text is cut in one way into pieces that commas join to the text, none of them cut by a
      comma outside all delimiters and each but the last leaving no delimiter open; these pieces
      are what is returned, stripped, without a blank last one. */
  lemma {:induction false} SplitMeaning(text: string, pieces: seq<string>)
    ensures IsSplit(pieces, text, 0) <==> pieces == Pieces(text, 0)
    ensures IsSplit(pieces, text, 0) ==> SplitFrom(text, 0, []) == Returned(pieces)
  {
    PiecesSplit(text, 0);
    if IsSplit(pieces, text, 0) {
      SplitIsUnique(pieces, text, 0);
      SplitReturns(text, 0, []);
      LedByNothing(pieces);
    }
  }

  /** `_split_top_level_commas`. */
  method SplitTopLevelCommas(text: string) returns (out: seq<string>)
    ensures out == SplitFrom(text, 0, [])
  {
    out := [];
    var depth := 0;
    var current: string := [];
    var i := 0;
    while i < |text|
      invariant 0 <= i <= |text| && depth >= 0
      invariant SplitFrom(text, 0, []) == out + SplitFrom(text[i..], depth, current)
    {
      var ch := text[i];
      assert text[i..][0] == ch && text[i..][1..] == text[i+1..];
      if Opens(ch) {
        depth := depth + 1;
        current := current + [ch];
      } else if Closes(ch) {
        depth := if depth > 0 then depth - 1 else 0;
        current := current + [ch];
      } else if ch == ',' && depth == 0 {
        assert out + ([Strip(current)] + SplitFrom(text[i+1..], depth, [])) ==
               out + [Strip(current)] + SplitFrom(text[i+1..], depth, []);
        out := out + [Strip(current)];
        current := [];
      } else {
        current := current + [ch];
      }
      i := i + 1;
    }
    var tail := Strip(current);
    if tail != "" { out := out + [tail]; }
  }

  /** The depth after `t`, if `t` neither closes below where it started nor holds a comma at 0. */
  function Sink(t: string, depth: nat): Option<nat> {
    if t == [] then Some(depth)
    else if Opens(t[0]) then Sink(t[1..], depth + 1)
    else if Closes(t[0]) then (if depth == 0 then None else Sink(t[1..], depth - 1))
    else if t[0] == ',' && depth == 0 then None
    else Sink(t[1..], depth)
  }

  lemma {:induction false} SinkAppend(t: string, u: string, depth: nat)
    requires Sink(t, depth).Some?
    ensures Sink(t + u, depth) == Sink(u, Sink(t, depth).value)
  {
    if t == [] {
      assert t + u == u;
    } else {
      assert (t + u)[1..] == t[1..] + u;
      SinkAppend(t[1..], u,
        if Opens(t[0]) then depth + 1 else if Closes(t[0]) then depth - 1 else depth);
    }
  }

  /** A sunk text never ends a piece: it only grows the current one. */
  lemma {:induction false} SplitSunk(t: string, rest: string, depth: nat, current: string)
    requires Sink(t, depth).Some?
    ensures SplitFrom(t + rest, depth, current) == SplitFrom(rest, Sink(t, depth).value, current + t)
  {
    if t == [] {
      assert t + rest == rest && current + t == current;
    } else {
      assert (t + rest)[1..] == t[1..] + rest;
      assert current + t == current + [t[0]] + t[1..];
      SplitSunk(t[1..], rest,
        if Opens(t[0]) then depth + 1 else if Closes(t[0]) then depth - 1 else depth, current + [t[0]]);
    }
  }

  /** Text without commas or delimiters. */
  predicate Plain(t: string) {
    forall i :: 0 <= i < |t| ==> !Opens(t[i]) && !Closes(t[i]) && t[i] != ','
  }

  lemma {:induction false} PlainSinks(t: string, depth: nat)
    requires Plain(t)
    ensures Sink(t, depth) == Some(depth)
  {
    if t != [] { PlainSinks(t[1..], depth); }
  }

  /** Scanning parentheses across `t` comes out at the depth it went in with. */
  ghost predicate ParenNeutral(t: string) {
    forall rest: string, depth: nat {:trigger CloseIn(t + rest, '(', ')', depth)} :: depth > 0 ==>
      CloseIn(t + rest, '(', ')', depth) ==
      match CloseIn(rest, '(', ')', depth) case None => None case Some(k) => Some(|t| + k)
  }

  lemma {:induction false} PlainPasses(t: string, rest: string, depth: nat)
    requires Plain(t) && depth > 0
    ensures CloseIn(t + rest, '(', ')', depth) ==
            match CloseIn(rest, '(', ')', depth) case None => None case Some(k) => Some(|t| + k)
  {
    if t == [] {
      assert t + rest == rest;
    } else {
      assert (t + rest)[1..] == t[1..] + rest && t[0] != '(' && t[0] != ')';
      PlainPasses(t[1..], rest, depth);
    }
  }

  lemma {:induction false} CommaPasses(rest: string, depth: nat)
    requires depth > 0
    ensures CloseIn("," + rest, '(', ')', depth) ==
            match CloseIn(rest, '(', ')', depth) case None => None case Some(k) => Some(1 + k)
  {
    assert ("," + rest)[1..] == rest;
  }

  lemma {:induction false} PlainNeutral(t: string)
    requires Plain(t)
    ensures ParenNeutral(t)
  {
    forall rest: string, depth: nat | depth > 0
      ensures CloseIn(t + rest, '(', ')', depth) ==
              match CloseIn(rest, '(', ')', depth) case None => None case Some(k) => Some(|t| + k)
    {
      PlainPasses(t, rest, depth);
    }
  }

  lemma {:induction false} CommaNeutral()
    ensures ParenNeutral(",")
  {
    forall rest: string, depth: nat | depth > 0
      ensures CloseIn("," + rest, '(', ')', depth) ==
              match CloseIn(rest, '(', ')', depth) case None => None case Some(k) => Some(|","| + k)
    {
      CommaPasses(rest, depth);
    }
  }

  lemma {:induction false} NeutralAppend(t: string, u: string)
    requires ParenNeutral(t) && ParenNeutral(u)
    ensures ParenNeutral(t + u)
  {
    forall rest: string, depth: nat | depth > 0
      ensures CloseIn((t + u) + rest, '(', ')', depth) ==
              match CloseIn(rest, '(', ')', depth) case None => None case Some(k) => Some(|t + u| + k)
    {
      assert (t + u) + rest == t + (u + rest);
    }
  }

  lemma {:induction false} OpenStep(rest: string, depth: nat)
    requires depth > 0
    ensures CloseIn("(" + rest, '(', ')', depth) ==
            match CloseIn(rest, '(', ')', depth + 1) case None => None case Some(k) => Some(k + 1)
    ensures CloseIn(")" + rest, '(', ')', 1) == Some(0)
  {
    assert ("(" + rest)[1..] == rest && (")" + rest)[1..] == rest;
  }

  lemma {:induction false} CloseStep(rest: string, depth: nat)
    requires depth > 0
    ensures CloseIn(")" + rest, '(', ')', depth + 1) ==
            match CloseIn(rest, '(', ')', depth) case None => None case Some(k) => Some(k + 1)
  {
    assert (")" + rest)[1..] == rest;
  }

  lemma {:induction false} Regrouped(t: string, rest: string)
    ensures ("(" + t + ")") + rest == "(" + (t + (")" + rest))
  {
  }

  lemma {:induction false} NeutralAt(t: string, u: string, depth: nat)
    requires ParenNeutral(t) && depth > 0
    ensures CloseIn(t + u, '(', ')', depth) ==
            match CloseIn(u, '(', ')', depth) case None => None case Some(k) => Some(|t| + k)
  {
  }

  lemma {:induction false} ParensPass(t: string, rest: string, depth: nat)
    requires ParenNeutral(t) && depth > 0
    ensures CloseIn(("(" + t + ")") + rest, '(', ')', depth) ==
            match CloseIn(rest, '(', ')', depth) case None => None case Some(k) => Some(|t| + 2 + k)
  {
    var p, u := ("(" + t + ")") + rest, ")" + rest;
    Regrouped(t, rest);
    OpenThen(t, u, depth);
    CloseStep(rest, depth);
    assert CloseIn(p, '(', ')', depth) == CloseIn("(" + (t + u), '(', ')', depth);
  }

  lemma {:induction false} OpenThen(t: string, u: string, depth: nat)
    requires ParenNeutral(t) && depth > 0
    ensures CloseIn("(" + (t + u), '(', ')', depth) ==
            match CloseIn(u, '(', ')', depth + 1) case None => None case Some(k) => Some(|t| + 1 + k)
  {
    OpenStep(t + u, depth);
    NeutralAt(t, u, depth + 1);
  }

  lemma {:induction false} NeutralParens(t: string)
    requires ParenNeutral(t)
    ensures ParenNeutral("(" + t + ")")
  {
    var p := "(" + t + ")";
    forall rest: string, depth: nat | depth > 0
      ensures CloseIn(p + rest, '(', ')', depth) ==
              match CloseIn(rest, '(', ')', depth) case None => None case Some(k) => Some(|p| + k)
    {
      ParensPass(t, rest, depth);
    }
  }
}
