/** The hand-written JSON of the front door: the string writer of `src/frontend/doctor.rs`, the
    string reader of `src/frontend/summary.rs`, and a reader after section 7 of RFC 8259. */
module JsonText {
  import opened Wrappers

  const QUOTE: char := '\"'
  const BACKSLASH: char := '\\'

  predicate IsControl(c: char) { (c as int) < 0x20 }

  // ---------------------------------------------------------------------
  // Writing
  // ---------------------------------------------------------------------

  function HexDigit(n: nat): char
    requires n < 16
  {
    if n < 10 then ('0' as int + n) as char else ('a' as int + n - 10) as char
  }

  function Escape(c: char): string {
    if c == QUOTE then [BACKSLASH, QUOTE]
    else if c == BACKSLASH then [BACKSLASH, BACKSLASH]
    else if c == '\n' then [BACKSLASH, 'n']
    else if c == '\r' then [BACKSLASH, 'r']
    else if c == '\t' then [BACKSLASH, 't']
    else if IsControl(c) then [BACKSLASH, 'u', '0', '0', HexDigit(c as int / 16), HexDigit(c as int % 16)]
    else [c]
  }

  function EscapeAll(s: string): string {
    if s == [] then [] else Escape(s[0]) + EscapeAll(s[1..])
  }

  function Quoted(s: string): string { [QUOTE] + EscapeAll(s) + [QUOTE] }

  lemma {:induction false} EscapeSnoc(s: string, c: char)
    ensures EscapeAll(s + [c]) == EscapeAll(s) + Escape(c)
  {
    if s == [] {
      assert [] + [c] == [c] && [c][1..] == [];
    } else {
      assert (s + [c])[1..] == s[1..] + [c];
      EscapeSnoc(s[1..], c);
    }
  }

  lemma {:induction false} EscapeNext(value: string, i: nat)
    requires i < |value|
    ensures [QUOTE] + EscapeAll(value[..i]) + Escape(value[i]) == [QUOTE] + EscapeAll(value[..i+1])
  {
    var prefix, e := EscapeAll(value[..i]), Escape(value[i]);
    EscapeSnoc(value[..i], value[i]);
    assert value[..i] + [value[i]] == value[..i+1];
    assert [QUOTE] + prefix + e == [QUOTE] + (prefix + e);
  }

  /** `json_string`: pushes each character, escaped, between two quotes. */
  method JsonString(value: string) returns (out: string)
    ensures out == Quoted(value)
  {
    out := [QUOTE];
    var i := 0;
    while i < |value|
      invariant 0 <= i <= |value|
      invariant out == [QUOTE] + EscapeAll(value[..i])
    {
      EscapeNext(value, i);
      out := out + Escape(value[i]);
      i := i + 1;
    }
    assert value[..i] == value;
    out := out + [QUOTE];
  }

  // ---------------------------------------------------------------------
  // The grammar's own reader
  // ---------------------------------------------------------------------

  function HexValue(c: char): Option<nat> {
    if '0' <= c <= '9' then Some(c as int - '0' as int)
    else if 'a' <= c <= 'f' then Some(c as int - 'a' as int + 10)
    else if 'A' <= c <= 'F' then Some(c as int - 'A' as int + 10)
    else None
  }

  function Hex4(t: string): Option<nat>
    requires |t| >= 4
  {
    var a, b, c, d := HexValue(t[0]), HexValue(t[1]), HexValue(t[2]), HexValue(t[3]);
    if a.Some? && b.Some? && c.Some? && d.Some?
    then Some(4096 * a.value + 256 * b.value + 16 * c.value + d.value) else None
  }

  /** The character an escape stands for, and how many characters follow the backslash. Escaped
      surrogates are not read. */
  function Unescape(t: string): (r: Option<(char, nat)>)
    ensures r.Some? ==> 1 <= r.value.1 <= |t|
  {
    if t == [] then None
    else if t[0] == QUOTE || t[0] == BACKSLASH || t[0] == '/' then Some((t[0], 1))
    else if t[0] == 'b' then Some((8 as char, 1))
    else if t[0] == 'f' then Some((12 as char, 1))
    else if t[0] == 'n' then Some(('\n', 1))
    else if t[0] == 'r' then Some(('\r', 1))
    else if t[0] == 't' then Some(('\t', 1))
    else if t[0] == 'u' && |t| >= 5 then
      match Hex4(t[1..])
      case None => None
      case Some(n) => if n < 0xD800 || 0xE000 <= n < 0x1_0000 then Some((n as char, 5)) else None
    else None
  }

  /** The value of a string literal, from after its opening quote, and what follows its closing one. */
  function ReadString(t: string): (r: Option<(string, string)>)
    ensures r.Some? ==> |r.value.1| < |t|
    decreases |t|
  {
    if t == [] || IsControl(t[0]) then None
    else if t[0] == QUOTE then Some(([], t[1..]))
    else if t[0] == BACKSLASH then
      match Unescape(t[1..])
      case None => None
      case Some((c, n)) =>
        (match ReadString(t[1 + n..])
         case None => None
         case Some((v, rest)) => Some(([c] + v, rest)))
    else
      match ReadString(t[1..])
      case None => None
      case Some((v, rest)) => Some(([t[0]] + v, rest))
  }

  /** One written character is read back as itself. */
  lemma {:induction false} ReadEscaped(c: char, tail: string)
    ensures ReadString(Escape(c) + tail) ==
            match ReadString(tail) case None => None case Some((v, rest)) => Some(([c] + v, rest))
  {
    var e := Escape(c);
    var t := e + tail;
    if e == [c] {
      assert t[1..] == tail;
    } else if |e| == 2 {
      assert t[2..] == tail && t[1..][0] == e[1];
    } else {
      var n := c as int;
      assert t[6..] == tail;
      var u := t[1..];
      assert u[0] == 'u' && u[1..][0] == '0' && u[1..][1] == '0' && u[1..][2] == e[4] && u[1..][3] == e[5];
      HexRoundTrip(n / 16);
      HexRoundTrip(n % 16);
      assert Hex4(u[1..]) == Some(n);
      assert n as char == c;
      assert Unescape(u) == Some((c, 5));
    }
  }

  lemma {:induction false} HexRoundTrip(n: nat)
    requires n < 16
    ensures HexValue(HexDigit(n)) == Some(n)
  {
  }

  /** For every text, what is written is a string literal whose value is that text, whatever
      comes after it. */
  lemma {:induction false} WrittenIsRead(s: string, rest: string)
    ensures ReadString(EscapeAll(s) + [QUOTE] + rest) == Some((s, rest))
  {
    if s == [] {
      var t := [QUOTE] + rest;
      assert EscapeAll(s) + [QUOTE] + rest == t && t[1..] == rest;
    } else {
      var tail := EscapeAll(s[1..]) + [QUOTE] + rest;
      assert EscapeAll(s) + [QUOTE] + rest == Escape(s[0]) + tail;
      WrittenIsRead(s[1..], rest);
      ReadEscaped(s[0], tail);
      assert [s[0]] + s[1..] == s;
    }
  }

  // ---------------------------------------------------------------------
  // Arrays of strings
  // ---------------------------------------------------------------------

  function Rendered(items: seq<string>): string {
    if items == [] then []
    else if |items| == 1 then Quoted(items[0])
    else Quoted(items[0]) + ", " + Rendered(items[1..])
  }

  /** `json_array`. */
  method JsonArray(items: seq<string>) returns (out: string)
    ensures out == "[" + Rendered(items) + "]"
  {
    if items == [] { return "[]"; }
    out := "";
    var i := |items|;
    while i > 0
      invariant 0 <= i <= |items|
      invariant out == Rendered(items[i..])
    {
      var text := JsonString(items[i-1]);
      assert items[i-1..][1..] == items[i..] && items[i-1..][0] == items[i-1];
      out := if i == |items| then text else text + ", " + out;
      i := i - 1;
    }
    assert items[0..] == items;
    out := "[" + out + "]";
  }

  function SkipBlanks(t: string): (r: string)
    ensures |r| <= |t|
  {
    if t != [] && (t[0] == ' ' || t[0] == '\t' || t[0] == '\n' || t[0] == '\r') then SkipBlanks(t[1..]) else t
  }

  /** The elements from after the opening bracket or a comma, up to the closing bracket. */
  function ReadElements(t: string): Option<(seq<string>, string)>
    decreases |t|
  {
    var u := SkipBlanks(t);
    if u == [] || u[0] != QUOTE then None
    else
      match ReadString(u[1..])
      case None => None
      case Some((v, more)) =>
        var w := SkipBlanks(more);
        if w == [] then None
        else if w[0] == ']' then Some(([v], w[1..]))
        else if w[0] == ',' then
          (match ReadElements(w[1..])
           case None => None
           case Some((vs, rest)) => Some(([v] + vs, rest)))
        else None
  }

  function ReadArray(t: string): Option<(seq<string>, string)> {
    if t == [] || t[0] != '[' then None
    else
      var u := SkipBlanks(t[1..]);
      if u != [] && u[0] == ']' then Some(([], u[1..])) else ReadElements(t[1..])
  }

  lemma {:induction false} QuotedThen(s: string, tail: string)
    ensures (Quoted(s) + tail)[0] == QUOTE && SkipBlanks(Quoted(s) + tail) == Quoted(s) + tail
    ensures ReadString((Quoted(s) + tail)[1..]) == Some((s, tail))
  {
    WrittenIsRead(s, tail);
    assert (Quoted(s) + tail)[1..] == EscapeAll(s) + [QUOTE] + tail;
  }

  lemma {:induction false} LastElement(s: string, rest: string)
    ensures ReadElements(Quoted(s) + ("]" + rest)) == Some(([s], rest))
  {
    var tail := "]" + rest;
    QuotedThen(s, tail);
    assert tail[0] == ']' && tail[1..] == rest;
    assert SkipBlanks(tail) == tail;
  }

  lemma {:induction false} NextElement(s: string, more: string, items: seq<string>, rest: string)
    requires ReadElements(more) == Some((items, rest))
    ensures ReadElements(Quoted(s) + ("," + more)) == Some(([s] + items, rest))
  {
    var tail := "," + more;
    QuotedThen(s, tail);
    assert tail[0] == ',' && tail[1..] == more;
    assert SkipBlanks(tail) == tail;
  }

  lemma {:induction false} BlankFirst(t: string)
    ensures ReadElements(" " + t) == ReadElements(t)
  {
    assert (" " + t)[1..] == t;
    assert SkipBlanks(" " + t) == SkipBlanks(t);
  }

  lemma {:induction false} Regroup(q: string, first: string, second: string, more: string, end: string)
    ensures q + (first + second) + more + end == q + (first + (second + (more + end)))
  {
    assert q + (first + second) + more == q + (first + second + more);
    assert first + second + more + end == first + (second + (more + end));
  }

  lemma {:induction false} RenderedCons(items: seq<string>, end: string)
    requires |items| >= 2
    ensures Rendered(items) + end == Quoted(items[0]) + ("," + (" " + (Rendered(items[1..]) + end)))
  {
    Regroup(Quoted(items[0]), ",", " ", Rendered(items[1..]), end);
    assert ", " == "," + " ";
  }

  lemma {:induction false} ElementsAreRead(items: seq<string>, rest: string, t: string)
    requires items != []
    requires t == Rendered(items) + ("]" + rest)
    ensures ReadElements(t) == Some((items, rest))
    decreases items
  {
    if |items| == 1 {
      LastElement(items[0], rest);
      assert items == [items[0]];
    } else {
      var more := Rendered(items[1..]) + ("]" + rest);
      ElementsAreRead(items[1..], rest, more);
      BlankFirst(more);
      NextElement(items[0], " " + more, items[1..], rest);
      RenderedCons(items, "]" + rest);
      assert [items[0]] + items[1..] == items;
    }
  }

  lemma {:induction false} ReadsElements(t: string)
    requires t != [] && t[0] == QUOTE
    ensures ReadArray("[" + t) == ReadElements(t)
  {
    assert ("[" + t)[1..] == t;
    assert SkipBlanks(t) == t;
  }

  lemma {:induction false} ReadsNone(rest: string)
    ensures ReadArray("[" + ("]" + rest)) == Some(([], rest))
  {
    var t := "]" + rest;
    assert ("[" + t)[1..] == t && t[1..] == rest && t[0] == ']';
    assert SkipBlanks(t) == t;
  }

  /** An array of strings is read back element by element. */
  lemma {:induction false} ArrayIsRead(items: seq<string>, rest: string)
    ensures ReadArray("[" + (Rendered(items) + ("]" + rest))) == Some((items, rest))
  {
    var t := Rendered(items) + ("]" + rest);
    if items == [] {
      assert t == "]" + rest;
      ReadsNone(rest);
    } else {
      ElementsAreRead(items, rest, t);
      assert Rendered(items)[0] == QUOTE;
      ReadsElements(t);
    }
  }

  // ---------------------------------------------------------------------
  // The front door's reader
  // ---------------------------------------------------------------------

  /** Reads to the closing quote, dropping each backslash and keeping what it escapes as it is. */
  function LooseRead(t: string): (r: Option<(string, string)>)
    ensures r.Some? ==> |r.value.1| < |t|
    decreases |t|
  {
    if t == [] then None
    else if t[0] == QUOTE then Some(([], t[1..]))
    else if t[0] == BACKSLASH then
      if |t| == 1 then None
      else
        (match LooseRead(t[2..])
         case None => None
         case Some((v, rest)) => Some(([t[1]] + v, rest)))
    else
      match LooseRead(t[1..])
      case None => None
      case Some((v, rest)) => Some(([t[0]] + v, rest))
  }

  /** From after the first quote. */
  function AfterQuote(t: string): Option<string> {
    if t == [] then None else if t[0] == QUOTE then Some(t[1..]) else AfterQuote(t[1..])
  }

  function StringAfter(text: string): Option<(string, string)> {
    match AfterQuote(text) case None => None case Some(t) => LooseRead(t)
  }

  /** The second loop of `json_string_after`, from after the opening quote. */
  method ReadToQuote(text: string, open: nat) returns (r: Option<string>)
    requires open <= |text|
    ensures match LooseRead(text[open..]) case None => r == None case Some((v, _)) => r == Some(v)
  {
    var out: string := [];
    var i := open;
    assert forall v: string :: out + v == v;
    while i < |text|
      invariant open <= i <= |text|
      invariant LooseRead(text[open..]) ==
                match LooseRead(text[i..]) case None => None case Some((v, rest)) => Some((out + v, rest))
    {
      var c := text[i];
      var was := text[i..];
      assert was[0] == c && was[1..] == text[i+1..];
      i := i + 1;
      if c == QUOTE {
        assert out + [] == out;
        return Some(out);
      } else if c == BACKSLASH {
        if i == |text| { return None; }
        assert was[1] == text[i] && was[2..] == text[i+1..];
        assert forall v: string :: out + ([text[i]] + v) == out + [text[i]] + v;
        out := out + [text[i]];
        i := i + 1;
      } else {
        assert forall v: string :: out + ([c] + v) == out + [c] + v;
        out := out + [c];
      }
    }
    return None;
  }

  /** `json_string_after`. */
  method JsonStringAfter(text: string, from: nat) returns (r: Option<string>)
    requires from <= |text|
    ensures match StringAfter(text[from..]) case None => r == None case Some((v, _)) => r == Some(v)
  {
    var open := from;
    while open < |text| && text[open] != QUOTE
      invariant from <= open <= |text|
      invariant AfterQuote(text[from..]) == AfterQuote(text[open..])
    {
      assert text[open..][1..] == text[open+1..];
      open := open + 1;
    }
    if open == |text| { return None; }
    assert text[open..][1..] == text[open+1..];
    r := ReadToQuote(text, open + 1);
  }

  /** What the loose reader makes of one written character. */
  function Garble(c: char): string {
    if IsControl(c) then Escape(c)[1..] else [c]
  }

  function GarbleAll(s: string): string {
    if s == [] then [] else Garble(s[0]) + GarbleAll(s[1..])
  }

  lemma {:induction false} LooseEscaped(c: char, tail: string)
    ensures LooseRead(Escape(c) + tail) ==
            match LooseRead(tail) case None => None case Some((v, rest)) => Some((Garble(c) + v, rest))
  {
    var e := Escape(c);
    var t := e + tail;
    if e == [c] {
      assert t[1..] == tail;
    } else if |e| == 2 {
      assert t[2..] == tail && Garble(c) == [e[1]];
    } else {
      LoosePlain(e[2..], tail);
      assert t[2..] == e[2..] + tail;
      assert Garble(c) == [e[1]] + e[2..];
      if LooseRead(tail).Some? {
        assert [e[1]] + (e[2..] + LooseRead(tail).value.0) == Garble(c) + LooseRead(tail).value.0;
      }
    }
  }

  lemma {:induction false} LoosePlain(p: string, tail: string)
    requires QUOTE !in p && BACKSLASH !in p
    ensures LooseRead(p + tail) ==
            match LooseRead(tail) case None => None case Some((v, rest)) => Some((p + v, rest))
  {
    if p == [] {
      assert p + tail == tail;
      if LooseRead(tail).Some? { assert p + LooseRead(tail).value.0 == LooseRead(tail).value.0; }
    } else {
      assert (p + tail)[1..] == p[1..] + tail;
      LoosePlain(p[1..], tail);
      if LooseRead(tail).Some? {
        assert [p[0]] + (p[1..] + LooseRead(tail).value.0) == p + LooseRead(tail).value.0;
      }
    }
  }

  lemma {:induction false} LooseReadsGarbled(s: string, rest: string)
    ensures LooseRead(EscapeAll(s) + [QUOTE] + rest) == Some((GarbleAll(s), rest))
  {
    if s == [] {
      var t := [QUOTE] + rest;
      assert EscapeAll(s) + [QUOTE] + rest == t && t[1..] == rest;
    } else {
      var tail := EscapeAll(s[1..]) + [QUOTE] + rest;
      assert EscapeAll(s) + [QUOTE] + rest == Escape(s[0]) + tail;
      LooseReadsGarbled(s[1..], rest);
      LooseEscaped(s[0], tail);
    }
  }

  lemma {:induction false} GarbledIffControl(s: string)
    ensures GarbleAll(s) == s <==> forall i :: 0 <= i < |s| ==> !IsControl(s[i])
  {
    if s != [] {
      GarbledIffControl(s[1..]);
      assert s == [s[0]] + s[1..];
      if IsControl(s[0]) {
        assert GarbleAll(s)[0] == Escape(s[0])[1];
      } else {
        assert GarbleAll(s) == [s[0]] + GarbleAll(s[1..]);
        assert GarbleAll(s)[1..] == GarbleAll(s[1..]);
      }
    }
  }

  lemma {:induction false} SkipToQuote(before: string, tail: string)
    requires QUOTE !in before
    ensures AfterQuote(before + ([QUOTE] + tail)) == Some(tail)
  {
    if before == [] {
      assert before + ([QUOTE] + tail) == [QUOTE] + tail && ([QUOTE] + tail)[1..] == tail;
    } else {
      assert (before + ([QUOTE] + tail))[1..] == before[1..] + ([QUOTE] + tail);
      SkipToQuote(before[1..], tail);
    }
  }

  /** The front door's reader stops at the closing quote of a written string whatever follows,
      and reads the string back exactly when it holds no control character. */
  lemma {:induction false} FrontDoorReadsBack(before: string, s: string, rest: string)
    requires QUOTE !in before
    ensures var r := StringAfter(before + Quoted(s) + rest);
            r.Some? && r.value.1 == rest &&
            (r.value.0 == s <==> forall i :: 0 <= i < |s| ==> !IsControl(s[i]))
  {
    var tail := EscapeAll(s) + [QUOTE] + rest;
    assert before + Quoted(s) + rest == before + ([QUOTE] + tail);
    SkipToQuote(before, tail);
    LooseReadsGarbled(s, rest);
    GarbledIffControl(s);
  }
}
