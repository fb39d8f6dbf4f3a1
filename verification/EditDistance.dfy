/** The edit distance of `src/frontend/mod.rs`, its independent meaning as the length of a
    shortest editing session, and the metric laws that follow. */
module EditDistance {

  function Min(x: nat, y: nat): nat { if x < y then x else y }

  function Cost(x: char, y: char): nat { if x != y then 1 else 0 }

  /** The distance by its textbook recurrence on the last characters. */
  function Dist(a: string, b: string): nat
    decreases |a| + |b|
  {
    if |a| == 0 then |b|
    else if |b| == 0 then |a|
    else
      var a', b' := a[..|a|-1], b[..|b|-1];
      Min(Min(Dist(a', b) + 1, Dist(a, b') + 1), Dist(a', b') + Cost(a[|a|-1], b[|b|-1]))
  }

  // ---------------------------------------------------------------------
  // Editing sessions: any sequence of one-character edits, anywhere.
  // ---------------------------------------------------------------------

  datatype Edit = Insert(at: nat, c: char) | Delete(at: nat) | Substitute(at: nat, c: char)
  {
    predicate Fits(w: string) {
      if Insert? then at <= |w| else at < |w|
    }

    function Apply(w: string): string
      requires Fits(w)
    {
      match this
      case Insert(k, c) => w[..k] + [c] + w[k..]
      case Delete(k) => w[..k] + w[k+1..]
      case Substitute(k, c) => w[..k] + [c] + w[k+1..]
    }
  }

  predicate Runs(script: seq<Edit>, w: string) {
    script == [] || (script[0].Fits(w) && Runs(script[1..], script[0].Apply(w)))
  }

  function Run(script: seq<Edit>, w: string): string
    requires Runs(script, w)
  {
    if script == [] then w else Run(script[1..], script[0].Apply(w))
  }

  /** `script` is an editing session that takes `a` to `b`. */
  predicate Turns(script: seq<Edit>, a: string, b: string) {
    Runs(script, a) && Run(script, a) == b
  }

  lemma {:induction false} RunConcat(s: seq<Edit>, t: seq<Edit>, w: string)
    requires Runs(s, w) && Runs(t, Run(s, w))
    ensures Runs(s + t, w) && Run(s + t, w) == Run(t, Run(s, w))
  {
    if s == [] {
      assert s + t == t;
    } else {
      RunConcat(s[1..], t, s[0].Apply(w));
      assert (s + t)[1..] == s[1..] + t && (s + t)[0] == s[0];
    }
  }

  /** A session never looks past the text it edits: a trailing character rides along. */
  lemma {:induction false} RunFrame(s: seq<Edit>, w: string, z: char)
    requires Runs(s, w)
    ensures Runs(s, w + [z]) && Run(s, w + [z]) == Run(s, w) + [z]
  {
    if s != [] {
      var e := s[0];
      assert e.Apply(w + [z]) == e.Apply(w) + [z] by {
        assert (w + [z])[..e.at] == w[..e.at];
      }
      RunFrame(s[1..], e.Apply(w), z);
    }
  }

  // ---------------------------------------------------------------------
  // A shortest session exists ...
  // ---------------------------------------------------------------------

  lemma {:induction false} ClearAll(a: string) returns (script: seq<Edit>)
    ensures |script| == |a| && Turns(script, a, [])
  {
    if a == [] {
      script := [];
    } else {
      var rest := ClearAll(a[1..]);
      var first: Edit := Delete(0);
      script := [first] + rest;
      assert first.Apply(a) == a[1..];
      assert script[1..] == rest;
    }
  }

  lemma {:induction false} TypeAll(b: string) returns (script: seq<Edit>)
    ensures |script| == |b| && Turns(script, [], b)
  {
    if b == [] {
      script := [];
    } else {
      var b' := b[..|b|-1];
      var rest := TypeAll(b');
      var last: Edit := Insert(|b'|, b[|b|-1]);
      assert last.Apply(b') == b;
      assert Runs([last], b') && Run([last], b') == b by { assert [last][1..] == []; }
      RunConcat(rest, [last], []);
      script := rest + [last];
    }
  }

  /** Every pair of texts is joined by a session of exactly `Dist` edits. */
  lemma {:induction false} ShortestScriptExists(a: string, b: string) returns (script: seq<Edit>)
    ensures |script| == Dist(a, b) && Turns(script, a, b)
    decreases |a| + |b|
  {
    if a == [] {
      script := TypeAll(b);
    } else if b == [] {
      script := ClearAll(a);
    } else {
      var a', b' := a[..|a|-1], b[..|b|-1];
      var x, y := a[|a|-1], b[|b|-1];
      assert a == a' + [x] && b == b' + [y];
      if Dist(a, b) == Dist(a', b) + 1 {
        var rest := ShortestScriptExists(a', b);
        var first: Edit := Delete(|a'|);
        assert first.Apply(a) == a';
        script := [first] + rest;
        assert script[1..] == rest;
      } else if Dist(a, b) == Dist(a, b') + 1 {
        var rest := ShortestScriptExists(a, b');
        var last: Edit := Insert(|b'|, y);
        script := AppendEdit(rest, a, b', last, b);
      } else {
        var rest := ShortestScriptExists(a', b');
        RunFrame(rest, a', x);
        if x == y {
          script := rest;
        } else {
          var last: Edit := Substitute(|b'|, y);
          script := AppendEdit(rest, a, b' + [x], last, b);
        }
      }
    }
  }

  lemma {:induction false} AppendEdit(rest: seq<Edit>, a: string, mid: string, last: Edit, b: string)
    returns (script: seq<Edit>)
    requires Turns(rest, a, mid) && last.Fits(mid) && last.Apply(mid) == b
    ensures |script| == |rest| + 1 && Turns(script, a, b)
  {
    assert [last][1..] == [];
    RunConcat(rest, [last], a);
    script := rest + [last];
  }

  // ---------------------------------------------------------------------
  // ... and no session is shorter.
  // ---------------------------------------------------------------------

  /** One more character on the right moves the distance by at most one. */
  lemma {:induction false} PushLeft(x: string, c: char, b: string)
    ensures Dist(x + [c], b) <= Dist(x, b) + 1
    ensures Dist(x, b) <= Dist(x + [c], b) + 1
    decreases |x| + |b|, 1
  {
    var xc := x + [c];
    assert xc[..|xc|-1] == x;
    if b != [] {
      var b' := b[..|b|-1];
      PushLeft(x, c, b');
      PushRight(x, b', b[|b|-1]);
      assert b' + [b[|b|-1]] == b;
    }
  }

  lemma {:induction false} PushRight(a: string, y: string, c: char)
    ensures Dist(a, y + [c]) <= Dist(a, y) + 1
    ensures Dist(a, y) <= Dist(a, y + [c]) + 1
    decreases |a| + |y| + 1, 0
  {
    var yc := y + [c];
    assert yc[..|yc|-1] == y;
    if a != [] {
      var a' := a[..|a|-1];
      PushRight(a', y, c);
      PushLeft(a', a[|a|-1], y);
      assert a' + [a[|a|-1]] == a;
    }
  }

  /** The recurrence, read off two texts with known last characters. */
  lemma {:induction false} Recurrence(a: string, x: char, b: string, y: char)
    ensures Dist(a + [x], b + [y]) ==
            Min(Min(Dist(a, b + [y]) + 1, Dist(a + [x], b) + 1), Dist(a, b) + Cost(x, y))
  {
    var u, v := a + [x], b + [y];
    assert u[..|u|-1] == a && v[..|v|-1] == b;
  }

  /** One step of the recurrence carries a bound of one from the three neighbours. */
  lemma {:induction false} BoundStep(u: string, v: string, z: char, b: string, w: char)
    requires Dist(u, b + [w]) <= Dist(v, b + [w]) + 1
    requires Dist(u + [z], b) <= Dist(v + [z], b) + 1
    requires Dist(u, b) <= Dist(v, b) + 1
    ensures Dist(u + [z], b + [w]) <= Dist(v + [z], b + [w]) + 1
  {
    Recurrence(u, z, b, w);
    Recurrence(v, z, b, w);
  }

  /** Deleting (or inserting) a character anywhere moves the distance by at most one. */
  lemma {:induction false} Drop(x: string, c: char, y: string, b: string)
    ensures Dist(x + [c] + y, b) <= Dist(x + y, b) + 1
    ensures Dist(x + y, b) <= Dist(x + [c] + y, b) + 1
    decreases |y| + |b|
  {
    if y == [] {
      assert x + [c] + y == x + [c] && x + y == x;
      PushLeft(x, c, b);
    } else if b != [] {
      var y', z, b', w := y[..|y|-1], y[|y|-1], b[..|b|-1], b[|b|-1];
      var u, v := x + [c] + y', x + y';
      assert x + [c] + y == u + [z] && x + y == v + [z] && b == b' + [w];
      Drop(x, c, y', b);
      Drop(x, c, y, b');
      Drop(x, c, y', b');
      BoundStep(u, v, z, b', w);
      BoundStep(v, u, z, b', w);
    }
  }

  /** Replacing a character anywhere moves the distance by at most one. */
  lemma {:induction false} Swap(x: string, c: char, d: char, y: string, b: string)
    ensures Dist(x + [c] + y, b) <= Dist(x + [d] + y, b) + 1
    decreases |y| + |b|
  {
    if y == [] {
      assert x + [c] + y == x + [c] && x + [d] + y == x + [d];
      SwapLast(x, c, d, b);
    } else if b != [] {
      var y', z, b', w := y[..|y|-1], y[|y|-1], b[..|b|-1], b[|b|-1];
      var u, v := x + [c] + y', x + [d] + y';
      assert x + [c] + y == u + [z] && x + [d] + y == v + [z] && b == b' + [w];
      Swap(x, c, d, y', b);
      Swap(x, c, d, y, b');
      Swap(x, c, d, y', b');
      BoundStep(u, v, z, b', w);
    }
  }

  lemma {:induction false} SwapLast(x: string, c: char, d: char, b: string)
    ensures Dist(x + [c], b) <= Dist(x + [d], b) + 1
    decreases b
  {
    if b != [] {
      var b', w := b[..|b|-1], b[|b|-1];
      assert b == b' + [w];
      SwapLast(x, c, d, b');
      Recurrence(x, c, b', w);
      Recurrence(x, d, b', w);
    }
  }

  lemma {:induction false} OneEdit(e: Edit, w: string, b: string)
    requires e.Fits(w)
    ensures Dist(w, b) <= Dist(e.Apply(w), b) + 1
  {
    var k := e.at;
    match e
    case Insert(_, c) =>
      Drop(w[..k], c, w[k..], b);
      assert w[..k] + w[k..] == w;
    case Delete(_) =>
      Drop(w[..k], w[k], w[k+1..], b);
      assert w[..k] + [w[k]] + w[k+1..] == w;
    case Substitute(_, c) =>
      Swap(w[..k], w[k], c, w[k+1..], b);
      assert w[..k] + [w[k]] + w[k+1..] == w;
  }

  lemma {:induction false} DistSelf(a: string)
    ensures Dist(a, a) == 0
  {
    if a != [] { DistSelf(a[..|a|-1]); }
  }

  /** No editing session from `a` to `b` has fewer than `Dist(a, b)` edits. */
  lemma {:induction false} NoShorterScript(script: seq<Edit>, a: string, b: string)
    requires Turns(script, a, b)
    ensures Dist(a, b) <= |script|
    decreases script
  {
    if script == [] {
      DistSelf(a);
    } else {
      NoShorterScript(script[1..], script[0].Apply(a), b);
      OneEdit(script[0], a, b);
    }
  }

  // ---------------------------------------------------------------------
  // Metric laws
  // ---------------------------------------------------------------------

  lemma {:induction false} ZeroIffEqual(a: string, b: string)
    ensures Dist(a, b) == 0 <==> a == b
  {
    DistSelf(a);
    if Dist(a, b) == 0 {
      var script := ShortestScriptExists(a, b);
    }
  }

  lemma {:induction false} Symmetric(a: string, b: string)
    ensures Dist(a, b) == Dist(b, a)
    decreases |a| + |b|
  {
    if a != [] && b != [] {
      Symmetric(a[..|a|-1], b);
      Symmetric(a, b[..|b|-1]);
      Symmetric(a[..|a|-1], b[..|b|-1]);
    }
  }

  lemma {:induction false} Triangle(a: string, b: string, c: string)
    ensures Dist(a, c) <= Dist(a, b) + Dist(b, c)
  {
    var s := ShortestScriptExists(a, b);
    var t := ShortestScriptExists(b, c);
    RunConcat(s, t, a);
    NoShorterScript(s + t, a, c);
  }

  // ---------------------------------------------------------------------
  // A text inside another
  // ---------------------------------------------------------------------

  lemma {:induction false} AtLeastTheGap(a: string, b: string)
    ensures |b| <= |a| + Dist(a, b)
    decreases |a| + |b|
  {
    if a != [] && b != [] {
      AtLeastTheGap(a[..|a|-1], b);
      AtLeastTheGap(a, b[..|b|-1]);
      AtLeastTheGap(a[..|a|-1], b[..|b|-1]);
    }
  }

  lemma {:induction false} AppendedWithin(a: string, b: string, y: string)
    ensures Dist(a, b + y) <= Dist(a, b) + |y|
  {
    if y == [] {
      assert b + y == b;
    } else {
      var y' := y[..|y|-1];
      assert b + y == b + y' + [y[|y|-1]];
      AppendedWithin(a, b, y');
      PushRight(a, b + y', y[|y|-1]);
    }
  }

  lemma {:induction false} PrependedWithin(x: string, b: string, a: string)
    ensures Dist(x + b, a) <= Dist(b, a) + |x|
  {
    if x == [] {
      assert x + b == b;
    } else {
      assert x + b == [] + [x[0]] + (x[1..] + b) && [] + (x[1..] + b) == x[1..] + b;
      PrependedWithin(x[1..], b, a);
      Drop([], x[0], x[1..] + b, a);
    }
  }

  /** The distance of a text to one that contains it is the number of the other characters. */
  lemma {:induction false} DistToContaining(w: string, x: string, y: string)
    ensures Dist(w, x + w + y) == |x| + |y|
  {
    DistSelf(w);
    PrependedWithin(x, w, w);
    Symmetric(x + w, w);
    AppendedWithin(w, x + w, y);
    AtLeastTheGap(w, x + w + y);
  }

  // ---------------------------------------------------------------------
  // The two-row loop
  // ---------------------------------------------------------------------

  /** The first `n` cells of `row` hold the distances from `a` to the prefixes of `b`. */
  ghost predicate RowOf(row: seq<nat>, a: string, b: string, n: nat) {
    n <= |row| && n <= |b| + 1 && forall k {:trigger row[k]} :: 0 <= k < n ==> row[k] == Dist(a, b[..k])
  }

  lemma {:induction false} NextCell(a: string, i: nat, b: string, j: nat, prev: seq<nat>, cur: seq<nat>, cell: nat)
    requires i < |a| && j < |b|
    requires RowOf(prev, a[..i], b, |b| + 1) && RowOf(cur, a[..i+1], b, j + 1) && j + 1 < |cur|
    requires cell == Min(Min(prev[j+1] + 1, cur[j] + 1), prev[j] + Cost(a[i], b[j]))
    ensures RowOf(cur[j+1 := cell], a[..i+1], b, j + 2)
  {
    assert a[..i] + [a[i]] == a[..i+1] && b[..j] + [b[j]] == b[..j+1];
    Recurrence(a[..i], a[i], b[..j], b[j]);
  }

  /** `levenshtein`: two rolling rows, overwritten and swapped once per character of `a`.
      The result is attained by some editing session and beaten by none. */
  method Levenshtein(a: string, b: string) returns (d: nat)
    ensures d == Dist(a, b)
    ensures exists script :: Turns(script, a, b) && |script| == d
    ensures forall script :: Turns(script, a, b) ==> d <= |script|
  {
    var prev := new nat[|b| + 1](k => k);
    var cur := new nat[|b| + 1](_ => 0);
    var i := 0;
    while i < |a|
      invariant 0 <= i <= |a|
      invariant prev != cur && prev.Length == cur.Length == |b| + 1
      invariant fresh(prev) && fresh(cur)
      invariant RowOf(prev[..], a[..i], b, |b| + 1)
    {
      cur[0] := i + 1;
      var j := 0;
      while j < |b|
        invariant 0 <= j <= |b|
        invariant RowOf(prev[..], a[..i], b, |b| + 1)
        invariant RowOf(cur[..], a[..i+1], b, j + 1)
      {
        var cost := if a[i] != b[j] then 1 else 0;
        var cell := Min(Min(prev[j+1] + 1, cur[j] + 1), prev[j] + cost);
        NextCell(a, i, b, j, prev[..], cur[..], cell);
        ghost var row := cur[..];
        cur[j+1] := cell;
        assert cur[..] == row[j+1 := cell];
        j := j + 1;
      }
      prev, cur := cur, prev;
      i := i + 1;
    }
    d := prev[|b|];
    assert a[..|a|] == a && b[..|b|] == b;
    var script := ShortestScriptExists(a, b);
    forall s | Turns(s, a, b) ensures d <= |s| { NoShorterScript(s, a, b); }
  }
}
