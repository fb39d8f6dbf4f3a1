/** Library orders and sorts the programs rely on: code-point order on strings, and the stable
    sort behind Python's `sorted`/`list.sort` and Rust's `sort_by`, pinned down by its laws. */
module Ordering {

  /** Code-point lexicographic order, as Python and Rust compare strings. */
  predicate StrLe(a: string, b: string) {
    |a| == 0 || (|b| > 0 && (a[0] < b[0] || (a[0] == b[0] && StrLe(a[1..], b[1..]))))
  }

  lemma {:induction false} StrLeTotal(a: string, b: string)
    ensures StrLe(a, b) || StrLe(b, a)
    ensures StrLe(a, b) && StrLe(b, a) ==> a == b
  {
    if a != [] && b != [] {
      StrLeTotal(a[1..], b[1..]);
      assert a == [a[0]] + a[1..] && b == [b[0]] + b[1..];
    }
  }

  lemma {:induction false} StrLeTransitive(a: string, b: string, c: string)
    requires StrLe(a, b) && StrLe(b, c)
    ensures StrLe(a, c)
  {
    if a != [] && a[0] == b[0] && b[0] == c[0] { StrLeTransitive(a[1..], b[1..], c[1..]); }
  }

  /** The strings first differ at `k`, where `a` has the smaller character. */
  predicate FirstBelow(a: string, b: string, k: nat) { k < |a| && k < |b| && a[..k] == b[..k] && a[k] < b[k] }

  /** A string comes before those it begins, and those with a greater character where they first differ. */
  lemma {:induction false} StrLeMeaning(a: string, b: string)
    ensures StrLe(a, b) <==> a <= b || exists k: nat :: FirstBelow(a, b, k)
  {
    if a != [] && b != [] {
      forall k: nat | k > 0 && FirstBelow(a, b, k) ensures a[0] == b[0] {
        assert a[..k][0] == a[0] && b[..k][0] == b[0];
      }
      if a[0] == b[0] {
        StrLeMeaning(a[1..], b[1..]);
        StrLeShift(a, b);
      } else if a[0] < b[0] {
        assert FirstBelow(a, b, 0);
      }
    }
  }

  lemma {:induction false} StrLeShift(a: string, b: string)
    requires a != [] && b != [] && a[0] == b[0]
    ensures a <= b <==> a[1..] <= b[1..]
    ensures (exists k: nat :: FirstBelow(a, b, k)) <==> exists k: nat :: FirstBelow(a[1..], b[1..], k)
  {
    var x, y := a[1..], b[1..];
    assert a == [a[0]] + x && b == [a[0]] + y;
    if k: nat :| FirstBelow(a, b, k) {
      assert a[..k][1..] == x[..k-1] && b[..k][1..] == y[..k-1];
      assert FirstBelow(x, y, k - 1);
    }
    if k: nat :| FirstBelow(x, y, k) {
      assert a[..k+1] == [a[0]] + x[..k] && b[..k+1] == [a[0]] + y[..k];
      assert FirstBelow(a, b, k + 1);
    }
  }

  // ---------------------------------------------------------------------
  // Stable sorting by an order on elements
  // ---------------------------------------------------------------------

  ghost predicate TotalPreorder<T(!new)>(le: (T, T) -> bool) {
    && (forall x, y :: le(x, y) || le(y, x))
    && (forall x, y, z :: le(x, y) && le(y, z) ==> le(x, z))
  }

  ghost predicate SortedBy<T>(le: (T, T) -> bool, s: seq<T>) {
    forall i, j :: 0 <= i < j < |s| ==> le(s[i], s[j])
  }

  /** Puts `x` in front of the first element it may precede. */
  function Insert<T>(le: (T, T) -> bool, x: T, s: seq<T>): seq<T> {
    if s == [] || le(x, s[0]) then [x] + s else [s[0]] + Insert(le, x, s[1..])
  }

  function StableSort<T>(le: (T, T) -> bool, s: seq<T>): seq<T> {
    if s == [] then [] else Insert(le, s[0], StableSort(le, s[1..]))
  }

  lemma {:induction false} InsertContents<T>(le: (T, T) -> bool, x: T, s: seq<T>)
    ensures multiset(Insert(le, x, s)) == multiset(s) + multiset{x}
  {
    if s == [] || le(x, s[0]) {
    } else {
      InsertContents(le, x, s[1..]);
      assert s == [s[0]] + s[1..];
    }
  }

  lemma {:induction false} SortContents<T>(le: (T, T) -> bool, s: seq<T>)
    ensures multiset(StableSort(le, s)) == multiset(s)
    ensures |StableSort(le, s)| == |s|
  {
    if s != [] {
      SortContents(le, s[1..]);
      InsertContents(le, s[0], StableSort(le, s[1..]));
      assert s == [s[0]] + s[1..];
    }
    assert |multiset(StableSort(le, s))| == |multiset(s)|;
  }

  lemma {:induction false} SortMembers<T>(le: (T, T) -> bool, s: seq<T>)
    ensures forall x :: x in StableSort(le, s) <==> x in s
  {
    SortContents(le, s);
    forall x ensures x in StableSort(le, s) <==> x in s {
      assert x in StableSort(le, s) <==> x in multiset(StableSort(le, s));
      assert x in s <==> x in multiset(s);
    }
  }

  lemma {:induction false} InsertSorted<T(!new)>(le: (T, T) -> bool, x: T, s: seq<T>)
    requires TotalPreorder(le) && SortedBy(le, s)
    ensures SortedBy(le, Insert(le, x, s))
  {
    if s == [] || le(x, s[0]) {
    } else {
      InsertSorted(le, x, s[1..]);
      InsertContents(le, x, s[1..]);
      var rest := Insert(le, x, s[1..]);
      forall j | 0 <= j < |rest| ensures le(s[0], rest[j]) {
        assert rest[j] in multiset(rest);
        assert rest[j] == x || rest[j] in s[1..];
      }
    }
  }

  lemma {:induction false} SortSorts<T(!new)>(le: (T, T) -> bool, s: seq<T>)
    requires TotalPreorder(le)
    ensures SortedBy(le, StableSort(le, s))
  {
    if s != [] {
      SortSorts(le, s[1..]);
      InsertSorted(le, s[0], StableSort(le, s[1..]));
    }
  }

  lemma {:induction false} SortOfSorted<T(!new)>(le: (T, T) -> bool, s: seq<T>)
    requires SortedBy(le, s)
    ensures StableSort(le, s) == s
  {
    if s != [] {
      SortOfSorted(le, s[1..]);
      assert s == [s[0]] + s[1..];
    }
  }

  // ---------------------------------------------------------------------
  // Uniqueness and order independence
  // ---------------------------------------------------------------------

  lemma {:induction false} HeadOff<T>(s: seq<T>)
    requires s != []
    ensures multiset(s[1..]) == multiset(s) - multiset{s[0]}
  {
    assert s == [s[0]] + s[1..];
  }

  /** Elements the order cannot separate are equal: the keys in `s` are distinct. */
  ghost predicate Separates<T>(le: (T, T) -> bool, s: seq<T>) {
    forall x, y :: x in s && y in s && le(x, y) && le(y, x) ==> x == y
  }

  lemma {:induction false} LeastFirst<T(!new)>(le: (T, T) -> bool, s: seq<T>, t: seq<T>)
    requires TotalPreorder(le) && SortedBy(le, s) && s != [] && t != []
    requires multiset(s) == multiset(t)
    ensures le(s[0], t[0]) && t[0] in s
  {
    assert t[0] in multiset(s);
    var j :| 0 <= j < |s| && s[j] == t[0];
  }

  lemma {:induction false} SameFirst<T(!new)>(le: (T, T) -> bool, s: seq<T>, t: seq<T>)
    requires TotalPreorder(le) && SortedBy(le, s) && SortedBy(le, t) && s != [] && t != []
    requires multiset(s) == multiset(t) && Separates(le, s)
    ensures s[0] == t[0]
  {
    LeastFirst(le, s, t);
    LeastFirst(le, t, s);
  }

  lemma {:induction false} SortedTail<T>(le: (T, T) -> bool, s: seq<T>)
    requires SortedBy(le, s) && s != []
    ensures SortedBy(le, s[1..]) && (Separates(le, s) ==> Separates(le, s[1..]))
  {
  }

  lemma {:induction false} SortedUnique<T(!new)>(le: (T, T) -> bool, s: seq<T>, t: seq<T>)
    requires TotalPreorder(le) && SortedBy(le, s) && SortedBy(le, t)
    requires multiset(s) == multiset(t) && Separates(le, s)
    ensures s == t
  {
    assert |multiset(s)| == |s| && |multiset(t)| == |t|;
    if s != [] {
      SameFirst(le, s, t);
      SortedTail(le, s);
      SortedTail(le, t);
      HeadOff(s);
      HeadOff(t);
      SortedUnique(le, s[1..], t[1..]);
      Rejoined(s, t);
    }
  }

  lemma {:induction false} Rejoined<T>(s: seq<T>, t: seq<T>)
    requires s != [] && t != [] && s[0] == t[0] && s[1..] == t[1..]
    ensures s == t
  {
    assert s == [s[0]] + s[1..] && t == [t[0]] + t[1..];
  }

  /** Sorting forgets the order the elements arrived in, when their keys are distinct. */
  lemma {:induction false} SortForgetsOrder<T(!new)>(le: (T, T) -> bool, s: seq<T>, t: seq<T>)
    requires TotalPreorder(le) && multiset(s) == multiset(t) && Separates(le, s)
    ensures StableSort(le, s) == StableSort(le, t)
  {
    SortSorts(le, s);
    SortSorts(le, t);
    SortContents(le, s);
    SortContents(le, t);
    SortMembers(le, s);
    SortedUnique(le, StableSort(le, s), StableSort(le, t));
  }

  // ---------------------------------------------------------------------
  // Comprehensions, and how they commute with sorting
  // ---------------------------------------------------------------------

  function Filter<T>(p: T -> bool, s: seq<T>): seq<T> {
    if s == [] then []
    else if p(s[0]) then [s[0]] + Filter(p, s[1..])
    else Filter(p, s[1..])
  }

  function Map<T, U>(f: T -> U, s: seq<T>): (r: seq<U>)
    ensures |r| == |s|
    ensures forall i :: 0 <= i < |s| ==> r[i] == f(s[i])
  {
    if s == [] then [] else [f(s[0])] + Map(f, s[1..])
  }

  function Count<T>(p: T -> bool, s: seq<T>): (n: nat)
    ensures n <= |s|
  {
    if s == [] then 0 else (if p(s[0]) then 1 else 0) + Count(p, s[1..])
  }

  lemma {:induction false} FilterMembers<T>(p: T -> bool, s: seq<T>)
    ensures forall x :: x in Filter(p, s) <==> x in s && p(x)
    ensures |Filter(p, s)| == Count(p, s)
  {
    if s != [] {
      FilterMembers(p, s[1..]);
      assert s == [s[0]] + s[1..];
    }
  }

  lemma {:induction false} FilterAppend<T>(p: T -> bool, s: seq<T>, t: seq<T>)
    ensures Filter(p, s + t) == Filter(p, s) + Filter(p, t)
  {
    if s == [] {
      assert s + t == t;
    } else {
      assert (s + t)[1..] == s[1..] + t;
      FilterAppend(p, s[1..], t);
    }
  }

  lemma {:induction false} CountAppend<T>(p: T -> bool, s: seq<T>, t: seq<T>)
    ensures Count(p, s + t) == Count(p, s) + Count(p, t)
  {
    if s == [] {
      assert s + t == t;
    } else {
      assert (s + t)[1..] == s[1..] + t;
      CountAppend(p, s[1..], t);
    }
  }

  lemma {:induction false} CountAll<T>(p: T -> bool, s: seq<T>)
    ensures Count(p, s) == |s| <==> forall i :: 0 <= i < |s| ==> p(s[i])
    ensures Count(p, s) == 0 <==> forall i :: 0 <= i < |s| ==> !p(s[i])
  {
    if s != [] {
      CountAll(p, s[1..]);
      assert s == [s[0]] + s[1..];
    }
  }

  /** Where an element can be taken out of a permutation of a sequence it heads. */
  lemma {:induction false} TakeHeadOut<T>(s: seq<T>, t: seq<T>) returns (j: nat)
    requires s != [] && multiset(s) == multiset(t)
    ensures j < |t| && t[j] == s[0]
    ensures multiset(s[1..]) == multiset(t[..j] + t[j+1..])
  {
    assert s[0] in multiset(t);
    j :| 0 <= j < |t| && t[j] == s[0];
    HeadOff(s);
    OneOut(t, j);
  }

  lemma {:induction false} OneOut<T>(t: seq<T>, j: nat)
    requires j < |t|
    ensures multiset(t[..j] + t[j+1..]) == multiset(t) - multiset{t[j]}
  {
    assert t == t[..j] + ([t[j]] + t[j+1..]);
  }

  lemma {:induction false} CountOfPermuted<T>(p: T -> bool, s: seq<T>, t: seq<T>)
    requires multiset(s) == multiset(t)
    ensures Count(p, s) == Count(p, t)
  {
    if s == [] {
      assert |multiset(t)| == 0;
    } else {
      var j := TakeHeadOut(s, t);
      CountOfPermuted(p, s[1..], t[..j] + t[j+1..]);
      CountAppend(p, t[..j], t[j+1..]);
      assert t == t[..j] + t[j..] && t[j..][1..] == t[j+1..];
      CountAppend(p, t[..j], t[j..]);
    }
  }

  lemma {:induction false} MapAppend<T, U>(f: T -> U, s: seq<T>, t: seq<T>)
    ensures Map(f, s + t) == Map(f, s) + Map(f, t)
  {
    if s == [] {
      assert s + t == t;
    } else {
      assert (s + t)[1..] == s[1..] + t;
      MapAppend(f, s[1..], t);
    }
  }

  lemma {:induction false} Middle<T>(before: seq<T>, x: T, after: seq<T>, others: seq<T>)
    requires multiset(others) == multiset(before + after)
    ensures multiset([x] + others) == multiset(before + ([x] + after))
  {
  }

  lemma {:induction false} MapSplit<T, U>(f: T -> U, t: seq<T>, j: nat)
    requires j < |t|
    ensures Map(f, t) == Map(f, t[..j]) + ([f(t[j])] + Map(f, t[j+1..]))
  {
    assert t == t[..j] + t[j..] && t[j..][1..] == t[j+1..];
    MapAppend(f, t[..j], t[j..]);
  }

  lemma {:induction false} MapOfPermuted<T, U>(f: T -> U, s: seq<T>, t: seq<T>)
    requires multiset(s) == multiset(t)
    ensures multiset(Map(f, s)) == multiset(Map(f, t))
    decreases |s|
  {
    if s == [] {
      assert |multiset(t)| == 0;
      assert t == [];
    } else {
      var j := TakeHeadOut(s, t);
      var x, before, after := f(t[j]), Map(f, t[..j]), Map(f, t[j+1..]);
      MapOfPermuted(f, s[1..], t[..j] + t[j+1..]);
      MapAppend(f, t[..j], t[j+1..]);
      Middle(before, x, after, Map(f, s[1..]));
      MapSplit(f, t, j);
      MapSplit(f, s, 0);
      assert Map(f, s[..0]) == [];
    }
  }

  lemma {:induction false} InsertFiltered<T(!new)>(le: (T, T) -> bool, p: T -> bool, x: T, s: seq<T>)
    requires TotalPreorder(le) && SortedBy(le, s)
    ensures Filter(p, Insert(le, x, s)) ==
            if p(x) then Insert(le, x, Filter(p, s)) else Filter(p, s)
  {
    if s == [] || le(x, s[0]) {
      var xs := [x] + s;
      assert xs[1..] == s;
      FilterMembers(p, s);
      var kept := Filter(p, s);
      if kept != [] { assert kept[0] in s && le(x, kept[0]) by { assert kept[0] in kept; } }
    } else {
      var rest := Insert(le, x, s[1..]);
      assert ([s[0]] + rest)[1..] == rest;
      InsertFiltered(le, p, x, s[1..]);
      if p(s[0]) {
        assert ([s[0]] + Filter(p, s[1..]))[1..] == Filter(p, s[1..]);
      }
    }
  }

  /** A stable sort and a filter may be done in either order. */
  lemma {:induction false} FilterThenSort<T(!new)>(le: (T, T) -> bool, p: T -> bool, s: seq<T>)
    requires TotalPreorder(le)
    ensures Filter(p, StableSort(le, s)) == StableSort(le, Filter(p, s))
  {
    if s != [] {
      var x, rest := s[0], StableSort(le, s[1..]);
      FilterThenSort(le, p, s[1..]);
      SortSorts(le, s[1..]);
      InsertFiltered(le, p, x, rest);
      if p(x) {
        assert ([x] + Filter(p, s[1..]))[1..] == Filter(p, s[1..]);
      }
    }
  }

  lemma {:induction false} FilterKeepsSorted<T(!new)>(le: (T, T) -> bool, p: T -> bool, s: seq<T>)
    requires SortedBy(le, s)
    ensures SortedBy(le, Filter(p, s))
  {
    if s != [] {
      FilterKeepsSorted(le, p, s[1..]);
      FilterMembers(p, s[1..]);
      var rest := Filter(p, s[1..]);
      forall j | 0 <= j < |rest| ensures le(s[0], rest[j]) {
        assert rest[j] in rest;
      }
    }
  }

  /** No element occurs twice, by position. */
  ghost predicate Distinct<K>(s: seq<K>) {
    forall i, j :: 0 <= i < j < |s| ==> s[i] != s[j]
  }

  lemma {:induction false} DistinctCounts<K>(s: seq<K>)
    ensures Distinct(s) <==> forall k :: k in s ==> multiset(s)[k] == 1
  {
    if s != [] {
      DistinctCounts(s[1..]);
      var first, rest := s[0], s[1..];
      assert s == [first] + rest;
      if Distinct(s) {
        assert forall i, j :: 0 <= i < j < |rest| ==> rest[i] == s[i+1] && rest[j] == s[j+1];
        assert first !in rest;
        assert multiset(rest)[first] == 0;
      } else if first in rest {
        assert multiset(s)[first] == 1 + multiset(rest)[first];
        assert first in multiset(rest);
      } else {
        assert !Distinct(rest) by { NotDistinctTail(s); }
        var k :| k in rest && multiset(rest)[k] != 1;
        assert k in s && multiset(s)[k] != 1;
      }
    }
  }

  lemma {:induction false} NotDistinctTail<K>(s: seq<K>)
    requires s != [] && !Distinct(s) && s[0] !in s[1..]
    ensures !Distinct(s[1..])
  {
    var i, j :| 0 <= i < j < |s| && s[i] == s[j];
    assert s[j] == s[1..][j-1];
    assert i > 0;
    assert s[1..][i-1] == s[1..][j-1];
  }

  /** Rearranging keeps elements distinct. */
  lemma {:induction false} DistinctOfPermuted<K>(s: seq<K>, t: seq<K>)
    requires multiset(s) == multiset(t)
    ensures Distinct(s) <==> Distinct(t)
  {
    DistinctCounts(s);
    DistinctCounts(t);
    assert forall k :: k in s <==> k in multiset(s);
    assert forall k :: k in t <==> k in multiset(t);
  }
}
