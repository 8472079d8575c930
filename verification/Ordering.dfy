/** Strict orders, stable sorting, and the uniqueness of a sorted arrangement. */
module Ordering {

  /** Go's string order: lexicographic, a proper prefix comes first. */
  predicate StringLess(a: string, b: string) {
    b != [] && (a == [] || a[0] < b[0] || (a[0] == b[0] && StringLess(a[1..], b[1..])))
  }

  lemma {:induction false} StringLessIrreflexive(a: string)
    ensures !StringLess(a, a)
  {
    if a != [] { StringLessIrreflexive(a[1..]); }
  }

  lemma {:induction false} StringLessTransitive(a: string, b: string, c: string)
    requires StringLess(a, b) && StringLess(b, c)
    ensures StringLess(a, c)
  {
    if a != [] && a[0] == b[0] && b[0] == c[0] { StringLessTransitive(a[1..], b[1..], c[1..]); }
  }

  lemma {:induction false} StringLessTotal(a: string, b: string)
    requires a != b
    ensures StringLess(a, b) || StringLess(b, a)
  {
    if a != [] && b != [] && a[0] == b[0] {
      assert a == [a[0]] + a[1..] && b == [b[0]] + b[1..];
      StringLessTotal(a[1..], b[1..]);
    }
  }

  ghost function Elements<T>(s: seq<T>): set<T> { set x | x in s }

  ghost predicate NoDuplicates<T>(s: seq<T>) {
    forall i, j :: 0 <= i < j < |s| ==> s[i] != s[j]
  }

  /** lt is a strict total order on the members of S. */
  ghost predicate StrictOrderOn<T(!new)>(lt: (T, T) -> bool, S: set<T>) {
    && (forall a :: a in S ==> !lt(a, a))
    && (forall a, b :: a in S && b in S && a != b ==> lt(a, b) || lt(b, a))
    && (forall a, b, c :: a in S && b in S && c in S && lt(a, b) && lt(b, c) ==> lt(a, c))
  }

  ghost predicate Sorted<T(!new)>(lt: (T, T) -> bool, s: seq<T>) {
    forall i, j :: 0 <= i < j < |s| ==> lt(s[i], s[j])
  }

  /** Puts x after every element that is not greater than it. */
  function Insert<T>(lt: (T, T) -> bool, x: T, s: seq<T>): seq<T> {
    if s == [] then [x]
    else if lt(x, s[0]) then [x] + s
    else [s[0]] + Insert(lt, x, s[1..])
  }

  /** A stable sort. */
  function Sort<T>(lt: (T, T) -> bool, s: seq<T>): seq<T> {
    if s == [] then [] else Insert(lt, s[|s| - 1], Sort(lt, s[..|s| - 1]))
  }

  lemma {:induction false} InsertMultiset<T>(lt: (T, T) -> bool, x: T, s: seq<T>)
    ensures multiset(Insert(lt, x, s)) == multiset(s) + multiset{x}
  {
    if s != [] {
      assert s == [s[0]] + s[1..];
      if !lt(x, s[0]) { InsertMultiset(lt, x, s[1..]); }
    }
  }

  lemma {:induction false} SortMultiset<T>(lt: (T, T) -> bool, s: seq<T>)
    ensures multiset(Sort(lt, s)) == multiset(s)
  {
    if s != [] {
      var p := s[..|s| - 1];
      assert s == p + [s[|s| - 1]];
      SortMultiset(lt, p);
      InsertMultiset(lt, s[|s| - 1], Sort(lt, p));
    }
  }

  lemma MultisetElements<T>(a: seq<T>, b: seq<T>)
    requires multiset(a) == multiset(b)
    ensures Elements(a) == Elements(b) && |a| == |b|
  {
    forall x ensures x in a <==> x in b {
      assert x in a <==> x in multiset(a);
      assert x in b <==> x in multiset(b);
    }
    assert |multiset(a)| == |a| && |multiset(b)| == |b|;
  }

  lemma InsertElements<T(!new)>(lt: (T, T) -> bool, x: T, s: seq<T>)
    ensures Elements(Insert(lt, x, s)) == Elements(s) + {x}
  {
    InsertMultiset(lt, x, s);
    var r := Insert(lt, x, s);
    forall y ensures y in r <==> y in s || y == x {
      assert y in r <==> y in multiset(r);
      assert y in s <==> y in multiset(s);
    }
  }

  lemma SortedCons<T(!new)>(lt: (T, T) -> bool, x: T, s: seq<T>)
    requires Sorted(lt, s) && forall y :: y in Elements(s) ==> lt(x, y)
    ensures Sorted(lt, [x] + s)
  {
    forall j | 0 <= j < |s| ensures lt(x, s[j]) { assert s[j] in Elements(s); }
  }

  lemma HeadBelowTail<T(!new)>(lt: (T, T) -> bool, s: seq<T>, y: T)
    requires Sorted(lt, s) && s != [] && y in Elements(s[1..])
    ensures lt(s[0], y)
  {
    var k :| 0 <= k < |s[1..]| && s[1..][k] == y;
    assert lt(s[0], s[k + 1]);
  }

  lemma {:induction false} InsertSorted<T(!new)>(lt: (T, T) -> bool, x: T, s: seq<T>)
    requires Sorted(lt, s) && x !in s && StrictOrderOn(lt, Elements(s) + {x})
    ensures Sorted(lt, Insert(lt, x, s))
  {
    if s != [] {
      var t, S := s[1..], Elements(s) + {x};
      assert s[0] in S && x in S && Elements(t) <= Elements(s);
      if lt(x, s[0]) {
        forall y | y in Elements(s) ensures lt(x, y) { if y != s[0] { HeadBelowTail(lt, s, y); } }
        SortedCons(lt, x, s);
      } else {
        StrictOrderSubset(lt, Elements(t) + {x}, S);
        InsertSorted(lt, x, t);
        InsertElements(lt, x, t);
        forall y | y in Elements(Insert(lt, x, t)) ensures lt(s[0], y) { if y != x { HeadBelowTail(lt, s, y); } }
        SortedCons(lt, s[0], Insert(lt, x, t));
      }
    }
  }

  lemma {:induction false} SortCorrect<T(!new)>(lt: (T, T) -> bool, s: seq<T>)
    requires NoDuplicates(s) && StrictOrderOn(lt, Elements(s))
    ensures Sorted(lt, Sort(lt, s)) && Elements(Sort(lt, s)) == Elements(s)
    ensures multiset(Sort(lt, s)) == multiset(s) && |Sort(lt, s)| == |s|
  {
    SortMultiset(lt, s);
    MultisetElements(Sort(lt, s), s);
    if s != [] {
      var p, x := s[..|s| - 1], s[|s| - 1];
      assert Elements(s) == Elements(p) + {x};
      StrictOrderSubset(lt, Elements(p), Elements(s));
      SortCorrect(lt, p);
      assert x !in Elements(p);
      InsertSorted(lt, x, Sort(lt, p));
    }
  }

  lemma StrictOrderSubset<T(!new)>(lt: (T, T) -> bool, R: set<T>, S: set<T>)
    requires StrictOrderOn(lt, S) && R <= S
    ensures StrictOrderOn(lt, R)
  {
  }

  /** Two sorted arrangements of the same elements are equal. */
  lemma {:induction false} SortedUnique<T(!new)>(lt: (T, T) -> bool, a: seq<T>, b: seq<T>)
    requires Sorted(lt, a) && Sorted(lt, b) && Elements(a) == Elements(b)
    requires StrictOrderOn(lt, Elements(a))
    ensures a == b
  {
    assert b != [] ==> b[0] in Elements(b);
    assert a != [] ==> a[0] in Elements(b);
    if a != [] {
      assert b[0] in Elements(a);
      SameFirst(lt, a, b);
      var a', b' := a[1..], b[1..];
      SortedNoDuplicates(lt, a);
      SortedNoDuplicates(lt, b);
      forall x ensures x in a' <==> x in b' {
        assert x in a <==> x == a[0] || x in a';
        assert x in b <==> x == b[0] || x in b';
        assert x in a <==> x in Elements(a);
        assert x in b <==> x in Elements(b);
      }
      assert Elements(a') <= Elements(a);
      SortedUnique(lt, a', b');
      assert a == [a[0]] + a' && b == [b[0]] + b';
    }
  }

  lemma SortedNoDuplicates<T(!new)>(lt: (T, T) -> bool, a: seq<T>)
    requires Sorted(lt, a) && StrictOrderOn(lt, Elements(a))
    ensures NoDuplicates(a)
  {
    forall i, j | 0 <= i < j < |a| ensures a[i] != a[j] {
      assert lt(a[i], a[j]) && a[j] in Elements(a);
    }
  }

  lemma SameFirst<T(!new)>(lt: (T, T) -> bool, a: seq<T>, b: seq<T>)
    requires a != [] && b != [] && Sorted(lt, a) && Sorted(lt, b) && Elements(a) == Elements(b)
    requires StrictOrderOn(lt, Elements(a))
    ensures a[0] == b[0]
  {
    assert a[0] in Elements(b) && b[0] in Elements(a);
    FirstIsLeast(lt, a, b[0]);
    FirstIsLeast(lt, b, a[0]);
  }

  lemma FirstIsLeast<T(!new)>(lt: (T, T) -> bool, a: seq<T>, x: T)
    requires Sorted(lt, a) && x in a
    ensures x == a[0] || lt(a[0], x)
  {
    var k :| 0 <= k < |a| && a[k] == x;
  }

  /** The sorted arrangement of a set. */
  ghost function SortedOf<T(!new)>(lt: (T, T) -> bool, S: set<T>): seq<T> {
    if S == {} then [] else
      var x :| x in S;
      Insert(lt, x, SortedOf(lt, S - {x}))
  }

  lemma {:induction false} SortedOfFacts<T(!new)>(lt: (T, T) -> bool, S: set<T>)
    requires StrictOrderOn(lt, S)
    ensures Sorted(lt, SortedOf(lt, S)) && Elements(SortedOf(lt, S)) == S
    ensures NoDuplicates(SortedOf(lt, S)) && |SortedOf(lt, S)| == |S|
  {
    if S != {} {
      var x :| x in S && SortedOf(lt, S) == Insert(lt, x, SortedOf(lt, S - {x}));
      var r := SortedOf(lt, S - {x});
      SortedOfFacts(lt, S - {x});
      assert x !in Elements(r);
      assert Elements(r) + {x} == S;
      InsertSorted(lt, x, r);
      InsertElements(lt, x, r);
    }
    SortedNoDuplicates(lt, SortedOf(lt, S));
    NoDuplicatesSize(SortedOf(lt, S));
  }

  /** Sorting a duplicate-free sequence depends only on its set of elements. */
  lemma SortIsSortedOf<T(!new)>(lt: (T, T) -> bool, s: seq<T>)
    requires NoDuplicates(s) && StrictOrderOn(lt, Elements(s))
    ensures Sort(lt, s) == SortedOf(lt, Elements(s))
  {
    SortCorrect(lt, s);
    SortedOfFacts(lt, Elements(s));
    SortedUnique(lt, Sort(lt, s), SortedOf(lt, Elements(s)));
  }

  lemma {:induction false} NoDuplicatesSize<T>(s: seq<T>)
    requires NoDuplicates(s)
    ensures |Elements(s)| == |s|
  {
    if s != [] {
      var p := s[..|s| - 1];
      NoDuplicatesSize(p);
      assert Elements(s) == Elements(p) + {s[|s| - 1]};
      assert s[|s| - 1] !in Elements(p);
    }
  }

  lemma {:induction false} NoDuplicatesMultiset<T>(a: seq<T>, b: seq<T>)
    requires NoDuplicates(a) && NoDuplicates(b) && Elements(a) == Elements(b)
    ensures multiset(a) == multiset(b) && |a| == |b|
  {
    forall x ensures multiset(a)[x] == multiset(b)[x] {
      CountOnce(a, x);
      CountOnce(b, x);
      assert x in Elements(a) <==> x in a;
      assert x in Elements(b) <==> x in b;
    }
    NoDuplicatesSize(a);
    NoDuplicatesSize(b);
  }

  lemma {:induction false} CountOnce<T>(a: seq<T>, x: T)
    requires NoDuplicates(a)
    ensures multiset(a)[x] == if x in a then 1 else 0
  {
    if a != [] {
      var p := a[..|a| - 1];
      assert a == p + [a[|a| - 1]];
      CountOnce(p, x);
    }
  }

  // ---------- lists without repeats, as an LRU keeps them ----------

  function Without<T(==)>(s: seq<T>, x: T): seq<T> {
    if s == [] then [] else if s[0] == x then s[1..] else [s[0]] + Without(s[1..], x)
  }

  lemma {:induction false} WithoutFacts<T>(order: seq<T>, id: T)
    requires NoDuplicates(order) && id in order
    ensures NoDuplicates(Without(order, id)) && |Without(order, id)| == |order| - 1
    ensures forall x :: x in Without(order, id) <==> x in order && x != id
  {
    if order[0] != id {
      WithoutFacts(order[1..], id);
      assert order == [order[0]] + order[1..];
      assert order[0] !in order[1..];
      assert order[0] !in Without(order[1..], id);
    }
  }

  lemma {:induction false} WithoutElements<T>(s: seq<T>, x: T)
    requires NoDuplicates(s)
    ensures NoDuplicates(Without(s, x)) && Elements(Without(s, x)) == Elements(s) - {x}
  {
    if s != [] {
      var rest := s[1..];
      assert NoDuplicates(rest) by { assert forall i :: 0 <= i < |rest| ==> rest[i] == s[i + 1]; }
      assert s == [s[0]] + rest;
      assert Elements(s) == {s[0]} + Elements(rest) && s[0] !in Elements(rest);
      WithoutElements(rest, x);
      if s[0] != x {
        assert Without(s, x) == [s[0]] + Without(rest, x);
        assert s[0] !in Elements(Without(rest, x));
        assert Elements(Without(s, x)) == {s[0]} + Elements(Without(rest, x));
        ConsDistinct(s[0], Without(rest, x));
      }
    }
  }

  lemma ConsDistinct<T>(x: T, s: seq<T>)
    requires NoDuplicates(s) && x !in Elements(s)
    ensures NoDuplicates([x] + s)
  {
    var t := [x] + s;
    forall i, j | 0 <= i < j < |t| ensures t[i] != t[j] {
      assert t[j] == s[j - 1] && t[j] in Elements(s);
      if i > 0 { assert t[i] == s[i - 1]; }
    }
  }

  lemma {:induction false} WithoutAt<T>(s: seq<T>, i: nat, x: T)
    requires i < |s| && s[i] == x && x !in s[..i]
    ensures Without(s, x) == s[..i] + s[i + 1..]
  {
    if i > 0 {
      assert s[0] == s[..i][0];
      assert s[1..][..i - 1] == s[..i][1..];
      WithoutAt(s[1..], i - 1, x);
      assert s[..i] == [s[0]] + s[1..][..i - 1] && s[1..][i..] == s[i + 1..];
    }
  }
}
