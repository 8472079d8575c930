/** Keyset pagination: pages cut by a cursor key, over fixed and over changing snapshots. */
module Paging {
  import opened Ordering
  import opened Events

  function ByKey<T, K>(key: T -> K, lt: (K, K) -> bool): (T, T) -> bool {
    (a: T, b: T) => lt(key(a), key(b))
  }

  predicate IsAfter<T, K>(key: T -> K, lt: (K, K) -> bool, x: T, after: Option<K>) {
    after.None? || lt(after.value, key(x))
  }

  /** The items beyond the cursor. */
  function Rest<T, K>(key: T -> K, lt: (K, K) -> bool, s: seq<T>, after: Option<K>): seq<T> {
    if s == [] then [] else (if IsAfter(key, lt, s[0], after) then [s[0]] else []) + Rest(key, lt, s[1..], after)
  }

  /** The first limit items beyond the cursor; a next cursor only when more remain. */
  function Page<T, K>(key: T -> K, lt: (K, K) -> bool, s: seq<T>, after: Option<K>, limit: nat): (seq<T>, Option<K>)
    requires limit > 0
  {
    var r := Rest(key, lt, s, after);
    if |r| <= limit then (r, None) else (r[..limit], Some(key(r[limit - 1])))
  }

  ghost predicate KeyOrder<K(!new)>(lt: (K, K) -> bool) {
    && (forall a :: !lt(a, a))
    && (forall a, b, c :: lt(a, b) && lt(b, c) ==> lt(a, c))
  }

  /** Strictly ascending keys: in particular no key twice. */
  ghost predicate Ascending<T, K>(key: T -> K, lt: (K, K) -> bool, s: seq<T>) {
    forall i, j :: 0 <= i < j < |s| ==> lt(key(s[i]), key(s[j]))
  }

  lemma {:induction false} RestMembers<T, K>(key: T -> K, lt: (K, K) -> bool, s: seq<T>, after: Option<K>, x: T)
    ensures x in Rest(key, lt, s, after) <==> x in s && IsAfter(key, lt, x, after)
  {
    if s != [] {
      RestMembers(key, lt, s[1..], after, x);
      assert s == [s[0]] + s[1..];
    }
  }

  lemma {:induction false} RestAscending<T, K>(key: T -> K, lt: (K, K) -> bool, s: seq<T>, after: Option<K>)
    requires Ascending(key, lt, s)
    ensures Ascending(key, lt, Rest(key, lt, s, after))
  {
    if s != [] {
      var r := Rest(key, lt, s[1..], after);
      RestAscending(key, lt, s[1..], after);
      forall j | 0 <= j < |r| ensures lt(key(s[0]), key(r[j])) {
        RestMembers(key, lt, s[1..], after, r[j]);
        var k :| 0 <= k < |s| - 1 && s[1..][k] == r[j];
        assert s[k + 1] == r[j];
      }
    }
  }

  /** In an ascending list the cursor of item i leaves exactly the items after i. */
  lemma {:induction false} RestIsSuffix<T, K(!new)>(key: T -> K, lt: (K, K) -> bool, s: seq<T>, i: nat)
    requires KeyOrder(lt) && Ascending(key, lt, s) && i < |s|
    ensures Rest(key, lt, s, Some(key(s[i]))) == s[i + 1..]
  {
    var c := Some(key(s[i]));
    assert !IsAfter(key, lt, s[0], c) by { if i > 0 { assert lt(key(s[0]), key(s[i])); } }
    if i == 0 {
      RestAll(key, lt, s[1..], c);
    } else {
      RestIsSuffix(key, lt, s[1..], i - 1);
      assert s[1..][i - 1] == s[i] && s[1..][i..] == s[i + 1..];
    }
  }

  lemma {:induction false} RestAll<T, K>(key: T -> K, lt: (K, K) -> bool, s: seq<T>, after: Option<K>)
    requires forall i :: 0 <= i < |s| ==> IsAfter(key, lt, s[i], after)
    ensures Rest(key, lt, s, after) == s
  {
    if s != [] {
      assert IsAfter(key, lt, s[0], after);
      assert forall i :: 0 <= i < |s| - 1 ==> s[1..][i] == s[i + 1];
      RestAll(key, lt, s[1..], after);
      assert s == [s[0]] + s[1..];
    }
  }

  /** What lies beyond any cursor is a suffix of the list. */
  lemma {:induction false} RestFrom<T, K(!new)>(key: T -> K, lt: (K, K) -> bool, s: seq<T>, after: Option<K>)
    returns (i: nat)
    requires KeyOrder(lt) && Ascending(key, lt, s)
    ensures i <= |s| && Rest(key, lt, s, after) == s[i..]
  {
    if s == [] {
      i := 0;
    } else if IsAfter(key, lt, s[0], after) {
      forall j | 0 <= j < |s| ensures IsAfter(key, lt, s[j], after) {
        if j > 0 { assert lt(key(s[0]), key(s[j])); }
      }
      RestAll(key, lt, s, after);
      i := 0;
    } else {
      var j := RestFrom(key, lt, s[1..], after);
      i := j + 1;
    }
  }

  /** The cursor of the j-th remaining item leaves the items after it. */
  lemma RestAfterItem<T, K(!new)>(key: T -> K, lt: (K, K) -> bool, s: seq<T>, after: Option<K>, j: nat)
    requires KeyOrder(lt) && Ascending(key, lt, s) && j < |Rest(key, lt, s, after)|
    ensures Rest(key, lt, s, Some(key(Rest(key, lt, s, after)[j]))) == Rest(key, lt, s, after)[j + 1..]
  {
    var i := RestFrom(key, lt, s, after);
    RestIsSuffix(key, lt, s, i + j);
    assert s[i..][j] == s[i + j] && s[i..][j + 1..] == s[i + j + 1..];
  }

  // ---------- a fixed snapshot ----------

  /** The pages met by following the next cursor until there is none. */
  ghost function Collect<T, K(!new)>(key: T -> K, lt: (K, K) -> bool, s: seq<T>, after: Option<K>, limit: nat): seq<T>
    requires limit > 0 && KeyOrder(lt) && Ascending(key, lt, s)
    decreases |Rest(key, lt, s, after)|
  {
    var (page, next) := Page(key, lt, s, after, limit);
    if next.None? then page else
      RestAfterItem(key, lt, s, after, limit - 1);
      page + Collect(key, lt, s, next, limit)
  }

  /** On a fixed snapshot the pages are everything beyond the cursor: no gap, no repeat. */
  lemma {:induction false} CollectsEverything<T, K(!new)>(key: T -> K, lt: (K, K) -> bool, s: seq<T>,
                                                   after: Option<K>, limit: nat)
    requires limit > 0 && KeyOrder(lt) && Ascending(key, lt, s)
    ensures Collect(key, lt, s, after, limit) == Rest(key, lt, s, after)
    ensures Rest(key, lt, s, None) == s
    decreases |Rest(key, lt, s, after)|
  {
    RestAll(key, lt, s, None);
    var r := Rest(key, lt, s, after);
    if |r| > limit {
      RestAfterItem(key, lt, s, after, limit - 1);
      CollectsEverything(key, lt, s, Some(key(r[limit - 1])), limit);
    }
  }

  // ---------- snapshots that change between pages ----------

  /** Page i is cut from its own snapshot, at the cursor the page before returned. */
  ghost predicate Walk<T, K>(key: T -> K, lt: (K, K) -> bool, limit: nat, snaps: seq<seq<T>>, cursors: seq<Option<K>>,
                             pages: seq<seq<T>>)
    requires limit > 0
  {
    && |snaps| == |pages| && |cursors| == |pages| + 1 && |pages| > 0
    && cursors[0].None? && cursors[|pages|].None?
    && (forall i :: 0 < i < |pages| ==> cursors[i].Some?)
    && (forall i {:trigger pages[i]} :: 0 <= i < |pages| ==>
          (pages[i], cursors[i + 1]) == Page(key, lt, snaps[i], cursors[i], limit))
    && (forall i :: 0 <= i < |snaps| ==> Ascending(key, lt, snaps[i]))
  }

  /** Page i holds exactly the items of its snapshot between its two cursors. */
  lemma PageHolds<T, K(!new)>(key: T -> K, lt: (K, K) -> bool, s: seq<T>, after: Option<K>, limit: nat, x: T)
    requires limit > 0 && KeyOrder(lt) && Ascending(key, lt, s)
    ensures var (page, next) := Page(key, lt, s, after, limit);
      && (x in page <==> x in s && IsAfter(key, lt, x, after) && (next.None? || !lt(next.value, key(x))))
      && (next.Some? ==> page != [] && next == Some(key(page[|page| - 1])))
      && Ascending(key, lt, page)
  {
    var r := Rest(key, lt, s, after);
    RestMembers(key, lt, s, after, x);
    RestAscending(key, lt, s, after);
    if |r| > limit {
      forall j | 0 <= j < |r| ensures lt(key(r[limit - 1]), key(r[j])) <==> j >= limit {
        if j < limit - 1 { assert lt(key(r[j]), key(r[limit - 1])); }
      }
      if x in r {
        var j :| 0 <= j < |r| && r[j] == x;
        if !lt(key(r[limit - 1]), key(x)) { assert r[..limit][j] == x; }
        if x in r[..limit] { var k :| 0 <= k < limit && r[k] == x; assert !lt(key(r[limit - 1]), key(r[k])); }
      }
    }
  }

  ghost function Flatten<T>(pages: seq<seq<T>>): seq<T> {
    if pages == [] then [] else Flatten(pages[..|pages| - 1]) + pages[|pages| - 1]
  }

  /** Everything returned so far lies at or before the next cursor, in ascending order. */
  lemma {:induction false} ReturnedSoFar<T, K(!new)>(key: T -> K, lt: (K, K) -> bool, limit: nat, snaps: seq<seq<T>>,
                                                     cursors: seq<Option<K>>, pages: seq<seq<T>>, n: nat)
    requires limit > 0 && KeyOrder(lt) && Walk(key, lt, limit, snaps, cursors, pages) && n <= |pages|
    ensures Ascending(key, lt, Flatten(pages[..n]))
    ensures n < |pages| ==> forall x :: x in Flatten(pages[..n]) ==>
              cursors[n].Some? && (key(x) == cursors[n].value || lt(key(x), cursors[n].value))
  {
    if n > 0 {
      var done, page := Flatten(pages[..n - 1]), pages[n - 1];
      ReturnedSoFar(key, lt, limit, snaps, cursors, pages, n - 1);
      assert pages[..n][..n - 1] == pages[..n - 1];
      forall x | x in page ensures IsAfter(key, lt, x, cursors[n - 1]) {
        PageHolds(key, lt, snaps[n - 1], cursors[n - 1], limit, x);
      }
      PageAscends(key, lt, snaps[n - 1], cursors[n - 1], limit);
      AscendingConcat(key, lt, done, page, cursors[n - 1]);
    }
  }

  lemma PageAscends<T, K(!new)>(key: T -> K, lt: (K, K) -> bool, s: seq<T>, after: Option<K>, limit: nat)
    requires limit > 0 && KeyOrder(lt) && Ascending(key, lt, s)
    ensures var (page, next) := Page(key, lt, s, after, limit);
      && Ascending(key, lt, page)
      && (next.Some? ==> page != [] && next.value == key(page[|page| - 1]))
      && (next.Some? ==> forall x :: x in page ==> key(x) == next.value || lt(key(x), next.value))
  {
    RestAscending(key, lt, s, after);
    var r := Rest(key, lt, s, after);
    if |r| > limit {
      forall x | x in r[..limit] ensures key(x) == key(r[limit - 1]) || lt(key(x), key(r[limit - 1])) {
        var k :| 0 <= k < limit && r[k] == x;
      }
    }
  }

  lemma AscendingConcat<T, K(!new)>(key: T -> K, lt: (K, K) -> bool, a: seq<T>, b: seq<T>, c: Option<K>)
    requires KeyOrder(lt) && Ascending(key, lt, a) && Ascending(key, lt, b)
    requires forall x :: x in a ==> c.Some? && (key(x) == c.value || lt(key(x), c.value))
    requires forall x :: x in b ==> IsAfter(key, lt, x, c)
    ensures Ascending(key, lt, a + b)
    ensures c.Some? && b != [] ==> forall x :: x in a ==> lt(key(x), key(b[|b| - 1]))
  {
    assert b != [] ==> b[|b| - 1] in b;
    var s := a + b;
    forall i, j | 0 <= i < j < |s| ensures lt(key(s[i]), key(s[j])) {
      if j < |a| {
        assert lt(key(a[i]), key(a[j]));
      } else if i >= |a| {
        assert lt(key(b[i - |a|]), key(b[j - |a|]));
      } else {
        assert a[i] in a && b[j - |a|] in b;
      }
    }
  }

  /** A stable item has been returned already or still lies beyond the cursor. */
  lemma {:induction false} StillAhead<T, K(!new)>(key: T -> K, lt: (K, K) -> bool, limit: nat, snaps: seq<seq<T>>,
                                                  cursors: seq<Option<K>>, pages: seq<seq<T>>, x: T, n: nat)
    requires limit > 0 && KeyOrder(lt) && Walk(key, lt, limit, snaps, cursors, pages) && n <= |pages|
    requires forall i :: 0 <= i < |snaps| ==> x in snaps[i]
    ensures x in Flatten(pages[..n]) || (n < |pages| && IsAfter(key, lt, x, cursors[n]))
  {
    if n > 0 {
      StillAhead(key, lt, limit, snaps, cursors, pages, x, n - 1);
      assert pages[..n][..n - 1] == pages[..n - 1];
      PageHolds(key, lt, snaps[n - 1], cursors[n - 1], limit, x);
      assert pages[n - 1] == Page(key, lt, snaps[n - 1], cursors[n - 1], limit).0;
    }
  }

  /** While the data changes between pages, no key is returned twice and every item present in all the
      snapshots is returned exactly once. */
  lemma StableItemsOnce<T, K(!new)>(key: T -> K, lt: (K, K) -> bool, limit: nat, snaps: seq<seq<T>>,
                                    cursors: seq<Option<K>>, pages: seq<seq<T>>, x: T)
    requires limit > 0 && KeyOrder(lt) && Walk(key, lt, limit, snaps, cursors, pages)
    ensures Ascending(key, lt, Flatten(pages))
    ensures (forall i :: 0 <= i < |snaps| ==> x in snaps[i]) ==> multiset(Flatten(pages))[x] == 1
  {
    assert pages[..|pages|] == pages;
    ReturnedSoFar(key, lt, limit, snaps, cursors, pages, |pages|);
    if forall i :: 0 <= i < |snaps| ==> x in snaps[i] {
      StillAhead(key, lt, limit, snaps, cursors, pages, x, |pages|);
      var s := Flatten(pages);
      forall i, j | 0 <= i < j < |s| ensures s[i] != s[j] { assert lt(key(s[i]), key(s[j])); }
      CountOnce(s, x);
    }
  }

  /** The reader's loop over a sorted list: skip up to the cursor, stop one past the limit. */
  method TakePage<T, K>(key: T -> K, lt: (K, K) -> bool, sorted: seq<T>, after: Option<K>, limit: nat)
    returns (page: seq<T>, next: Option<K>)
    requires limit > 0
    ensures (page, next) == Page(key, lt, sorted, after, limit)
    ensures |page| <= limit && (next.Some? ==> |page| == limit)
  {
    page, next := [], None;
    var hasMore := false;
    ghost var rest := Rest(key, lt, sorted, after);
    var i := 0;
    assert sorted[0..] == sorted;
    while i < |sorted|
      invariant i <= |sorted| && |page| <= limit && !hasMore
      invariant page + Rest(key, lt, sorted[i..], after) == rest
      invariant i == |sorted| ==> page == rest
    {
      assert sorted[i..][1..] == sorted[i + 1..];
      ghost var tail := Rest(key, lt, sorted[i + 1..], after);
      if IsAfter(key, lt, sorted[i], after) {
        assert Rest(key, lt, sorted[i..], after) == [sorted[i]] + tail;
        if |page| == limit {
          hasMore := true;
          assert |rest| > limit && rest[..limit] == page;
          break;
        }
        assert page + ([sorted[i]] + tail) == (page + [sorted[i]]) + tail;
        page := page + [sorted[i]];
      } else {
        assert Rest(key, lt, sorted[i..], after) == tail;
      }
      i := i + 1;
    }
    if hasMore {
      assert rest[limit - 1] == rest[..limit][limit - 1];
      next := Some(key(page[|page| - 1]));
    }
  }
}
