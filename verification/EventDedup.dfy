/** The event-id LRU in front of the WAL: newest first, reads do not promote. */
module EventDedup {
  import opened Ordering

  /** addLocked: a known id moves to the front; a new one is pushed and the oldest fall off. */
  function AddId(order: seq<string>, id: string, capacity: nat): seq<string> {
    if id in order then [id] + Without(order, id)
    else if |order| < capacity then [id] + order
    else ([id] + order)[..capacity]
  }

  /** The order after adding a whole sequence of ids, oldest first. */
  function AddAll(ids: seq<string>, capacity: nat): seq<string> {
    if ids == [] then [] else AddId(AddAll(ids[..|ids| - 1], capacity), ids[|ids| - 1], capacity)
  }

  function Reverse(s: seq<string>): seq<string> {
    if s == [] then [] else [s[|s| - 1]] + Reverse(s[..|s| - 1])
  }

  function Newest(s: seq<string>, n: nat): seq<string> { if |s| <= n then s else s[|s| - n..] }

  /** Every id was absent from the LRU when it was appended. */
  ghost predicate Fresh(ids: seq<string>, capacity: nat) {
    ids == [] || (Fresh(ids[..|ids| - 1], capacity) && ids[|ids| - 1] !in AddAll(ids[..|ids| - 1], capacity))
  }

  lemma {:induction false} ReverseLength(s: seq<string>)
    ensures |Reverse(s)| == |s|
  {
    if s != [] { ReverseLength(s[..|s| - 1]); }
  }

  lemma {:induction false} ReverseTake(s: seq<string>, n: nat)
    requires n <= |s|
    ensures |Reverse(s)| == |s| && Reverse(s)[..n] == Reverse(s[|s| - n..])
  {
    ReverseLength(s);
    if n == 0 {
      assert s[|s|..] == [];
    } else {
      var p := s[..|s| - 1];
      ReverseTake(p, n - 1);
      assert s[|s| - n..][..n - 1] == p[|p| - (n - 1)..];
      assert Reverse(s)[..n] == [s[|s| - 1]] + Reverse(p)[..n - 1];
    }
  }

  lemma AddFresh(order: seq<string>, id: string, capacity: nat)
    requires id !in order && |order| <= capacity
    ensures AddId(order, id, capacity) == if |order| < capacity then [id] + order else ([id] + order)[..capacity]
  {
  }

  lemma ReverseSnoc(s: seq<string>, x: string)
    ensures Reverse(s + [x]) == [x] + Reverse(s)
  {
    assert (s + [x])[..|s|] == s;
  }

  /** One more id: it enters at the front of the newest ones. */
  lemma NewestSnoc(s: seq<string>, x: string, capacity: nat)
    requires capacity > 0
    ensures |Reverse(Newest(s, capacity))| == if |s| < capacity then |s| else capacity
    ensures var newest := Reverse(Newest(s, capacity));
            Reverse(Newest(s + [x], capacity)) == if |s| < capacity then [x] + newest else ([x] + newest)[..capacity]
  {
    var w := Newest(s, capacity);
    ReverseLength(w);
    ReverseSnoc(w, x);
    if |s| >= capacity {
      ReverseTake(w + [x], capacity);
      assert (w + [x])[1..] == Newest(s + [x], capacity);
    } else {
      assert Newest(s + [x], capacity) == s + [x];
    }
  }

  lemma NewestStep(p: seq<string>, x: string, capacity: nat)
    requires capacity > 0 && x !in Reverse(Newest(p, capacity))
    ensures AddId(Reverse(Newest(p, capacity)), x, capacity) == Reverse(Newest(p + [x], capacity))
  {
    NewestSnoc(p, x, capacity);
    AddFresh(Reverse(Newest(p, capacity)), x, capacity);
  }

  /** A log written through the LRU leaves in it exactly the newest ids, newest first. */
  lemma {:induction false} NewestIds(ids: seq<string>, capacity: nat)
    requires capacity > 0 && Fresh(ids, capacity)
    ensures AddAll(ids, capacity) == Reverse(Newest(ids, capacity))
  {
    if ids != [] {
      var p, x := ids[..|ids| - 1], ids[|ids| - 1];
      NewestIds(p, capacity);
      NewestStep(p, x, capacity);
      assert ids == p + [x];
    }
  }

  ghost predicate Bounded(order: seq<string>, capacity: nat) {
    NoDuplicates(order) && |order| <= capacity
  }

  lemma AddIdBounded(order: seq<string>, id: string, capacity: nat)
    requires Bounded(order, capacity) && capacity > 0
    ensures Bounded(AddId(order, id, capacity), capacity) && id in AddId(order, id, capacity)
    ensures forall x :: x in AddId(order, id, capacity) ==> x in order || x == id
  {
    if id in order { WithoutFacts(order, id); }
    assert AddId(order, id, capacity)[0] == id;
  }

  lemma {:induction false} WithoutConcat(a: seq<string>, b: seq<string>, id: string)
    requires id !in a
    ensures Without(a + b, id) == a + Without(b, id)
  {
    if a == [] { assert a + b == b; } else {
      assert (a + b)[1..] == a[1..] + b;
      WithoutConcat(a[1..], b, id);
    }
  }

  /** An added id goes in front of a head that does not hold it, as far as there is room. */
  lemma AddInFront(head: seq<string>, tail: seq<string>, id: string, capacity: nat)
    requires id !in head && |head| < capacity
    ensures [id] + head <= AddId(head + tail, id, capacity)
  {
    if id in head + tail { WithoutConcat(head, tail, id); }
  }

  lemma {:induction false} AddAllBounded(ids: seq<string>, capacity: nat)
    requires capacity > 0
    ensures Bounded(AddAll(ids, capacity), capacity)
    ensures forall x :: x in AddAll(ids, capacity) ==> x in ids
  {
    if ids != [] {
      AddAllBounded(ids[..|ids| - 1], capacity);
      AddIdBounded(AddAll(ids[..|ids| - 1], capacity), ids[|ids| - 1], capacity);
    }
  }

  lemma {:induction false} ReverseMember(s: seq<string>, x: string)
    ensures x in Reverse(s) <==> x in s
  {
    if s != [] { ReverseMember(s[..|s| - 1], x); }
  }

  lemma {:induction false} ReverseAt(s: seq<string>, i: nat)
    requires i < |s|
    ensures |Reverse(s)| == |s| && Reverse(s)[|s| - 1 - i] == s[i]
  {
    ReverseLength(s);
    if i < |s| - 1 { ReverseAt(s[..|s| - 1], i); }
  }

  lemma ReverseDistinct(s: seq<string>)
    requires NoDuplicates(Reverse(s))
    ensures NoDuplicates(s)
  {
    forall i, j | 0 <= i < j < |s| ensures s[i] != s[j] {
      ReverseAt(s, i);
      ReverseAt(s, j);
    }
  }

  /** Whatever was added before, distinct ids that fit end up in front, newest first. */
  lemma {:induction false} NewestInFront(older: seq<string>, ids: seq<string>, capacity: nat)
    requires NoDuplicates(ids) && |ids| <= capacity
    ensures Reverse(ids) <= AddAll(older + ids, capacity)
    decreases |ids|
  {
    if ids != [] {
      var n := |ids| - 1;
      var init, id := ids[..n], ids[n];
      NewestInFront(older, init, capacity);
      assert (older + ids)[..|older| + n] == older + init;
      ReverseLength(init);
      ReverseMember(init, id);
      var order := AddAll(older + init, capacity);
      assert order == Reverse(init) + order[n..];
      AddInFront(Reverse(init), order[n..], id, capacity);
    }
  }

  /** The newest ids of a log written through the LRU are distinct and fit. */
  lemma NewestDistinct(ids: seq<string>, capacity: nat)
    requires capacity > 0 && Fresh(ids, capacity)
    ensures NoDuplicates(Newest(ids, capacity)) && AddAll(ids, capacity) == Reverse(Newest(ids, capacity))
  {
    NewestIds(ids, capacity);
    AddAllBounded(ids, capacity);
    ReverseDistinct(Newest(ids, capacity));
  }

  /** Distinct ids that fill the LRU, or that come first, are all that is left in it. */
  lemma FilledBy(older: seq<string>, ids: seq<string>, capacity: nat)
    requires capacity > 0 && NoDuplicates(ids) && |ids| <= capacity && (|ids| == capacity || older == [])
    ensures AddAll(older + ids, capacity) == Reverse(ids)
  {
    NewestInFront(older, ids, capacity);
    ReverseLength(ids);
    AddAllBounded(older + ids, capacity);
    if older == [] {
      assert older + ids == ids;
      AddAllLength(ids, capacity);
    }
  }

  lemma {:induction false} AddAllLength(ids: seq<string>, capacity: nat)
    ensures |AddAll(ids, capacity)| <= |ids|
  {
    if ids != [] {
      AddAllLength(ids[..|ids| - 1], capacity);
      AddIdLength(AddAll(ids[..|ids| - 1], capacity), ids[|ids| - 1], capacity);
    }
  }

  lemma AddIdLength(order: seq<string>, id: string, capacity: nat)
    ensures |AddId(order, id, capacity)| <= |order| + 1
  {
    WithoutLength(order, id);
  }

  lemma {:induction false} WithoutLength(order: seq<string>, id: string)
    ensures |Without(order, id)| <= |order|
  {
    if order != [] { WithoutLength(order[1..], id); }
  }

  class Dedup {
    const capacity: nat
    var items: set<string>
    var order: seq<string>

    /** The membership table and the list hold the same ids, at most capacity of them. */
    ghost predicate Valid()
      reads this
    {
      capacity > 0 && Bounded(order, capacity) && items == Elements(order)
    }

    constructor (capacity: nat)
      requires capacity > 0
      ensures Valid() && order == [] && this.capacity == capacity
    {
      this.capacity := capacity;
      items, order := {}, [];
    }

    method Seen(id: string) returns (known: bool)
      requires Valid()
      ensures known <==> id != "" && id in order
    {
      known := id != "" && id in items;
    }

    method Add(id: string)
      requires Valid()
      modifies this`items, this`order
      ensures Valid()
      ensures order == if id == "" then old(order) else AddId(old(order), id, capacity)
    {
      if id == "" { return; }
      AddIdBounded(order, id, capacity);
      if id in items {
        WithoutFacts(order, id);
        order := [id] + Without(order, id);
        assert items == Elements(order);
        return;
      }
      ghost var pushed := [id] + order;
      order := [id] + order;
      items := items + {id};
      assert NoDuplicates(order);
      while |order| > capacity
        invariant |order| <= |pushed| && order == pushed[..|order|] && (|order| >= capacity || order == pushed)
        invariant NoDuplicates(order) && items == Elements(order)
        decreases |order|
      {
        var oldest := order[|order| - 1];
        items := items - {oldest};
        order := order[..|order| - 1];
      }
    }

    method Remove(id: string)
      requires Valid()
      modifies this`items, this`order
      ensures Valid()
      ensures order == if id in old(order) && id != "" then Without(old(order), id) else old(order)
    {
      if id == "" || id !in items { return; }
      WithoutFacts(order, id);
      order := Without(order, id);
      items := items - {id};
    }
  }
}
