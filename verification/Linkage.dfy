/** The trace graph builder and OrderTrace, as loops and recursive walks over maps. */
module Linkage {
  import opened Ordering
  import opened Events
  import opened Forest
  import opened TraceOrder

  datatype TraceGraph = TraceGraph(
    children: map<string, seq<Event>>,
    parents: map<string, string>,
    depths: map<string, nat>,
    usable: bool)

  function ChildrenOf(children: map<string, seq<Event>>, id: string): seq<Event> {
    if id in children then children[id] else []
  }

  /** The children table lists, for every id, exactly the forest's children. */
  ghost predicate ChildrenMatch(children: map<string, seq<Event>>, f: EventForest) {
    forall id {:trigger ChildrenOf(children, id)} :: Sort(Before, ChildrenOf(children, id)) == Kids(f, id)
  }

  /** The children table holds exactly the edges of p. */
  ghost predicate EdgesMatch(children: map<string, seq<Event>>, p: map<string, string>) {
    && (forall x, k {:trigger Linked(children, x, k)} :: Linked(children, x, k) ==> k in p && p[k] == x)
    && (forall k :: k in p ==> Linked(children, p[k], k))
  }

  ghost predicate Linked(children: map<string, seq<Event>>, x: string, k: string) {
    exists i :: 0 <= i < |ChildrenOf(children, x)| && ChildrenOf(children, x)[i].id == k
  }

  ghost predicate DepthsMatch(depths: map<string, nat>, p: map<string, string>, ids: set<string>) {
    forall id :: id in ids ==> id in depths && Rooted(p, id) && depths[id] == Depth(p, id)
  }

  // ---------- buildTraceGraph ----------

  ghost predicate OwnersMatch(owner: map<string, Event>, events: seq<Event>) {
    forall span :: SpanOwner(events, span) == if span in owner then Some(owner[span]) else None
  }

  method ClaimSpans(owner: map<string, Event>, ev: Event) returns (r: map<string, Event>)
    ensures forall span :: span in r <==> Owns(ev, span) || span in owner
    ensures forall span :: span in r ==> r[span] == if Owns(ev, span) then ev else owner[span]
  {
    r := owner;
    ghost var claimed: set<string> := {};
    for k := 0 to |ev.steps|
      invariant forall h :: 0 <= h < k && ev.steps[h].spanId != "" ==> ev.steps[h].spanId in claimed
      invariant forall span :: span in claimed ==> Owns(ev, span)
      invariant r.Keys == owner.Keys + claimed
      invariant forall span :: span in r ==> r[span] == if span in claimed then ev else owner[span]
    {
      var span := ev.steps[k].spanId;
      if span != "" {
        r := r[span := ev];
        claimed := claimed + {span};
      }
    }
    assert forall span :: Owns(ev, span) <==> span in claimed;
  }

  method SpanOwners(events: seq<Event>) returns (owner: map<string, Event>)
    ensures OwnersMatch(owner, events)
  {
    owner := map[];
    for i := 0 to |events|
      invariant OwnersMatch(owner, events[..i])
    {
      owner := ClaimSpans(owner, events[i]);
      assert events[..i + 1][..i] == events[..i];
    }
    assert events[..|events|] == events;
  }

  /** The links of the first i events. */
  ghost predicate LinkedPrefix(events: seq<Event>, i: nat) {
    i <= |events| && forall e :: e in events[..i] ==> LinkResolves(events, e)
  }

  ghost function LinkMap(events: seq<Event>, i: nat): map<string, string>
    requires DistinctIds(events) && LinkedPrefix(events, i)
  {
    map e | e in events[..i] && e.parentSpan != "" :: e.id := SpanOwner(events, e.parentSpan).value.id
  }

  ghost predicate PrefixEdge(events: seq<Event>, i: nat, e: Event, parent: string)
    requires LinkedPrefix(events, i)
  {
    e in events[..i] && e.parentSpan != "" && SpanOwner(events, e.parentSpan).value.id == parent
  }

  ghost predicate PrefixChildren(events: seq<Event>, i: nat, children: map<string, seq<Event>>)
    requires LinkedPrefix(events, i)
  {
    && (forall id, e :: e in ChildrenOf(children, id) <==> PrefixEdge(events, i, e, id))
    && (forall id :: NoDuplicates(ChildrenOf(children, id)))
  }

  lemma NextPrefix(events: seq<Event>, i: nat)
    requires DistinctIds(events) && i < |events| && LinkedPrefix(events, i)
    ensures forall e :: e in events[..i + 1] <==> e in events[..i] || e == events[i]
    ensures events[i] !in events[..i]
    ensures LinkedPrefix(events, i + 1) <==> LinkResolves(events, events[i])
  {
    assert events[..i + 1] == events[..i] + [events[i]];
  }

  lemma NextLink(events: seq<Event>, i: nat)
    requires DistinctIds(events) && i < |events| && LinkedPrefix(events, i) && LinkResolves(events, events[i])
    ensures LinkedPrefix(events, i + 1)
    ensures LinkMap(events, i + 1) ==
              if events[i].parentSpan == "" then LinkMap(events, i)
              else LinkMap(events, i)[events[i].id := SpanOwner(events, events[i].parentSpan).value.id]
  {
    NextPrefix(events, i);
  }

  lemma NextChild(events: seq<Event>, i: nat, children: map<string, seq<Event>>, parent: string)
    requires DistinctIds(events) && i < |events| && LinkedPrefix(events, i) && LinkResolves(events, events[i])
    requires PrefixChildren(events, i, children)
    ensures LinkedPrefix(events, i + 1)
    ensures events[i].parentSpan == "" ==> PrefixChildren(events, i + 1, children)
    ensures events[i].parentSpan != "" && SpanOwner(events, events[i].parentSpan).value.id == parent ==>
              PrefixChildren(events, i + 1, children[parent := ChildrenOf(children, parent) + [events[i]]])
  {
    NextPrefix(events, i);
    var ch := ChildrenOf(children, parent);
    var next := children[parent := ch + [events[i]]];
    assert forall id :: ChildrenOf(next, id) == if id == parent then ch + [events[i]] else ChildrenOf(children, id);
    assert events[i] !in ch;
  }

  /** buildTraceGraph: usable exactly when there are links and all resolve; then the tables are the
      forest's, and without cycles the memoised depths are the parent-chain lengths. */
  method BuildTraceGraph(events: seq<Event>) returns (g: TraceGraph)
    requires DistinctIds(events)
    ensures g.usable <==> HasLink(events) && LinksResolve(events)
    ensures g.usable ==> g.parents == ParentMap(events) && ChildrenMatch(g.children, ForestOf(events))
    ensures g.usable ==> EdgesMatch(g.children, g.parents)
    ensures g.usable && Acyclic(g.parents) ==> DepthsMatch(g.depths, g.parents, set e | e in events :: e.id)
  {
    var owner := SpanOwners(events);
    var children: map<string, seq<Event>>, parents: map<string, string>, edgeCount := map[], map[], 0;
    for i := 0 to |events|
      invariant LinkedPrefix(events, i)
      invariant parents == LinkMap(events, i)
      invariant PrefixChildren(events, i, children)
      invariant edgeCount > 0 <==> HasLink(events[..i])
    {
      var child := events[i];
      NextPrefix(events, i);
      if child.parentSpan != "" {
        if child.parentSpan !in owner || owner[child.parentSpan].id == child.id {
          assert !LinkResolves(events, child);
          g := TraceGraph(children, parents, map[], false);
          return;
        }
        var parent := owner[child.parentSpan].id;
        NextChild(events, i, children, parent);
        NextLink(events, i);
        children := children[parent := ChildrenOf(children, parent) + [child]];
        parents := parents[child.id := parent];
        edgeCount := edgeCount + 1;
      } else {
        NextChild(events, i, children, "");
        NextLink(events, i);
      }
    }
    assert events[..|events|] == events;
    if edgeCount == 0 {
      g := TraceGraph(children, parents, map[], false);
      return;
    }
    PrefixParents(events);
    PrefixIsForest(events, children);
    PrefixEdgesMatch(events, children);
    var depths := AllDepths(parents, set e | e in events :: e.id);
    g := TraceGraph(children, parents, depths, true);
  }

  lemma PrefixParents(events: seq<Event>)
    requires DistinctIds(events) && LinkedPrefix(events, |events|)
    ensures LinksResolve(events) && LinkMap(events, |events|) == ParentMap(events)
  {
    assert events[..|events|] == events;
  }

  lemma PrefixIsForest(events: seq<Event>, children: map<string, seq<Event>>)
    requires DistinctIds(events) && LinksResolve(events) && LinkedPrefix(events, |events|)
    requires PrefixChildren(events, |events|, children)
    ensures ChildrenMatch(children, ForestOf(events))
  {
    forall id ensures Sort(Before, ChildrenOf(children, id)) == Kids(ForestOf(events), id) {
      SortedChildren(events, children, id);
    }
  }

  lemma PrefixEdgesMatch(events: seq<Event>, children: map<string, seq<Event>>)
    requires DistinctIds(events) && LinksResolve(events) && LinkedPrefix(events, |events|)
    requires PrefixChildren(events, |events|, children)
    ensures EdgesMatch(children, ParentMap(events))
  {
    var p := ParentMap(events);
    forall x, k | Linked(children, x, k) ensures k in p && p[k] == x {
      var e :| e in ChildrenOf(children, x) && e.id == k;
      EdgeIsKid(events, e, x);
    }
    forall k | k in p ensures Linked(children, p[k], k) {
      var e :| e in events && e.parentSpan != "" && e.id == k;
      EdgeIsKid(events, e, p[k]);
      assert e in ChildrenOf(children, p[k]);
    }
  }

  lemma SortedChildren(events: seq<Event>, children: map<string, seq<Event>>, id: string)
    requires DistinctIds(events) && LinksResolve(events) && LinkedPrefix(events, |events|)
    requires PrefixChildren(events, |events|, children)
    ensures Sort(Before, ChildrenOf(children, id)) == Kids(ForestOf(events), id)
  {
    var kids, S := ChildrenOf(children, id), KidSet(Elements(events), ParentMap(events), id);
    forall e ensures e in kids <==> e in S {
      EdgeIsKid(events, e, id);
      assert e in kids <==> PrefixEdge(events, |events|, e, id);
    }
    assert Elements(kids) == S;
    SortedEvents(events, S);
    SortIsSortedOf(Before, kids);
    ForestKidsSorted(events, id);
  }

  lemma ForestKidsSorted(events: seq<Event>, id: string)
    requires DistinctIds(events) && LinksResolve(events)
    ensures Kids(ForestOf(events), id) == SortedOf(Before, KidSet(Elements(events), ParentMap(events), id))
  {
    DistinctIdsFacts(events);
    var S := KidSet(Elements(events), ParentMap(events), id);
    if id !in NodeMap(Elements(events)) {
      forall e ensures e !in S {
        if e.id in ParentMap(events) { ParentIsNode(events, e.id); }
      }
      assert S == {};
    }
  }

  lemma EdgeIsKid(events: seq<Event>, e: Event, id: string)
    requires DistinctIds(events) && LinksResolve(events) && LinkedPrefix(events, |events|)
    ensures e in KidSet(Elements(events), ParentMap(events), id) <==> PrefixEdge(events, |events|, e, id)
  {
    assert events[..|events|] == events;
    if e in events { LinkedIffParent(events, e); }
  }

  // ---------- memoised depths ----------

  ghost predicate MemoSound(p: map<string, string>, memo: map<string, nat>) {
    Acyclic(p) ==> forall id :: id in memo ==> Rooted(p, id) && memo[id] == Depth(p, id)
  }

  /** depthOf: the memo and the cycle guard do not change the answer on an acyclic map. */
  method DepthOf(p: map<string, string>, memo: map<string, nat>, id: string, stack: set<string>)
    returns (d: nat, memo': map<string, nat>)
    requires stack <= p.Keys && MemoSound(p, memo)
    requires Acyclic(p) ==> forall s :: s in stack ==> Below(p, s, id)
    ensures MemoSound(p, memo') && memo.Keys <= memo'.Keys
    ensures Acyclic(p) ==> Rooted(p, id) && d == Depth(p, id) && id in memo'
    decreases p.Keys - stack
  {
    if id in memo { return memo[id], memo; }
    if id !in p {
      DepthOfRoot(p, id);
      return 0, memo[id := 0];
    }
    if id in stack { return 0, memo; }
    if Acyclic(p) {
      forall s | s in stack + {id} ensures Below(p, s, p[id]) { BelowParent(p, s, id); }
    }
    assert id in p.Keys - stack && id !in p.Keys - (stack + {id});
    d, memo' := DepthOf(p, memo, p[id], stack + {id});
    DepthOfChild(p, id);
    d := d + 1;
    memo' := memo'[id := d];
  }

  /** Depths of all events, visited in an arbitrary order. */
  method AllDepths(p: map<string, string>, ids: set<string>) returns (memo: map<string, nat>)
    ensures Acyclic(p) ==> DepthsMatch(memo, p, ids)
  {
    memo := map[];
    var todo := ids;
    while todo != {}
      invariant todo <= ids && MemoSound(p, memo)
      invariant Acyclic(p) ==> forall id :: id in ids - todo ==> id in memo
      decreases todo
    {
      var id :| id in todo;
      var _, m := DepthOf(p, memo, id, {});
      memo, todo := m, todo - {id};
    }
  }

  // ---------- OrderTrace ----------

  ghost function IdsOf(s: seq<Event>): set<string> {
    if s == [] then {} else {s[0].id} + IdsOf(s[1..])
  }

  /** Marking these events in order never meets an id already seen. */
  ghost predicate Unseen(seen: set<string>, s: seq<Event>)
    decreases |s|
  {
    s == [] || (s[0].id !in seen && Unseen(seen + {s[0].id}, s[1..]))
  }

  lemma {:induction false} UnseenIntro(seen: set<string>, s: seq<Event>)
    requires DistinctIds(s) && forall e :: e in s ==> e.id !in seen
    ensures Unseen(seen, s)
    decreases |s|
  {
    if s != [] { UnseenIntro(seen + {s[0].id}, s[1..]); }
  }

  lemma {:induction false} UnseenSplit(seen: set<string>, a: seq<Event>, b: seq<Event>)
    requires Unseen(seen, a + b)
    ensures Unseen(seen, a) && Unseen(seen + IdsOf(a), b)
    ensures IdsOf(a + b) == IdsOf(a) + IdsOf(b)
    decreases |a|
  {
    if a == [] {
      assert a + b == b && seen + IdsOf(a) == seen;
    } else {
      assert (a + b)[1..] == a[1..] + b;
      UnseenSplit(seen + {a[0].id}, a[1..], b);
      assert seen + {a[0].id} + IdsOf(a[1..]) == seen + IdsOf(a);
    }
  }

  /** What walking one unseen event does to the plan and the marks. */
  lemma WalkStep(f: EventForest, x: Event, d: nat, seen: set<string>)
    requires ValidForest(f) && AllAtDepth(f, [x], d) && Unseen(seen, Preorder(f, [x], d))
    ensures d < |f.byId| && x.id !in seen && AllAtDepth(f, Kids(f, x.id), d + 1)
    ensures Unseen(seen + {x.id}, Preorder(f, Kids(f, x.id), d + 1))
    ensures Preorder(f, [x], d) == [x] + Preorder(f, Kids(f, x.id), d + 1)
    ensures IdsOf(Preorder(f, [x], d)) == {x.id} + IdsOf(Preorder(f, Kids(f, x.id), d + 1))
  {
    KidsAtDepth(f, x, d);
    PreorderCons(f, x, [], d);
    var kids := Preorder(f, Kids(f, x.id), d + 1);
    assert [x] + [] == [x];
    assert Preorder(f, [x], d) == [x] + kids;
    assert ([x] + kids)[1..] == kids;
  }

  method Walk(ghost f: EventForest, children: map<string, seq<Event>>, ev: Event, ghost d: nat,
              seen: set<string>, ordered: seq<Event>)
    returns (seen': set<string>, ordered': seq<Event>)
    requires ValidForest(f) && ChildrenMatch(children, f) && AllAtDepth(f, [ev], d)
    requires ev.id in seen || Unseen(seen, Preorder(f, [ev], d))
    ensures ev.id in seen ==> seen' == seen && ordered' == ordered
    ensures ev.id !in seen ==>
              ordered' == ordered + Preorder(f, [ev], d) && seen' == seen + IdsOf(Preorder(f, [ev], d))
    decreases |f.byId| - d, 0
  {
    if ev.id in seen { return seen, ordered; }
    WalkStep(f, ev, d, seen);
    var kids := Sort(Before, ChildrenOf(children, ev.id));
    seen', ordered' := WalkAll(f, children, kids, d + 1, seen + {ev.id}, ordered + [ev]);
  }

  /** The plan for a list splits into the plan for its first event and the plan for the rest. */
  lemma PlanStep(f: EventForest, x: Event, rest: seq<Event>, d: nat, seen: set<string>)
    requires ValidForest(f) && AllAtDepth(f, [x] + rest, d) && Unseen(seen, Preorder(f, [x] + rest, d))
    ensures AllAtDepth(f, [x], d) && AllAtDepth(f, rest, d) && x.id !in seen
    ensures Preorder(f, [x] + rest, d) == Preorder(f, [x], d) + Preorder(f, rest, d)
    ensures IdsOf(Preorder(f, [x] + rest, d)) == IdsOf(Preorder(f, [x], d)) + IdsOf(Preorder(f, rest, d))
    ensures Unseen(seen, Preorder(f, [x], d)) && Unseen(seen + IdsOf(Preorder(f, [x], d)), Preorder(f, rest, d))
  {
    assert ([x] + rest)[1..] == rest;
    PreorderCons(f, x, rest, d);
    PreorderCons(f, x, [], d);
    assert [x] + [] == [x];
    assert Preorder(f, [x] + rest, d) == Preorder(f, [x], d) + Preorder(f, rest, d);
    UnseenSplit(seen, Preorder(f, [x], d), Preorder(f, rest, d));
  }

  method WalkAll(ghost f: EventForest, children: map<string, seq<Event>>, xs: seq<Event>, ghost d: nat,
                 seen: set<string>, ordered: seq<Event>)
    returns (seen': set<string>, ordered': seq<Event>)
    requires ValidForest(f) && ChildrenMatch(children, f) && AllAtDepth(f, xs, d)
    requires Unseen(seen, Preorder(f, xs, d))
    ensures ordered' == ordered + Preorder(f, xs, d) && seen' == seen + IdsOf(Preorder(f, xs, d))
    decreases |f.byId| - d, 1
  {
    seen', ordered' := seen, ordered;
    assert xs[0..] == xs;
    ghost var plan := Preorder(f, xs, d);
    for i := 0 to |xs|
      invariant PlanFrom(f, xs[i..], d, seen', ordered', seen + IdsOf(plan), ordered + plan)
    {
      assert xs[i..] == [xs[i]] + xs[i + 1..];
      PlanHead(f, xs[i], xs[i + 1..], d, seen', ordered', seen + IdsOf(plan), ordered + plan);
      seen', ordered' := Walk(f, children, xs[i], d, seen', ordered');
    }
  }

  /** Walking the rest of a list from here reaches the goal. */
  ghost predicate PlanFrom(f: EventForest, xs: seq<Event>, d: nat, seen: set<string>, ordered: seq<Event>,
                           allSeen: set<string>, all: seq<Event>)
    requires ValidForest(f)
  {
    && AllAtDepth(f, xs, d) && Unseen(seen, Preorder(f, xs, d))
    && ordered + Preorder(f, xs, d) == all && seen + IdsOf(Preorder(f, xs, d)) == allSeen
  }

  lemma PlanHead(f: EventForest, x: Event, rest: seq<Event>, d: nat, seen: set<string>, ordered: seq<Event>,
                 allSeen: set<string>, all: seq<Event>)
    requires ValidForest(f) && PlanFrom(f, [x] + rest, d, seen, ordered, allSeen, all)
    ensures AllAtDepth(f, [x], d) && x.id !in seen && Unseen(seen, Preorder(f, [x], d))
    ensures var one := Preorder(f, [x], d); PlanFrom(f, rest, d, seen + IdsOf(one), ordered + one, allSeen, all)
  {
    PlanStep(f, x, rest, d, seen);
    var one, two := Preorder(f, [x], d), Preorder(f, rest, d);
    Regroup(ordered, one, two, seen, IdsOf(one), IdsOf(two));
  }

  lemma Regroup<T>(a: seq<T>, b: seq<T>, c: seq<T>, x: set<string>, y: set<string>, z: set<string>)
    ensures a + (b + c) == (a + b) + c && x + (y + z) == (x + y) + z
  {
  }

  /** OrderTrace: a permutation of the trace; causal exactly when the links form a forest, and then
      the forest's preorder; otherwise all events in identity order. */
  method OrderTrace(events: seq<Event>) returns (ordered: seq<Event>, causal: bool)
    requires DistinctIds(events)
    ensures ordered == TraceSequence(events)
    ensures multiset(ordered) == multiset(events)
    ensures causal <==> CausallyLinked(events)
    ensures !causal ==> Chronological(ordered)
  {
    SortedTrace(events);
    if !CausallyLinked(events) { FallbackChronological(events); }
    if |events| == 0 { return [], false; }
    var g := BuildTraceGraph(events);
    if !g.usable { return Sort(Before, events), false; }
    ghost var f := ForestOf(events);
    var roots := CollectRoots(events);
    ForestOfValid(events);
    RootsAtDepth(f);
    CausalOrderUnseen(events);
    var _, walked := WalkAll(f, g.children, roots, 0, {}, []);
    CompleteIffAcyclic(events);
    if |walked| != |events| { return Sort(Before, events), false; }
    return walked, true;
  }

  lemma SortedTrace(events: seq<Event>)
    requires DistinctIds(events)
    ensures Sort(Before, events) == SortedOf(Before, Elements(events))
    ensures multiset(TraceSequence(events)) == multiset(events)
  {
    DistinctIdsFacts(events);
    BeforeStrictOrder(Elements(events));
    SortIsSortedOf(Before, events);
    TraceSequencePermutes(events);
  }

  lemma CausalOrderUnseen(events: seq<Event>)
    requires DistinctIds(events) && LinksResolve(events)
    ensures ValidForest(ForestOf(events)) && Unseen({}, CausalOrder(ForestOf(events)))
  {
    ForestOfValid(events);
    var f := ForestOf(events);
    CausalOrderNoDuplicates(f);
    assert Elements(CausalOrder(f)) <= Elements(events);
    SubsetDistinctIds(events, CausalOrder(f));
    UnseenIntro({}, CausalOrder(f));
  }

  method CollectRoots(events: seq<Event>) returns (roots: seq<Event>)
    requires DistinctIds(events)
    ensures roots == SortedOf(Before, RootSet(Elements(events)))
  {
    var found: seq<Event> := [];
    for i := 0 to |events|
      invariant forall e :: e in found <==> e in events[..i] && e.parentSpan == ""
      invariant NoDuplicates(found)
    {
      assert events[..i + 1] == events[..i] + [events[i]];
      assert events[i] !in events[..i];
      if events[i].parentSpan == "" { found := found + [events[i]]; }
    }
    assert events[..|events|] == events;
    assert Elements(found) == RootSet(Elements(events));
    SortedEvents(events, RootSet(Elements(events)));
    SortIsSortedOf(Before, found);
    roots := Sort(Before, found);
  }
}
