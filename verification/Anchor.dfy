/** Root-cause anchor: the deepest failed event of a causally linked trace. */
module Anchoring {
  import opened Ordering
  import opened Events
  import opened Forest
  import opened TraceOrder
  import opened Linkage

  // ---------- failed descendants ----------

  /** A failed node lies one or more child edges below id. */
  ghost predicate FailedBelow(p: map<string, string>, failed: set<string>, id: string) {
    exists y :: y in failed && Below(p, y, id)
  }

  /** Every child of v is marked and has not failed. */
  ghost predicate Explored(p: map<string, string>, failed: set<string>, seen: set<string>, v: string) {
    forall k :: k in p && p[k] == v ==> k in seen && k !in failed
  }

  lemma ChildFailed(p: map<string, string>, failed: set<string>, k: string)
    requires k in p && (k in failed || FailedBelow(p, failed, k))
    ensures FailedBelow(p, failed, p[k])
  {
    var y :| y in failed && (y == k || Below(p, y, k));
    BelowParent(p, y, k);
  }

  /** Nothing below a node of an explored set has failed. */
  lemma {:induction false} ExploredBelow(p: map<string, string>, failed: set<string>, seen: set<string>, y: string,
                                         n: nat)
    requires forall v :: v in seen ==> Explored(p, failed, seen, v)
    requires n >= 1 && Climb(p, y, n).Some? && Climb(p, y, n).value in seen
    ensures y in seen && y !in failed
    decreases n
  {
    if n > 1 { ExploredBelow(p, failed, seen, p[y], n - 1); } else { assert Climb(p, p[y], 0) == Some(p[y]); }
    assert Explored(p, failed, seen, p[y]);
  }

  /** hasFailedDescendant with its shared visited set, on any graph. */
  method HasFailedDescendant(children: map<string, seq<Event>>, ghost p: map<string, string>, ghost all: set<string>,
                             id: string, failed: set<string>, seen: set<string>)
    returns (found: bool, seen': set<string>)
    requires EdgesMatch(children, p) && p.Keys <= all && id in all
    ensures seen <= seen'
    ensures found ==> FailedBelow(p, failed, id)
    ensures !found ==> id in seen' && forall v :: v in seen' && v !in seen ==> Explored(p, failed, seen', v)
    decreases all - seen
  {
    if id in seen { return false, seen; }
    seen' := seen + {id};
    var kids := ChildrenOf(children, id);
    for i := 0 to |kids|
      invariant seen + {id} <= seen'
      invariant forall j :: 0 <= j < i ==> kids[j].id in seen' && kids[j].id !in failed
      invariant forall v :: v in seen' && v !in seen && v != id ==> Explored(p, failed, seen', v)
    {
      var k := kids[i].id;
      assert Linked(children, id, k);
      if k in failed {
        ChildFailed(p, failed, k);
        return true, seen';
      }
      ghost var before := seen';
      assert id in all - seen && id !in all - seen';
      found, seen' := HasFailedDescendant(children, p, all, k, failed, seen');
      if found {
        ChildFailed(p, failed, k);
        return true, seen';
      }
    }
    found := false;
    assert Explored(p, failed, seen', id) by {
      forall k | k in p && p[k] == id ensures k in seen' && k !in failed {
        assert Linked(children, id, k);
      }
    }
  }

  /** Starting with nothing marked, the answer is exact: cyclic graphs included. */
  method FailsBelow(children: map<string, seq<Event>>, ghost p: map<string, string>, id: string, failed: set<string>)
    returns (found: bool)
    requires EdgesMatch(children, p)
    ensures found <==> FailedBelow(p, failed, id)
  {
    var seen;
    found, seen := HasFailedDescendant(children, p, p.Keys + {id}, id, failed, {});
    if !found && FailedBelow(p, failed, id) {
      ghost var y :| y in failed && Below(p, y, id);
      ghost var n: nat :| n >= 1 && Climb(p, y, n) == Some(id);
      ExploredBelow(p, failed, seen, y, n);
    }
  }

  // ---------- the deepest failed event ----------

  /** Deeper first, then the identity order. */
  predicate LeafBefore(depths: map<string, nat>, a: Event, b: Event) {
    var da := if a.id in depths then depths[a.id] else 0;
    var db := if b.id in depths then depths[b.id] else 0;
    if da != db then da > db else Before(a, b)
  }

  function ByDepth(depths: map<string, nat>): (Event, Event) -> bool {
    (a: Event, b: Event) => LeafBefore(depths, a, b)
  }

  lemma ByDepthStrictOrder(depths: map<string, nat>, S: set<Event>)
    requires IdsIdentify(S)
    ensures StrictOrderOn(ByDepth(depths), S)
  {
    BeforeStrictOrder(S);
  }

  ghost function FailedEvents(events: seq<Event>): set<Event> { set e | e in events && e.status.IsFailed() }

  ghost function FailedIds(events: seq<Event>): set<string> { set e | e in events && e.status.IsFailed() :: e.id }

  /** Some failed event has a parent or a child. */
  ghost predicate Touches(p: map<string, string>, failed: set<string>) {
    exists id :: id in failed && (id in p || exists k :: k in p && p[k] == id)
  }

  /** The graph is usable and touches a failure. */
  ghost predicate CausalAnchoring(events: seq<Event>)
    requires DistinctIds(events)
  {
    HasLink(events) && LinksResolve(events) && Touches(ParentMap(events), FailedIds(events))
  }

  /** a is strictly deeper than b, or as deep and first in the identity order. */
  ghost predicate Outranks(p: map<string, string>, a: Event, b: Event) {
    && Rooted(p, a.id) && Rooted(p, b.id)
    && (Depth(p, a.id) > Depth(p, b.id) || (Depth(p, a.id) == Depth(p, b.id) && Before(a, b)))
  }

  /** a ranks first among all failed events, not only among the leaves. */
  ghost predicate IsAnchor(events: seq<Event>, a: Event)
    requires DistinctIds(events)
  {
    && a in FailedEvents(events)
    && forall b :: b in FailedEvents(events) && b != a ==>
         if CausalAnchoring(events) then Outranks(ParentMap(events), a, b) else Before(a, b)
  }

  lemma AnchorUnique(events: seq<Event>, a: Event, b: Event)
    requires DistinctIds(events) && IsAnchor(events, a) && IsAnchor(events, b)
    ensures a == b
  {
    DistinctIdsFacts(events);
    BeforeStrictOrder(FailedEvents(events));
  }

  /** By fields: the anchor is the deepest failed event, or without causal links any; of those the first in order. */
  lemma AnchorByFields(events: seq<Event>, a: Event, b: Event)
    requires DistinctIds(events) && IsAnchor(events, a) && b in FailedEvents(events) && b != a
    ensures !CausalAnchoring(events) ==> InOrder(a, b)
    ensures CausalAnchoring(events) ==> Depth(ParentMap(events), a.id) >= Depth(ParentMap(events), b.id)
    ensures CausalAnchoring(events) && Depth(ParentMap(events), a.id) == Depth(ParentMap(events), b.id) ==>
      InOrder(a, b)
  {
  }

  /** The anchor does not depend on the order in which the events arrive. */
  lemma AnchorOrderIndependent(e1: seq<Event>, e2: seq<Event>, a: Event)
    requires DistinctIds(e1) && DistinctIds(e2) && SpansUnshared(e1) && multiset(e1) == multiset(e2)
    ensures CausalAnchoring(e1) <==> CausalAnchoring(e2)
    ensures IsAnchor(e1, a) <==> IsAnchor(e2, a)
  {
    PermutationSameLinks(e1, e2);
    assert FailedEvents(e1) == FailedEvents(e2);
    assert FailedIds(e1) == FailedIds(e2);
    if LinksResolve(e1) && LinksResolve(e2) { SameParents(e1, e2); }
  }

  /** An event that outranks every other failed event has no failed descendant. */
  lemma TopIsLeaf(p: map<string, string>, events: seq<Event>, a: Event)
    requires a in FailedEvents(events) && Rooted(p, a.id)
    requires forall b :: b in FailedEvents(events) && b != a ==> Outranks(p, a, b)
    ensures !FailedBelow(p, FailedIds(events), a.id)
  {
    forall y | y in FailedIds(events) ensures !Below(p, y, a.id) {
      var b :| b in FailedEvents(events) && b.id == y;
      forall n: nat | n >= 1 ensures Climb(p, y, n) != Some(a.id) {
        if Climb(p, y, n) == Some(a.id) { DepthAlongChain(p, y, n); }
      }
    }
  }

  lemma LeastExists(lt: (Event, Event) -> bool, S: set<Event>) returns (m: Event)
    requires StrictOrderOn(lt, S) && S != {}
    ensures m in S && forall b :: b in S && b != m ==> lt(m, b)
  {
    SortedOfFacts(lt, S);
    var s := SortedOf(lt, S);
    m := s[0];
    assert m in Elements(s);
    forall b | b in S && b != m ensures lt(m, b) {
      assert b in Elements(s);
      FirstIsLeast(lt, s, b);
    }
  }

  method CollectFailed(events: seq<Event>) returns (failed: seq<Event>)
    requires DistinctIds(events)
    ensures NoDuplicates(failed) && Elements(failed) == FailedEvents(events)
  {
    failed := [];
    for i := 0 to |events|
      invariant forall e :: e in failed <==> e in events[..i] && e.status.IsFailed()
      invariant NoDuplicates(failed)
    {
      assert events[..i + 1] == events[..i] + [events[i]];
      assert events[i] !in events[..i];
      if events[i].status.IsFailed() { failed := failed + [events[i]]; }
    }
    assert events[..|events|] == events;
  }

  method GraphTouchesFailed(g: TraceGraph, failed: seq<Event>) returns (touches: bool)
    requires EdgesMatch(g.children, g.parents)
    ensures touches <==> Touches(g.parents, set e | e in failed :: e.id)
  {
    for i := 0 to |failed|
      invariant forall j :: 0 <= j < i ==>
        failed[j].id !in g.parents && forall k :: k in g.parents ==> g.parents[k] != failed[j].id
    {
      var id := failed[i].id;
      if id in g.parents { return true; }
      if |ChildrenOf(g.children, id)| > 0 {
        assert Linked(g.children, id, ChildrenOf(g.children, id)[0].id);
        return true;
      }
    }
    touches := false;
  }

  /** The failed events without a failed descendant, in input order. */
  method FailedLeaves(g: TraceGraph, failed: seq<Event>) returns (leaves: seq<Event>)
    requires EdgesMatch(g.children, g.parents) && NoDuplicates(failed)
    ensures NoDuplicates(leaves)
    ensures forall e :: e in leaves <==> e in failed && !FailedBelow(g.parents, set f | f in failed :: f.id, e.id)
  {
    var failedIds := set f | f in failed :: f.id;
    leaves := [];
    for i := 0 to |failed|
      invariant NoDuplicates(leaves)
      invariant forall e :: e in leaves <==> e in failed[..i] && !FailedBelow(g.parents, failedIds, e.id)
    {
      assert failed[..i + 1] == failed[..i] + [failed[i]];
      assert failed[i] !in failed[..i];
      var below := FailsBelow(g.children, g.parents, failed[i].id, failedIds);
      if !below { leaves := leaves + [failed[i]]; }
    }
    assert failed[..|failed|] == failed;
  }

  /** Ranking by the built depths is ranking by chain length. */
  lemma DepthRanks(depths: map<string, nat>, p: map<string, string>, ids: set<string>, a: Event, b: Event)
    requires DepthsMatch(depths, p, ids) && a.id in ids && b.id in ids
    ensures ByDepth(depths)(a, b) <==> Outranks(p, a, b)
  {
  }

  lemma TopFailed(depths: map<string, nat>, p: map<string, string>, events: seq<Event>) returns (m: Event)
    requires DistinctIds(events) && FailedEvents(events) != {}
    requires DepthsMatch(depths, p, set e | e in events :: e.id)
    ensures m in FailedEvents(events) && !FailedBelow(p, FailedIds(events), m.id)
    ensures forall b :: b in FailedEvents(events) && b != m ==> ByDepth(depths)(m, b)
  {
    DistinctIdsFacts(events);
    ByDepthStrictOrder(depths, FailedEvents(events));
    m := LeastExists(ByDepth(depths), FailedEvents(events));
    var ids := set e | e in events :: e.id;
    forall b | b in FailedEvents(events) && b != m ensures Outranks(p, m, b) { DepthRanks(depths, p, ids, m, b); }
    assert m.id in ids;
    TopIsLeaf(p, events, m);
  }

  method DeepestFailedLeaf(g: TraceGraph, ghost events: seq<Event>, failed: seq<Event>) returns (leaf: Option<Event>)
    requires DistinctIds(events) && EdgesMatch(g.children, g.parents)
    requires NoDuplicates(failed) && Elements(failed) == FailedEvents(events)
    ensures leaf.Some? ==> leaf.value in failed && !FailedBelow(g.parents, FailedIds(events), leaf.value.id)
    ensures failed != [] && DepthsMatch(g.depths, g.parents, set e | e in events :: e.id) ==>
              leaf.Some? && forall b :: b in failed && b != leaf.value ==> Outranks(g.parents, leaf.value, b)
  {
    assert (set f | f in failed :: f.id) == FailedIds(events) by { FailedIdsOf(events, failed); }
    var leaves := FailedLeaves(g, failed);
    DistinctIdsFacts(events);
    assert forall e :: e in failed <==> e in Elements(failed);
    assert Elements(leaves) <= FailedEvents(events);
    ByDepthStrictOrder(g.depths, FailedEvents(events));
    StrictOrderSubset(ByDepth(g.depths), Elements(leaves), FailedEvents(events));
    SortCorrect(ByDepth(g.depths), leaves);
    var ranked := Sort(ByDepth(g.depths), leaves);
    if failed != [] && DepthsMatch(g.depths, g.parents, set e | e in events :: e.id) {
      assert failed[0] in FailedEvents(events);
      RankedFirst(g, events, leaves, ranked);
    }
    if |leaves| == 0 { return None; }
    assert ranked[0] in Elements(ranked);
    return Some(ranked[0]);
  }

  lemma FailedIdsOf(events: seq<Event>, failed: seq<Event>)
    requires Elements(failed) == FailedEvents(events)
    ensures (set f | f in failed :: f.id) == FailedIds(events)
  {
    assert forall e :: e in failed <==> e in Elements(failed);
    assert FailedIds(events) == set e | e in FailedEvents(events) :: e.id;
  }

  lemma RankedFirst(g: TraceGraph, events: seq<Event>, leaves: seq<Event>, ranked: seq<Event>)
    requires DistinctIds(events) && FailedEvents(events) != {}
    requires DepthsMatch(g.depths, g.parents, set e | e in events :: e.id)
    requires forall e :: e in leaves <==> e in FailedEvents(events) && !FailedBelow(g.parents, FailedIds(events), e.id)
    requires Sorted(ByDepth(g.depths), ranked) && Elements(ranked) == Elements(leaves)
    ensures ranked != []
    ensures forall b :: b in FailedEvents(events) && b != ranked[0] ==> Outranks(g.parents, ranked[0], b)
  {
    var lt, F := ByDepth(g.depths), FailedEvents(events);
    var m := TopFailed(g.depths, g.parents, events);
    assert m in Elements(ranked);
    FirstIsLeast(lt, ranked, m);
    assert ranked[0] in Elements(ranked);
    DistinctIdsFacts(events);
    ByDepthStrictOrder(g.depths, F);
    assert ranked[0] == m;
    forall b | b in F && b != m ensures Outranks(g.parents, m, b) {
      DepthRanks(g.depths, g.parents, set e | e in events :: e.id, m, b);
    }
  }

  datatype AnchorResult = NoFailure | Anchored(event: Event, causal: bool)

  /** ResolveAnchor on a trace with failures: the event that ranks first among all failed ones. */
  method ResolveAnchor(events: seq<Event>) returns (r: AnchorResult)
    requires DistinctIds(events)
    ensures r.NoFailure? <==> FailedEvents(events) == {}
    ensures r.Anchored? ==> r.event in FailedEvents(events)
    ensures r.Anchored? && (LinksResolve(events) ==> Acyclic(ParentMap(events))) ==>
              IsAnchor(events, r.event) && (r.causal <==> CausalAnchoring(events))
    ensures r.Anchored? && r.causal ==>
              CausalAnchoring(events) && !FailedBelow(ParentMap(events), FailedIds(events), r.event.id)
  {
    var failed := CollectFailed(events);
    assert forall e :: e in failed <==> e in Elements(failed);
    if |failed| == 0 { return NoFailure; }
    assert failed[0] in FailedEvents(events);
    var g := BuildTraceGraph(events);
    if g.usable {
      var touches := GraphTouchesFailed(g, failed);
      FailedIdsOf(events, failed);
      if touches {
        var leaf := DeepestFailedLeaf(g, events, failed);
        if leaf.Some? { return Anchored(leaf.value, true); }
      }
    }
    DistinctIdsFacts(events);
    BeforeStrictOrder(FailedEvents(events));
    SortCorrect(Before, failed);
    var byTime := Sort(Before, failed);
    assert byTime[0] in Elements(byTime);
    forall b | b in FailedEvents(events) && b != byTime[0] ensures Before(byTime[0], b) {
      assert b in Elements(byTime);
      FirstIsLeast(Before, byTime, b);
    }
    return Anchored(byTime[0], false);
  }
}
