/** Causal ordering of one trace: the parent graph from span ids and its DFS preorder. */
module TraceOrder {
  import opened Ordering
  import opened Events
  import opened Forest

  // ---------- what the parent links mean ----------

  predicate Owns(e: Event, span: string) {
    span != "" && exists k :: 0 <= k < |e.steps| && e.steps[k].spanId == span
  }

  /** The last event of the sequence that has a step with this span id. */
  function SpanOwner(events: seq<Event>, span: string): (o: Option<Event>)
    ensures o.Some? ==> o.value in events && Owns(o.value, span)
    ensures o.None? ==> forall e :: e in events ==> !Owns(e, span)
  {
    if events == [] then None
    else if Owns(events[|events| - 1], span) then Some(events[|events| - 1])
    else SpanOwner(events[..|events| - 1], span)
  }

  ghost predicate HasLink(events: seq<Event>) {
    exists e :: e in events && e.parentSpan != ""
  }

  ghost predicate LinkResolves(events: seq<Event>, e: Event) {
    e.parentSpan == "" || (SpanOwner(events, e.parentSpan).Some? && SpanOwner(events, e.parentSpan).value.id != e.id)
  }

  /** Every parent span is a step of another event. */
  ghost predicate LinksResolve(events: seq<Event>) {
    forall e :: e in events ==> LinkResolves(events, e)
  }

  ghost function ParentMap(events: seq<Event>): (p: map<string, string>)
    requires DistinctIds(events) && LinksResolve(events)
  {
    map e | e in events && e.parentSpan != "" :: e.id := SpanOwner(events, e.parentSpan).value.id
  }

  /** There is a link, every link resolves, and the parent relation has no cycle. */
  ghost predicate CausallyLinked(events: seq<Event>)
    requires DistinctIds(events)
  {
    HasLink(events) && LinksResolve(events) && Acyclic(ParentMap(events))
  }

  /** An event whose parent span is one of its own, or of no event, leaves the links unresolved. */
  lemma BadLinkUnresolved(events: seq<Event>, e: Event)
    requires e in events && e.parentSpan != ""
    requires SpanOwner(events, e.parentSpan) == Some(e) || forall x :: x in events ==> !Owns(x, e.parentSpan)
    ensures !LinksResolve(events)
  {
    assert !LinkResolves(events, e);
  }

  // ---------- DFS preorder of a forest, without a visited set ----------

  /** The events of a trace, their parent links, and the children and roots in identity order. */
  datatype EventForest = EventForest(
    byId: map<string, Event>,
    parents: map<string, string>,
    kids: map<string, seq<Event>>,
    roots: seq<Event>)

  ghost function Kids(f: EventForest, x: string): seq<Event> {
    if x in f.kids then f.kids[x] else []
  }

  ghost predicate IsNode(f: EventForest, e: Event) {
    e.id in f.byId && f.byId[e.id] == e
  }

  ghost predicate IsKid(f: EventForest, x: string, k: Event) {
    IsNode(f, k) && k.id in f.parents && f.parents[k.id] == x
  }

  ghost predicate IsRoot(f: EventForest, r: Event) {
    IsNode(f, r) && r.id !in f.parents
  }

  ghost predicate ValidForest(f: EventForest) {
    && (forall id :: id in f.byId ==> f.byId[id].id == id)
    && (forall c :: c in f.parents ==> c in f.byId && f.parents[c] in f.byId)
    && (forall x, k {:trigger IsKid(f, x, k)} :: k in Kids(f, x) <==> IsKid(f, x, k))
    && (forall r {:trigger IsRoot(f, r)} :: r in f.roots <==> IsRoot(f, r))
  }

  ghost predicate SortedForest(f: EventForest) {
    && Sorted(Before, f.roots) && NoDuplicates(f.roots)
    && forall x :: Sorted(Before, Kids(f, x)) && NoDuplicates(Kids(f, x))
  }

  ghost function NodeMap(S: set<Event>): map<string, Event>
    requires IdsIdentify(S)
  {
    map e | e in S :: e.id := e
  }

  ghost function RootSet(S: set<Event>): set<Event> { set e | e in S && e.parentSpan == "" }

  ghost function KidSet(S: set<Event>, p: map<string, string>, x: string): set<Event> {
    set e | e in S && e.id in p && p[e.id] == x
  }

  /** The forest is a function of the set of events and the parent map alone. */
  ghost function ForestFrom(S: set<Event>, p: map<string, string>): EventForest
    requires IdsIdentify(S)
  {
    EventForest(NodeMap(S), p, map x | x in NodeMap(S) :: SortedOf(Before, KidSet(S, p, x)),
                SortedOf(Before, RootSet(S)))
  }

  ghost function ForestOf(events: seq<Event>): EventForest
    requires DistinctIds(events) && LinksResolve(events)
  {
    DistinctIdsFacts(events);
    ForestFrom(Elements(events), ParentMap(events))
  }

  lemma LinkedIffParent(events: seq<Event>, e: Event)
    requires DistinctIds(events) && LinksResolve(events) && e in events
    ensures e.id in ParentMap(events) <==> e.parentSpan != ""
    ensures e.parentSpan != "" ==> ParentMap(events)[e.id] == SpanOwner(events, e.parentSpan).value.id
  {
    DistinctIdsFacts(events);
    if e.id in ParentMap(events) {
      var e' :| e' in events && e'.parentSpan != "" && e'.id == e.id;
      assert e in Elements(events) && e' in Elements(events);
    }
  }

  lemma ParentIsNode(events: seq<Event>, c: string)
    requires DistinctIds(events) && LinksResolve(events) && c in ParentMap(events)
    ensures IdsIdentify(Elements(events))
    ensures c in NodeMap(Elements(events)) && ParentMap(events)[c] in NodeMap(Elements(events))
  {
    DistinctIdsFacts(events);
    var e :| e in events && e.parentSpan != "" && e.id == c;
    LinkedIffParent(events, e);
    var o := SpanOwner(events, e.parentSpan).value;
    assert o in Elements(events) && e in Elements(events);
  }

  lemma ForestOfNode(events: seq<Event>, e: Event)
    requires DistinctIds(events) && LinksResolve(events)
    ensures IsNode(ForestOf(events), e) <==> e in events
  {
    DistinctIdsFacts(events);
    assert e in Elements(events) <==> e in events;
  }

  lemma SortedEvents(events: seq<Event>, S: set<Event>)
    requires DistinctIds(events) && S <= Elements(events)
    ensures Sorted(Before, SortedOf(Before, S)) && NoDuplicates(SortedOf(Before, S))
    ensures forall e :: e in SortedOf(Before, S) <==> e in S
    ensures StrictOrderOn(Before, S)
  {
    DistinctIdsFacts(events);
    BeforeStrictOrder(S);
    SortedOfFacts(Before, S);
    assert forall e :: e in SortedOf(Before, S) <==> e in Elements(SortedOf(Before, S));
  }

  lemma ForestKids(events: seq<Event>, x: string)
    requires DistinctIds(events) && LinksResolve(events)
    ensures var ks := Kids(ForestOf(events), x);
      && Sorted(Before, ks) && NoDuplicates(ks)
      && forall k :: k in ks <==> IsKid(ForestOf(events), x, k)
  {
    var f := ForestOf(events);
    SortedEvents(events, KidSet(Elements(events), f.parents, x));
    forall k ensures IsKid(f, x, k) <==> k in KidSet(Elements(events), f.parents, x) { ForestOfNode(events, k); }
    if KidSet(Elements(events), f.parents, x) != {} {
      var k :| k in KidSet(Elements(events), f.parents, x);
      ParentIsNode(events, k.id);
    }
  }

  lemma ForestRoots(events: seq<Event>)
    requires DistinctIds(events) && LinksResolve(events)
    ensures var f := ForestOf(events);
      && Sorted(Before, f.roots) && NoDuplicates(f.roots)
      && forall r :: r in f.roots <==> IsRoot(f, r)
  {
    var f := ForestOf(events);
    SortedEvents(events, RootSet(Elements(events)));
    forall r ensures r in f.roots <==> IsRoot(f, r) {
      ForestOfNode(events, r);
      if r in events { LinkedIffParent(events, r); }
    }
  }

  lemma ForestOfValid(events: seq<Event>)
    requires DistinctIds(events) && LinksResolve(events)
    ensures ValidForest(ForestOf(events)) && SortedForest(ForestOf(events))
    ensures forall e :: IsNode(ForestOf(events), e) <==> e in events
  {
    var f := ForestOf(events);
    ForestRoots(events);
    forall c | c in f.parents ensures c in f.byId && f.parents[c] in f.byId { ParentIsNode(events, c); }
    forall x ensures Sorted(Before, Kids(f, x)) && NoDuplicates(Kids(f, x)) { ForestKids(events, x); }
    forall x, k ensures k in Kids(f, x) <==> IsKid(f, x, k) { ForestKids(events, x); }
    forall e ensures IsNode(f, e) <==> e in events { ForestOfNode(events, e); }
  }

  ghost predicate AtDepth(f: EventForest, e: Event, d: nat) {
    IsNode(f, e) && Rooted(f.parents, e.id) && Depth(f.parents, e.id) == d
  }

  ghost predicate AllAtDepth(f: EventForest, xs: seq<Event>, d: nat) {
    xs == [] || (AtDepth(f, xs[0], d) && AllAtDepth(f, xs[1..], d))
  }

  lemma {:induction false} AllAtDepthIntro(f: EventForest, xs: seq<Event>, d: nat)
    requires forall x :: x in xs ==> AtDepth(f, x, d)
    ensures AllAtDepth(f, xs, d)
  {
    if xs != [] { AllAtDepthIntro(f, xs[1..], d); }
  }

  lemma {:induction false} AllAtDepthElim(f: EventForest, xs: seq<Event>, d: nat, x: Event)
    requires AllAtDepth(f, xs, d) && x in xs
    ensures AtDepth(f, x, d)
  {
    if x != xs[0] { AllAtDepthElim(f, xs[1..], d, x); }
  }

  lemma KidsAtDepth(f: EventForest, x: Event, d: nat)
    requires ValidForest(f) && AtDepth(f, x, d)
    ensures AllAtDepth(f, Kids(f, x.id), d + 1) && d < |f.byId|
  {
    forall k | k in Kids(f, x.id) ensures AtDepth(f, k, d + 1) {
      assert IsKid(f, x.id, k);
      DepthOfChild(f.parents, k.id);
    }
    AllAtDepthIntro(f, Kids(f, x.id), d + 1);
    DepthBound(f.parents, x.id, f.byId.Keys);
  }

  /** Each event of xs followed by the preorder of its children, in turn. */
  ghost function Preorder(f: EventForest, xs: seq<Event>, d: nat): seq<Event>
    requires ValidForest(f) && AllAtDepth(f, xs, d)
    decreases |f.byId| - d, |xs|
  {
    if xs == [] then [] else
      KidsAtDepth(f, xs[0], d);
      [xs[0]] + Preorder(f, Kids(f, xs[0].id), d + 1) + Preorder(f, xs[1..], d)
  }

  lemma PreorderCons(f: EventForest, x: Event, rest: seq<Event>, d: nat)
    requires ValidForest(f) && AtDepth(f, x, d) && AllAtDepth(f, rest, d)
    ensures AllAtDepth(f, [x] + rest, d) && AllAtDepth(f, Kids(f, x.id), d + 1)
    ensures Preorder(f, [x] + rest, d) == [x] + Preorder(f, Kids(f, x.id), d + 1) + Preorder(f, rest, d)
  {
    KidsAtDepth(f, x, d);
    assert ([x] + rest)[1..] == rest;
  }

  /** y hangs below (or is) the depth-d event x. */
  ghost predicate Under(f: EventForest, x: Event, d: nat, y: Event) {
    && IsNode(f, y) && Rooted(f.parents, y.id) && Depth(f.parents, y.id) >= d
    && Climb(f.parents, y.id, Depth(f.parents, y.id) - d) == Some(x.id)
  }

  ghost predicate UnderAny(f: EventForest, xs: seq<Event>, d: nat, y: Event) {
    exists x :: x in xs && Under(f, x, d, y)
  }

  lemma UnderSelf(f: EventForest, x: Event, d: nat, y: Event)
    requires ValidForest(f) && AtDepth(f, x, d)
    ensures Under(f, x, d, y) && Depth(f.parents, y.id) == d <==> y == x
  {
  }

  lemma UnderKid(f: EventForest, x: Event, d: nat, k: Event, y: Event)
    requires ValidForest(f) && k in Kids(f, x.id) && Under(f, k, d + 1, y)
    ensures Under(f, x, d, y)
  {
    assert IsKid(f, x.id, k);
    ClimbLast(f.parents, y.id, Depth(f.parents, y.id) - d - 1);
  }

  lemma KidAbove(f: EventForest, x: Event, d: nat, y: Event)
    requires ValidForest(f) && Under(f, x, d, y) && Depth(f.parents, y.id) > d
    ensures UnderAny(f, Kids(f, x.id), d + 1, y)
  {
    var n := Depth(f.parents, y.id) - d - 1;
    ClimbLast(f.parents, y.id, n);
    var kid := Climb(f.parents, y.id, n).value;
    var k := f.byId[kid];
    assert IsKid(f, x.id, k);
    assert Under(f, k, d + 1, y);
  }

  lemma UnderKids(f: EventForest, x: Event, d: nat, y: Event)
    requires ValidForest(f)
    ensures UnderAny(f, Kids(f, x.id), d + 1, y) <==> Under(f, x, d, y) && Depth(f.parents, y.id) > d
  {
    if UnderAny(f, Kids(f, x.id), d + 1, y) {
      var k :| k in Kids(f, x.id) && Under(f, k, d + 1, y);
      UnderKid(f, x, d, k, y);
    }
    if Under(f, x, d, y) && Depth(f.parents, y.id) > d { KidAbove(f, x, d, y); }
  }

  lemma UnderHeadOrTail(f: EventForest, xs: seq<Event>, d: nat, y: Event)
    requires ValidForest(f) && AllAtDepth(f, xs, d) && xs != []
    ensures UnderAny(f, xs, d, y) <==>
              y == xs[0] || UnderAny(f, Kids(f, xs[0].id), d + 1, y) || UnderAny(f, xs[1..], d, y)
  {
    UnderSelf(f, xs[0], d, y);
    UnderKids(f, xs[0], d, y);
    assert forall z :: z in xs <==> z == xs[0] || z in xs[1..];
  }

  lemma ConcatMembers<T>(x: T, a: seq<T>, b: seq<T>, y: T)
    ensures y in [x] + a + b <==> y == x || y in a || y in b
  {
  }

  /** The preorder of xs holds exactly the events that hang below a member of xs. */
  lemma {:induction false} PreorderMembers(f: EventForest, xs: seq<Event>, d: nat, y: Event)
    requires ValidForest(f) && AllAtDepth(f, xs, d)
    ensures y in Preorder(f, xs, d) <==> UnderAny(f, xs, d, y)
    decreases |f.byId| - d, |xs|
  {
    if xs != [] {
      var kids, rest := Kids(f, xs[0].id), xs[1..];
      KidsAtDepth(f, xs[0], d);
      PreorderMembers(f, kids, d + 1, y);
      PreorderMembers(f, rest, d, y);
      UnderHeadOrTail(f, xs, d, y);
      ConcatMembers(xs[0], Preorder(f, kids, d + 1), Preorder(f, rest, d), y);
    }
  }

  lemma ConcatNoDuplicates<T>(x: T, a: seq<T>, b: seq<T>)
    requires NoDuplicates(a) && NoDuplicates(b) && x !in a && x !in b
    requires forall y :: y in a ==> y !in b
    ensures NoDuplicates([x] + a + b)
  {
    var s := [x] + a + b;
    forall i, j | 0 <= i < j < |s| ensures s[i] != s[j] {
      assert s[i] == if i == 0 then x else if i <= |a| then a[i - 1] else b[i - 1 - |a|];
      assert s[j] == if j <= |a| then a[j - 1] else b[j - 1 - |a|];
      assert if j <= |a| then s[j] in a else s[j] in b;
      assert 0 < i <= |a| ==> s[i] in a;
    }
  }

  /** The first event, the events below it and the events below its siblings are disjoint. */
  lemma UnderDisjoint(f: EventForest, xs: seq<Event>, d: nat, y: Event)
    requires ValidForest(f) && AllAtDepth(f, xs, d) && NoDuplicates(xs) && xs != []
    ensures UnderAny(f, Kids(f, xs[0].id), d + 1, y) ==> y != xs[0] && !UnderAny(f, xs[1..], d, y)
    ensures !UnderAny(f, xs[1..], d, xs[0])
  {
    var x, rest := xs[0], xs[1..];
    UnderSelf(f, x, d, y);
    UnderSelf(f, x, d, x);
    UnderKids(f, x, d, y);
    forall z | z in rest ensures z.id != x.id {
      AllAtDepthElim(f, rest, d, z);
      assert z != x;
    }
  }

  lemma {:induction false} PreorderNoDuplicates(f: EventForest, xs: seq<Event>, d: nat)
    requires ValidForest(f) && SortedForest(f) && AllAtDepth(f, xs, d) && NoDuplicates(xs)
    ensures NoDuplicates(Preorder(f, xs, d))
    decreases |f.byId| - d, |xs|
  {
    if xs != [] {
      var x, kids, rest := xs[0], Kids(f, xs[0].id), xs[1..];
      KidsAtDepth(f, x, d);
      PreorderNoDuplicates(f, kids, d + 1);
      PreorderNoDuplicates(f, rest, d);
      PreorderDisjoint(f, xs, d);
      ConcatNoDuplicates(x, Preorder(f, kids, d + 1), Preorder(f, rest, d));
    }
  }

  lemma PreorderDisjoint(f: EventForest, xs: seq<Event>, d: nat)
    requires ValidForest(f) && AllAtDepth(f, xs, d) && NoDuplicates(xs) && xs != []
    ensures AllAtDepth(f, Kids(f, xs[0].id), d + 1)
    ensures xs[0] !in Preorder(f, Kids(f, xs[0].id), d + 1) && xs[0] !in Preorder(f, xs[1..], d)
    ensures forall y :: y in Preorder(f, Kids(f, xs[0].id), d + 1) ==> y !in Preorder(f, xs[1..], d)
  {
    var kids, rest := Kids(f, xs[0].id), xs[1..];
    KidsAtDepth(f, xs[0], d);
    PreorderMembers(f, kids, d + 1, xs[0]);
    PreorderMembers(f, rest, d, xs[0]);
    UnderDisjoint(f, xs, d, xs[0]);
    forall y | y in Preorder(f, kids, d + 1) ensures y !in Preorder(f, rest, d) {
      PreorderMembers(f, kids, d + 1, y);
      PreorderMembers(f, rest, d, y);
      UnderDisjoint(f, xs, d, y);
    }
  }

  /** Some earlier position of s holds the parent of s[j]. */
  ghost predicate ParentBefore(p: map<string, string>, s: seq<Event>, j: nat)
    requires j < |s|
  {
    s[j].id in p && exists i :: 0 <= i < j && s[i].id == p[s[j].id]
  }

  /** Every listed event is one of xs or has its parent listed earlier. */
  lemma {:induction false} ParentListedEarlier(f: EventForest, xs: seq<Event>, d: nat, j: nat)
    requires ValidForest(f) && AllAtDepth(f, xs, d) && j < |Preorder(f, xs, d)|
    ensures Preorder(f, xs, d)[j] in xs || ParentBefore(f.parents, Preorder(f, xs, d), j)
    decreases |f.byId| - d, |xs|
  {
    var x, rest, kids := xs[0], xs[1..], Kids(f, xs[0].id);
    KidsAtDepth(f, x, d);
    var a, b := Preorder(f, kids, d + 1), Preorder(f, rest, d);
    assert Preorder(f, xs, d) == [x] + a + b;
    if 0 < j <= |a| {
      ParentListedEarlier(f, kids, d + 1, j - 1);
      assert a[j - 1] in kids <==> IsKid(f, x.id, a[j - 1]);
      ParentBeforeFirst(f.parents, x, a, b, j);
    } else if |a| < j {
      ParentListedEarlier(f, rest, d, j - 1 - |a|);
      if b[j - 1 - |a|] !in rest { ParentBeforeRest(f.parents, [x] + a, b, j); }
    }
  }

  lemma ParentBeforeFirst(p: map<string, string>, x: Event, a: seq<Event>, b: seq<Event>, j: nat)
    requires 0 < j <= |a|
    requires (a[j - 1].id in p && p[a[j - 1].id] == x.id) || ParentBefore(p, a, j - 1)
    ensures ParentBefore(p, [x] + a + b, j)
  {
    var s := [x] + a + b;
    assert s[j] == a[j - 1];
    if ParentBefore(p, a, j - 1) {
      var i :| 0 <= i < j - 1 && a[i].id == p[a[j - 1].id];
      assert s[i + 1] == a[i];
    } else {
      assert s[0] == x;
    }
  }

  lemma ParentBeforeRest(p: map<string, string>, a: seq<Event>, b: seq<Event>, j: nat)
    requires |a| <= j < |a| + |b| && ParentBefore(p, b, j - |a|)
    ensures ParentBefore(p, a + b, j)
  {
    var i :| 0 <= i < j - |a| && b[i].id == p[b[j - |a|].id];
    assert (a + b)[|a| + i] == b[i] && (a + b)[j] == b[j - |a|];
  }

  // ---------- the order of a whole trace ----------

  lemma RootsAtDepth(f: EventForest)
    requires ValidForest(f)
    ensures AllAtDepth(f, f.roots, 0)
  {
    forall e | e in f.roots ensures AtDepth(f, e, 0) {
      assert IsRoot(f, e);
      DepthOfRoot(f.parents, e.id);
    }
    AllAtDepthIntro(f, f.roots, 0);
  }

  /** The preorder of the whole forest, roots in identity order. */
  ghost function CausalOrder(f: EventForest): seq<Event>
    requires ValidForest(f)
  {
    RootsAtDepth(f);
    Preorder(f, f.roots, 0)
  }

  /** The forest's preorder reaches exactly the events whose parent chain ends. */
  lemma CausalOrderMembers(f: EventForest, y: Event)
    requires ValidForest(f)
    ensures y in CausalOrder(f) <==> IsNode(f, y) && Rooted(f.parents, y.id)
  {
    RootsAtDepth(f);
    PreorderMembers(f, f.roots, 0, y);
    if IsNode(f, y) && Rooted(f.parents, y.id) {
      var n := Depth(f.parents, y.id);
      if n > 0 { ClimbLast(f.parents, y.id, n - 1); }
      var r := f.byId[Climb(f.parents, y.id, n).value];
      assert IsRoot(f, r) && Under(f, r, 0, y);
    }
  }

  lemma CausalOrderNoDuplicates(f: EventForest)
    requires ValidForest(f) && SortedForest(f)
    ensures NoDuplicates(CausalOrder(f)) && forall y :: y in CausalOrder(f) ==> IsNode(f, y)
  {
    RootsAtDepth(f);
    PreorderNoDuplicates(f, f.roots, 0);
    forall y | y in CausalOrder(f) ensures IsNode(f, y) { CausalOrderMembers(f, y); }
  }

  lemma AllNodesRooted(f: EventForest)
    requires ValidForest(f) && forall y :: IsNode(f, y) ==> Rooted(f.parents, y.id)
    ensures Acyclic(f.parents)
  {
    forall x: string ensures Rooted(f.parents, x) {
      if x in f.parents { assert IsNode(f, f.byId[x]); } else { DepthOfRoot(f.parents, x); }
    }
    AcyclicIffRooted(f.parents);
  }

  /** The walk lists every event exactly when the parent relation is acyclic. */
  lemma CompleteIffAcyclic(events: seq<Event>)
    requires DistinctIds(events) && LinksResolve(events)
    ensures ValidForest(ForestOf(events))
    ensures |CausalOrder(ForestOf(events))| == |events| <==> Acyclic(ParentMap(events))
    ensures Acyclic(ParentMap(events)) ==> Elements(CausalOrder(ForestOf(events))) == Elements(events)
  {
    ForestOfValid(events);
    var f := ForestOf(events);
    CausalOrderNoDuplicates(f);
    NoDuplicatesSize(CausalOrder(f));
    DistinctIdsFacts(events);
    NoDuplicatesSize(events);
    assert Elements(CausalOrder(f)) <= Elements(events);
    if Acyclic(f.parents) {
      AcyclicIffRooted(f.parents);
      forall y | y in events ensures y in CausalOrder(f) { CausalOrderMembers(f, y); }
      assert Elements(CausalOrder(f)) == Elements(events);
    }
    if |CausalOrder(f)| == |events| {
      SameSize(Elements(CausalOrder(f)), Elements(events));
      forall y | IsNode(f, y) ensures Rooted(f.parents, y.id) {
        assert y in Elements(events);
        CausalOrderMembers(f, y);
      }
      AllNodesRooted(f);
    }
  }

  lemma SameSize<T>(A: set<T>, B: set<T>)
    requires A <= B && |A| == |B|
    ensures A == B
  {
    assert B == A + (B - A) && |B - A| == 0;
  }

  ghost predicate ParentsFirst(p: map<string, string>, s: seq<Event>) {
    forall j :: 0 <= j < |s| && s[j].id in p ==> ParentBefore(p, s, j)
  }

  lemma CausalOrderParentsFirst(f: EventForest)
    requires ValidForest(f)
    ensures ParentsFirst(f.parents, CausalOrder(f))
  {
    RootsAtDepth(f);
    var s := CausalOrder(f);
    forall j | 0 <= j < |s| && s[j].id in f.parents ensures ParentBefore(f.parents, s, j) {
      ParentListedEarlier(f, f.roots, 0, j);
      assert !IsRoot(f, s[j]);
    }
  }

  lemma {:induction false} AncestorsPrecede(p: map<string, string>, s: seq<Event>, i: nat, j: nat, n: nat)
    requires ParentsFirst(p, s) && DistinctIds(s) && i < |s| && j < |s| && n >= 1
    requires Climb(p, s[j].id, n) == Some(s[i].id)
    ensures i < j
    decreases n
  {
    assert ParentBefore(p, s, j);
    var k :| 0 <= k < j && s[k].id == p[s[j].id];
    if n > 1 { AncestorsPrecede(p, s, i, k, n - 1); }
  }

  /** In the causal order every event comes after all its ancestors. */
  lemma AncestorsFirst(events: seq<Event>, i: nat, j: nat, n: nat)
    requires DistinctIds(events) && CausallyLinked(events) && n >= 1
    requires i < |TraceSequence(events)| && j < |TraceSequence(events)|
    requires Climb(ParentMap(events), TraceSequence(events)[j].id, n) == Some(TraceSequence(events)[i].id)
    ensures i < j
  {
    ForestOfValid(events);
    var f := ForestOf(events);
    CausalOrderParentsFirst(f);
    CausalOrderNoDuplicates(f);
    assert Elements(CausalOrder(f)) <= Elements(events);
    SubsetDistinctIds(events, CausalOrder(f));
    AncestorsPrecede(f.parents, CausalOrder(f), i, j, n);
  }

  lemma SubsetDistinctIds(events: seq<Event>, s: seq<Event>)
    requires DistinctIds(events) && NoDuplicates(s) && Elements(s) <= Elements(events)
    ensures DistinctIds(s)
  {
    DistinctIdsFacts(events);
    forall i | 0 <= i < |s| ensures s[i] in Elements(events) && s[i].id != "" {
      assert s[i] in Elements(s);
    }
  }

  /** What OrderTrace returns: the causal order, or all events by timestamp. */
  ghost function TraceSequence(events: seq<Event>): seq<Event>
    requires DistinctIds(events)
  {
    if CausallyLinked(events) then ForestOfValid(events); CausalOrder(ForestOf(events))
    else SortedOf(Before, Elements(events))
  }

  /** Roots, and the children of one event, are listed in order of their fields. */
  lemma SiblingsChronological(events: seq<Event>, x: string)
    requires DistinctIds(events) && LinksResolve(events)
    ensures Chronological(ForestOf(events).roots) && Chronological(Kids(ForestOf(events), x))
  {
    ForestOfValid(events);
    SortedIsChronological(ForestOf(events).roots);
    SortedIsChronological(Kids(ForestOf(events), x));
  }

  /** Without causal order the events are listed in order of their fields. */
  lemma FallbackChronological(events: seq<Event>)
    requires DistinctIds(events) && !CausallyLinked(events)
    ensures Chronological(TraceSequence(events))
  {
    DistinctIdsFacts(events);
    BeforeStrictOrder(Elements(events));
    SortedOfFacts(Before, Elements(events));
    SortedIsChronological(TraceSequence(events));
  }

  lemma TraceSequencePermutes(events: seq<Event>)
    requires DistinctIds(events)
    ensures multiset(TraceSequence(events)) == multiset(events) && |TraceSequence(events)| == |events|
  {
    DistinctIdsFacts(events);
    if CausallyLinked(events) {
      CompleteIffAcyclic(events);
      ForestOfValid(events);
      CausalOrderNoDuplicates(ForestOf(events));
    } else {
      BeforeStrictOrder(Elements(events));
      SortedOfFacts(Before, Elements(events));
    }
    NoDuplicatesMultiset(TraceSequence(events), events);
  }

  // ---------- order independence ----------

  /** No step span id belongs to two different events. */
  ghost predicate SpansUnshared(events: seq<Event>) {
    forall a, b, span :: a in events && b in events && Owns(a, span) && Owns(b, span) ==> a == b
  }

  /** The same events, each span with the same owner. */
  ghost predicate SameLinks(e1: seq<Event>, e2: seq<Event>) {
    && (forall e :: e in e1 <==> e in e2)
    && (forall span :: SpanOwner(e1, span) == SpanOwner(e2, span))
  }

  lemma SameOwner(e1: seq<Event>, e2: seq<Event>, span: string)
    requires SpansUnshared(e1) && forall e :: e in e1 <==> e in e2
    ensures SpanOwner(e1, span) == SpanOwner(e2, span)
  {
  }

  lemma PermutationSameLinks(e1: seq<Event>, e2: seq<Event>)
    requires SpansUnshared(e1) && multiset(e1) == multiset(e2)
    ensures SameLinks(e1, e2) && Elements(e1) == Elements(e2)
  {
    MultisetElements(e1, e2);
    forall e ensures e in e1 <==> e in e2 {
      assert e in Elements(e1) <==> e in e1;
      assert e in Elements(e2) <==> e in e2;
    }
    forall span ensures SpanOwner(e1, span) == SpanOwner(e2, span) { SameOwner(e1, e2, span); }
  }

  lemma SameParents(e1: seq<Event>, e2: seq<Event>)
    requires DistinctIds(e1) && DistinctIds(e2) && SameLinks(e1, e2) && LinksResolve(e1) && LinksResolve(e2)
    ensures ParentMap(e1) == ParentMap(e2)
  {
  }

  /** If no span is shared, OrderTrace gives one sequence for all permutations of its input. */
  lemma OrderIndependent(e1: seq<Event>, e2: seq<Event>)
    requires DistinctIds(e1) && DistinctIds(e2) && SpansUnshared(e1) && multiset(e1) == multiset(e2)
    ensures LinksResolve(e1) <==> LinksResolve(e2)
    ensures LinksResolve(e1) ==> ForestOf(e1) == ForestOf(e2)
    ensures CausallyLinked(e1) <==> CausallyLinked(e2)
    ensures TraceSequence(e1) == TraceSequence(e2)
  {
    PermutationSameLinks(e1, e2);
    if LinksResolve(e1) && LinksResolve(e2) { SameParents(e1, e2); }
  }
}
