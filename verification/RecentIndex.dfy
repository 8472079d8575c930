/** The hot index: events by id and by trace, with incremental service, error and call tables. */
module HotIndex {
  import opened Ordering
  import opened Events
  import opened Rollup

  datatype ErrorKey = ErrorKey(service: string, step: string, errorCode: string)

  datatype CallKey = CallKey(from: string, to: string, endpoint: string)

  function ServiceKeys(e: Event): seq<string> { if e.service == "" then [] else [e.service] }

  function ErrorKeys(e: Event): seq<ErrorKey> {
    if e.status.IsFailed() && e.anchor.Some?
    then [ErrorKey(e.service, e.anchor.value.step, e.anchor.value.errorCode)] else []
  }

  function StepCall(service: string, d: Option<Downstream>): seq<CallKey> {
    if d.None? || d.value.service == "" then [] else [CallKey(service, d.value.service, d.value.endpoint)]
  }

  function StepCalls(service: string, steps: seq<Step>): seq<CallKey> {
    if steps == [] then [] else
      StepCalls(service, steps[..|steps| - 1]) + StepCall(service, steps[|steps| - 1].downstream)
  }

  function CallKeys(e: Event): seq<CallKey> {
    if e.status.StatusSuppressed? then [] else StepCalls(e.service, e.steps)
  }

  datatype IndexState = IndexState(
    byId: map<string, Event>,
    byTrace: map<string, seq<Event>>,
    services: map<string, Node>,
    errors: map<ErrorKey, Node>,
    calls: map<CallKey, Node>)

  function TraceOf(byTrace: map<string, seq<Event>>, t: string): seq<Event> {
    if t in byTrace then byTrace[t] else []
  }

  ghost predicate KeyedById(byId: map<string, Event>) {
    forall id :: id in byId ==> byId[id].id == id && id != ""
  }

  ghost predicate Holds(byId: map<string, Event>, e: Event) { e.id in byId && byId[e.id] == e }

  /** Every live event is in exactly one trace list, its own, exactly once. */
  ghost predicate Partitions(byTrace: map<string, seq<Event>>, byId: map<string, Event>) {
    && (forall t :: t in byTrace ==> byTrace[t] != [] && NoDuplicates(byTrace[t]))
    && (forall t, e :: e in TraceOf(byTrace, t) <==> Holds(byId, e) && e.traceId == t)
  }

  /** Each table is the recount of the live events. */
  ghost predicate Recounted(st: IndexState) {
    && IsRecount(st.services, st.byId.Values, ServiceKeys)
    && IsRecount(st.errors, st.byId.Values, ErrorKeys)
    && IsRecount(st.calls, st.byId.Values, CallKeys)
  }

  ghost predicate ValidIndex(st: IndexState) {
    KeyedById(st.byId) && Partitions(st.byTrace, st.byId) && Recounted(st)
  }

  // ---------- the tables by the fields of the live events ----------

  predicate CallsAt(e: Event, i: int, k: CallKey) {
    && 0 <= i < |e.steps| && e.steps[i].downstream.Some? && k.from == e.service
    && k.to == e.steps[i].downstream.value.service && k.to != "" && k.endpoint == e.steps[i].downstream.value.endpoint
  }

  lemma {:induction false} StepCallsAt(e: Event, n: nat, k: CallKey)
    requires n <= |e.steps|
    ensures k in StepCalls(e.service, e.steps[..n]) <==> exists i :: i < n && CallsAt(e, i, k)
  {
    if n > 0 {
      StepCallsAt(e, n - 1, k);
      assert e.steps[..n][..n - 1] == e.steps[..n - 1] && e.steps[..n][n - 1] == e.steps[n - 1];
      assert k in StepCall(e.service, e.steps[n - 1].downstream) <==> CallsAt(e, n - 1, k);
    }
  }

  lemma CallsOnce(e: Event, i: nat, k: CallKey)
    requires i < |e.steps|
    ensures multiset(StepCall(e.service, e.steps[i].downstream))[k] == if CallsAt(e, i, k) then 1 else 0
  {
  }

  lemma MoreCallers(e: Event, n: nat, k: CallKey)
    requires n < |e.steps|
    ensures |Callers(e, n + 1, k)| == |Callers(e, n, k)| + if CallsAt(e, n, k) then 1 else 0
  {
    assert Callers(e, n + 1, k) == Callers(e, n, k) + if CallsAt(e, n, k) then {n} else {};
  }

  ghost function Callers(e: Event, n: nat, k: CallKey): set<int> { set i | 0 <= i < n && CallsAt(e, i, k) }

  /** An event uses a call edge once for each of its steps that makes the call. */
  lemma {:induction false} StepCallsCount(e: Event, n: nat, k: CallKey)
    requires n <= |e.steps|
    ensures multiset(StepCalls(e.service, e.steps[..n]))[k] == |Callers(e, n, k)|
  {
    if n > 0 {
      StepCallsCount(e, n - 1, k);
      NextCall(e.service, e.steps, n - 1);
      CallsOnce(e, n - 1, k);
      MoreCallers(e, n - 1, k);
    } else {
      assert Callers(e, 0, k) == {};
    }
  }

  /** A call edge is there exactly when a step of a live event that is not suppressed goes from the event's service to
      that downstream service and endpoint. */
  lemma CallEdges(st: IndexState, k: CallKey)
    requires ValidIndex(st)
    ensures k in st.calls
            <==> exists e, i :: Holds(st.byId, e) && !e.status.StatusSuppressed? && CallsAt(e, i, k)
  {
    assert k in st.calls <==> exists e :: Uses(st.byId.Values, CallKeys, k, e);
    forall e ensures Uses(st.byId.Values, CallKeys, k, e)
                     <==> Holds(st.byId, e) && !e.status.StatusSuppressed? && exists i :: CallsAt(e, i, k) {
      StepCallsAt(e, |e.steps|, k);
      assert e.steps[..|e.steps|] == e.steps;
    }
  }

  ghost predicate IsErrorOf(st: IndexState, k: ErrorKey, e: Event) {
    && Holds(st.byId, e) && e.status.IsFailed() && e.anchor.Some?
    && k.service == e.service && k.step == e.anchor.value.step && k.errorCode == e.anchor.value.errorCode
  }

  /** An error node is there exactly when a live failed event has that service and anchor; with end times set, its
      range reaches from the least to the greatest of theirs. */
  lemma ErrorNodes(st: IndexState, k: ErrorKey)
    requires ValidIndex(st)
    ensures k in st.errors <==> exists e :: IsErrorOf(st, k, e)
    ensures forall e :: k in st.errors && IsErrorOf(st, k, e) && e.tsEnd > 0 ==>
      st.errors[k].first <= e.tsEnd <= st.errors[k].last
  {
    assert k in st.errors <==> exists e :: Uses(st.byId.Values, ErrorKeys, k, e);
    forall e ensures Uses(st.byId.Values, ErrorKeys, k, e) <==> IsErrorOf(st, k, e) {}
    assert k in st.errors ==> Recounts(st.errors[k], st.byId.Values, ErrorKeys, k);
  }

  /** A service node is there exactly when a live event names that service. */
  lemma ServiceNodes(st: IndexState, service: string)
    requires ValidIndex(st)
    ensures service in st.services <==> service != "" && exists e :: Holds(st.byId, e) && e.service == service
  {
    assert service in st.services <==> exists e :: Uses(st.byId.Values, ServiceKeys, service, e);
    forall e ensures Uses(st.byId.Values, ServiceKeys, service, e)
                     <==> Holds(st.byId, e) && e.service == service && service != "" {}
  }

  /** Two index states with the same live events have the same tables, whatever their histories. */
  lemma TablesDetermined(s1: IndexState, s2: IndexState)
    requires ValidIndex(s1) && ValidIndex(s2) && s1.byId == s2.byId
    ensures s1.services == s2.services && s1.errors == s2.errors && s1.calls == s2.calls
    ensures forall t :: multiset(TraceOf(s1.byTrace, t)) == multiset(TraceOf(s2.byTrace, t))
  {
    RecountUnique(s1.services, s2.services, s1.byId.Values, ServiceKeys);
    RecountUnique(s1.errors, s2.errors, s1.byId.Values, ErrorKeys);
    RecountUnique(s1.calls, s2.calls, s1.byId.Values, CallKeys);
    forall t ensures multiset(TraceOf(s1.byTrace, t)) == multiset(TraceOf(s2.byTrace, t)) {
      var a, b := TraceOf(s1.byTrace, t), TraceOf(s2.byTrace, t);
      forall e ensures e in a <==> e in b { assert e in a <==> Holds(s1.byId, e) && e.traceId == t; }
      assert Elements(a) == Elements(b);
      NoDuplicatesMultiset(a, b);
    }
  }

  lemma ValuesInsert(byId: map<string, Event>, e: Event)
    requires KeyedById(byId) && e.id !in byId
    ensures byId[e.id := e].Values == byId.Values + {e} && e !in byId.Values
  {
    var m := byId[e.id := e];
    forall x ensures x in m.Values <==> x in byId.Values || x == e {
      if x in m.Values { var id :| id in m && m[id] == x; }
      if x in byId.Values { var id :| id in byId && byId[id] == x; assert m[id] == x; }
      assert m[e.id] == e;
    }
  }

  /** The state after the tables absorb one new event. */
  function Absorb(st: IndexState, e: Event): IndexState {
    st.(byId := st.byId[e.id := e],
        services := TouchAll(st.services, ServiceKeys(e), Stamp(e)),
        errors := TouchAll(st.errors, ErrorKeys(e), Stamp(e)),
        calls := TouchAll(st.calls, CallKeys(e), Stamp(e)))
  }

  lemma AbsorbRecounts(st: IndexState, e: Event)
    requires KeyedById(st.byId) && Recounted(st) && e.id !in st.byId
    ensures Recounted(Absorb(st, e))
  {
    ValuesInsert(st.byId, e);
    RecountInsert(st.services, st.byId.Values, ServiceKeys, e);
    RecountInsert(st.errors, st.byId.Values, ErrorKeys, e);
    RecountInsert(st.calls, st.byId.Values, CallKeys, e);
  }

  lemma PartitionInsert(byTrace: map<string, seq<Event>>, byId: map<string, Event>, e: Event)
    requires Partitions(byTrace, byId) && e.id !in byId
    ensures Partitions(byTrace[e.traceId := TraceOf(byTrace, e.traceId) + [e]], byId[e.id := e])
  {
    var m, n := byTrace[e.traceId := TraceOf(byTrace, e.traceId) + [e]], byId[e.id := e];
    assert !Holds(byId, e);
    assert e !in TraceOf(byTrace, e.traceId);
    forall t, x ensures x in TraceOf(m, t) <==> Holds(n, x) && x.traceId == t {
      assert x in TraceOf(byTrace, t) <==> Holds(byId, x) && x.traceId == t;
    }
  }

  /** Insert as a function: refuses empty and known ids. */
  function InsertEvent(st: IndexState, e: Event): IndexState {
    if e.id == "" || e.id in st.byId then st
    else Absorb(st, e).(byTrace := st.byTrace[e.traceId := TraceOf(st.byTrace, e.traceId) + [e]])
  }

  lemma InsertKeepsValid(st: IndexState, e: Event)
    requires ValidIndex(st)
    ensures ValidIndex(InsertEvent(st, e))
  {
    if e.id != "" && e.id !in st.byId {
      AbsorbRecounts(st, e);
      PartitionInsert(st.byTrace, st.byId, e);
    }
  }

  function EmptyIndex(): IndexState { IndexState(map[], map[], map[], map[], map[]) }

  lemma EmptyIndexValid()
    ensures ValidIndex(EmptyIndex())
  {
    EmptyRecount(ServiceKeys);
    EmptyRecount(ErrorKeys);
    EmptyRecount(CallKeys);
    assert EmptyIndex().byId.Values == {};
  }

  // ---------- pruning ----------

  function Kept(s: seq<Event>, cutoff: int): seq<Event> {
    if s == [] then [] else
      var e := s[|s| - 1];
      Kept(s[..|s| - 1], cutoff) + if e.tsEnd < cutoff then [] else [e]
  }

  ghost function KeptById(byId: map<string, Event>, cutoff: int): map<string, Event> {
    map id | id in byId && byId[id].tsEnd >= cutoff :: byId[id]
  }

  ghost function KeptByTrace(byTrace: map<string, seq<Event>>, cutoff: int): map<string, seq<Event>> {
    map t | t in byTrace && Kept(byTrace[t], cutoff) != [] :: Kept(byTrace[t], cutoff)
  }

  lemma KeptByTraceStep(byTrace: map<string, seq<Event>>, pending: set<string>, t: string, cutoff: int)
    requires t in byTrace && t in pending
    ensures KeptByTrace(byTrace - (pending - {t}), cutoff) ==
              if Kept(byTrace[t], cutoff) == [] then KeptByTrace(byTrace - pending, cutoff)
              else KeptByTrace(byTrace - pending, cutoff)[t := Kept(byTrace[t], cutoff)]
  {
  }

  lemma {:induction false} KeptMembers(s: seq<Event>, cutoff: int)
    ensures forall e :: e in Kept(s, cutoff) <==> e in s && e.tsEnd >= cutoff
    ensures NoDuplicates(s) ==> NoDuplicates(Kept(s, cutoff))
  {
    if s != [] {
      var p := s[..|s| - 1];
      assert s == p + [s[|s| - 1]];
      KeptMembers(p, cutoff);
    }
  }

  lemma KeptPartitions(byTrace: map<string, seq<Event>>, byId: map<string, Event>, cutoff: int)
    requires KeyedById(byId) && Partitions(byTrace, byId)
    ensures KeyedById(KeptById(byId, cutoff)) && Partitions(KeptByTrace(byTrace, cutoff), KeptById(byId, cutoff))
  {
    var m, n := KeptByTrace(byTrace, cutoff), KeptById(byId, cutoff);
    forall t | t in m ensures m[t] != [] && NoDuplicates(m[t]) { KeptMembers(byTrace[t], cutoff); }
    forall t, e ensures e in TraceOf(m, t) <==> Holds(n, e) && e.traceId == t {
      assert e in TraceOf(byTrace, t) <==> Holds(byId, e) && e.traceId == t;
      KeptMembers(TraceOf(byTrace, t), cutoff);
    }
  }

  ghost function Expired(S: set<Event>, cutoff: int): set<Event> { set e | e in S && e.tsEnd < cutoff }

  lemma {:induction false} ExpiredCount(s: seq<Event>, cutoff: int)
    requires NoDuplicates(s)
    ensures |Expired(Elements(s), cutoff)| == |s| - |Kept(s, cutoff)|
  {
    if s == [] {
      assert Expired(Elements(s), cutoff) == {};
    } else {
      var p, e := s[..|s| - 1], s[|s| - 1];
      ExpiredCount(p, cutoff);
      ExpiredStep(p, e, cutoff);
      assert s == p + [e] && e !in p;
    }
  }

  lemma ExpiredStep(p: seq<Event>, e: Event, cutoff: int)
    requires e !in p
    ensures |Expired(Elements(p + [e]), cutoff)| == |Expired(Elements(p), cutoff)| + if e.tsEnd < cutoff then 1 else 0
  {
    var before := Expired(Elements(p), cutoff);
    assert Expired(Elements(p + [e]), cutoff) == if e.tsEnd < cutoff then before + {e} else before;
  }

  /** The traces other than the pending ones. */
  ghost function Visited(S: set<Event>, pending: set<string>): set<Event> { set e | e in S && e.traceId !in pending }

  lemma VisitTrace(byTrace: map<string, seq<Event>>, byId: map<string, Event>, pending: set<string>, t: string,
                   cutoff: int)
    requires KeyedById(byId) && Partitions(byTrace, byId) && t in pending && t in byTrace
    ensures |Expired(Visited(byId.Values, pending - {t}), cutoff)| ==
              |Expired(Visited(byId.Values, pending), cutoff)| + |byTrace[t]| - |Kept(byTrace[t], cutoff)|
  {
    var V, X, Y := byId.Values, Expired(Visited(byId.Values, pending), cutoff), Expired(Elements(byTrace[t]), cutoff);
    forall e ensures e in V && e.traceId == t <==> e in byTrace[t] {
      assert e in TraceOf(byTrace, t) <==> Holds(byId, e) && e.traceId == t;
    }
    assert Expired(Visited(V, pending - {t}), cutoff) == X + Y && X !! Y;
    ExpiredCount(byTrace[t], cutoff);
  }

  method KeepRecent(events: seq<Event>, cutoff: int) returns (kept: seq<Event>, dropped: nat)
    ensures kept == Kept(events, cutoff) && dropped == |events| - |kept|
  {
    kept, dropped := [], 0;
    for i := 0 to |events|
      invariant kept == Kept(events[..i], cutoff) && dropped == i - |kept|
    {
      assert events[..i + 1][..i] == events[..i];
      if events[i].tsEnd < cutoff { dropped := dropped + 1; } else { kept := kept + [events[i]]; }
    }
    assert events[..|events|] == events;
  }

  class RecentIndex {
    var byId: map<string, Event>
    var byTrace: map<string, seq<Event>>
    var services: map<string, Node>
    var errors: map<ErrorKey, Node>
    var calls: map<CallKey, Node>

    ghost function State(): IndexState
      reads this
    {
      IndexState(byId, byTrace, services, errors, calls)
    }

    ghost predicate Valid()
      reads this
    {
      ValidIndex(State())
    }

    constructor ()
      ensures Valid() && State() == EmptyIndex()
    {
      byId, byTrace, services, errors, calls := map[], map[], map[], map[], map[];
      EmptyIndexValid();
    }

    /** applyAggregatesLocked: the service, then the error family, then one call edge per step. */
    method ApplyAggregates(ev: Event)
      modifies this`services, this`errors, this`calls
      ensures services == TouchAll(old(services), ServiceKeys(ev), Stamp(ev))
      ensures errors == TouchAll(old(errors), ErrorKeys(ev), Stamp(ev))
      ensures calls == TouchAll(old(calls), CallKeys(ev), Stamp(ev))
    {
      var ts := Stamp(ev);
      if ev.service != "" {
        TouchOne(services, ev.service, ts);
        services := Touch(services, ev.service, ts);
      }
      if ev.status.StatusSuppressed? { return; }
      if ev.status.IsFailed() && ev.anchor.Some? {
        var key := ErrorKey(ev.service, ev.anchor.value.step, ev.anchor.value.errorCode);
        TouchOne(errors, key, ts);
        errors := Touch(errors, key, ts);
      }
      CountCalls(ev.service, ev.steps, ts);
    }

    method CountCalls(service: string, steps: seq<Step>, ts: int)
      modifies this`calls
      ensures calls == TouchAll(old(calls), StepCalls(service, steps), ts)
    {
      for i := 0 to |steps|
        invariant calls == TouchAll(old(calls), StepCalls(service, steps[..i]), ts)
      {
        var d := steps[i].downstream;
        NextCall(service, steps, i);
        if d.Some? && d.value.service != "" {
          var key := CallKey(service, d.value.service, d.value.endpoint);
          TouchNext(old(calls), StepCalls(service, steps[..i]), key, ts);
          calls := Touch(calls, key, ts);
        }
      }
      assert steps[..|steps|] == steps;
    }

    method Insert(ev: Event) returns (inserted: bool)
      requires Valid()
      modifies this
      ensures Valid() && State() == InsertEvent(old(State()), ev)
      ensures inserted <==> ev.id != "" && ev.id !in old(byId)
    {
      InsertKeepsValid(State(), ev);
      if ev.id == "" || ev.id in byId { return false; }
      byId := byId[ev.id := ev];
      byTrace := byTrace[ev.traceId := TraceOf(byTrace, ev.traceId) + [ev]];
      ApplyAggregates(ev);
      inserted := true;
    }

    /** PruneOlderThan: keeps exactly the events ending at or after the cutoff, in trace order, and
        rebuilds every table from them. */
    method PruneOlderThan(cutoff: int) returns (pruned: nat)
      requires Valid()
      modifies this
      ensures Valid()
      ensures cutoff == 0 ==> State() == old(State()) && pruned == 0
      ensures cutoff != 0 ==> byId == KeptById(old(byId), cutoff) && byTrace == KeptByTrace(old(byTrace), cutoff)
      ensures cutoff != 0 ==> pruned == |Expired(old(byId.Values), cutoff)|
    {
      pruned := 0;
      if cutoff == 0 { return; }
      var kept, n := KeptTraces(cutoff);
      pruned := n;
      KeptPartitions(byTrace, byId, cutoff);
      if pruned == 0 {
        NothingExpired(byTrace, byId, cutoff);
        return;
      }
      ghost var target := KeptById(byId, cutoff);
      byId, byTrace, services, errors, calls := map[], map[], map[], map[], map[];
      EmptyIndexValid();
      Rebuild(kept, target);
    }

    method KeptTraces(cutoff: int) returns (kept: map<string, seq<Event>>, pruned: nat)
      requires Valid()
      ensures kept == KeptByTrace(byTrace, cutoff) && pruned == |Expired(byId.Values, cutoff)|
    {
      kept, pruned := map[], 0;
      var pending := byTrace.Keys;
      AllPending(byTrace, byId, cutoff);
      while pending != {}
        invariant pending <= byTrace.Keys
        invariant kept == KeptByTrace(byTrace - pending, cutoff)
        invariant pruned == |Expired(Visited(byId.Values, pending), cutoff)|
        decreases pending
      {
        var t :| t in pending;
        VisitTrace(byTrace, byId, pending, t, cutoff);
        KeptByTraceStep(byTrace, pending, t, cutoff);
        var k, d := KeepRecent(byTrace[t], cutoff);
        pruned := pruned + d;
        if k != [] { kept := kept[t := k]; }
        pending := pending - {t};
      }
      assert Visited(byId.Values, {}) == byId.Values && byTrace - {} == byTrace;
    }

    method Rebuild(kept: map<string, seq<Event>>, ghost target: map<string, Event>)
      requires KeyedById(target) && Partitions(kept, target)
      requires State() == EmptyIndex()
      modifies this
      ensures Valid() && byId == target && byTrace == kept
    {
      var pending := kept.Keys;
      BuildStart(kept, target);
      while pending != {}
        invariant pending <= kept.Keys && PartlyBuilt(State(), kept, target, pending)
        decreases pending
      {
        var t :| t in pending;
        BuildStep(State(), kept, target, pending, t);
        byTrace := byTrace[t := kept[t]];
        AbsorbTrace(kept[t]);
        pending := pending - {t};
      }
      BuildDone(State(), kept, target);
    }

    method AbsorbTrace(events: seq<Event>)
      modifies this`byId, this`services, this`errors, this`calls
      ensures State() == AbsorbAll(old(State()), events)
    {
      for i := 0 to |events|
        invariant State() == AbsorbAll(old(State()), events[..i])
      {
        assert events[..i + 1][..i] == events[..i];
        byId := byId[events[i].id := events[i]];
        ApplyAggregates(events[i]);
      }
      assert events[..|events|] == events;
    }
  }

  function AbsorbAll(st: IndexState, events: seq<Event>): IndexState {
    if events == [] then st else Absorb(AbsorbAll(st, events[..|events| - 1]), events[|events| - 1])
  }

  lemma {:induction false} AbsorbAllById(st: IndexState, events: seq<Event>)
    requires DistinctIds(events)
    ensures AbsorbAll(st, events).byTrace == st.byTrace && AbsorbAll(st, events).byId == st.byId + ById(events)
  {
    if events != [] {
      var n := |events| - 1;
      AbsorbAllById(st, events[..n]);
      ByIdStep(events, n);
      assert events[..n + 1] == events;
      PlusPut(st.byId, ById(events[..n]), events[n].id, events[n]);
    }
  }

  lemma PlusPut<K, V>(m: map<K, V>, n: map<K, V>, k: K, v: V)
    ensures (m + n)[k := v] == m + n[k := v]
  {
  }

  lemma MinusPut<K, V>(m: map<K, V>, out: set<K>, k: K)
    requires k in m
    ensures (m - out)[k := m[k]] == m - (out - {k})
  {
  }

  lemma KeyedByIdPlus(byId: map<string, Event>, events: seq<Event>)
    requires KeyedById(byId) && DistinctIds(events)
    ensures KeyedById(byId + ById(events))
  {
  }

  lemma {:induction false} AbsorbAllRecounts(st: IndexState, events: seq<Event>)
    requires KeyedById(st.byId) && Recounted(st) && DistinctIds(events)
    requires forall e :: e in events ==> e.id !in st.byId
    ensures Recounted(AbsorbAll(st, events))
  {
    if events != [] {
      var n := |events| - 1;
      AbsorbAllRecounts(st, events[..n]);
      AbsorbAllById(st, events[..n]);
      KeyedByIdPlus(st.byId, events[..n]);
      assert events[n].id !in st.byId + ById(events[..n]) by {
        assert events[n] in events;
        assert forall e :: e in events[..n] ==> e.id != events[n].id;
      }
      AbsorbRecounts(AbsorbAll(st, events[..n]), events[n]);
    }
  }

  /** The traces not pending have been rebuilt. */
  ghost predicate PartlyBuilt(st: IndexState, kept: map<string, seq<Event>>, target: map<string, Event>,
                              pending: set<string>) {
    st.byTrace == kept - pending && st.byId == Outside(target, pending) && Recounted(st)
  }

  lemma BuildStep(st: IndexState, kept: map<string, seq<Event>>, target: map<string, Event>, pending: set<string>,
                  t: string)
    requires KeyedById(target) && Partitions(kept, target) && t in kept && t in pending
    requires PartlyBuilt(st, kept, target, pending)
    ensures PartlyBuilt(AbsorbAll(st.(byTrace := st.byTrace[t := kept[t]]), kept[t]), kept, target, pending - {t})
  {
    var next := pending - {t};
    assert next + {t} == pending;
    OutsideStep(kept, target, next, t);
    AbsorbAllById(st.(byTrace := st.byTrace[t := kept[t]]), kept[t]);
    assert KeyedById(st.byId);
    AbsorbAllRecounts(st.(byTrace := st.byTrace[t := kept[t]]), kept[t]);
    MinusPut(kept, pending, t);
  }

  lemma BuildStart(kept: map<string, seq<Event>>, target: map<string, Event>)
    requires KeyedById(target) && Partitions(kept, target)
    ensures PartlyBuilt(EmptyIndex(), kept, target, kept.Keys)
  {
    EmptyIndexValid();
    forall id | id in target ensures target[id].traceId in kept {
      assert Holds(target, target[id]);
      assert target[id] in TraceOf(kept, target[id].traceId);
    }
    assert kept - kept.Keys == map[] && Outside(target, kept.Keys) == map[];
  }

  lemma BuildDone(st: IndexState, kept: map<string, seq<Event>>, target: map<string, Event>)
    requires KeyedById(target) && Partitions(kept, target) && PartlyBuilt(st, kept, target, {})
    ensures ValidIndex(st) && st.byId == target && st.byTrace == kept
  {
    assert kept - {} == kept && Outside(target, {}) == target;
  }

  ghost function ById(events: seq<Event>): map<string, Event>
    requires DistinctIds(events)
  {
    map e | e in events :: e.id := e
  }

  lemma ByIdStep(events: seq<Event>, i: nat)
    requires DistinctIds(events) && i < |events|
    ensures ById(events[..i + 1]) == ById(events[..i])[events[i].id := events[i]]
  {
    assert events[..i + 1] == events[..i] + [events[i]];
  }

  /** The events whose trace is not pending. */
  ghost function Outside(target: map<string, Event>, pending: set<string>): map<string, Event> {
    map id | id in target && target[id].traceId !in pending :: target[id]
  }

  lemma OutsideStep(kept: map<string, seq<Event>>, target: map<string, Event>, pending: set<string>, t: string)
    requires KeyedById(target) && Partitions(kept, target) && t in kept && t !in pending
    ensures DistinctIds(kept[t])
    ensures Outside(target, pending) == Outside(target, pending + {t}) + ById(kept[t])
    ensures forall e :: e in kept[t] ==> e.id !in Outside(target, pending + {t})
  {
    TraceInTarget(kept, target, t);
    var a, b := Outside(target, pending), Outside(target, pending + {t}) + ById(kept[t]);
    forall id ensures id in a <==> id in b {
      if id in target && target[id].traceId == t { assert target[id] in kept[t]; }
    }
    assert a.Keys == b.Keys;
    forall id | id in a ensures a[id] == b[id] {}
  }

  lemma TouchOne<K>(t: map<K, Node>, k: K, ts: int)
    ensures TouchAll(t, [k], ts) == Touch(t, k, ts)
  {
    assert [k][..0] == [];
  }

  lemma NextCall(service: string, steps: seq<Step>, i: nat)
    requires i < |steps|
    ensures StepCalls(service, steps[..i + 1])
            == StepCalls(service, steps[..i]) + StepCall(service, steps[i].downstream)
    ensures StepCall(service, steps[i].downstream) == [] ==>
      StepCalls(service, steps[..i + 1]) == StepCalls(service, steps[..i])
  {
    assert steps[..i + 1][..i] == steps[..i];
  }

  lemma TouchNext<K>(t: map<K, Node>, ks: seq<K>, k: K, ts: int)
    ensures TouchAll(t, ks + [k], ts) == Touch(TouchAll(t, ks, ts), k, ts)
  {
    assert (ks + [k])[..|ks|] == ks;
  }

  lemma AllPending(byTrace: map<string, seq<Event>>, byId: map<string, Event>, cutoff: int)
    requires KeyedById(byId) && Partitions(byTrace, byId)
    ensures Expired(Visited(byId.Values, byTrace.Keys), cutoff) == {}
  {
    forall e | e in byId.Values ensures e.traceId in byTrace {
      assert Holds(byId, e);
      assert e in TraceOf(byTrace, e.traceId);
    }
  }

  lemma NothingExpired(byTrace: map<string, seq<Event>>, byId: map<string, Event>, cutoff: int)
    requires KeyedById(byId) && Partitions(byTrace, byId) && |Expired(byId.Values, cutoff)| == 0
    ensures KeptById(byId, cutoff) == byId && KeptByTrace(byTrace, cutoff) == byTrace
  {
    assert Expired(byId.Values, cutoff) == {};
    forall id | id in byId ensures byId[id].tsEnd >= cutoff {
      assert byId[id] in byId.Values;
      assert byId[id] !in Expired(byId.Values, cutoff);
    }
    forall t | t in byTrace ensures Kept(byTrace[t], cutoff) == byTrace[t] {
      forall e | e in byTrace[t] ensures e.tsEnd >= cutoff {
        assert e in TraceOf(byTrace, t);
        assert Holds(byId, e);
      }
      KeptAll(byTrace[t], cutoff);
    }
  }

  lemma {:induction false} KeptAll(s: seq<Event>, cutoff: int)
    requires forall e :: e in s ==> e.tsEnd >= cutoff
    ensures Kept(s, cutoff) == s
  {
    if s != [] { KeptAll(s[..|s| - 1], cutoff); }
  }

  lemma TraceInTarget(kept: map<string, seq<Event>>, target: map<string, Event>, t: string)
    requires KeyedById(target) && Partitions(kept, target) && t in kept
    ensures DistinctIds(kept[t])
    ensures forall e :: e in kept[t] ==> e.id in target && target[e.id] == e && e.traceId == t
    ensures forall id :: id in target && target[id].traceId == t ==> target[id] in kept[t]
  {
    forall e ensures e in kept[t] <==> Holds(target, e) && e.traceId == t {
      assert e in TraceOf(kept, t) <==> Holds(target, e) && e.traceId == t;
    }
    forall i | 0 <= i < |kept[t]| ensures Holds(target, kept[t][i]) && kept[t][i].id != "" {
      assert kept[t][i] in kept[t];
    }
    forall id | id in target && target[id].traceId == t ensures target[id] in kept[t] {
      assert Holds(target, target[id]);
    }
  }
}
