/** The read side: event search and recent traces, page by page over index snapshots. */
module Reader {
  import opened Ordering
  import opened Events
  import opened HotIndex
  import opened Paging

  // ---------- orders and cursors ----------

  /** The cursor of an event or trace: newest start first, then id. */
  datatype TimeKey = TimeKey(ts: int, id: string)

  predicate TimeLess(a: TimeKey, b: TimeKey) {
    a.ts > b.ts || (a.ts == b.ts && StringLess(a.id, b.id))
  }

  /** The cursor of an error row: largest count first, then the family. */
  datatype RowKey = RowKey(count: int, family: ErrorKey)

  predicate RowLess(a: RowKey, b: RowKey) {
    if a.count != b.count then a.count > b.count
    else if a.family.service != b.family.service then StringLess(a.family.service, b.family.service)
    else if a.family.step != b.family.step then StringLess(a.family.step, b.family.step)
    else StringLess(a.family.errorCode, b.family.errorCode)
  }

  lemma TimeLessOrders()
    ensures KeyOrder(TimeLess)
  {
    forall a: TimeKey ensures !TimeLess(a, a) { StringLessIrreflexive(a.id); }
    forall a: TimeKey, b: TimeKey, c: TimeKey | TimeLess(a, b) && TimeLess(b, c) ensures TimeLess(a, c) {
      if a.ts == b.ts == c.ts { StringLessTransitive(a.id, b.id, c.id); }
    }
  }

  lemma RowLessTransitive(a: RowKey, b: RowKey, c: RowKey)
    requires RowLess(a, b) && RowLess(b, c)
    ensures RowLess(a, c)
  {
    if a.count == b.count == c.count {
      var (f, g, h) := (a.family, b.family, c.family);
      if f.service == g.service == h.service {
        if f.step == g.step == h.step {
          StringLessTransitive(f.errorCode, g.errorCode, h.errorCode);
        } else if f.step != g.step && g.step != h.step {
          StringLessTransitive(f.step, g.step, h.step);
          StringLessIrreflexive(f.step);
        }
      } else if f.service != g.service && g.service != h.service {
        StringLessTransitive(f.service, g.service, h.service);
        StringLessIrreflexive(f.service);
      }
    }
  }

  lemma RowLessOrders()
    ensures KeyOrder(RowLess)
  {
    forall a: RowKey ensures !RowLess(a, a) { StringLessIrreflexive(a.family.errorCode); }
    forall a: RowKey, b: RowKey, c: RowKey | RowLess(a, b) && RowLess(b, c) ensures RowLess(a, c) {
      RowLessTransitive(a, b, c);
    }
  }

  ghost predicate TotalOrder<K(!new)>(lt: (K, K) -> bool) {
    KeyOrder(lt) && forall a, b :: a != b ==> lt(a, b) || lt(b, a)
  }

  lemma TimeLessTotal()
    ensures TotalOrder(TimeLess)
  {
    TimeLessOrders();
    forall a: TimeKey, b: TimeKey | a != b ensures TimeLess(a, b) || TimeLess(b, a) {
      if a.ts == b.ts { StringLessTotal(a.id, b.id); }
    }
  }

  lemma RowLessTotal()
    ensures TotalOrder(RowLess)
  {
    RowLessOrders();
    forall a: RowKey, b: RowKey | a != b ensures RowLess(a, b) || RowLess(b, a) {
      var (f, g) := (a.family, b.family);
      if f.service != g.service { StringLessTotal(f.service, g.service); }
      else if f.step != g.step { StringLessTotal(f.step, g.step); }
      else if f.errorCode != g.errorCode { StringLessTotal(f.errorCode, g.errorCode); }
    }
  }

  // ---------- the list behind the pages ----------

  ghost predicate DistinctKeys<T(!new), K>(key: T -> K, S: set<T>) {
    forall a, b :: a in S && b in S && a != b ==> key(a) != key(b)
  }

  /** The items of a set in the order of their keys. */
  ghost function ListOf<T(!new), K>(key: T -> K, lt: (K, K) -> bool, S: set<T>): seq<T> {
    SortedOf(ByKey(key, lt), S)
  }

  lemma ListFacts<T(!new), K(!new)>(key: T -> K, lt: (K, K) -> bool, S: set<T>)
    requires TotalOrder(lt) && DistinctKeys(key, S)
    ensures StrictOrderOn(ByKey(key, lt), S)
    ensures Ascending(key, lt, ListOf(key, lt, S)) && forall x :: x in ListOf(key, lt, S) <==> x in S
  {
    var order, r := ByKey(key, lt), ListOf(key, lt, S);
    forall a, b | a in S && b in S && a != b ensures order(a, b) || order(b, a) { assert key(a) != key(b); }
    SortedOfFacts(order, S);
    forall i, j | 0 <= i < j < |r| ensures lt(key(r[i]), key(r[j])) { assert order(r[i], r[j]); }
    forall x ensures x in r <==> x in S { assert x in r <==> x in Elements(r); }
  }

  /** In whatever order a call meets the items, sorting them gives that one list. */
  lemma SortIsList<T(!new), K(!new)>(key: T -> K, lt: (K, K) -> bool, s: seq<T>)
    requires TotalOrder(lt) && DistinctKeys(key, Elements(s)) && NoDuplicates(s)
    ensures Sort(ByKey(key, lt), s) == ListOf(key, lt, Elements(s))
  {
    ListFacts(key, lt, Elements(s));
    SortIsSortedOf(ByKey(key, lt), s);
  }

  // ---------- event search ----------

  datatype SearchFilter = SearchFilter(
    service: string, statuses: set<Status>, errorCode: string, traceId: string,
    since: int, until: int, includeSuppressed: bool)

  predicate InWindow(e: Event, f: SearchFilter) {
    !(f.since != 0 && e.tsStart < f.since) && !(f.until != 0 && e.tsStart > f.until)
  }

  predicate MatchesFilter(e: Event, f: SearchFilter) {
    && (f.service == "" || e.service == f.service)
    && (f.traceId == "" || e.traceId == f.traceId)
    && (f.errorCode == "" || (e.anchor.Some? && e.anchor.value.errorCode == f.errorCode))
    && (if f.statuses != {} then e.status in f.statuses else !e.status.StatusSuppressed? || f.includeSuppressed)
    && InWindow(e, f)
  }

  function EventKeyOf(e: Event): TimeKey { TimeKey(e.tsStart, e.id) }

  ghost function Matching(byId: map<string, Event>, f: SearchFilter): set<Event> {
    set id | id in byId && MatchesFilter(byId[id], f) :: byId[id]
  }

  /** The whole answer to a search, in search order. */
  ghost function SearchList(byId: map<string, Event>, f: SearchFilter): seq<Event> {
    ListOf(EventKeyOf, TimeLess, Matching(byId, f))
  }

  lemma SearchListFacts(byId: map<string, Event>, f: SearchFilter)
    requires KeyedById(byId)
    ensures TotalOrder(TimeLess) && DistinctKeys(EventKeyOf, Matching(byId, f))
    ensures Ascending(EventKeyOf, TimeLess, SearchList(byId, f))
    ensures forall e :: e in SearchList(byId, f) <==> Holds(byId, e) && MatchesFilter(e, f)
  {
    TimeLessTotal();
    ListFacts(EventKeyOf, TimeLess, Matching(byId, f));
  }

  /** The matching events of a snapshot, which lists the id table in an arbitrary order. */
  method CollectMatching(byId: map<string, Event>, f: SearchFilter) returns (events: seq<Event>)
    requires KeyedById(byId)
    ensures NoDuplicates(events) && Elements(events) == Matching(byId, f)
  {
    events := [];
    var ids := byId.Keys;
    while ids != {}
      invariant ids <= byId.Keys && NoDuplicates(events)
      invariant forall e :: e in events <==> Holds(byId, e) && e.id !in ids && MatchesFilter(e, f)
      decreases ids
    {
      var id :| id in ids;
      assert byId[id] !in events;
      ids := ids - {id};
      if MatchesFilter(byId[id], f) { events := events + [byId[id]]; }
    }
  }

  /** SearchEvents over one state of the index. */
  method SearchEvents(byId: map<string, Event>, f: SearchFilter, after: Option<TimeKey>, limit: int)
    returns (page: seq<Event>, next: Option<TimeKey>)
    requires KeyedById(byId)
    ensures limit <= 0 ==> page == [] && next.None?
    ensures limit > 0 ==> (page, next) == Page(EventKeyOf, TimeLess, SearchList(byId, f), after, limit)
  {
    if limit <= 0 { return [], None; }
    var filtered := CollectMatching(byId, f);
    SearchListFacts(byId, f);
    SortIsList(EventKeyOf, TimeLess, filtered);
    page, next := TakePage(EventKeyOf, TimeLess, Sort(ByKey(EventKeyOf, TimeLess), filtered), after, limit);
  }

  /** Following the cursor over a fixed index returns exactly the matching events, each once. */
  lemma SearchPagesComplete(byId: map<string, Event>, f: SearchFilter, limit: nat)
    requires KeyedById(byId) && limit > 0
    ensures KeyOrder(TimeLess) && Ascending(EventKeyOf, TimeLess, SearchList(byId, f))
    ensures Collect(EventKeyOf, TimeLess, SearchList(byId, f), None, limit) == SearchList(byId, f)
    ensures forall e :: e in SearchList(byId, f) <==> Holds(byId, e) && MatchesFilter(e, f)
  {
    SearchListFacts(byId, f);
    CollectsEverything(EventKeyOf, TimeLess, SearchList(byId, f), None, limit);
  }

  /** By fields: later starts first, and of equal starts the lesser id first. */
  lemma SearchNewestFirst(byId: map<string, Event>, f: SearchFilter, i: nat, j: nat)
    requires KeyedById(byId) && i < j < |SearchList(byId, f)|
    ensures var a, b := SearchList(byId, f)[i], SearchList(byId, f)[j];
            a.tsStart > b.tsStart || (a.tsStart == b.tsStart && StringLess(a.id, b.id))
  {
    SearchListFacts(byId, f);
    assert TimeLess(EventKeyOf(SearchList(byId, f)[i]), EventKeyOf(SearchList(byId, f)[j]));
  }

  /** By fields: an event is found exactly when no criterion that is set excludes it. */
  lemma FoundByFields(byId: map<string, Event>, f: SearchFilter, e: Event)
    requires KeyedById(byId) && Holds(byId, e)
    ensures e !in SearchList(byId, f) <==>
            || (f.service != "" && e.service != f.service) || (f.traceId != "" && e.traceId != f.traceId)
            || (f.errorCode != "" && (e.anchor == None || e.anchor.value.errorCode != f.errorCode))
            || (f.statuses != {} && e.status !in f.statuses)
            || (f.statuses == {} && e.status == StatusSuppressed && !f.includeSuppressed)
            || (f.since != 0 && e.tsStart < f.since) || (f.until != 0 && f.until < e.tsStart)
  {
    SearchListFacts(byId, f);
  }

  /** While the index changes between pages, an event that stays indexed is returned exactly once. */
  lemma SearchPagesStable(states: seq<map<string, Event>>, f: SearchFilter, limit: nat, cursors: seq<Option<TimeKey>>,
                          pages: seq<seq<Event>>, e: Event)
    requires limit > 0 && forall i :: 0 <= i < |states| ==> KeyedById(states[i]) && Holds(states[i], e)
    requires MatchesFilter(e, f)
    requires Walk(EventKeyOf, TimeLess, limit,
                  seq(|states|, i requires 0 <= i < |states| => SearchList(states[i], f)), cursors, pages)
    ensures multiset(Flatten(pages))[e] == 1
  {
    var lists := seq(|states|, i requires 0 <= i < |states| => SearchList(states[i], f));
    TimeLessOrders();
    forall i | 0 <= i < |lists| ensures e in lists[i] { SearchListFacts(states[i], f); }
    StableItemsOnce(EventKeyOf, TimeLess, limit, lists, cursors, pages, e);
  }

  // ---------- recent traces ----------

  datatype TraceSummary = TraceSummary(traceId: string, tsStart: int, durationMs: int)

  function TraceKeyOf(t: TraceSummary): TimeKey { TimeKey(t.tsStart, t.traceId) }

  /** The least start seen so far; a zero start is always replaced. */
  function Earliest(events: seq<Event>): int {
    if events == [] then 0 else
      var m, t := Earliest(events[..|events| - 1]), events[|events| - 1].tsStart;
      if m == 0 || t < m then t else m
  }

  function Latest(events: seq<Event>): int {
    if events == [] then 0 else
      var m, t := Latest(events[..|events| - 1]), events[|events| - 1].tsEnd;
      if m == 0 || t > m then t else m
  }

  function DurationMs(start: int, end: int): int {
    if start != 0 && end != 0 && end > start then (end - start) / 1_000_000 else 0
  }

  function SummaryOf(id: string, events: seq<Event>): TraceSummary {
    TraceSummary(id, Earliest(events), DurationMs(Earliest(events), Latest(events)))
  }

  /** Some event may be the anchor: suppressed ones only if they are asked for. */
  predicate HasCandidate(events: seq<Event>, f: SearchFilter) {
    exists e :: e in events && (f.includeSuppressed || !e.status.StatusSuppressed?)
  }

  /** A trace is listed if one of its events matches and it has an anchor. */
  predicate IsListed(events: seq<Event>, f: SearchFilter) {
    (exists e :: e in events && MatchesFilter(e, f)) && HasCandidate(events, f)
  }

  ghost function Summaries(byTrace: map<string, seq<Event>>, f: SearchFilter): set<TraceSummary> {
    set id | id in byTrace && IsListed(byTrace[id], f) :: SummaryOf(id, byTrace[id])
  }

  /** The whole answer, newest first. */
  ghost function TraceList(byTrace: map<string, seq<Event>>, f: SearchFilter): seq<TraceSummary> {
    ListOf(TraceKeyOf, TimeLess, Summaries(byTrace, f))
  }

  /** Stamps that are set: the summary has the least of them. */
  lemma {:induction false} EarliestIsLeast(events: seq<Event>)
    requires events != [] && forall e :: e in events ==> e.tsStart > 0
    ensures forall e :: e in events ==> Earliest(events) <= e.tsStart
    ensures exists e :: e in events && e.tsStart == Earliest(events)
  {
    var init, last := events[..|events| - 1], events[|events| - 1];
    assert last in events;
    if init != [] {
      EarliestIsLeast(init);
      var e :| e in init && e.tsStart == Earliest(init);
      assert e in events;
    }
  }

  lemma {:induction false} LatestIsGreatest(events: seq<Event>)
    requires events != [] && forall e :: e in events ==> e.tsEnd > 0
    ensures forall e :: e in events ==> e.tsEnd <= Latest(events)
    ensures exists e :: e in events && e.tsEnd == Latest(events)
  {
    var init, last := events[..|events| - 1], events[|events| - 1];
    assert last in events;
    if init != [] {
      LatestIsGreatest(init);
      var e :| e in init && e.tsEnd == Latest(init);
      assert e in events;
    }
  }

  /** With all stamps set, the duration is that from the least start to the greatest end, in whole milliseconds. */
  lemma DurationSpans(id: string, events: seq<Event>)
    requires events != [] && forall e :: e in events ==> e.tsStart > 0 && e.tsEnd > 0
    ensures var t, span := SummaryOf(id, events), Latest(events) - Earliest(events);
            && t.traceId == id && t.tsStart == Earliest(events)
            && (span > 0 ==> 1_000_000 * t.durationMs <= span < 1_000_000 * (t.durationMs + 1))
            && (span <= 0 ==> t.durationMs == 0)
  {
    EarliestIsLeast(events);
    LatestIsGreatest(events);
  }

  /** Only a trace of nothing but suppressed events has no anchor, unless they are asked for. */
  lemma NoCandidate(events: seq<Event>, f: SearchFilter)
    requires events != []
    ensures !HasCandidate(events, f)
            <==> !f.includeSuppressed && forall e :: e in events ==> e.status == StatusSuppressed
  {
    assert events[0] in events;
  }

  /** A trace is listed exactly if an event of it matches, unless it is all suppressed events nobody asked for. */
  lemma ListedExactly(events: seq<Event>, f: SearchFilter)
    ensures IsListed(events, f) <==>
            && (f.includeSuppressed || exists e :: e in events && e.status != StatusSuppressed)
            && exists e :: e in events && MatchesFilter(e, f)
  {
  }

  /** One summary for each trace id, so the keys are distinct. */
  lemma SummaryKeys(byTrace: map<string, seq<Event>>, f: SearchFilter)
    ensures TotalOrder(TimeLess) && DistinctKeys(TraceKeyOf, Summaries(byTrace, f))
  {
    TimeLessTotal();
  }

  /** RecentTraces over the trace groups of the index, visited in an arbitrary order. */
  method RecentTraces(byTrace: map<string, seq<Event>>, f: SearchFilter, after: Option<TimeKey>, limit: int)
    returns (page: seq<TraceSummary>, next: Option<TimeKey>)
    ensures limit <= 0 ==> page == [] && next.None?
    ensures limit > 0 ==> (page, next) == Page(TraceKeyOf, TimeLess, TraceList(byTrace, f), after, limit)
  {
    if limit <= 0 { return [], None; }
    var summaries := CollectSummaries(byTrace, f);
    SummaryKeys(byTrace, f);
    SortIsList(TraceKeyOf, TimeLess, summaries);
    page, next := TakePage(TraceKeyOf, TimeLess, Sort(ByKey(TraceKeyOf, TimeLess), summaries), after, limit);
  }

  method CollectSummaries(byTrace: map<string, seq<Event>>, f: SearchFilter) returns (summaries: seq<TraceSummary>)
    ensures NoDuplicates(summaries) && Elements(summaries) == Summaries(byTrace, f)
  {
    summaries := [];
    var ids := byTrace.Keys;
    while ids != {}
      invariant ids <= byTrace.Keys && NoDuplicates(summaries)
      invariant forall t :: t in summaries <==> IsSummaryOf(byTrace, f, ids, t)
      decreases ids
    {
      var id :| id in ids;
      assert SummaryOf(id, byTrace[id]) !in summaries;
      ids := ids - {id};
      if IsListed(byTrace[id], f) { summaries := summaries + [SummaryOf(id, byTrace[id])]; }
    }
  }

  /** The summary of a listed trace outside ids. */
  predicate IsSummaryOf(byTrace: map<string, seq<Event>>, f: SearchFilter, ids: set<string>, t: TraceSummary) {
    && t.traceId in byTrace && t.traceId !in ids && IsListed(byTrace[t.traceId], f)
    && t == SummaryOf(t.traceId, byTrace[t.traceId])
  }

  /** By fields: traces that start later first, and of equal starts the lesser id first. */
  lemma TracesNewestFirst(byTrace: map<string, seq<Event>>, f: SearchFilter, i: nat, j: nat)
    requires i < j < |TraceList(byTrace, f)|
    ensures var a, b := TraceList(byTrace, f)[i], TraceList(byTrace, f)[j];
            a.tsStart > b.tsStart || (a.tsStart == b.tsStart && StringLess(a.traceId, b.traceId))
  {
    SummaryKeys(byTrace, f);
    ListFacts(TraceKeyOf, TimeLess, Summaries(byTrace, f));
    assert TimeLess(TraceKeyOf(TraceList(byTrace, f)[i]), TraceKeyOf(TraceList(byTrace, f)[j]));
  }

  /** Following the trace cursor returns exactly one summary for each trace with a matching event and an anchor,
      newest first. */
  lemma TracePagesComplete(byTrace: map<string, seq<Event>>, f: SearchFilter, limit: nat)
    requires limit > 0
    ensures KeyOrder(TimeLess) && Ascending(TraceKeyOf, TimeLess, TraceList(byTrace, f))
    ensures Collect(TraceKeyOf, TimeLess, TraceList(byTrace, f), None, limit) == TraceList(byTrace, f)
    ensures forall t :: t in TraceList(byTrace, f) <==> IsSummaryOf(byTrace, f, {}, t)
  {
    SummaryKeys(byTrace, f);
    ListFacts(TraceKeyOf, TimeLess, Summaries(byTrace, f));
    CollectsEverything(TraceKeyOf, TimeLess, TraceList(byTrace, f), None, limit);
  }
}
