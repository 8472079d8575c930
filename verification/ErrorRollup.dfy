/** Error rows and blast radius, recomputed from a snapshot, against the incremental error table. */
module ErrorRollup {
  import opened Ordering
  import opened Events
  import opened Rollup
  import opened HotIndex
  import opened Paging
  import opened Reader

  predicate MatchesRollup(e: Event, f: SearchFilter) {
    && e.anchor.Some? && e.status.IsFailed()
    && (f.statuses == {} || e.status in f.statuses)
    && (f.service == "" || e.service == f.service)
    && InWindow(e, f)
  }

  function FamilyOf(e: Event): ErrorKey
    requires e.anchor.Some?
  {
    ErrorKey(e.service, e.anchor.value.step, e.anchor.value.errorCode)
  }

  /** The events that count towards the row of family k. */
  ghost function RowEvents(S: set<Event>, f: SearchFilter, k: ErrorKey): set<Event> {
    set e | e in S && MatchesRollup(e, f) && FamilyOf(e) == k
  }

  ghost function TracesOf(S: set<Event>): set<string> { set e | e in S :: e.traceId }

  /** count and, per affected trace, the latest start of a matching event. */
  datatype ErrorAgg = ErrorAgg(count: nat, traceLatest: map<string, int>)

  ghost predicate IsLatest(latest: map<string, int>, S: set<Event>) {
    && latest.Keys == TracesOf(S)
    && (forall e :: e in S ==> e.tsStart <= latest[e.traceId])
    && (forall t :: t in latest ==> exists e :: e in S && e.traceId == t && e.tsStart == latest[t])
  }

  ghost predicate IsAgg(a: ErrorAgg, S: set<Event>) { a.count == |S| && IsLatest(a.traceLatest, S) }

  function NoteTrace(latest: map<string, int>, e: Event): map<string, int> {
    if e.traceId !in latest || e.tsStart > latest[e.traceId] then latest[e.traceId := e.tsStart] else latest
  }

  lemma NoteLatest(latest: map<string, int>, S: set<Event>, e: Event)
    requires IsLatest(latest, S)
    ensures IsLatest(NoteTrace(latest, e), S + {e})
  {
    var m, T := NoteTrace(latest, e), S + {e};
    assert TracesOf(T) == TracesOf(S) + {e.traceId};
    forall t | t in m ensures exists x :: x in T && x.traceId == t && x.tsStart == m[t] {
      if t == e.traceId && m[t] == e.tsStart {
        assert e in T;
      } else {
        var x :| x in S && x.traceId == t && x.tsStart == latest[t];
        assert x in T;
      }
    }
  }

  ghost predicate IsRollup(aggs: map<ErrorKey, ErrorAgg>, S: set<Event>, f: SearchFilter) {
    && (forall k :: k in aggs <==> RowEvents(S, f, k) != {})
    && (forall k :: k in aggs ==> IsAgg(aggs[k], RowEvents(S, f, k)))
  }

  function NoteError(aggs: map<ErrorKey, ErrorAgg>, e: Event): map<ErrorKey, ErrorAgg>
    requires e.anchor.Some?
  {
    var k := FamilyOf(e);
    var a := if k in aggs then aggs[k] else ErrorAgg(0, map[]);
    aggs[k := ErrorAgg(a.count + 1, NoteTrace(a.traceLatest, e))]
  }

  lemma RowEventsInsert(S: set<Event>, f: SearchFilter, k: ErrorKey, e: Event)
    ensures RowEvents(S + {e}, f, k) ==
              if MatchesRollup(e, f) && FamilyOf(e) == k then RowEvents(S, f, k) + {e} else RowEvents(S, f, k)
  {
  }

  lemma SkipRollup(aggs: map<ErrorKey, ErrorAgg>, S: set<Event>, f: SearchFilter, e: Event)
    requires IsRollup(aggs, S, f) && !MatchesRollup(e, f)
    ensures IsRollup(aggs, S + {e}, f)
  {
    forall k ensures RowEvents(S + {e}, f, k) == RowEvents(S, f, k) { RowEventsInsert(S, f, k, e); }
  }

  lemma NoteRow(aggs: map<ErrorKey, ErrorAgg>, S: set<Event>, f: SearchFilter, e: Event)
    requires IsRollup(aggs, S, f) && e !in S && MatchesRollup(e, f)
    ensures IsAgg(NoteError(aggs, e)[FamilyOf(e)], RowEvents(S + {e}, f, FamilyOf(e)))
  {
    var k := FamilyOf(e);
    var R := RowEvents(S, f, k);
    RowEventsInsert(S, f, k, e);
    EmptyAgg();
    if k in aggs { AggInsert(aggs[k], R, e); } else { AggInsert(ErrorAgg(0, map[]), R, e); }
  }

  lemma EmptyAgg()
    ensures IsAgg(ErrorAgg(0, map[]), {})
  {
  }

  lemma AggInsert(a: ErrorAgg, R: set<Event>, e: Event)
    requires IsAgg(a, R) && e !in R
    ensures IsAgg(ErrorAgg(a.count + 1, NoteTrace(a.traceLatest, e)), R + {e})
  {
    NoteLatest(a.traceLatest, R, e);
  }

  lemma NoteRollup(aggs: map<ErrorKey, ErrorAgg>, S: set<Event>, f: SearchFilter, e: Event)
    requires IsRollup(aggs, S, f) && e !in S && MatchesRollup(e, f)
    ensures IsRollup(NoteError(aggs, e), S + {e}, f)
  {
    NoteRow(aggs, S, f, e);
    var next := NoteError(aggs, e);
    forall k
      ensures k in next <==> RowEvents(S + {e}, f, k) != {}
      ensures k in next ==> IsAgg(next[k], RowEvents(S + {e}, f, k))
    {
      RowEventsInsert(S, f, k, e);
      assert k == FamilyOf(e) ==> e in RowEvents(S + {e}, f, k);
    }
  }

  /** aggregateErrorRows: one aggregate per family with a matching event. */
  method AggregateErrors(events: seq<Event>, f: SearchFilter) returns (aggs: map<ErrorKey, ErrorAgg>)
    requires NoDuplicates(events)
    ensures IsRollup(aggs, Elements(events), f)
  {
    aggs := map[];
    for i := 0 to |events|
      invariant IsRollup(aggs, Elements(events[..i]), f)
    {
      var e := events[i];
      assert events[..i + 1] == events[..i] + [e];
      assert Elements(events[..i + 1]) == Elements(events[..i]) + {e};
      assert e !in events[..i];
      if MatchesRollup(e, f) {
        NoteRollup(aggs, Elements(events[..i]), f, e);
        aggs := NoteError(aggs, e);
      } else {
        SkipRollup(aggs, Elements(events[..i]), f, e);
      }
    }
    assert events[..|events|] == events;
  }

  /** An error row as the API returns it. */
  datatype ErrorRow = ErrorRow(family: ErrorKey, count: nat, affectedTraces: nat)

  function RowKeyOf(r: ErrorRow): RowKey { RowKey(r.count, r.family) }

  ghost predicate IsRowOf(r: ErrorRow, aggs: map<ErrorKey, ErrorAgg>) {
    r.family in aggs && r.count == aggs[r.family].count && r.affectedTraces == |aggs[r.family].traceLatest|
  }

  ghost predicate RowsOf(rows: seq<ErrorRow>, aggs: map<ErrorKey, ErrorAgg>) {
    && (forall i :: 0 <= i < |rows| ==> IsRowOf(rows[i], aggs))
    && (forall i, j :: 0 <= i < j < |rows| ==> rows[i].family != rows[j].family)
    && (forall k :: k in aggs ==> exists i :: 0 <= i < |rows| && rows[i].family == k)
  }

  /** One row per aggregate, in an arbitrary order. */
  method BuildRows(aggs: map<ErrorKey, ErrorAgg>) returns (rows: seq<ErrorRow>)
    ensures RowsOf(rows, aggs)
  {
    rows := [];
    var todo := aggs.Keys;
    while todo != {}
      invariant todo <= aggs.Keys
      invariant RowsOf(rows, aggs - todo)
      decreases todo
    {
      var k :| k in todo;
      var row := ErrorRow(k, aggs[k].count, |aggs[k].traceLatest|);
      RowsStep(rows, aggs, todo, k, row);
      rows := rows + [row];
      todo := todo - {k};
    }
    assert aggs - {} == aggs;
  }

  lemma RowsStep(rows: seq<ErrorRow>, aggs: map<ErrorKey, ErrorAgg>, todo: set<ErrorKey>, k: ErrorKey, row: ErrorRow)
    requires RowsOf(rows, aggs - todo) && k in todo && k in aggs
    requires row == ErrorRow(k, aggs[k].count, |aggs[k].traceLatest|)
    ensures RowsOf(rows + [row], aggs - (todo - {k}))
  {
    var more := rows + [row];
    forall x | x in aggs - (todo - {k}) ensures exists i :: 0 <= i < |more| && more[i].family == x {
      if x == k {
        assert more[|rows|].family == k;
      } else {
        assert x in aggs - todo;
        var i :| 0 <= i < |rows| && rows[i].family == x;
        assert more[i].family == x;
      }
    }
  }

  ghost function Families(S: set<Event>, f: SearchFilter): set<ErrorKey> {
    set e | e in S && MatchesRollup(e, f) :: FamilyOf(e)
  }

  ghost function RowFor(S: set<Event>, f: SearchFilter, k: ErrorKey): ErrorRow {
    ErrorRow(k, |RowEvents(S, f, k)|, |TracesOf(RowEvents(S, f, k))|)
  }

  /** One row for each family with a matching event, recomputed from the events. */
  ghost function RowSet(S: set<Event>, f: SearchFilter): set<ErrorRow> {
    set k | k in Families(S, f) :: RowFor(S, f, k)
  }

  /** The whole answer, largest count first. */
  ghost function ErrorList(S: set<Event>, f: SearchFilter): seq<ErrorRow> { ListOf(RowKeyOf, RowLess, RowSet(S, f)) }

  lemma FamilyHasRow(S: set<Event>, f: SearchFilter, k: ErrorKey)
    ensures k in Families(S, f) <==> RowEvents(S, f, k) != {}
  {
    if k in Families(S, f) {
      var e :| e in S && MatchesRollup(e, f) && FamilyOf(e) == k;
      assert e in RowEvents(S, f, k);
    }
    if RowEvents(S, f, k) != {} { var e :| e in RowEvents(S, f, k); }
  }

  lemma RowIsRowFor(r: ErrorRow, aggs: map<ErrorKey, ErrorAgg>, S: set<Event>, f: SearchFilter)
    requires IsRowOf(r, aggs) && IsRollup(aggs, S, f)
    ensures r == RowFor(S, f, r.family) && r.family in Families(S, f)
  {
    FamilyHasRow(S, f, r.family);
    assert |aggs[r.family].traceLatest| == |aggs[r.family].traceLatest.Keys|;
  }

  /** In whatever order the aggregates are met, the rows built are those of the events. */
  lemma RowsAreRowSet(rows: seq<ErrorRow>, aggs: map<ErrorKey, ErrorAgg>, S: set<Event>, f: SearchFilter)
    requires RowsOf(rows, aggs) && IsRollup(aggs, S, f)
    ensures NoDuplicates(rows) && Elements(rows) == RowSet(S, f)
  {
    forall r | r in rows ensures r in RowSet(S, f) { RowIsRowFor(r, aggs, S, f); }
    forall r | r in RowSet(S, f) ensures r in rows {
      FamilyHasRow(S, f, r.family);
      var i :| 0 <= i < |rows| && rows[i].family == r.family;
      RowIsRowFor(rows[i], aggs, S, f);
    }
  }

  lemma RowKeysDistinct(S: set<Event>, f: SearchFilter)
    ensures TotalOrder(RowLess) && DistinctKeys(RowKeyOf, RowSet(S, f))
  {
    RowLessTotal();
  }

  /** Errors over one snapshot: the page of the sorted rows beyond the cursor. */
  method ErrorsPage(events: seq<Event>, f: SearchFilter, after: Option<RowKey>, limit: int)
    returns (page: seq<ErrorRow>, next: Option<RowKey>)
    requires NoDuplicates(events)
    ensures limit <= 0 ==> page == [] && next.None?
    ensures limit > 0 ==> (page, next) == Page(RowKeyOf, RowLess, ErrorList(Elements(events), f), after, limit)
  {
    if limit <= 0 { return [], None; }
    var aggs := AggregateErrors(events, f);
    var rows := BuildRows(aggs);
    RowsAreRowSet(rows, aggs, Elements(events), f);
    RowKeysDistinct(Elements(events), f);
    SortIsList(RowKeyOf, RowLess, rows);
    page, next := TakePage(RowKeyOf, RowLess, Sort(ByKey(RowKeyOf, RowLess), rows), after, limit);
  }

  /** Following the error cursor returns exactly one row for each family with a matching event, largest count
      first; every call cuts its page from the same list. */
  lemma ErrorPagesComplete(S: set<Event>, f: SearchFilter, limit: nat)
    requires limit > 0
    ensures KeyOrder(RowLess) && Ascending(RowKeyOf, RowLess, ErrorList(S, f))
    ensures Collect(RowKeyOf, RowLess, ErrorList(S, f), None, limit) == ErrorList(S, f)
    ensures forall r :: r in ErrorList(S, f) <==> RowEvents(S, f, r.family) != {} && r == RowFor(S, f, r.family)
  {
    RowKeysDistinct(S, f);
    ListFacts(RowKeyOf, RowLess, RowSet(S, f));
    CollectsEverything(RowKeyOf, RowLess, ErrorList(S, f), None, limit);
    forall r ensures r in RowSet(S, f) <==> RowEvents(S, f, r.family) != {} && r == RowFor(S, f, r.family) {
      FamilyHasRow(S, f, r.family);
    }
  }

  /** By fields: larger counts first; of equal counts the lesser service, then step, then code. */
  lemma ErrorsLargestFirst(S: set<Event>, f: SearchFilter, i: nat, j: nat)
    requires i < j < |ErrorList(S, f)|
    ensures var a, b := ErrorList(S, f)[i], ErrorList(S, f)[j];
            && a.count >= b.count
            && (a.count == b.count && a.family.service != b.family.service ==>
                  StringLess(a.family.service, b.family.service))
            && (a.count == b.count && a.family.service == b.family.service && a.family.step != b.family.step ==>
                  StringLess(a.family.step, b.family.step))
            && (a.count == b.count && a.family.service == b.family.service && a.family.step == b.family.step ==>
                  StringLess(a.family.errorCode, b.family.errorCode))
  {
    RowKeysDistinct(S, f);
    ListFacts(RowKeyOf, RowLess, RowSet(S, f));
    assert RowLess(RowKeyOf(ErrorList(S, f)[i]), RowKeyOf(ErrorList(S, f)[j]));
  }

  /** By fields: a failed event with an anchor counts in the row of its service, step and code, and in no other, exactly
      when no criterion that is set excludes it; other events count nowhere. */
  lemma CountedByFields(S: set<Event>, f: SearchFilter, k: ErrorKey, e: Event)
    requires e in S
    ensures e in RowEvents(S, f, k) <==>
            && e.status != StatusOk && e.status != StatusSuppressed
            && e.anchor == Some(Anchor(k.step, k.errorCode)) && e.service == k.service
            && (f.service == "" || f.service == k.service) && (f.statuses == {} || e.status in f.statuses)
            && (f.since == 0 || f.since <= e.tsStart) && (f.until == 0 || e.tsStart <= f.until)
  {
    FailedStatuses(e.status);
  }

  // ---------- agreement with the incremental table ----------

  function Unfiltered(): SearchFilter { SearchFilter("", {}, "", "", 0, 0, false) }

  lemma {:induction false} TotalIsSize(S: set<Event>, k: ErrorKey)
    ensures Total(S, ErrorKeys, k) == |RowEvents(S, Unfiltered(), k)|
  {
    if S == {} {
      assert RowEvents(S, Unfiltered(), k) == {};
    } else {
      var e :| e in S && Total(S, ErrorKeys, k) == multiset(ErrorKeys(e))[k] + Total(S - {e}, ErrorKeys, k);
      TotalIsSize(S - {e}, k);
      SizeStep(S, e, k);
    }
  }

  lemma SizeStep(S: set<Event>, e: Event, k: ErrorKey)
    requires e in S
    ensures |RowEvents(S, Unfiltered(), k)| == |RowEvents(S - {e}, Unfiltered(), k)| + multiset(ErrorKeys(e))[k]
  {
    RowEventsInsert(S - {e}, Unfiltered(), k, e);
    assert S - {e} + {e} == S;
    assert e !in RowEvents(S - {e}, Unfiltered(), k);
    assert multiset(ErrorKeys(e))[k] == if MatchesRollup(e, Unfiltered()) && FamilyOf(e) == k then 1 else 0;
  }

  lemma UsedIffRow(S: set<Event>, k: ErrorKey)
    ensures (exists e :: Uses(S, ErrorKeys, k, e)) <==> RowEvents(S, Unfiltered(), k) != {}
  {
    forall e ensures Uses(S, ErrorKeys, k, e) <==> e in RowEvents(S, Unfiltered(), k) {}
    if RowEvents(S, Unfiltered(), k) != {} {
      var e :| e in RowEvents(S, Unfiltered(), k);
      assert Uses(S, ErrorKeys, k, e);
    }
  }

  /** Unfiltered error rows have exactly the families and counts of the incremental error table. */
  lemma RollupMatchesTable(errors: map<ErrorKey, Node>, S: set<Event>, aggs: map<ErrorKey, ErrorAgg>, k: ErrorKey)
    requires IsRecount(errors, S, ErrorKeys) && IsRollup(aggs, S, Unfiltered())
    ensures k in aggs <==> k in errors
    ensures k in aggs ==> aggs[k].count == errors[k].count
  {
    assert k in errors <==> exists e :: Uses(S, ErrorKeys, k, e);
    assert k in errors ==> Recounts(errors[k], S, ErrorKeys, k);
    UsedIffRow(S, k);
    TotalIsSize(S, k);
  }

  // ---------- blast radius ----------

  predicate MatchesBlast(e: Event, f: SearchFilter, k: ErrorKey, crossCode: bool) {
    && e.anchor.Some? && e.status.IsFailed() && InWindow(e, f)
    && k.errorCode == e.anchor.value.errorCode
    && (crossCode || (e.service == k.service && e.anchor.value.step == k.step))
  }

  ghost function BlastEvents(events: seq<Event>, f: SearchFilter, k: ErrorKey, crossCode: bool): set<Event> {
    set e | e in events && MatchesBlast(e, f, k, crossCode)
  }

  /** The traces BlastRadius reports, with the latest matching start of each. */
  method BlastTraces(events: seq<Event>, f: SearchFilter, k: ErrorKey, crossCode: bool)
    returns (latest: map<string, int>)
    ensures IsLatest(latest, BlastEvents(events, f, k, crossCode))
  {
    latest := map[];
    for i := 0 to |events|
      invariant IsLatest(latest, BlastEvents(events[..i], f, k, crossCode))
    {
      var e := events[i];
      ghost var before := BlastEvents(events[..i], f, k, crossCode);
      assert events[..i + 1] == events[..i] + [e];
      assert BlastEvents(events[..i + 1], f, k, crossCode) ==
        if MatchesBlast(e, f, k, crossCode) then before + {e} else before;
      if MatchesBlast(e, f, k, crossCode) {
        NoteLatest(latest, before, e);
        latest := NoteTrace(latest, e);
      }
    }
    assert events[..|events|] == events;
  }

  /** By fields: the cross-code view takes the code alone, the other the whole family. */
  lemma BlastByFields(events: seq<Event>, f: SearchFilter, k: ErrorKey, crossCode: bool, e: Event)
    requires e in events
    ensures e in BlastEvents(events, f, k, crossCode) <==>
            && e.status != StatusOk && e.status != StatusSuppressed && e.anchor.Some?
            && e.anchor.value.errorCode == k.errorCode
            && (!crossCode ==> e.service == k.service && e.anchor.value.step == k.step)
            && (f.since == 0 || f.since <= e.tsStart) && (f.until == 0 || e.tsStart <= f.until)
  {
    FailedStatuses(e.status);
  }

  lemma BlastIsRow(events: seq<Event>, f: SearchFilter, k: ErrorKey)
    requires f.statuses == {} && f.service == ""
    ensures BlastEvents(events, f, k, false) == RowEvents(Elements(events), f, k)
  {
  }

  lemma LatestUnique(a: map<string, int>, b: map<string, int>, S: set<Event>)
    requires IsLatest(a, S) && IsLatest(b, S)
    ensures a == b
  {
    forall t | t in a ensures a[t] == b[t] {
      var x :| x in S && x.traceId == t && x.tsStart == a[t];
      var y :| y in S && y.traceId == t && y.tsStart == b[t];
    }
  }

  /** For the same window, the blast radius of a family covers exactly the traces of its error row. */
  lemma BlastMatchesRow(events: seq<Event>, f: SearchFilter, k: ErrorKey, aggs: map<ErrorKey, ErrorAgg>,
                        latest: map<string, int>)
    requires f.statuses == {} && f.service == ""
    requires IsRollup(aggs, Elements(events), f)
    requires IsLatest(latest, BlastEvents(events, f, k, false))
    ensures latest == if k in aggs then aggs[k].traceLatest else map[]
  {
    var R := RowEvents(Elements(events), f, k);
    BlastIsRow(events, f, k);
    if k in aggs { LatestUnique(latest, aggs[k].traceLatest, R); }
  }
}
