/** The fields of a schema-2.0 event that ordering, indexing and rollups read. */
module Events {
  import opened Ordering

  datatype Option<+T> = None | Some(value: T)

  datatype Status = StatusOk | StatusError | StatusTimeout | StatusPartial | StatusAborted | StatusSuppressed {
    predicate IsFailed() { StatusError? || StatusTimeout? || StatusPartial? || StatusAborted? }
  }

  datatype Anchor = Anchor(step: string, errorCode: string)

  datatype Downstream = Downstream(service: string, endpoint: string)

  datatype Step = Step(spanId: string, downstream: Option<Downstream>)

  /** Times are integers on a common scale; 0 is the zero time. */
  datatype Event = Event(
    id: string,
    traceId: string,
    service: string,
    parentSpan: string,
    tsStart: int,
    tsEnd: int,
    status: Status,
    anchor: Option<Anchor>,
    steps: seq<Step>)

  /** compareEventIdentity(a, b) < 0: start time, then service, then event id. */
  predicate Before(a: Event, b: Event) {
    if a.tsStart != b.tsStart then a.tsStart < b.tsStart
    else if a.service != b.service then StringLess(a.service, b.service)
    else StringLess(a.id, b.id)
  }

  /** By fields: the earlier start first; of equal starts the lesser service, and of equal services the lesser id. */
  predicate InOrder(a: Event, b: Event) {
    && a.tsStart <= b.tsStart
    && (a.tsStart == b.tsStart && a.service != b.service ==> StringLess(a.service, b.service))
    && (a.tsStart == b.tsStart && a.service == b.service ==> StringLess(a.id, b.id))
  }

  ghost predicate Chronological(s: seq<Event>) { forall i, j :: 0 <= i < j < |s| ==> InOrder(s[i], s[j]) }

  lemma SortedIsChronological(s: seq<Event>)
    requires Sorted(Before, s)
    ensures Chronological(s)
  {
    forall i, j | 0 <= i < j < |s| ensures InOrder(s[i], s[j]) { assert Before(s[i], s[j]); }
  }

  /** Every status but ok and suppressed is a failure. */
  lemma FailedStatuses(s: Status)
    ensures s.IsFailed() <==> s != StatusOk && s != StatusSuppressed
  {
  }

  ghost predicate DistinctIds(events: seq<Event>) {
    && (forall i :: 0 <= i < |events| ==> events[i].id != "")
    && (forall i, j :: 0 <= i < j < |events| ==> events[i].id != events[j].id)
  }

  ghost predicate IdsIdentify(S: set<Event>) {
    forall a, b :: a in S && b in S && a.id == b.id ==> a == b
  }

  lemma DistinctIdsFacts(events: seq<Event>)
    requires DistinctIds(events)
    ensures NoDuplicates(events) && IdsIdentify(Elements(events))
  {
  }

  lemma BeforeTransitive(a: Event, b: Event, c: Event)
    requires Before(a, b) && Before(b, c)
    ensures Before(a, c)
  {
    if a.tsStart == b.tsStart == c.tsStart {
      if a.service == b.service == c.service {
        StringLessTransitive(a.id, b.id, c.id);
      } else if a.service != b.service && b.service != c.service {
        StringLessTransitive(a.service, b.service, c.service);
        StringLessIrreflexive(a.service);
      }
    }
  }

  /** The identity order is total on events with distinct ids. */
  lemma BeforeStrictOrder(S: set<Event>)
    requires IdsIdentify(S)
    ensures StrictOrderOn(Before, S)
  {
    forall a | a in S ensures !Before(a, a) { StringLessIrreflexive(a.id); }
    forall a, b | a in S && b in S && a != b ensures Before(a, b) || Before(b, a) {
      if a.service != b.service { StringLessTotal(a.service, b.service); }
      StringLessTotal(a.id, b.id);
    }
    forall a, b, c | a in S && b in S && c in S && Before(a, b) && Before(b, c) ensures Before(a, c) {
      BeforeTransitive(a, b, c);
    }
  }
}
