/** The ingest handler and WAL replay as they update the WAL, the id LRU and the index in place. */
module Ingest {
  import opened Ordering
  import opened Events
  import opened HotIndex
  import opened EventDedup
  import opened CrashRecovery

  datatype IngestError = DurabilityUnavailable | ProjectionUnavailable | ContextDone

  /** One framed body: found with the context done, rejected by validation, or decoded, with what the WAL and
      the projector will do. */
  datatype Body = Cancelled | Invalid | Valid(event: Event, write: Write, projectOk: bool)

  /** A failed fsync or rotation reports an error although the record is in the file. */
  datatype Write = Written | WrittenWithError | NotWritten

  /** Validate-only requests are not durable; a handler may lack a WAL or an id LRU. */
  datatype Mode = Mode(durable: bool, hasWal: bool, hasDedup: bool)

  const FULL := Mode(true, true, true)

  datatype Progress = Progress(
    wal: seq<Event>,
    dedup: seq<string>,
    index: IndexState,
    accepted: seq<Event>,
    duplicate: nat,
    rejected: nat,
    error: Option<IngestError>)

  predicate IsKnown(m: Mode, order: seq<string>, id: string) { m.hasDedup && id != "" && id in order }

  function Marked(m: Mode, order: seq<string>, id: string, capacity: nat): seq<string> {
    if m.hasDedup && id != "" then AddId(order, id, capacity) else order
  }

  function Unmarked(m: Mode, order: seq<string>, id: string): seq<string> {
    if m.hasDedup && id != "" && id in order then Without(order, id) else order
  }

  function IngestOne(capacity: nat, m: Mode, p: Progress, b: Body): Progress {
    if p.error.Some? then p
    else if b.Cancelled? then p.(error := Some(ContextDone))
    else if b.Invalid? then p.(rejected := p.rejected + 1)
    else if !m.durable then p.(accepted := p.accepted + [b.event])
    else if !m.hasWal then p.(error := Some(DurabilityUnavailable))
    else if IsKnown(m, p.dedup, b.event.id) then p.(duplicate := p.duplicate + 1)
    else if b.write.NotWritten? then p.(error := Some(DurabilityUnavailable))
    else if b.write.WrittenWithError? then p.(wal := p.wal + [b.event], error := Some(DurabilityUnavailable))
    else
      var e, marked := b.event, Marked(m, p.dedup, b.event.id, capacity);
      if b.projectOk then
        p.(wal := p.wal + [e], dedup := marked, index := InsertEvent(p.index, e), accepted := p.accepted + [e])
      else
        p.(wal := p.wal + [e], dedup := Unmarked(m, marked, e.id), error := Some(ProjectionUnavailable))
  }

  function IngestAll(capacity: nat, m: Mode, p: Progress, bodies: seq<Body>): Progress {
    if bodies == [] then p
    else IngestOne(capacity, m, IngestAll(capacity, m, p, bodies[..|bodies| - 1]), bodies[|bodies| - 1])
  }

  /** Every body is accounted for unless an error stops the batch; on the durable path acceptances are in the
      WAL, in order, and a validate-only batch leaves WAL, LRU and index alone. */
  lemma {:induction false} BatchAccounting(capacity: nat, m: Mode, p: Progress, bodies: seq<Body>)
    requires p.error.None?
    ensures var q := IngestAll(capacity, m, p, bodies);
      && p.wal <= q.wal && p.accepted <= q.accepted
      && (q.error.None? ==> Counted(q) == Counted(p) + |bodies|)
      && (m.durable && q.error.None? ==> q.wal == p.wal + q.accepted[|p.accepted|..])
      && (m.durable ==> forall k :: |p.accepted| <= k < |q.accepted| ==> q.accepted[k] in q.wal)
      && (!m.durable ==> q.wal == p.wal && q.dedup == p.dedup && q.index == p.index && q.duplicate == p.duplicate)
  {
    if bodies != [] { BatchAccounting(capacity, m, p, bodies[..|bodies| - 1]); }
  }

  function Counted(p: Progress): nat { |p.accepted| + p.duplicate + p.rejected }

  // ---------- which body gets which outcome ----------

  /** A known id is a duplicate and changes nothing else. */
  lemma KnownIsDuplicate(capacity: nat, p: Progress, b: Body)
    requires p.error.None? && b.Valid? && b.event.id != "" && b.event.id in p.dedup
    ensures IngestOne(capacity, FULL, p, b) == p.(duplicate := p.duplicate + 1)
  {
  }

  /** A new event that is written and projected is accepted: in the WAL, in the index, and known from then on. */
  lemma GoodIsAccepted(capacity: nat, p: Progress, b: Body)
    requires capacity > 0 && p.error.None? && b.Valid? && b.event.id != "" && b.event.id !in p.dedup
    requires ValidIndex(p.index) && forall e :: Holds(p.index.byId, e) && e.id == b.event.id ==> e == b.event
    requires b.write.Written? && b.projectOk
    ensures var q := IngestOne(capacity, FULL, p, b);
      && q.error.None? && q.accepted == p.accepted + [b.event] && q.wal == p.wal + [b.event]
      && Holds(q.index.byId, b.event) && b.event.id in q.dedup
      && q.duplicate == p.duplicate && q.rejected == p.rejected
  {
    InsertHolds(p.index, b.event);
    assert AddId(p.dedup, b.event.id, capacity)[0] == b.event.id;
  }

  /** A failed projection is an error: the record stays in the WAL, the mark is taken back, nothing is accepted. */
  lemma PanicIsError(capacity: nat, p: Progress, b: Body)
    requires capacity > 0 && Bounded(p.dedup, capacity)
    requires p.error.None? && b.Valid? && b.event.id != "" && b.event.id !in p.dedup
    requires b.write.Written? && !b.projectOk
    ensures var q := IngestOne(capacity, FULL, p, b);
      && q.error == Some(ProjectionUnavailable) && q.accepted == p.accepted && q.wal == p.wal + [b.event]
      && q.index == p.index && b.event.id !in q.dedup
  {
    AddIdBounded(p.dedup, b.event.id, capacity);
    WithoutFacts(AddId(p.dedup, b.event.id, capacity), b.event.id);
  }

  /** A failed write, or no WAL at all, is an error; only the record may have reached the file. */
  lemma FailedWriteIsError(capacity: nat, m: Mode, p: Progress, b: Body)
    requires p.error.None? && b.Valid? && m.durable
    requires !m.hasWal || (!b.write.Written? && !IsKnown(m, p.dedup, b.event.id))
    ensures IngestOne(capacity, m, p, b) ==
      p.(error := Some(DurabilityUnavailable),
         wal := if m.hasWal && b.write.WrittenWithError? then p.wal + [b.event] else p.wal)
  {
  }

  /** A cancelled context stops the batch, an invalid body is rejected, and without durability a valid one is only
      counted. */
  lemma OtherOutcomes(capacity: nat, m: Mode, p: Progress, b: Body)
    requires p.error.None?
    ensures b == Cancelled ==> IngestOne(capacity, m, p, b) == p.(error := Some(ContextDone))
    ensures b == Invalid ==> IngestOne(capacity, m, p, b) == p.(rejected := p.rejected + 1)
    ensures b.Valid? && !m.durable ==> IngestOne(capacity, m, p, b) == p.(accepted := p.accepted + [b.event])
  {
  }

  /** Nothing is cancelled, and every write and projection succeeds. */
  predicate AllGood(bodies: seq<Body>) {
    forall k :: 0 <= k < |bodies| ==> IsGood(bodies[k])
  }

  predicate IsGood(b: Body) { b.Invalid? || (b.Valid? && b.write.Written? && b.projectOk) }

  /** The LRU after these events were marked one by one. */
  function MarkAll(capacity: nat, order: seq<string>, events: seq<Event>): seq<string> {
    if events == [] then order
    else Marked(FULL, MarkAll(capacity, order, events[..|events| - 1]), events[|events| - 1].id, capacity)
  }

  /** The valid events whose id the LRU did not hold when they were reached, in order. */
  function Novel(capacity: nat, order: seq<string>, bodies: seq<Body>): seq<Event> {
    if bodies == [] then [] else
      var earlier, b := Novel(capacity, order, bodies[..|bodies| - 1]), bodies[|bodies| - 1];
      if b.Valid? && (b.event.id == "" || b.event.id !in MarkAll(capacity, order, earlier)) then earlier + [b.event]
      else earlier
  }

  /** Without failures a batch has no error and accepts, writes and marks exactly the novel events, in order. */
  lemma {:induction false} GoodBatch(capacity: nat, p: Progress, bodies: seq<Body>)
    requires p.error.None? && AllGood(bodies)
    ensures var q, novel := IngestAll(capacity, FULL, p, bodies), Novel(capacity, p.dedup, bodies);
      && q.error.None? && q.accepted == p.accepted + novel && q.wal == p.wal + novel
      && q.dedup == MarkAll(capacity, p.dedup, novel)
  {
    if bodies != [] {
      var init := bodies[..|bodies| - 1];
      assert AllGood(init) by { assert forall k :: 0 <= k < |init| ==> init[k] == bodies[k]; }
      GoodBatch(capacity, p, init);
      var earlier := Novel(capacity, p.dedup, init);
      var b := bodies[|bodies| - 1];
      if b.Valid? { assert (earlier + [b.event])[..|earlier|] == earlier; }
    }
  }

  /** The system's view of one processed body: a commit followed by a projection, or one failure step. */
  lemma BodyIsSteps(capacity: nat, s: System, p: Progress, b: Body) returns (mid: System, s': System)
    requires b.Valid? && p.error.None? && b.event.id != ""
    requires s.wal == p.wal && s.dedup == p.dedup && s.index == p.index
    requires forall w :: w in s.wal && w.id == b.event.id ==> w == b.event
    ensures var q := IngestOne(capacity, FULL, p, b);
      && s'.wal == q.wal && s'.dedup == q.dedup && s'.index == q.index
      && (q == p.(duplicate := p.duplicate + 1) ==> Next(capacity, s, Duplicate(b.event), s'))
      && (q.error == Some(DurabilityUnavailable) ==>
            Next(capacity, s, WalFailure(b.event, b.write.WrittenWithError?), s'))
      && (q.error == Some(ProjectionUnavailable) ==>
            Next(capacity, s, Commit(b.event), mid) && Next(capacity, mid, ProjectPanic(b.event), s'))
      && (q.accepted == p.accepted + [b.event] ==>
            Next(capacity, s, Commit(b.event), mid) && Next(capacity, mid, Project(b.event), s')
              && b.event in s'.accepted)
  {
    var e := b.event;
    mid := s.(wal := s.wal + [e], dedup := AddId(s.dedup, e.id, capacity), inFlight := s.inFlight + multiset{e});
    if e.id in s.dedup || b.write.NotWritten? {
      s' := s;
    } else if b.write.WrittenWithError? {
      s' := s.(wal := s.wal + [e], drifted := true, lost := if Holds(s.index.byId, e) then s.lost else s.lost + {e});
    } else if b.projectOk {
      s' := mid.(index := InsertEvent(mid.index, e), inFlight := mid.inFlight - multiset{e},
                 accepted := mid.accepted + {e}, lost := mid.lost - {e});
    } else {
      s' := mid.(dedup := if e.id in mid.dedup then Without(mid.dedup, e.id) else mid.dedup,
                 inFlight := mid.inFlight - multiset{e}, drifted := true,
                 lost := if Holds(mid.index.byId, e) then mid.lost else mid.lost + {e});
    }
  }

  class Handler {
    var wal: seq<Event>
    const dedup: Dedup
    const index: RecentIndex

    ghost predicate Valid()
      reads this, dedup, index
    {
      dedup.Valid() && index.Valid()
    }

    ghost function Snapshot(accepted: seq<Event>, duplicate: nat, rejected: nat, error: Option<IngestError>): Progress
      reads this, dedup, index
    {
      Progress(wal, dedup.order, index.State(), accepted, duplicate, rejected, error)
    }

    constructor (dedup: Dedup, index: RecentIndex)
      requires dedup.Valid() && index.Valid()
      ensures Valid() && this.dedup == dedup && this.index == index && wal == []
    {
      this.dedup, this.index, wal := dedup, index, [];
    }

    /** One event on the durable path: WAL, then the id mark, then the projection, then the count. */
    method IngestBody(m: Mode, b: Body, accepted: seq<Event>, duplicate: nat, rejected: nat)
      returns (accepted': seq<Event>, duplicate': nat, rejected': nat, error: Option<IngestError>)
      requires Valid()
      modifies this`wal, dedup, index
      ensures Valid()
      ensures Snapshot(accepted', duplicate', rejected', error) ==
                IngestOne(dedup.capacity, m, old(Snapshot(accepted, duplicate, rejected, None)), b)
    {
      accepted', duplicate', rejected', error := accepted, duplicate, rejected, None;
      if b.Cancelled? {
        error := Some(ContextDone);
        return;
      }
      if b.Invalid? {
        rejected' := rejected + 1;
        return;
      }
      if !m.durable {
        accepted' := accepted + [b.event];
        return;
      }
      if !m.hasWal {
        error := Some(DurabilityUnavailable);
        return;
      }
      if m.hasDedup {
        var known := dedup.Seen(b.event.id);
        if known {
          duplicate' := duplicate + 1;
          return;
        }
      }
      if b.write.NotWritten? {
        error := Some(DurabilityUnavailable);
        return;
      }
      wal := wal + [b.event];
      if b.write.WrittenWithError? {
        error := Some(DurabilityUnavailable);
        return;
      }
      if m.hasDedup { dedup.Add(b.event.id); }
      if b.projectOk {
        var _ := index.Insert(b.event);
        accepted' := accepted + [b.event];
      } else {
        if m.hasDedup { dedup.Remove(b.event.id); }
        error := Some(ProjectionUnavailable);
      }
    }

    /** IngestRaw: the events of one request in turn, up to the first infrastructure failure. */
    method IngestRaw(m: Mode, bodies: seq<Body>)
      returns (accepted: seq<Event>, duplicate: nat, rejected: nat, error: Option<IngestError>)
      requires Valid()
      modifies this`wal, dedup, index
      ensures Valid()
      ensures Snapshot(accepted, duplicate, rejected, error) ==
                IngestAll(dedup.capacity, m, old(Snapshot([], 0, 0, None)), bodies)
    {
      accepted, duplicate, rejected, error := [], 0, 0, None;
      ghost var start := Snapshot([], 0, 0, None);
      for i := 0 to |bodies|
        invariant Valid() && error.None?
        invariant Snapshot(accepted, duplicate, rejected, error) == IngestAll(dedup.capacity, m, start, bodies[..i])
      {
        assert bodies[..i + 1][..i] == bodies[..i];
        accepted, duplicate, rejected, error := IngestBody(m, bodies[i], accepted, duplicate, rejected);
        if error.Some? {
          StoppedAll(dedup.capacity, m, start, bodies, i + 1);
          return;
        }
      }
      assert bodies[..|bodies|] == bodies;
    }
  }

  /** Once a batch stops, the remaining bodies change nothing. */
  lemma {:induction false} StoppedAll(capacity: nat, m: Mode, p: Progress, bodies: seq<Body>, i: nat)
    requires i <= |bodies| && IngestAll(capacity, m, p, bodies[..i]).error.Some?
    ensures IngestAll(capacity, m, p, bodies) == IngestAll(capacity, m, p, bodies[..i])
    decreases |bodies|
  {
    if i == |bodies| {
      assert bodies[..i] == bodies;
    } else {
      var init := bodies[..|bodies| - 1];
      assert init[..i] == bodies[..i];
      StoppedAll(capacity, m, p, init, i);
    }
  }

  // ---------- replay ----------

  /** A line of the log as the replay callback finds it. */
  datatype Line = Malformed | SchemaInvalid | Undecodable | Record(event: Event)

  /** The events of the lines that decode. */
  function Decoded(lines: seq<Line>): seq<Event> {
    if lines == [] then [] else
      Decoded(lines[..|lines| - 1]) + if lines[|lines| - 1].Record? then [lines[|lines| - 1].event] else []
  }

  function DecodeFails(lines: seq<Line>): nat {
    if lines == [] then 0 else DecodeFails(lines[..|lines| - 1]) + if lines[|lines| - 1].Undecodable? then 1 else 0
  }

  datatype ReplayResult = ReplayResult(dedupLoaded: nat, projected: nat, decodeFails: nat)

  /** ReplayWAL: one pass over the lines read back from the log; without a projector only the ids are loaded. */
  method ReplayWAL(lines: seq<Line>, dedup: Dedup, index: RecentIndex, hasProjector: bool, since: int)
    returns (r: ReplayResult)
    requires dedup.Valid() && index.Valid()
    modifies dedup, index
    ensures dedup.Valid() && index.Valid()
    ensures index.State()
            == if hasProjector then ReplayInto(old(index.State()), Decoded(lines), since) else old(index.State())
    ensures dedup.order == ReplayDedup(old(dedup.order), Decoded(lines), since, dedup.capacity)
    ensures r.dedupLoaded == |KeptRecords(Decoded(lines), since)| && r.decodeFails == DecodeFails(lines)
    ensures r.projected == if hasProjector then r.dedupLoaded else 0
  {
    r := ReplayResult(0, 0, 0);
    ghost var done: seq<Event> := [];
    for i := 0 to |lines|
      invariant dedup.Valid() && index.Valid() && done == Decoded(lines[..i])
      invariant r.dedupLoaded == |KeptRecords(done, since)| && r.decodeFails == DecodeFails(lines[..i])
      invariant r.projected == if hasProjector then r.dedupLoaded else 0
      invariant index.State()
                == if hasProjector then ReplayInto(old(index.State()), done, since) else old(index.State())
      invariant dedup.order == ReplayDedup(old(dedup.order), done, since, dedup.capacity)
    {
      assert lines[..i + 1][..i] == lines[..i];
      match lines[i] {
        case Malformed =>
        case SchemaInvalid =>
        case Undecodable => r := r.(decodeFails := r.decodeFails + 1);
        case Record(ev) =>
          assert (done + [ev])[..|done|] == done;
          done := done + [ev];
          if since != 0 && ev.tsEnd < since { continue; }
          dedup.Add(ev.id);
          r := r.(dedupLoaded := r.dedupLoaded + 1);
          if hasProjector {
            var _ := index.Insert(ev);
            r := r.(projected := r.projected + 1);
          }
      }
    }
    assert lines[..|lines|] == lines;
  }
}
