/** Durable ingest as interleaved steps, and replay of the WAL after a crash. */
module CrashRecovery {
  import opened Ordering
  import opened Events
  import opened HotIndex
  import opened EventDedup

  // ---------- pruning and replay as functions ----------

  /** A zero cutoff keeps everything. */
  predicate Keeps(cutoff: int, e: Event) { cutoff == 0 || e.tsEnd >= cutoff }

  /** ReplayWAL's effect on an index: stale records are skipped, repeated ids refused. */
  function ReplayInto(start: IndexState, wal: seq<Event>, since: int): IndexState {
    if wal == [] then start else
      var st, e := ReplayInto(start, wal[..|wal| - 1], since), wal[|wal| - 1];
      if Keeps(since, e) then InsertEvent(st, e) else st
  }

  function ReplayIndex(wal: seq<Event>, since: int): IndexState { ReplayInto(EmptyIndex(), wal, since) }

  /** ReplayWAL's effect on the id LRU. */
  function ReplayDedup(start: seq<string>, wal: seq<Event>, since: int, capacity: nat): seq<string> {
    if wal == [] then start else
      var order, e := ReplayDedup(start, wal[..|wal| - 1], since, capacity), wal[|wal| - 1];
      if Keeps(since, e) && e.id != "" then AddId(order, e.id, capacity) else order
  }

  /** The records that a replay does not skip as stale. */
  function KeptRecords(wal: seq<Event>, since: int): seq<Event> {
    if wal == [] then [] else
      KeptRecords(wal[..|wal| - 1], since) + if Keeps(since, wal[|wal| - 1]) then [wal[|wal| - 1]] else []
  }

  function Ids(wal: seq<Event>): seq<string> {
    if wal == [] then [] else Ids(wal[..|wal| - 1]) + [wal[|wal| - 1].id]
  }

  ghost predicate IdsDetermineEvents(wal: seq<Event>) {
    && (forall e :: e in wal ==> e.id != "")
    && (forall a, b :: a in wal && b in wal && a.id == b.id ==> a == b)
  }

  lemma {:induction false} ReplayHolds(wal: seq<Event>, since: int)
    requires IdsDetermineEvents(wal)
    ensures ValidIndex(ReplayIndex(wal, since))
    ensures forall e :: Holds(ReplayIndex(wal, since).byId, e) <==> e in wal && Keeps(since, e)
  {
    if wal == [] {
      EmptyIndexValid();
    } else {
      var p, x := wal[..|wal| - 1], wal[|wal| - 1];
      assert wal == p + [x];
      ReplayHolds(p, since);
      InsertKeepsValid(ReplayIndex(p, since), x);
      InsertHolds(ReplayIndex(p, since), x);
    }
  }

  /** Inserting an event whose id cannot belong to another one. */
  lemma InsertHolds(st: IndexState, x: Event)
    requires x.id != "" && forall e :: Holds(st.byId, e) && e.id == x.id ==> e == x
    requires ValidIndex(st)
    ensures forall e :: Holds(InsertEvent(st, x).byId, e) <==> Holds(st.byId, e) || e == x
  {
    if x.id in st.byId { assert Holds(st.byId, st.byId[x.id]); }
  }

  lemma SameById(s1: IndexState, s2: IndexState)
    requires ValidIndex(s1) && ValidIndex(s2)
    requires forall e :: Holds(s1.byId, e) <==> Holds(s2.byId, e)
    ensures s1.byId == s2.byId
  {
    forall id ensures id in s1.byId <==> id in s2.byId {
      if id in s1.byId { assert Holds(s1.byId, s1.byId[id]); }
      if id in s2.byId { assert Holds(s2.byId, s2.byId[id]); }
    }
    forall id | id in s1.byId ensures s1.byId[id] == s2.byId[id] { assert Holds(s1.byId, s1.byId[id]); }
  }

  // ---------- the running system ----------

  /** wal: records in the order written. inFlight: committed, not yet projected. lost: in the WAL and kept by the
      cutoff of their time, but not in the index, because their projection failed, their write reported an error, or
      a replay skipped their file. drifted: the LRU may no longer hold the newest WAL ids. */
  datatype System = System(
    wal: seq<Event>,
    dedup: seq<string>,
    index: IndexState,
    inFlight: multiset<Event>,
    accepted: set<Event>,
    lost: set<Event>,
    cutoff: int,
    drifted: bool)

  datatype Step =
    | Commit(e: Event)                            // AddIfNew: WAL write and dedup mark under one lock
    | Duplicate(e: Event)                         // AddIfNew finds the id
    | WalFailure(e: Event, written: bool)         // the write reports an error, and nothing is marked
    | Project(e: Event)                           // index insert, then acknowledge
    | ProjectPanic(e: Event)                      // the mark is rolled back, nothing is acknowledged
    | Prune(cutoff: int)
    | Restart(since: int, read: seq<Event>)       // a new process replays the records read

  // ---------- the files a replay reads ----------

  const ROTATION_SLACK := 300_000_000_000

  datatype WalFile = WalFile(modTime: int, records: seq<Event>)

  /** A replay since a cutoff skips files last modified more than the slack before it. */
  predicate ReadsFile(f: WalFile, since: int) { since == 0 || f.modTime >= since - ROTATION_SLACK }

  function ReadRecords(files: seq<WalFile>, since: int): seq<Event> {
    if files == [] then [] else
      (if ReadsFile(files[0], since) then files[0].records else []) + ReadRecords(files[1..], since)
  }

  /** The files, in whatever order, hold the records of the WAL. */
  ghost predicate HoldWal(files: seq<WalFile>, wal: seq<Event>) {
    forall e :: e in wal <==> e in ReadRecords(files, 0)
  }

  /** The records read from the files are among those of the WAL. */
  lemma {:induction false} ReadsSome(files: seq<WalFile>, since: int, e: Event)
    ensures e in ReadRecords(files, since) ==> e in ReadRecords(files, 0)
  {
    if files != [] { ReadsSome(files[1..], since, e); }
  }

  /** Skipping files loses no event that the cutoff keeps, as long as no record ends more than five
      minutes after its file was last modified. */
  lemma {:induction false} SkippedFilesAreStale(files: seq<WalFile>, since: int, e: Event)
    requires forall f :: f in files ==> forall x :: x in f.records ==> x.tsEnd <= f.modTime + 300_000_000_000
    ensures Keeps(since, e) ==> (e in ReadRecords(files, since) <==> e in ReadRecords(files, 0))
  {
    if files != [] { SkippedFilesAreStale(files[1..], since, e); }
  }

  // ---------- steps ----------

  /** A new record: not known, and its id does not belong to another event. */
  ghost predicate IsNew(s: System, e: Event) {
    e.id != "" && e.id !in s.dedup && forall w :: w in s.wal && w.id == e.id ==> w == e
  }

  /** The kept records that were not read. */
  ghost function Unread(wal: seq<Event>, since: int, read: seq<Event>): set<Event> {
    set e | e in wal && Keeps(since, e) && e !in read
  }

  /** The replay read everything, in order, and its cutoff keeps the newest records. */
  ghost predicate KeepsLru(s: System, since: int, read: seq<Event>, capacity: nat) {
    read == s.wal && forall e :: e in NewestEvents(s.wal, capacity) ==> Keeps(since, e)
  }

  ghost predicate PruneOf(st: IndexState, cutoff: int, st': IndexState) {
    && ValidIndex(st')
    && (cutoff == 0 ==> st' == st)
    && (cutoff != 0 ==> st'.byId == KeptById(st.byId, cutoff) && st'.byTrace == KeptByTrace(st.byTrace, cutoff))
  }

  ghost predicate Next(capacity: nat, s: System, step: Step, s': System) {
    match step
    case Commit(e) =>
      && IsNew(s, e)
      && s' == s.(wal := s.wal + [e], dedup := AddId(s.dedup, e.id, capacity), inFlight := s.inFlight + multiset{e})
    case Duplicate(e) => e.id in s.dedup && s' == s
    case WalFailure(e, written) =>
      && IsNew(s, e)
      && s' == if !written then s else
           s.(wal := s.wal + [e], drifted := true, lost := if Holds(s.index.byId, e) then s.lost else s.lost + {e})
    case Project(e) =>
      && e in s.inFlight
      && s' == s.(index := InsertEvent(s.index, e), inFlight := s.inFlight - multiset{e},
                  accepted := s.accepted + {e}, lost := s.lost - {e})
    case ProjectPanic(e) =>
      && e in s.inFlight
      && s' == s.(dedup := if e.id in s.dedup then Without(s.dedup, e.id) else s.dedup,
                  inFlight := s.inFlight - multiset{e}, drifted := true,
                  lost := if Holds(s.index.byId, e) then s.lost else s.lost + {e})
    case Prune(c) =>
      c >= s.cutoff && PruneOf(s.index, c, s'.index) && s' == s.(index := s'.index, cutoff := c)
    case Restart(since, read) =>
      && since >= 0 && (forall e :: e in read ==> e in s.wal)
      && s' == s.(index := ReplayIndex(read, since), dedup := ReplayDedup([], read, since, capacity), cutoff := since,
                  inFlight := multiset{}, lost := Unread(s.wal, since, read),
                  drifted := s.drifted || !KeepsLru(s, since, read, capacity))
  }

  ghost predicate Init(s: System) {
    s == System([], [], EmptyIndex(), multiset{}, {}, {}, 0, false)
  }

  /** Any number of process lives, the first on an empty log. */
  ghost predicate Run(capacity: nat, states: seq<System>, steps: seq<Step>) {
    && capacity > 0 && |states| == |steps| + 1 && Init(states[0])
    && forall i :: 0 <= i < |steps| ==> Next(capacity, states[i], steps[i], states[i + 1])
  }

  ghost predicate Invariant(capacity: nat, s: System) {
    && ValidIndex(s.index) && IdsDetermineEvents(s.wal)
    && (forall e :: e in s.inFlight ==> e in s.wal)
    && (forall e :: e in s.accepted ==> e in s.wal)
    && (forall e :: e in s.lost ==> e in s.wal && !Holds(s.index.byId, e))
    && (forall e :: Holds(s.index.byId, e) ==> e in s.wal)
    && (forall e :: e in s.wal && Keeps(s.cutoff, e) && e !in s.inFlight && e !in s.lost ==> Holds(s.index.byId, e))
    && (!s.drifted ==> Fresh(Ids(s.wal), capacity) && s.dedup == AddAll(Ids(s.wal), capacity))
  }

  lemma IdsAppend(wal: seq<Event>, e: Event)
    ensures Ids(wal + [e]) == Ids(wal) + [e.id]
  {
    assert (wal + [e])[..|wal|] == wal;
  }

  lemma FreshAppend(ids: seq<string>, id: string, capacity: nat)
    requires Fresh(ids, capacity) && id !in AddAll(ids, capacity)
    ensures Fresh(ids + [id], capacity) && AddAll(ids + [id], capacity) == AddId(AddAll(ids, capacity), id, capacity)
  {
    assert (ids + [id])[..|ids|] == ids;
  }

  lemma CommitKeeps(capacity: nat, s: System, e: Event, s': System)
    requires Invariant(capacity, s) && Next(capacity, s, Commit(e), s')
    ensures Invariant(capacity, s')
  {
    assert forall w :: w in s'.wal <==> w in s.wal || w == e;
    assert forall w :: w in s'.inFlight <==> w in s.inFlight || w == e;
    if !s.drifted {
      IdsAppend(s.wal, e);
      FreshAppend(Ids(s.wal), e.id, capacity);
    }
  }

  lemma ProjectKeeps(capacity: nat, s: System, e: Event, s': System)
    requires Invariant(capacity, s) && Next(capacity, s, Project(e), s')
    ensures Invariant(capacity, s')
  {
    InsertKeepsValid(s.index, e);
    InsertHolds(s.index, e);
    assert forall w :: w in s'.inFlight ==> w in s.inFlight;
    assert forall w :: w in s.inFlight && w != e ==> w in s'.inFlight;
  }

  lemma PanicKeeps(capacity: nat, s: System, e: Event, s': System)
    requires Invariant(capacity, s) && Next(capacity, s, ProjectPanic(e), s')
    ensures Invariant(capacity, s')
  {
    assert forall w :: w in s'.inFlight ==> w in s.inFlight;
    assert forall w :: w in s.inFlight && w != e ==> w in s'.inFlight;
  }

  lemma PruneHolds(st: IndexState, c: int, st': IndexState)
    requires PruneOf(st, c, st')
    ensures forall e :: Holds(st'.byId, e) <==> Holds(st.byId, e) && Keeps(c, e)
  {
  }

  lemma PruneKeeps(capacity: nat, s: System, c: int, s': System)
    requires Invariant(capacity, s) && Next(capacity, s, Prune(c), s')
    requires s.cutoff >= 0
    ensures Invariant(capacity, s')
  {
    PruneHolds(s.index, c, s'.index);
    assert forall e :: Keeps(c, e) ==> Keeps(s.cutoff, e);
  }

  lemma FailureKeeps(capacity: nat, s: System, e: Event, s': System)
    requires Invariant(capacity, s) && Next(capacity, s, WalFailure(e, true), s')
    ensures Invariant(capacity, s')
  {
    assert forall w :: w in s'.wal <==> w in s.wal || w == e;
  }

  lemma RestartKeeps(capacity: nat, s: System, since: int, read: seq<Event>, s': System)
    requires capacity > 0 && Invariant(capacity, s) && Next(capacity, s, Restart(since, read), s')
    ensures Invariant(capacity, s')
  {
    ReplayHolds(read, since);
    if !s'.drifted { NewestKept(s.wal, since, capacity); }
  }

  lemma NextKeeps(capacity: nat, s: System, step: Step, s': System)
    requires capacity > 0 && Invariant(capacity, s) && s.cutoff >= 0 && Next(capacity, s, step, s')
    ensures Invariant(capacity, s') && s'.cutoff >= 0
  {
    match step
    case Commit(e) => CommitKeeps(capacity, s, e, s');
    case Project(e) => ProjectKeeps(capacity, s, e, s');
    case ProjectPanic(e) => PanicKeeps(capacity, s, e, s');
    case Prune(c) => PruneKeeps(capacity, s, c, s');
    case WalFailure(e, written) => if written { FailureKeeps(capacity, s, e, s'); }
    case Restart(since, read) => RestartKeeps(capacity, s, since, read, s');
    case Duplicate(_) =>
  }

  lemma {:induction false} RunKeeps(capacity: nat, states: seq<System>, steps: seq<Step>, i: nat)
    requires Run(capacity, states, steps) && i < |states|
    ensures Invariant(capacity, states[i]) && states[i].cutoff >= 0
    decreases i
  {
    if i == 0 {
      EmptyIndexValid();
    } else {
      RunKeeps(capacity, states, steps, i - 1);
      assert Next(capacity, states[i - 1], steps[i - 1], states[i]);
      NextKeeps(capacity, states[i - 1], steps[i - 1], states[i]);
    }
  }

  lemma WalGrows(capacity: nat, s: System, step: Step, s': System)
    requires Next(capacity, s, step, s')
    ensures s.wal <= s'.wal
  {
  }

  lemma {:induction false} WalPrefix(capacity: nat, states: seq<System>, steps: seq<Step>, i: nat, j: nat)
    requires Run(capacity, states, steps) && i <= j < |states|
    ensures states[i].wal <= states[j].wal
    decreases j
  {
    if i < j {
      WalPrefix(capacity, states, steps, i, j - 1);
      assert Next(capacity, states[j - 1], steps[j - 1], states[j]);
      WalGrows(capacity, states[j - 1], steps[j - 1], states[j]);
    }
  }

  /** In every run, an event is in the WAL before it is acknowledged, and at every later moment. */
  lemma AcknowledgedIsDurable(capacity: nat, states: seq<System>, steps: seq<Step>, i: nat, j: nat, e: Event)
    requires Run(capacity, states, steps) && i <= j < |states|
    ensures i < |steps| && steps[i] == Project(e) ==> e in states[j].wal
    ensures e in states[i].accepted ==> e in states[j].wal
  {
    RunKeeps(capacity, states, steps, i);
    WalPrefix(capacity, states, steps, i, j);
    assert i < |steps| ==> Next(capacity, states[i], steps[i], states[i + 1]);
  }

  // ---------- recovery at any moment ----------

  /** Committed, kept by the cutoff, and not in the index: in flight, or lost to a failed projection. */
  ghost predicate IsUnindexed(s: System, c: int, e: Event) {
    Keeps(c, e) && (e in s.inFlight || e in s.lost) && !Holds(s.index.byId, e)
  }

  /** At any moment, a replay since a cutoff not before the last prune brings back exactly the indexed,
      in-flight and lost events that the cutoff keeps. */
  lemma ReplayBringsBack(capacity: nat, states: seq<System>, steps: seq<Step>, i: nat, c: int, e: Event)
    requires Run(capacity, states, steps) && i < |states| && c >= states[i].cutoff
    ensures var s := states[i];
            Holds(ReplayIndex(s.wal, c).byId, e)
            <==> Keeps(c, e) && (Holds(s.index.byId, e) || e in s.inFlight || e in s.lost)
  {
    RunKeeps(capacity, states, steps, i);
    ReplayHolds(states[i].wal, c);
  }

  /** At any moment, with a crash right then: the live index pruned at the cutoff has the events of the replay
      since that cutoff if and only if no kept event is unindexed; then all tables agree. */
  lemma RecoveryIsExact(capacity: nat, states: seq<System>, steps: seq<Step>, i: nat, c: int, pruned: IndexState)
    requires Run(capacity, states, steps) && i < |states| && c >= states[i].cutoff
    requires PruneOf(states[i].index, c, pruned)
    ensures var s := states[i]; var r := ReplayIndex(s.wal, c);
      && (pruned.byId == r.byId <==> forall e :: !IsUnindexed(s, c, e))
      && (pruned.byId == r.byId ==> SameTables(pruned, r))
  {
    var s, r := states[i], ReplayIndex(states[i].wal, c);
    assert ValidIndex(r) by { RunKeeps(capacity, states, steps, i); ReplayHolds(s.wal, c); }
    forall e ensures Holds(r.byId, e) <==> Holds(pruned.byId, e) || IsUnindexed(s, c, e) {
      PrunedHolds(s.index, c, pruned, e);
      ReplayBringsBack(capacity, states, steps, i, c, e);
    }
    if forall e :: !IsUnindexed(s, c, e) { SameById(pruned, r); }
    if pruned.byId == r.byId {
      TablesDetermined(pruned, r);
      forall e ensures !IsUnindexed(s, c, e) { PrunedHolds(s.index, c, pruned, e); }
    }
  }

  /** The same with the files that a replay since the cutoff reads, in whatever order: the pruned live index has the
      events of that replay if and only if the kept records it does not read are exactly the unindexed ones. */
  lemma RecoveryFromFiles(capacity: nat, states: seq<System>, steps: seq<Step>, i: nat, c: int, pruned: IndexState,
                          files: seq<WalFile>)
    requires Run(capacity, states, steps) && i < |states| && c >= states[i].cutoff
    requires PruneOf(states[i].index, c, pruned) && HoldWal(files, states[i].wal)
    ensures var s := states[i]; var read := ReadRecords(files, c); var r := ReplayIndex(read, c);
      && (pruned.byId == r.byId
          <==> forall e :: e in s.wal && Keeps(c, e) ==> (IsUnindexed(s, c, e) <==> e !in read))
      && (pruned.byId == r.byId ==> SameTables(pruned, r))
  {
    var s, read := states[i], ReadRecords(files, c);
    var r := ReplayIndex(read, c);
    forall e | e in read ensures e in s.wal { ReadsSome(files, c, e); }
    RunKeeps(capacity, states, steps, i);
    ReplayHolds(read, c);
    forall e ensures Holds(pruned.byId, e) <==> e in s.wal && Keeps(c, e) && !IsUnindexed(s, c, e) {
      IndexedOrNot(capacity, s, c, pruned, e);
    }
    if forall e :: e in s.wal && Keeps(c, e) ==> (IsUnindexed(s, c, e) <==> e !in read) { SameById(pruned, r); }
    if pruned.byId == r.byId {
      TablesDetermined(pruned, r);
      forall e | e in s.wal && Keeps(c, e) ensures IsUnindexed(s, c, e) <==> e !in read {
        assert Holds(pruned.byId, e) <==> Holds(r.byId, e);
      }
    }
  }

  lemma IndexedOrNot(capacity: nat, s: System, c: int, pruned: IndexState, e: Event)
    requires Invariant(capacity, s) && c >= s.cutoff >= 0 && PruneOf(s.index, c, pruned)
    ensures Holds(pruned.byId, e) <==> e in s.wal && Keeps(c, e) && !IsUnindexed(s, c, e)
  {
    PrunedHolds(s.index, c, pruned, e);
  }

  lemma PrunedHolds(st: IndexState, c: int, pruned: IndexState, e: Event)
    requires PruneOf(st, c, pruned)
    ensures Holds(pruned.byId, e) <==> Holds(st.byId, e) && Keeps(c, e)
  {
    PruneHolds(st, c, pruned);
  }

  ghost predicate SameTables(a: IndexState, b: IndexState) {
    && a.services == b.services && a.errors == b.errors && a.calls == b.calls
    && forall t :: multiset(TraceOf(a.byTrace, t)) == multiset(TraceOf(b.byTrace, t))
  }

  // ---------- the id LRU after a restart ----------

  function NewestEvents(wal: seq<Event>, n: nat): seq<Event> { if |wal| <= n then wal else wal[|wal| - n..] }

  lemma {:induction false} IdsLength(wal: seq<Event>)
    ensures |Ids(wal)| == |wal| && forall i :: 0 <= i < |wal| ==> Ids(wal)[i] == wal[i].id
  {
    if wal != [] { IdsLength(wal[..|wal| - 1]); }
  }

  lemma NewestEventIds(wal: seq<Event>, n: nat)
    ensures Ids(NewestEvents(wal, n)) == Newest(Ids(wal), n)
  {
    IdsLength(wal);
    IdsLength(NewestEvents(wal, n));
  }

  lemma {:induction false} KeptConcat(a: seq<Event>, b: seq<Event>, since: int)
    ensures KeptRecords(a + b, since) == KeptRecords(a, since) + KeptRecords(b, since)
    decreases |b|
  {
    if b == [] { assert a + b == a; } else {
      assert (a + b)[..|a| + |b| - 1] == a + b[..|b| - 1];
      KeptConcat(a, b[..|b| - 1], since);
    }
  }

  lemma {:induction false} AllKept(wal: seq<Event>, since: int)
    requires forall e :: e in wal ==> Keeps(since, e)
    ensures KeptRecords(wal, since) == wal
  {
    if wal != [] { AllKept(wal[..|wal| - 1], since); }
  }

  lemma {:induction false} KeptMember(wal: seq<Event>, since: int, e: Event)
    ensures e in KeptRecords(wal, since) <==> e in wal && Keeps(since, e)
  {
    if wal != [] { KeptMember(wal[..|wal| - 1], since, e); }
  }

  lemma IdsConcat(a: seq<Event>, b: seq<Event>)
    ensures Ids(a + b) == Ids(a) + Ids(b)
  {
    IdsLength(a);
    IdsLength(b);
    IdsLength(a + b);
  }

  /** Replay adds the ids of the kept records, in WAL order. */
  lemma {:induction false} ReplayDedupIsAdd(wal: seq<Event>, since: int, capacity: nat)
    requires forall e :: e in wal ==> e.id != ""
    ensures ReplayDedup([], wal, since, capacity) == AddAll(Ids(KeptRecords(wal, since)), capacity)
  {
    if wal != [] {
      var p, e := wal[..|wal| - 1], wal[|wal| - 1];
      ReplayDedupIsAdd(p, since, capacity);
      assert e in wal;
      var kept := KeptRecords(p, since);
      if Keeps(since, e) {
        IdsAppend(kept, e);
        AddAllSnoc(Ids(kept), e.id, capacity);
      } else {
        assert KeptRecords(wal, since) == kept;
      }
    }
  }

  lemma AddAllSnoc(ids: seq<string>, id: string, capacity: nat)
    ensures AddAll(ids + [id], capacity) == AddId(AddAll(ids, capacity), id, capacity)
  {
    assert (ids + [id])[..|ids|] == ids;
  }

  /** If the newest records are all kept, replay leaves exactly their ids. */
  lemma NewestKept(wal: seq<Event>, since: int, capacity: nat)
    requires capacity > 0 && IdsDetermineEvents(wal) && Fresh(Ids(wal), capacity)
    requires forall e :: e in NewestEvents(wal, capacity) ==> Keeps(since, e)
    ensures ReplayDedup([], wal, since, capacity) == AddAll(Ids(wal), capacity)
  {
    var w := NewestEvents(wal, capacity);
    var older := wal[..|wal| - |w|];
    assert wal == older + w;
    ReplayDedupIsAdd(wal, since, capacity);
    KeptConcat(older, w, since);
    AllKept(w, since);
    IdsConcat(KeptRecords(older, since), w);
    IdsLength(wal);
    NewestEventIds(wal, capacity);
    NewestDistinct(Ids(wal), capacity);
    FilledBy(Ids(KeptRecords(older, since)), Ids(w), capacity);
  }

  /** A record whose id a replay since the cutoff remembers is itself kept. */
  lemma RememberedIsKept(wal: seq<Event>, since: int, capacity: nat, e: Event)
    requires capacity > 0 && IdsDetermineEvents(wal) && e in wal && e.id in ReplayDedup([], wal, since, capacity)
    ensures Keeps(since, e)
  {
    var kept := KeptRecords(wal, since);
    ReplayDedupIsAdd(wal, since, capacity);
    AddAllBounded(Ids(kept), capacity);
    IdsLength(kept);
    var i :| 0 <= i < |kept| && Ids(kept)[i] == e.id;
    KeptMember(wal, since, kept[i]);
  }

  /** Over any number of lives, as long as no write reported an error after writing, no projection failed and each
      replay kept the newest records: the LRU holds exactly the newest WAL ids. A replay since any cutoff rebuilds it
      if and only if the cutoff keeps all of the newest records. */
  lemma DedupSurvivesRestart(capacity: nat, states: seq<System>, steps: seq<Step>, i: nat, since: int)
    requires Run(capacity, states, steps) && i < |states| && !states[i].drifted
    ensures var s := states[i];
      && s.dedup == Reverse(Newest(Ids(s.wal), capacity))
      && (s.dedup == ReplayDedup([], s.wal, since, capacity)
          <==> forall e :: e in NewestEvents(s.wal, capacity) ==> Keeps(since, e))
  {
    var s := states[i];
    RunKeeps(capacity, states, steps, i);
    NewestIds(Ids(s.wal), capacity);
    if forall e :: e in NewestEvents(s.wal, capacity) ==> Keeps(since, e) { NewestKept(s.wal, since, capacity); }
    if s.dedup == ReplayDedup([], s.wal, since, capacity) {
      forall e | e in NewestEvents(s.wal, capacity) ensures Keeps(since, e) {
        NewestIsMarked(s.wal, capacity, e);
        RememberedIsKept(s.wal, since, capacity, e);
      }
    }
  }

  lemma NewestIsMarked(wal: seq<Event>, capacity: nat, e: Event)
    requires e in NewestEvents(wal, capacity)
    ensures e in wal && e.id in Reverse(Newest(Ids(wal), capacity))
  {
    var w := NewestEvents(wal, capacity);
    var k :| 0 <= k < |w| && w[k] == e;
    IdsLength(w);
    NewestEventIds(wal, capacity);
    assert Ids(w)[k] == e.id;
    ReverseMember(Newest(Ids(wal), capacity), e.id);
  }

  // ---------- runs in which recovery is not exact ----------

  /** A record that the replay cutoff drops was known before the restart and is committed again after it. */
  lemma RestartCanForget(e: Event) returns (states: seq<System>, steps: seq<Step>)
    requires e.id != "" && e.tsEnd == 5
    ensures steps == [Commit(e), Restart(100, [e]), Commit(e)] && Run(1, states, steps)
    ensures e.id in states[1].dedup && e.id !in states[2].dedup && states[3].wal == [e, e]
  {
    var s0 := System([], [], EmptyIndex(), multiset{}, {}, {}, 0, false);
    var s1 := s0.(wal := s0.wal + [e], dedup := AddId([], e.id, 1), inFlight := s0.inFlight + multiset{e});
    var s2 := System([e], [], ReplayIndex([e], 100), multiset{}, {}, {}, 100, true);
    var s3 := s2.(wal := s2.wal + [e], dedup := AddId([], e.id, 1), inFlight := s2.inFlight + multiset{e});
    states, steps := [s0, s1, s2, s3], [Commit(e), Restart(100, [e]), Commit(e)];
    assert s1.wal == [e] && [e][..0] == [];
    assert Unread([e], 100, [e]) == {};
    assert e in NewestEvents([e], 1);
    assert Next(1, s0, steps[0], s1) && Next(1, s1, steps[1], s2) && Next(1, s2, steps[2], s3);
  }

  /** After a failed projection the index lacks an event that a replay brings back. */
  lemma FailedProjectionShows(e: Event) returns (states: seq<System>, steps: seq<Step>)
    requires e.id != "" && e.tsEnd == 5
    ensures steps == [Commit(e), ProjectPanic(e), Prune(3)] && Run(1, states, steps)
    ensures states[3].index.byId != ReplayIndex(states[3].wal, 3).byId
  {
    var s0 := System([], [], EmptyIndex(), multiset{}, {}, {}, 0, false);
    var s1 := s0.(wal := s0.wal + [e], dedup := AddId([], e.id, 1), inFlight := s0.inFlight + multiset{e});
    var s2 := s1.(dedup := Without(s1.dedup, e.id), inFlight := s1.inFlight - multiset{e},
                  drifted := true, lost := s1.lost + {e});
    var s3 := s2.(cutoff := 3);
    states, steps := [s0, s1, s2, s3], [Commit(e), ProjectPanic(e), Prune(3)];
    PruneOfEmpty(3);
    assert Next(1, s0, steps[0], s1) && Next(1, s1, steps[1], s2) && Next(1, s2, steps[2], s3);
    assert s3.wal == [e];
    ReplayHolds([e], 3);
    assert Holds(ReplayIndex([e], 3).byId, e);
  }

  /** A write that reports an error after its record is in the file: the index and the LRU lack an event that a replay
      brings back. */
  lemma FailedWriteShows(e: Event) returns (states: seq<System>, steps: seq<Step>)
    requires e.id != "" && e.tsEnd == 5
    ensures steps == [WalFailure(e, true)] && Run(1, states, steps)
    ensures e !in states[1].accepted && e.id !in states[1].dedup && !Holds(states[1].index.byId, e)
    ensures Holds(ReplayIndex(states[1].wal, 3).byId, e) && e.id in ReplayDedup([], states[1].wal, 3, 1)
  {
    var s0 := System([], [], EmptyIndex(), multiset{}, {}, {}, 0, false);
    var s1 := s0.(wal := s0.wal + [e], drifted := true, lost := s0.lost + {e});
    states, steps := [s0, s1], [WalFailure(e, true)];
    assert Next(1, s0, steps[0], s1);
    assert s1.wal == [e] && [e][..0] == [];
    ReplayHolds([e], 3);
  }

  /** A record that ends long after its file was last modified: its file is skipped although the cutoff keeps it. */
  lemma SkippedFileShows(e: Event, modTime: int)
    requires modTime > 0 && e.tsEnd == modTime + 600_000_000_000
    ensures var files, c := [WalFile(modTime, [e])], e.tsEnd;
            HoldWal(files, [e]) && Keeps(c, e) && ReadRecords(files, c) == []
  {
    var files := [WalFile(modTime, [e])];
    assert files[1..] == [];
  }

  lemma PruneOfEmpty(c: int)
    ensures PruneOf(EmptyIndex(), c, EmptyIndex())
  {
    EmptyIndexValid();
    assert KeptById(map[], c) == map[] && KeptByTrace(map[], c) == map[];
  }
}
