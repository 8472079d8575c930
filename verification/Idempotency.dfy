/** Concurrent requests sharing the idempotency cache: every interleaving of its critical sections. */
module Idempotency {
  import opened Events
  import opened IdempotencyCache

  datatype Phase =
    | Arrived
    | Waiting(flight: nat)
    | Executing
    | Executed(own: Entry)
    | Replayed(entry: Entry)
    | Refused
    | Aborted

  datatype Request = Request(key: string, body: string, phase: Phase)

  datatype System = System(cache: Cache, requests: map<nat, Request>)

  datatype Step =
    | Arrive(r: nat, key: string, body: string)
    | Acquire(r: nat, now: int)
    | Wake(r: nat)
    | Cancel(r: nat)
    | Complete(r: nat, response: Response, now: int)
    | Sweep(now: int, left: Lru)

  function Initial(): System { System(Cache(Lru(map[], []), map[], []), map[]) }

  function SetPhase(s: System, r: nat, phase: Phase): System
    requires r in s.requests
  {
    s.(requests := s.requests[r := s.requests[r].(phase := phase)])
  }

  function PhaseAfter(v: Verdict): Phase {
    match v case Hit(e) => Replayed(e) case Clash => Refused case Own => Executing case Wait(f) => Waiting(f)
  }

  /** A waiter that finds its flight finished. */
  function PhaseOnWake(q: Request, f: Flight): Phase
    requires f.entry.Some?
  {
    if f.body != q.body then Refused else Replayed(f.entry.value)
  }

  /** One atomic step; a step that is not enabled changes nothing. */
  ghost function Next(s: System, step: Step): System {
    match step
    case Arrive(r, key, body) =>
      if r in s.requests then s else s.(requests := s.requests[r := Request(key, body, Arrived)])
    case Acquire(r, now) =>
      if r !in s.requests || s.requests[r].phase != Arrived then s else
        var q := s.requests[r];
        SetPhase(s, r, PhaseAfter(Judge(s.cache, q.key, q.body, now))).(
          cache := Acquired(s.cache, q.key, q.body, r, now))
    case Wake(r) =>
      if !CanWake(s, r) then s
      else SetPhase(s, r, PhaseOnWake(s.requests[r], s.cache.flights[s.requests[r].phase.flight]))
    case Cancel(r) =>
      if r in s.requests && s.requests[r].phase.Waiting? then SetPhase(s, r, Aborted) else s
    case Complete(r, response, now) =>
      if r !in s.requests || s.requests[r].phase != Executing || !PendingInRange(s.cache) then s else
        var q := s.requests[r];
        SetPhase(s, r, Executed(MakeEntry(q.body, response, now))).(
          cache := Finished(s.cache, q.key, q.body, response, now))
    case Sweep(now, left) =>
      if IsSwept(s.cache.lru, left, now) then s.(cache := s.cache.(lru := left)) else s
  }

  predicate CanWake(s: System, r: nat) {
    && r in s.requests && s.requests[r].phase.Waiting? && s.requests[r].phase.flight < |s.cache.flights|
    && s.cache.flights[s.requests[r].phase.flight].entry.Some?
  }

  ghost function Run(steps: seq<Step>): System {
    if steps == [] then Initial() else Next(Run(steps[..|steps| - 1]), steps[|steps| - 1])
  }

  // ---------- the invariant ----------

  /** The execution numbered f, of this key and body, ended with this entry. */
  predicate IsSource(flights: seq<Flight>, f: int, key: string, body: string, e: Entry) {
    0 <= f < |flights| && flights[f].key == key && flights[f].body == body && flights[f].entry == Some(e)
  }

  ghost predicate Produced(flights: seq<Flight>, key: string, body: string, e: Entry) {
    exists f :: IsSource(flights, f, key, body, e)
  }

  /** Some execution of this key has another body. */
  predicate IsOther(flights: seq<Flight>, f: int, key: string, body: string) {
    0 <= f < |flights| && flights[f].key == key && flights[f].body != body
  }

  ghost predicate HasOther(flights: seq<Flight>, key: string, body: string) {
    exists f :: IsOther(flights, f, key, body)
  }

  ghost predicate RequestOk(c: Cache, r: nat, q: Request) {
    match q.phase
    case Waiting(f) => f < |c.flights| && c.flights[f].key == q.key
    case Executing => q.key in c.pending && c.pending[q.key] < |c.flights| && c.flights[c.pending[q.key]].owner == r
    case Executed(e) => Produced(c.flights, q.key, q.body, e)
    case Replayed(e) => Produced(c.flights, q.key, q.body, e)
    case Refused => HasOther(c.flights, q.key, q.body)
    case _ => true
  }

  predicate HasPhase(s: System, r: nat, key: string, body: string, phase: Phase) {
    r in s.requests && s.requests[r] == Request(key, body, phase)
  }

  /** A pending key has an unfinished execution whose owner is executing, and it is not cached. */
  predicate PendingOk(s: System, k: string)
    requires k in s.cache.pending
  {
    var f := s.cache.pending[k];
    && f < |s.cache.flights| && s.cache.flights[f].key == k && s.cache.flights[f].entry.None?
    && k !in s.cache.lru.entries
    && HasPhase(s, s.cache.flights[f].owner, k, s.cache.flights[f].body, Executing)
  }

  /** An execution is unfinished exactly while it is the pending one of its key. */
  predicate FlightOk(s: System, f: nat)
    requires f < |s.cache.flights|
  {
    var g := s.cache.flights[f];
    match g.entry
    case None => g.key in s.cache.pending && s.cache.pending[g.key] == f
    case Some(e) => e.body == g.body && HasPhase(s, g.owner, g.key, g.body, Executed(e))
  }

  ghost predicate CachedOk(c: Cache, k: string)
    requires k in c.lru.entries
  {
    Produced(c.flights, k, c.lru.entries[k].body, c.lru.entries[k]) && IsCacheable(c.lru.entries[k].response.status)
  }

  ghost predicate Invariant(s: System) {
    && ValidLru(s.cache.lru)
    && (forall r {:trigger RequestOk(s.cache, r, s.requests[r])} ::
          r in s.requests ==> RequestOk(s.cache, r, s.requests[r]))
    && (forall k {:trigger PendingOk(s, k)} :: k in s.cache.pending ==> PendingOk(s, k))
    && (forall f {:trigger FlightOk(s, f)} :: 0 <= f < |s.cache.flights| ==> FlightOk(s, f))
    && (forall k {:trigger CachedOk(s.cache, k)} :: k in s.cache.lru.entries ==> CachedOk(s.cache, k))
  }

  // ---------- each kind of change keeps it ----------

  /** The cache only lost entries, or their order changed. */
  lemma LruShrinks(s: System, l: Lru)
    requires Invariant(s) && ValidLru(l) && Within(l, s.cache.lru)
    ensures Invariant(s.(cache := s.cache.(lru := l)))
  {
    var t := s.(cache := s.cache.(lru := l));
    forall r | r in t.requests ensures RequestOk(t.cache, r, t.requests[r]) {
      assert RequestOk(s.cache, r, s.requests[r]);
    }
    forall k | k in t.cache.pending ensures PendingOk(t, k) { assert PendingOk(s, k); }
    forall f | 0 <= f < |t.cache.flights| ensures FlightOk(t, f) { assert FlightOk(s, f); }
    forall k | k in l.entries ensures CachedOk(t.cache, k) { assert CachedOk(s.cache, k); }
  }

  predicate IsPassive(phase: Phase) { !phase.Executing? && !phase.Executed? }

  /** A request that does not execute gets another answer. */
  lemma PassiveChanges(s: System, r: nat, q: Request)
    requires Invariant(s) && (r in s.requests ==> IsPassive(s.requests[r].phase)) && IsPassive(q.phase)
    requires RequestOk(s.cache, r, q)
    ensures Invariant(s.(requests := s.requests[r := q]))
  {
    var t := s.(requests := s.requests[r := q]);
    forall x | x in t.requests ensures RequestOk(t.cache, x, t.requests[x]) {
      if x != r { assert RequestOk(s.cache, x, s.requests[x]); }
    }
    forall k | k in t.cache.pending ensures PendingOk(t, k) { assert PendingOk(s, k); }
    forall f | 0 <= f < |t.cache.flights| ensures FlightOk(t, f) { assert FlightOk(s, f); }
    forall k | k in t.cache.lru.entries ensures CachedOk(t.cache, k) { assert CachedOk(s.cache, k); }
  }

  /** Executions are only added or given their entry. */
  ghost predicate Extends(a: seq<Flight>, b: seq<Flight>) {
    |a| <= |b| && forall f {:trigger b[f]} :: 0 <= f < |a| ==> Continues(a[f], b[f])
  }

  predicate Continues(g: Flight, h: Flight) {
    h.key == g.key && h.body == g.body && h.owner == g.owner && (g.entry.Some? ==> h.entry == g.entry)
  }

  lemma ProducedExtends(a: seq<Flight>, b: seq<Flight>, key: string, body: string, e: Entry)
    requires Extends(a, b) && Produced(a, key, body, e)
    ensures Produced(b, key, body, e)
  {
    var f :| IsSource(a, f, key, body, e);
    assert Continues(a[f], b[f]);
    assert IsSource(b, f, key, body, e);
  }

  lemma OtherExtends(a: seq<Flight>, b: seq<Flight>, key: string, body: string)
    requires Extends(a, b) && HasOther(a, key, body)
    ensures HasOther(b, key, body)
  {
    var f :| IsOther(a, f, key, body);
    assert Continues(a[f], b[f]);
    assert IsOther(b, f, key, body);
  }

  lemma RequestExtends(a: Cache, b: Cache, r: nat, q: Request)
    requires RequestOk(a, r, q) && Extends(a.flights, b.flights)
    requires q.phase.Executing? ==> q.key in b.pending && b.pending[q.key] == a.pending[q.key]
    ensures RequestOk(b, r, q)
  {
    match q.phase {
      case Waiting(f) => assert Continues(a.flights[f], b.flights[f]);
      case Executing => assert Continues(a.flights[a.pending[q.key]], b.flights[a.pending[q.key]]);
      case Executed(e) => ProducedExtends(a.flights, b.flights, q.key, q.body, e);
      case Replayed(e) => ProducedExtends(a.flights, b.flights, q.key, q.body, e);
      case Refused => OtherExtends(a.flights, b.flights, q.key, q.body);
      case _ =>
    }
  }

  /** Taking ownership of a key that is neither cached nor pending. */
  function Owned(s: System, r: nat): System
    requires r in s.requests
  {
    var q, c := s.requests[r], s.cache;
    SetPhase(s, r, Executing).(
      cache := Cache(c.lru, c.pending[q.key := |c.flights|], c.flights + [Flight(q.key, q.body, r, None)]))
  }

  lemma OwnKeeps(s: System, r: nat)
    requires Invariant(s) && r in s.requests && s.requests[r].phase == Arrived
    requires s.requests[r].key !in s.cache.pending && s.requests[r].key !in s.cache.lru.entries
    ensures Invariant(Owned(s, r))
  {
    var t, key := Owned(s, r), s.requests[r].key;
    forall x | x in t.requests ensures RequestOk(t.cache, x, t.requests[x]) {
      if x != r {
        assert RequestOk(s.cache, x, s.requests[x]);
        RequestExtends(s.cache, t.cache, x, s.requests[x]);
      }
    }
    forall k | k in t.cache.pending ensures PendingOk(t, k) { if k != key { assert PendingOk(s, k); } }
    forall f | 0 <= f < |t.cache.flights| ensures FlightOk(t, f) { if f < |s.cache.flights| { assert FlightOk(s, f); } }
    forall k | k in t.cache.lru.entries ensures CachedOk(t.cache, k) {
      assert CachedOk(s.cache, k);
      ProducedExtends(s.cache.flights, t.cache.flights, k, s.cache.lru.entries[k].body, s.cache.lru.entries[k]);
    }
  }

  lemma AcquireKeeps(s: System, r: nat, now: int)
    requires Invariant(s) && r in s.requests && s.requests[r].phase == Arrived
    ensures Invariant(Next(s, Acquire(r, now)))
  {
    var q := s.requests[r];
    ForgottenKeeps(s.cache.lru, q.key);
    var t := s.(cache := s.cache.(lru := Forgotten(s.cache.lru, q.key)));
    LruShrinks(s, t.cache.lru);
    match Judge(s.cache, q.key, q.body, now) {
      case Clash =>
        ClashIsOther(s, q, now);
        PassiveChanges(s, r, q.(phase := Refused));
      case Hit(e) =>
        TouchedKeeps(s.cache.lru, q.key);
        assert CachedOk(s.cache, q.key);
        PassiveChanges(s, r, q.(phase := Replayed(e)));
        var u := SetPhase(s, r, Replayed(e));
        LruShrinks(u, Touched(s.cache.lru, q.key));
      case Wait(f) =>
        assert PendingOk(s, q.key);
        PassiveChanges(t, r, q.(phase := Waiting(f)));
      case Own =>
        OwnKeeps(t, r);
    }
  }

  lemma ClashIsOther(s: System, q: Request, now: int)
    requires Invariant(s) && Judge(s.cache, q.key, q.body, now) == Clash
    ensures HasOther(s.cache.flights, q.key, q.body)
  {
    assert CachedOk(s.cache, q.key);
    var e := s.cache.lru.entries[q.key];
    var f :| IsSource(s.cache.flights, f, q.key, e.body, e);
    assert IsOther(s.cache.flights, f, q.key, q.body);
  }

  lemma WakeKeeps(s: System, r: nat)
    requires Invariant(s) && CanWake(s, r)
    ensures Invariant(Next(s, Wake(r)))
  {
    var q := s.requests[r];
    var f := q.phase.flight;
    var g := s.cache.flights[f];
    assert RequestOk(s.cache, r, q) && FlightOk(s, f);
    if g.body == q.body {
      assert IsSource(s.cache.flights, f, q.key, q.body, g.entry.value);
    } else {
      assert IsOther(s.cache.flights, f, q.key, q.body);
    }
    PassiveChanges(s, r, q.(phase := PhaseOnWake(q, g)));
  }

  lemma CompleteKeeps(s: System, r: nat, response: Response, now: int)
    requires Invariant(s) && r in s.requests && s.requests[r].phase == Executing
    ensures Invariant(Next(s, Complete(r, response, now)))
  {
    var q, t := s.requests[r], Next(s, Complete(r, response, now));
    var e := MakeEntry(q.body, response, now);
    assert RequestOk(s.cache, r, q) && PendingOk(s, q.key);
    assert PendingInRange(s.cache) by {
      forall k | k in s.cache.pending ensures s.cache.pending[k] < |s.cache.flights| { assert PendingOk(s, k); }
    }
    var f := s.cache.pending[q.key];
    assert Extends(s.cache.flights, t.cache.flights);
    assert IsSource(t.cache.flights, f, q.key, q.body, e);
    forall x | x in t.requests ensures RequestOk(t.cache, x, t.requests[x]) {
      if x != r {
        assert RequestOk(s.cache, x, s.requests[x]);
        RequestExtends(s.cache, t.cache, x, s.requests[x]);
      }
    }
    StoredKeeps(s.cache.lru, q.key, e);
    forall k | k in t.cache.pending ensures PendingOk(t, k) { assert PendingOk(s, k); }
    forall g | 0 <= g < |t.cache.flights| ensures FlightOk(t, g) { assert FlightOk(s, g); }
    forall k | k in t.cache.lru.entries ensures CachedOk(t.cache, k) {
      if k in s.cache.lru.entries && (k != q.key || !IsCacheable(response.status)) {
        assert CachedOk(s.cache, k);
        ProducedExtends(s.cache.flights, t.cache.flights, k, s.cache.lru.entries[k].body, s.cache.lru.entries[k]);
      }
    }
  }

  lemma NextKeeps(s: System, step: Step)
    requires Invariant(s)
    ensures Invariant(Next(s, step))
  {
    match step {
      case Arrive(r, key, body) => if r !in s.requests { PassiveChanges(s, r, Request(key, body, Arrived)); }
      case Acquire(r, now) => if r in s.requests && s.requests[r].phase == Arrived { AcquireKeeps(s, r, now); }
      case Wake(r) => if CanWake(s, r) { WakeKeeps(s, r); }
      case Cancel(r) =>
        if r in s.requests && s.requests[r].phase.Waiting? { PassiveChanges(s, r, s.requests[r].(phase := Aborted)); }
      case Complete(r, response, now) =>
        if r in s.requests && s.requests[r].phase == Executing { CompleteKeeps(s, r, response, now); }
      case Sweep(now, left) => if IsSwept(s.cache.lru, left, now) { LruShrinks(s, left); }
    }
  }

  lemma {:induction false} RunKeeps(steps: seq<Step>)
    ensures Invariant(Run(steps))
  {
    if steps != [] {
      RunKeeps(steps[..|steps| - 1]);
      NextKeeps(Run(steps[..|steps| - 1]), steps[|steps| - 1]);
    }
  }

  // ---------- what it means ----------

  /** At any moment a key has at most one request executing, and it is the one that is pending. */
  lemma OneOwner(steps: seq<Step>, a: nat, b: nat)
    requires a in Run(steps).requests && b in Run(steps).requests
    requires Run(steps).requests[a].phase == Executing && Run(steps).requests[b].phase == Executing
    requires Run(steps).requests[a].key == Run(steps).requests[b].key
    ensures a == b && Run(steps).requests[a].key in Run(steps).cache.pending
  {
    RunKeeps(steps);
    var s := Run(steps);
    assert RequestOk(s.cache, a, s.requests[a]) && RequestOk(s.cache, b, s.requests[b]);
  }

  /** A pending key has an executing owner and is never also cached; the LRU is a bijection of at most a thousand
      keys. */
  lemma PendingNotCached(steps: seq<Step>, k: string)
    ensures ValidLru(Run(steps).cache.lru) && |Run(steps).cache.lru.order| <= 1000
    ensures k in Run(steps).cache.pending ==> k !in Run(steps).cache.lru.entries
    ensures k in Run(steps).cache.pending ==>
      exists r :: r in Run(steps).requests && Run(steps).requests[r].key == k
                  && Run(steps).requests[r].phase == Executing
  {
    RunKeeps(steps);
    var s := Run(steps);
    if k in s.cache.pending { assert PendingOk(s, k); }
  }

  /** An arrived request meets a live entry of its key: it gets that entry if the bodies agree and is refused if not,
      and no execution starts. */
  lemma LiveEntryAnswers(steps: seq<Step>, r: nat, now: int)
    requires var s := Run(steps); r in s.requests && s.requests[r].phase == Arrived
    requires var s := Run(steps); var k := s.requests[r].key;
             k in s.cache.lru.entries && s.cache.lru.entries[k].expiresAt > now
    ensures var s := Run(steps); var q := s.requests[r]; var e := s.cache.lru.entries[q.key];
            var s' := Run(steps + [Acquire(r, now)]);
            && s'.cache.flights == s.cache.flights && s'.cache.pending == s.cache.pending
            && s'.cache.lru.entries == s.cache.lru.entries
            && s'.requests == s.requests[r := q.(phase := if e.body == q.body then Replayed(e) else Refused)]
  {
    assert (steps + [Acquire(r, now)])[..|steps|] == steps;
  }

  /** Without one it waits for the execution of its key that is under way, or else becomes its executor. */
  lemma NoLiveEntryExecutes(steps: seq<Step>, r: nat, now: int)
    requires var s := Run(steps); r in s.requests && s.requests[r].phase == Arrived
    requires var s := Run(steps); var k := s.requests[r].key;
             k !in s.cache.lru.entries || s.cache.lru.entries[k].expiresAt <= now
    ensures var s := Run(steps); var q := s.requests[r]; var s' := Run(steps + [Acquire(r, now)]);
            && q.key !in s'.cache.lru.entries
            && (q.key in s.cache.pending ==>
                  s'.requests[r].phase == Waiting(s.cache.pending[q.key]) && s'.cache.flights == s.cache.flights)
            && (q.key !in s.cache.pending ==>
                  s'.requests[r].phase == Executing
                  && s'.cache.flights == s.cache.flights + [Flight(q.key, q.body, r, None)])
  {
    RunKeeps(steps);
    assert (steps + [Acquire(r, now)])[..|steps|] == steps;
    ForgottenKeeps(Run(steps).cache.lru, Run(steps).requests[r].key);
  }

  /** So an acquisition replays only entries that have not expired. */
  lemma ReplaysAreLive(steps: seq<Step>, r: nat, now: int)
    requires var s := Run(steps); r in s.requests && s.requests[r].phase == Arrived
    ensures var q := Run(steps + [Acquire(r, now)]).requests[r];
            r in Run(steps + [Acquire(r, now)]).requests && (q.phase.Replayed? ==> q.phase.entry.expiresAt > now)
  {
    assert (steps + [Acquire(r, now)])[..|steps|] == steps;
  }

  /** A response is cached with its execution's body for five minutes after a 200, 400 or 422, for thirty seconds after
      a 404, and not at all otherwise. */
  lemma CachedFor(steps: seq<Step>, r: nat, response: Response, now: int)
    requires var s := Run(steps); r in s.requests && s.requests[r].phase == Executing
    ensures var q := Run(steps).requests[r]; var l := Run(steps + [Complete(r, response, now)]).cache.lru;
            && (response.status in {200, 400, 422} ==>
                  q.key in l.entries && l.entries[q.key] == Entry(response, q.body, now + 300_000_000_000))
            && (response.status == 404 ==>
                  q.key in l.entries && l.entries[q.key] == Entry(response, q.body, now + 30_000_000_000))
            && (response.status !in {200, 400, 404, 422} ==> q.key !in l.entries)
  {
    RunKeeps(steps);
    var s := Run(steps);
    var q := s.requests[r];
    assert (steps + [Complete(r, response, now)])[..|steps|] == steps;
    assert RequestOk(s.cache, r, q) && PendingOk(s, q.key);
    assert PendingInRange(s.cache) by {
      forall k | k in s.cache.pending ensures s.cache.pending[k] < |s.cache.flights| { assert PendingOk(s, k); }
    }
    StoredKeeps(s.cache.lru, q.key, MakeEntry(q.body, response, now));
  }

  /** A waiter that wakes gets its execution's entry if the bodies agree and is refused if not. */
  lemma WakerAnswers(steps: seq<Step>, r: nat)
    requires CanWake(Run(steps), r)
    ensures var s := Run(steps); var q := s.requests[r]; var f := s.cache.flights[q.phase.flight];
            Run(steps + [Wake(r)]) ==
            s.(requests := s.requests[r := q.(phase := if f.body == q.body then Replayed(f.entry.value) else Refused)])
  {
    assert (steps + [Wake(r)])[..|steps|] == steps;
  }

  predicate IsExecutionOf(s: System, r: nat, key: string, body: string, e: Entry) {
    HasPhase(s, r, key, body, Executed(e))
  }

  /** Every entry handed to a request was produced by a request that executed the same key with the same body. */
  lemma ReplaysMatch(steps: seq<Step>, r: nat)
    requires r in Run(steps).requests && Run(steps).requests[r].phase.Replayed?
    ensures var s := Run(steps); var q := s.requests[r];
            exists x :: IsExecutionOf(s, x, q.key, q.body, q.phase.entry)
  {
    RunKeeps(steps);
    var s := Run(steps);
    var q := s.requests[r];
    assert RequestOk(s.cache, r, q);
    var f :| IsSource(s.cache.flights, f, q.key, q.body, q.phase.entry);
    assert FlightOk(s, f);
    assert IsExecutionOf(s, s.cache.flights[f].owner, q.key, q.body, q.phase.entry);
  }

  /** A request is refused only if another one executes or executed the same key with a different body. */
  lemma RefusalsJustified(steps: seq<Step>, r: nat)
    requires r in Run(steps).requests && Run(steps).requests[r].phase == Refused
    ensures exists x :: x in Run(steps).requests && Run(steps).requests[x].key == Run(steps).requests[r].key
              && Run(steps).requests[x].body != Run(steps).requests[r].body
              && (Run(steps).requests[x].phase.Executing? || Run(steps).requests[x].phase.Executed?)
  {
    RunKeeps(steps);
    var s := Run(steps);
    var q := s.requests[r];
    assert RequestOk(s.cache, r, q);
    var f :| IsOther(s.cache.flights, f, q.key, q.body);
    assert FlightOk(s, f);
    if s.cache.flights[f].entry.None? { assert PendingOk(s, q.key); }
    assert s.cache.flights[f].owner in s.requests;
  }

  /** A waiter is never stranded: its execution has ended, so it can wake, or its owner is still executing. */
  lemma WaitersProgress(steps: seq<Step>, r: nat)
    requires r in Run(steps).requests && Run(steps).requests[r].phase.Waiting?
    ensures CanWake(Run(steps), r)
            || exists x :: x in Run(steps).requests && x != r
                 && Run(steps).requests[x].key == Run(steps).requests[r].key
                 && Run(steps).requests[x].phase == Executing
  {
    RunKeeps(steps);
    var s := Run(steps);
    var q := s.requests[r];
    assert RequestOk(s.cache, r, q);
    var f := q.phase.flight;
    assert FlightOk(s, f);
    if s.cache.flights[f].entry.None? {
      assert PendingOk(s, q.key);
      assert s.cache.flights[f].owner in s.requests;
    }
  }
}
