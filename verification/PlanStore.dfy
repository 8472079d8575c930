/** The store of plan progress logs: at most a hundred plans, each with a capped event log. */
module PlanStore {
  import opened Ordering
  import opened Events
  import opened PlanRef

  const MAX_PLANS := 100
  const MAX_LOG := 21
  const TTL: int := 300_000_000_000

  datatype StepError = RefResolveFailed | ToolError(code: string, retryable: bool)

  datatype StepResult = StepResult(id: string, index: nat, tool: string, result: Option<Json>, error: Option<StepError>)

  datatype PlanStatus = Running | Complete | Partial | Failed

  datatype PlanResult = PlanResult(steps: seq<StepResult>, completed: nat, total: nat, status: PlanStatus,
                                   haltedAt: Option<nat>, error: Option<StepError>)

  datatype PlanEvent =
    | StepStart(index: nat, id: string, tool: string)
    | StepComplete(index: nat, id: string, tool: string, error: Option<StepError>)
    | Done(status: PlanStatus, completed: nat, total: nat, haltedAt: Option<nat>)

  datatype PlanEntry = PlanEntry(
    status: PlanStatus, result: Option<PlanResult>, events: seq<PlanEvent>, completedAt: Option<int>)

  datatype Store = Store(entries: map<string, PlanEntry>, order: seq<string>, closed: bool)

  ghost predicate ValidStore(s: Store) {
    NoDuplicates(s.order) && Elements(s.order) == s.entries.Keys && |s.entries| <= MAX_PLANS
  }

  // ---------- operations on values ----------

  function DoneEvent(r: PlanResult): PlanEvent { Done(r.status, r.completed, r.total, r.haltedAt) }

  function Append(log: seq<PlanEvent>, e: PlanEvent): seq<PlanEvent> { if |log| < MAX_LOG then log + [e] else log }

  function Published(s: Store, id: string, e: PlanEvent): Store {
    if id !in s.entries then s
    else s.(entries := s.entries[id := s.entries[id].(events := Append(s.entries[id].events, e))])
  }

  function Completed(s: Store, id: string, r: PlanResult, now: int): Store {
    if id !in s.entries then s
    else s.(
      entries := s.entries[id := PlanEntry(r.status, Some(r), Append(s.entries[id].events, DoneEvent(r)), Some(now))])
  }

  function Deleted(s: Store, id: string): Store {
    if id !in s.entries then s else s.(entries := s.entries - {id}, order := Without(s.order, id))
  }

  predicate IsRunning(s: Store, id: string) { id in s.entries && s.entries[id].status.Running? }

  /** The plan that makes room: the oldest one that is not running, or the oldest if all run. */
  predicate IsVictim(s: Store, id: string) {
    && id in s.order
    && ((forall x :: x in s.order ==> IsRunning(s, x)) ==> id == s.order[0])
    && (!(forall x :: x in s.order ==> IsRunning(s, x)) ==>
          !IsRunning(s, id) && forall x :: x in Before(s.order, id) ==> IsRunning(s, x))
  }

  function Before(order: seq<string>, id: string): seq<string> {
    if order == [] || order[0] == id then [] else [order[0]] + Before(order[1..], id)
  }

  /** The first plan in the order that is not running. */
  function FirstFinished(s: Store, order: seq<string>): Option<string> {
    if order == [] then None else if !IsRunning(s, order[0]) then Some(order[0]) else FirstFinished(s, order[1..])
  }

  function Victim(s: Store): Option<string> {
    match FirstFinished(s, s.order)
    case Some(id) => Some(id)
    case None => if s.order == [] then None else Some(s.order[0])
  }

  function Evicted(s: Store): Store {
    if |s.entries| < MAX_PLANS || Victim(s).None? then s else Deleted(s, Victim(s).value)
  }

  function Created(s: Store, id: string): Store {
    if s.closed then s else
      var t := Evicted(s);
      t.(entries := t.entries[id := PlanEntry(Running, None, [], None)], order := t.order + [id])
  }

  function Expired(s: Store, id: string, now: int): Store {
    if id in s.entries && s.entries[id].completedAt.Some? && now - s.entries[id].completedAt.value > TTL
    then Deleted(s, id) else s
  }

  // ---------- the store stays well formed ----------

  lemma FewerEntries<V>(m: map<string, V>, id: string)
    requires id in m
    ensures |m - {id}| == |m| - 1 && (m - {id}).Keys == m.Keys - {id}
  {
    assert (m - {id}).Keys == m.Keys - {id};
    assert |m| == |m.Keys| && |m - {id}| == |(m - {id}).Keys|;
  }

  lemma DeletedKeeps(s: Store, id: string)
    requires ValidStore(s)
    ensures ValidStore(Deleted(s, id)) && Deleted(s, id).entries == s.entries - {id}
    ensures id in s.entries ==> |Deleted(s, id).entries| == |s.entries| - 1
  {
    if id in s.entries {
      WithoutElements(s.order, id);
      FewerEntries(s.entries, id);
    } else {
      assert s.entries - {id} == s.entries;
    }
  }

  lemma {:induction false} FirstFinishedFacts(s: Store, order: seq<string>)
    ensures FirstFinished(s, order).None? <==> forall x :: x in order ==> IsRunning(s, x)
    ensures FirstFinished(s, order).Some? ==>
      var id := FirstFinished(s, order).value;
      id in order && !IsRunning(s, id) && forall x :: x in Before(order, id) ==> IsRunning(s, x)
  {
    if order != [] {
      assert order == [order[0]] + order[1..];
      FirstFinishedFacts(s, order[1..]);
    }
  }

  lemma VictimFacts(s: Store)
    requires ValidStore(s) && |s.entries| >= MAX_PLANS
    ensures Victim(s).Some? && IsVictim(s, Victim(s).value) && Victim(s).value in s.entries
  {
    FirstFinishedFacts(s, s.order);
    assert |s.entries.Keys| == |s.entries|;
    assert s.order != [];
    assert Victim(s).value in Elements(s.order);
  }

  /** Eviction by position: the first finished plan, or the head when there is none. */
  lemma EvictedAt(s: Store, i: nat)
    requires ValidStore(s) && |s.entries| >= MAX_PLANS
    requires i < |s.order| ==>
      FirstFinished(s, s.order) == Some(s.order[i]) || (FirstFinished(s, s.order).None? && i == 0)
    requires i < |s.order| || i == 0
    ensures i < |s.order|
    ensures EvictsAt(s, i)
  {
    VictimFacts(s);
    DeletedKeeps(s, Victim(s).value);
    assert s.order[i] !in s.order[..i];
    WithoutAt(s.order, i, s.order[i]);
  }

  ghost predicate EvictsAt(s: Store, i: nat)
    requires i < |s.order|
  {
    var t := Store(s.entries - {s.order[i]}, s.order[..i] + s.order[i + 1..], s.closed);
    Evicted(s) == t && ValidStore(t) && |t.entries| < MAX_PLANS
  }

  lemma EvictedKeeps(s: Store)
    requires ValidStore(s)
    ensures ValidStore(Evicted(s)) && |Evicted(s).entries| < MAX_PLANS && Evicted(s).entries.Keys <= s.entries.Keys
  {
    if |s.entries| >= MAX_PLANS {
      VictimFacts(s);
      DeletedKeeps(s, Victim(s).value);
    }
  }

  lemma CreatedKeeps(s: Store, id: string)
    requires ValidStore(s) && id !in s.entries
    ensures ValidStore(Created(s, id))
  {
    if !s.closed {
      EvictedKeeps(s);
      var t, u := Evicted(s), Created(s, id);
      assert id !in Elements(t.order);
      assert Elements(t.order + [id]) == Elements(t.order) + {id};
      assert NoDuplicates(t.order + [id]);
      assert u.entries.Keys == t.entries.Keys + {id};
      assert |u.entries| == |u.entries.Keys| && |t.entries| == |t.entries.Keys|;
    }
  }

  // ---------- by fields ----------

  /** Completion records status, result and time, and appends done below the cap; other plans are untouched. */
  lemma CompletedEntry(s: Store, id: string, r: PlanResult, now: int)
    requires id in s.entries
    ensures var t := Completed(s, id, r, now);
      && t.entries.Keys == s.entries.Keys && t.order == s.order && t.closed == s.closed
      && t.entries[id].status == r.status && t.entries[id].result == Some(r) && t.entries[id].completedAt == Some(now)
      && (|s.entries[id].events| < 21 ==>
            t.entries[id].events == s.entries[id].events + [Done(r.status, r.completed, r.total, r.haltedAt)])
      && forall x :: x in s.entries && x != id ==> t.entries[x] == s.entries[x]
  {
  }

  /** A new plan is running, with an empty log, and the last in order; a closed store takes none. */
  lemma CreatedEntry(s: Store, id: string)
    requires ValidStore(s) && id !in s.entries
    ensures s.closed ==> Created(s, id) == s
    ensures !s.closed ==>
      var t := Created(s, id);
      && id in t.entries && t.entries[id] == PlanEntry(Running, None, [], None)
      && t.order != [] && t.order[|t.order| - 1] == id
      && (|s.entries| < 100 ==> t.order == s.order + [id] && t.entries == s.entries[id := t.entries[id]])
  {
  }

  /** A plan is read for five minutes after it completed, and then deleted; a running one is always read. */
  lemma ReadWithin(s: Store, id: string, now: int)
    requires ValidStore(s) && id in s.entries
    ensures s.entries[id].completedAt == None ==> Expired(s, id, now) == s
    ensures s.entries[id].completedAt.Some? && now <= s.entries[id].completedAt.value + 300_000_000_000 ==>
      Expired(s, id, now) == s
    ensures s.entries[id].completedAt.Some? && now > s.entries[id].completedAt.value + 300_000_000_000 ==>
      Expired(s, id, now).entries == s.entries - {id}
  {
  }

  // ---------- runs ----------

  datatype Op =
    | Create(id: string)
    | Publish(id: string, event: PlanEvent)
    | Finish(id: string, result: PlanResult, now: int)
    | Read(id: string, now: int)
    | Close

  function Apply(s: Store, op: Op): Store {
    match op
    case Create(id) => Created(s, id)
    case Publish(id, e) => Published(s, id, e)
    case Finish(id, r, now) => Completed(s, id, r, now)
    case Read(id, now) => Expired(s, id, now)
    case Close => s.(closed := true)
  }

  function Run(s: Store, ops: seq<Op>): Store {
    if ops == [] then s else Apply(Run(s, ops[..|ops| - 1]), ops[|ops| - 1])
  }

  /** Every plan is created under a new id. */
  ghost predicate FreshIds(s: Store, ops: seq<Op>) {
    && (forall i :: 0 <= i < |ops| && ops[i].Create? ==> ops[i].id !in s.entries)
    && (forall h, i :: 0 <= h < i < |ops| && ops[h].Create? && ops[i].Create? ==> ops[h].id != ops[i].id)
  }

  lemma ApplyKeeps(s: Store, op: Op)
    requires ValidStore(s) && (op.Create? ==> op.id !in s.entries)
    ensures ValidStore(Apply(s, op))
    ensures Apply(s, op).entries.Keys <= s.entries.Keys + (if op.Create? then {op.id} else {})
  {
    match op {
      case Create(id) => CreatedKeeps(s, id); EvictedKeeps(s);
      case Publish(id, e) => assert Apply(s, op).entries.Keys == s.entries.Keys;
      case Finish(id, r, now) => assert Apply(s, op).entries.Keys == s.entries.Keys;
      case Read(id, now) => DeletedKeeps(s, id);
      case Close =>
    }
  }

  ghost predicate NeverCreated(ops: seq<Op>, id: string) {
    forall i :: 0 <= i < |ops| && ops[i].Create? ==> ops[i].id != id
  }

  lemma CreatedOnce(s: Store, ops: seq<Op>)
    requires FreshIds(s, ops) && ops != [] && ops[|ops| - 1].Create?
    ensures NeverCreated(ops[..|ops| - 1], ops[|ops| - 1].id) && ops[|ops| - 1].id !in s.entries
    ensures FreshIds(s, ops[..|ops| - 1])
  {
    var init := ops[..|ops| - 1];
    forall i | 0 <= i < |init| && init[i].Create? ensures init[i].id != ops[|ops| - 1].id { assert ops[i] == init[i]; }
  }

  /** In every run the order lists exactly the stored plans, each once, and there are at most a hundred. */
  lemma {:induction false} RunKeeps(s: Store, ops: seq<Op>)
    requires ValidStore(s) && FreshIds(s, ops)
    ensures ValidStore(Run(s, ops)) && |Run(s, ops).entries| <= 100
    ensures forall id :: id in Run(s, ops).entries && id !in s.entries ==> !NeverCreated(ops, id)
  {
    if ops != [] {
      var init, op := ops[..|ops| - 1], ops[|ops| - 1];
      RunKeeps(s, init);
      var t := Run(s, init);
      if op.Create? { CreatedOnce(s, ops); }
      ApplyKeeps(t, op);
      forall id | id in Run(s, ops).entries && id !in s.entries ensures !NeverCreated(ops, id) {
        if id in t.entries {
          var i :| 0 <= i < |init| && init[i].Create? && init[i].id == id;
          assert ops[i].Create? && ops[i].id == id;
        } else {
          assert ops[|ops| - 1].Create? && ops[|ops| - 1].id == id;
        }
      }
    }
  }

  /** The events one plan sends to the store in a run, in order. */
  function Sent(ops: seq<Op>, id: string): seq<PlanEvent> {
    if ops == [] then [] else
      Sent(ops[..|ops| - 1], id)
      + match ops[|ops| - 1]
        case Publish(x, e) => (if x == id then [e] else [])
        case Finish(x, r, _) => (if x == id then [DoneEvent(r)] else [])
        case _ => []
  }

  function Capped(log: seq<PlanEvent>): seq<PlanEvent> { if |log| <= MAX_LOG then log else log[..MAX_LOG] }

  lemma AppendCapped(log: seq<PlanEvent>, e: PlanEvent)
    ensures Append(Capped(log), e) == Capped(log + [e])
  {
  }

  /** Apply, seen from one plan that stays stored. */
  lemma ApplyEntry(s: Store, op: Op, id: string)
    requires ValidStore(s) && id in Apply(s, op).entries && (op.Create? ==> op.id != id && op.id !in s.entries)
    ensures id in s.entries
    ensures Apply(s, op).entries[id].events ==
      match op
      case Publish(x, e) => if x == id then Append(s.entries[id].events, e) else s.entries[id].events
      case Finish(x, r, _) => if x == id then Append(s.entries[id].events, DoneEvent(r)) else s.entries[id].events
      case _ => s.entries[id].events
  {
  }

  /** While a plan stays stored its log is what it sent, cut at the cap, whatever the other plans do meanwhile. */
  lemma {:induction false} LogIsSent(s: Store, ops: seq<Op>, id: string)
    requires ValidStore(s) && FreshIds(s, ops) && NeverCreated(ops, id) && id in Run(s, ops).entries
    ensures id in s.entries
    ensures |s.entries[id].events| == 0 ==> Run(s, ops).entries[id].events == Capped(Sent(ops, id))
  {
    if ops != [] {
      var init, op := ops[..|ops| - 1], ops[|ops| - 1];
      RunKeeps(s, init);
      var t := Run(s, init);
      if op.Create? { CreatedOnce(s, ops); }
      ApplyEntry(t, op, id);
      LogIsSent(s, init, id);
      if op.Publish? && op.id == id { AppendCapped(Sent(init, id), op.event); }
      if op.Finish? && op.id == id { AppendCapped(Sent(init, id), DoneEvent(op.result)); }
    }
  }

  // ---------- the store object ----------

  class PlanStore {
    var entries: map<string, PlanEntry>
    var order: seq<string>
    var closed: bool

    ghost function State(): Store
      reads this
    {
      Store(entries, order, closed)
    }

    ghost predicate Valid()
      reads this
    {
      ValidStore(State())
    }

    constructor ()
      ensures Valid() && State() == Store(map[], [], false)
    {
      entries, order, closed := map[], [], false;
    }

    method Publish(id: string, e: PlanEvent)
      requires Valid()
      modifies this
      ensures Valid() && State() == Published(old(State()), id, e)
    {
      ApplyKeeps(State(), Op.Publish(id, e));
      if id !in entries { return; }
      if |entries[id].events| < MAX_LOG {
        entries := entries[id := entries[id].(events := entries[id].events + [e])];
      } else {
        assert entries == entries[id := entries[id]];
      }
    }

    method Complete(id: string, r: PlanResult, now: int)
      requires Valid()
      modifies this
      ensures Valid() && State() == Completed(old(State()), id, r, now)
    {
      ApplyKeeps(State(), Finish(id, r, now));
      if id !in entries { return; }
      var log := entries[id].events;
      if |log| < MAX_LOG { log := log + [DoneEvent(r)]; }
      entries := entries[id := PlanEntry(r.status, Some(r), log, Some(now))];
    }

    method DeleteLocked(id: string)
      requires Valid()
      modifies this
      ensures Valid() && State() == Deleted(old(State()), id)
    {
      DeletedKeeps(State(), id);
      if id !in entries { return; }
      assert id in Elements(order);
      entries := entries - {id};
      for i := 0 to |order|
        invariant id !in order[..i] && order == old(order)
        invariant entries == old(entries) - {id} && closed == old(closed)
        invariant id in order
      {
        if order[i] == id {
          WithoutAt(order, i, id);
          order := order[..i] + order[i + 1..];
          return;
        }
      }
    }

    /** The position of the plan to remove: the oldest that is not running, or the head when all run. */
    method FindVictim() returns (i: nat, allRun: bool)
      requires Valid() && |entries| >= MAX_PLANS
      ensures i < |order| && EvictsAt(State(), i)
    {
      var found := FindFinished();
      i, allRun := if found.Some? then found.value else 0, found.None?;
      EvictedAt(State(), i);
    }

    method EvictOne() returns (stop: bool)
      requires Valid() && |entries| >= MAX_PLANS
      modifies this
      ensures Valid() && State() == Evicted(old(State())) && |entries| < MAX_PLANS
    {
      var i;
      i, stop := FindVictim();
      ghost var before := State();
      entries, order := entries - {order[i]}, order[..i] + order[i + 1..];
      assert EvictsAt(before, i);
    }

    /** Makes room for one more plan. */
    method EvictLocked()
      requires Valid()
      modifies this
      ensures Valid() && State() == Evicted(old(State())) && |entries| < MAX_PLANS
    {
      ghost var before := State();
      while |entries| >= MAX_PLANS
        invariant Valid() && |entries| <= MAX_PLANS
        invariant State() == if |entries| >= MAX_PLANS then before else Evicted(before)
        decreases |entries|
      {
        var stop := EvictOne();
        if stop { break; }
      }
    }

    /** The position of the oldest plan that is not running. */
    method FindFinished() returns (found: Option<nat>)
      requires Valid()
      ensures found.None? ==> FirstFinished(State(), order).None?
      ensures found.Some? ==> found.value < |order|
      ensures found.Some? ==> FirstFinished(State(), order) == Some(order[found.value])
    {
      for i := 0 to |order|
        invariant FirstFinished(State(), order) == FirstFinished(State(), order[i..])
      {
        assert order[i..][0] == order[i] && order[i..][1..] == order[i + 1..];
        if order[i] !in entries || !entries[order[i]].status.Running? { return Some(i); }
      }
      found := None;
    }

    method Create(id: string)
      requires Valid() && id !in entries
      modifies this
      ensures Valid() && State() == Created(old(State()), id)
    {
      if closed { return; }
      CreatedKeeps(State(), id);
      EvictLocked();
      entries := entries[id := PlanEntry(Running, None, [], None)];
      order := order + [id];
    }

    method Get(id: string, now: int) returns (found: Option<PlanEntry>)
      requires Valid()
      modifies this
      ensures Valid() && State() == Expired(old(State()), id, now)
      ensures found == if id in entries then Some(entries[id]) else None
    {
      if id !in entries { return None; }
      if entries[id].completedAt.Some? && now - entries[id].completedAt.value > TTL {
        DeleteLocked(id);
        return None;
      }
      found := Some(entries[id]);
    }
  }
}
