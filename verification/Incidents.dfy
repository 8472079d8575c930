/** The incident engine's lifecycle: derived rows, the cache, the store and the notifications. */
module Incidents {
  import opened Events

  datatype IncidentStatus = Active | Recovering | Resolved

  datatype Family = Family(service: string, step: string, errorCode: string)

  /** The hashed id, taken as injective in environment, family and five-minute bucket. */
  datatype IncidentId = StableId(env: string, family: Family, bucket: int)

  const ID_BUCKET := 300_000_000_000

  function IdFor(env: string, family: Family, startedAt: int): IncidentId {
    StableId(env, family, startedAt / ID_BUCKET)
  }

  datatype Incident = Incident(
    id: IncidentId,
    env: string,
    family: Family,
    status: IncidentStatus,
    startedAt: int,
    updatedAt: int,
    lastSeenAt: int,
    recoveringAt: Option<int>,
    resolvedAt: Option<int>)

  type Table = map<IncidentId, Incident>

  /** A family over its threshold this tick, with the earliest sampled event of the window. */
  datatype Detection = Detection(env: string, family: Family, firstEvent: int)

  datatype DerivedRow = DerivedRow(incident: Incident, existed: bool)

  datatype Notification = Opened(id: IncidentId) | Closed(id: IncidentId)

  /** Two starts have the same id exactly for the same environment, family and five minutes of the clock. */
  lemma SameIdExactly(env: string, family: Family, a: int, env': string, family': Family, b: int)
    ensures IdFor(env, family, a) == IdFor(env', family', b) <==>
            && env == env' && family == family'
            && exists m :: m * 300_000_000_000 <= a < (m + 1) * 300_000_000_000
                           && m * 300_000_000_000 <= b < (m + 1) * 300_000_000_000
  {
    if IdFor(env, family, a) == IdFor(env', family', b) {
      var m := a / ID_BUCKET;
      assert m * 300_000_000_000 <= a < (m + 1) * 300_000_000_000;
    }
  }

  // ---------- one derived row ----------

  predicate OpenFor(inc: Incident, env: string, family: Family) {
    inc.env == env && inc.family == family && !inc.status.Resolved?
  }

  /** What findByFamilyIn may return: some open incident of the family, or none if there is none. */
  ghost predicate IsPrior(seed: Table, d: Detection, prior: Option<Incident>) {
    match prior
    case None => forall id :: id in seed ==> !OpenFor(seed[id], d.env, d.family)
    case Some(p) => (exists id :: id in seed && seed[id] == p) && OpenFor(p, d.env, d.family)
  }

  /** buildIncidentFromSeed: keep the identity of the open incident, or open a new one. */
  function BuildRow(seed: Table, d: Detection, now: int, prior: Option<Incident>): DerivedRow {
    var first := if d.firstEvent < now then d.firstEvent else now;
    var startedAt := if prior.Some? then prior.value.startedAt else first;
    var id := IdFor(d.env, d.family, startedAt);
    if id in seed then
      DerivedRow(Incident(id, d.env, d.family, Active, seed[id].startedAt, now, now, None, None), true)
    else if prior.Some? then
      DerivedRow(Incident(prior.value.id, d.env, d.family, Active, prior.value.startedAt, now, now, None, None), true)
    else
      DerivedRow(Incident(id, d.env, d.family, Active, startedAt, now, now, None, None), false)
  }

  /** deriveMissing for one unseen incident. */
  function MissingRow(inc: Incident, now: int, resolveAfter: int): Option<DerivedRow> {
    match inc.status
    case Active => Some(DerivedRow(inc.(status := Recovering, recoveringAt := Some(now), updatedAt := now), true))
    case Recovering =>
      if now - inc.lastSeenAt >= resolveAfter
      then Some(DerivedRow(inc.(status := Resolved, resolvedAt := Some(now), updatedAt := now), true)) else None
    case Resolved => None
  }

  // ---------- the state and its invariant ----------

  datatype State = State(active: Table, rows: Table, log: seq<Notification>)

  /** An incident's id is the one computed from its own fields. */
  ghost predicate Identified(id: IncidentId, inc: Incident) {
    inc.id == id && id == IdFor(inc.env, inc.family, inc.startedAt)
  }

  ghost predicate OnePerFamily(t: Table) {
    forall i, j :: i in t && j in t && t[i].env == t[j].env && t[i].family == t[j].family ==> i == j
  }

  function Unresolved(rows: Table): Table {
    map id | id in rows && !rows[id].status.Resolved? :: rows[id]
  }

  ghost predicate SeedOk(seed: Table) {
    && (forall id :: id in seed ==> Identified(id, seed[id]) && !seed[id].status.Resolved?)
    && OnePerFamily(seed)
  }

  /** The cache is exactly the store's unresolved rows, one per environment and family. */
  ghost predicate Inv(s: State) {
    SeedOk(s.active) && s.active == Unresolved(s.rows)
  }

  /** A row that fits the cache the tick started from. */
  ghost predicate RowOk(seed: Table, r: DerivedRow) {
    && Identified(r.incident.id, r.incident)
    && (r.existed ==> r.incident.id in seed && r.incident.startedAt == seed[r.incident.id].startedAt)
    && (!r.existed ==> r.incident.status.Active? && NewFamily(seed, r.incident))
  }

  ghost predicate SameFamily(a: Incident, b: Incident) { a.env == b.env && a.family == b.family }

  ghost predicate NewFamily(seed: Table, inc: Incident) {
    inc.id !in seed && forall id :: id in seed ==> !SameFamily(seed[id], inc)
  }

  ghost predicate RowsOk(seed: Table, rows: seq<DerivedRow>) {
    && (forall i :: 0 <= i < |rows| ==> RowOk(seed, rows[i]))
    && (forall i, j :: 0 <= i < j < |rows| ==> !SameFamily(rows[i].incident, rows[j].incident))
  }

  // ---------- a tick's rows ----------

  ghost predicate DistinctFamilies(ds: seq<Detection>) {
    forall i, j :: 0 <= i < j < |ds| ==> ds[i].family != ds[j].family
  }

  function SeenIds(found: seq<DerivedRow>): set<IncidentId> { set r | r in found :: r.incident.id }

  ghost predicate IsFound(seed: Table, d: Detection, now: int, r: DerivedRow) {
    exists prior :: IsPrior(seed, d, prior) && r == BuildRow(seed, d, now, prior)
  }

  /** found: one row per detection. missing: the transitions of the unseen incidents, in any order. */
  ghost predicate Derives(resolveAfter: int, seed: Table, ds: seq<Detection>, now: int,
                          found: seq<DerivedRow>, missing: seq<DerivedRow>) {
    && |found| == |ds|
    && (forall i :: 0 <= i < |ds| ==> IsFound(seed, ds[i], now, found[i]))
    && (forall i, j :: 0 <= i < j < |missing| ==> missing[i].incident.id != missing[j].incident.id)
    && (forall r :: r in missing <==> exists id :: IsMissing(resolveAfter, seed, SeenIds(found), now, id, r))
  }

  ghost predicate IsMissing(resolveAfter: int, seed: Table, seen: set<IncidentId>, now: int, id: IncidentId,
                            r: DerivedRow) {
    id in seed && id !in seen && MissingRow(seed[id], now, resolveAfter) == Some(r)
  }

  lemma BuildRowOk(seed: Table, d: Detection, now: int, prior: Option<Incident>)
    requires SeedOk(seed) && IsPrior(seed, d, prior)
    ensures var r := BuildRow(seed, d, now, prior);
      && RowOk(seed, r) && r.incident.env == d.env && r.incident.family == d.family
      && (r.existed <==> prior.Some?)
  {
    if prior.None? {
      var first := if d.firstEvent < now then d.firstEvent else now;
      var id := IdFor(d.env, d.family, first);
      assert id in seed ==> Identified(id, seed[id]);
    }
  }

  lemma MissingRowOk(resolveAfter: int, seed: Table, seen: set<IncidentId>, now: int, id: IncidentId, r: DerivedRow)
    requires SeedOk(seed) && IsMissing(resolveAfter, seed, seen, now, id, r)
    ensures RowOk(seed, r) && r.incident.id == id && SameFamily(r.incident, seed[id]) && r.existed
  {
  }

  /** Every tick emits rows that fit the cache, no two for the same family: in particular distinct ids. */
  lemma DerivedRowsOk(resolveAfter: int, seed: Table, ds: seq<Detection>, now: int, found: seq<DerivedRow>,
                      missing: seq<DerivedRow>)
    requires SeedOk(seed) && DistinctFamilies(ds) && Derives(resolveAfter, seed, ds, now, found, missing)
    ensures RowsOk(seed, found + missing)
  {
    var rows := found + missing;
    forall i | 0 <= i < |found| ensures RowOk(seed, found[i]) && found[i].incident.family == ds[i].family {
      assert IsFound(seed, ds[i], now, found[i]);
      var prior :| IsPrior(seed, ds[i], prior) && found[i] == BuildRow(seed, ds[i], now, prior);
      BuildRowOk(seed, ds[i], now, prior);
    }
    forall i | 0 <= i < |missing|
      ensures RowOk(seed, missing[i]) && missing[i].incident.id in seed && missing[i].incident.id !in SeenIds(found)
    {
      assert missing[i] in missing;
      var id :| IsMissing(resolveAfter, seed, SeenIds(found), now, id, missing[i]);
      MissingRowOk(resolveAfter, seed, SeenIds(found), now, id, missing[i]);
    }
    forall i, j | 0 <= i < j < |rows| ensures !SameFamily(rows[i].incident, rows[j].incident) {
      if j >= |found| {
        var m := missing[j - |found|];
        if i >= |found| {
          TwoMissing(seed, missing[i - |found|], m);
        } else {
          assert found[i] in found;
          FoundThenMissing(seed, found[i], m);
        }
      }
    }
  }

  lemma TwoMissing(seed: Table, a: DerivedRow, b: DerivedRow)
    requires SeedOk(seed) && RowOk(seed, a) && RowOk(seed, b) && a.incident.id in seed && b.incident.id in seed
    requires a.incident.id != b.incident.id
    ensures !SameFamily(a.incident, b.incident)
  {
  }

  lemma FoundThenMissing(seed: Table, a: DerivedRow, b: DerivedRow)
    requires SeedOk(seed) && RowOk(seed, a) && RowOk(seed, b) && b.incident.id in seed && a.incident.id != b.incident.id
    ensures !SameFamily(a.incident, b.incident)
  {
  }

  // ---------- applying rows ----------

  /** ApplyLive for one row whose Upsert succeeded: store, cache, notification. */
  function ApplyRow(s: State, r: DerivedRow): State {
    var inc := r.incident;
    var rows := s.rows[inc.id := inc];
    match inc.status
    case Resolved => State(s.active - {inc.id}, rows, s.log + [Closed(inc.id)])
    case Recovering => State(s.active[inc.id := inc], rows, s.log)
    case Active => State(s.active[inc.id := inc], rows, if r.existed then s.log else s.log + [Opened(inc.id)])
  }

  function ApplyRows(s: State, rows: seq<DerivedRow>): State {
    if rows == [] then s else ApplyRow(ApplyRows(s, rows[..|rows| - 1]), rows[|rows| - 1])
  }

  lemma ApplyRowKeeps(s: State, r: DerivedRow)
    requires Inv(s) && RowOk(s.active, r)
    ensures Inv(ApplyRow(s, r))
  {
    var s' := ApplyRow(s, r);
    forall id ensures id in s'.active <==> id in Unresolved(s'.rows) {
      assert id in s.active <==> id in Unresolved(s.rows);
    }
    forall id | id in s'.active ensures s'.active[id] == Unresolved(s'.rows)[id] {
      if id != r.incident.id { assert s.active[id] == Unresolved(s.rows)[id]; }
    }
    assert s'.active == Unresolved(s'.rows);
    assert OnePerFamily(s'.active);
  }

  /** Rows that fit the starting cache fit every cache met while applying the others. */
  lemma OtherRowStillOk(s: State, r: DerivedRow, q: DerivedRow)
    requires SeedOk(s.active) && RowOk(s.active, r) && RowOk(s.active, q) && !SameFamily(r.incident, q.incident)
    ensures RowOk(ApplyRow(s, r).active, q)
  {
  }

  lemma {:induction false} RowsStillOk(s: State, rows: seq<DerivedRow>, k: nat)
    requires Inv(s) && RowsOk(s.active, rows) && k <= |rows|
    ensures Inv(ApplyRows(s, rows[..k]))
    ensures forall j :: k <= j < |rows| ==> RowOk(ApplyRows(s, rows[..k]).active, rows[j])
  {
    if k > 0 {
      RowsStillOk(s, rows, k - 1);
      assert rows[..k][..k - 1] == rows[..k - 1];
      var mid := ApplyRows(s, rows[..k - 1]);
      ApplyRowKeeps(mid, rows[k - 1]);
      forall j | k <= j < |rows| ensures RowOk(ApplyRows(s, rows[..k]).active, rows[j]) {
        OtherRowStillOk(mid, rows[k - 1], rows[j]);
      }
    }
  }

  /** None of these rows is about the incident. */
  ghost predicate Untouched(rows: seq<DerivedRow>, id: IncidentId) {
    forall k :: 0 <= k < |rows| ==> rows[k].incident.id != id
  }

  ghost predicate DistinctRows(rows: seq<DerivedRow>) {
    forall i, j :: 0 <= i < j < |rows| ==> rows[i].incident.id != rows[j].incident.id
  }

  lemma {:induction false} ApplyRowsElsewhere(s: State, rows: seq<DerivedRow>, id: IncidentId)
    requires Untouched(rows, id)
    ensures id in ApplyRows(s, rows).active <==> id in s.active
    ensures id in s.active ==> ApplyRows(s, rows).active[id] == s.active[id]
    ensures id in ApplyRows(s, rows).rows <==> id in s.rows
    ensures id in s.rows ==> ApplyRows(s, rows).rows[id] == s.rows[id]
  {
    if rows != [] {
      var init := rows[..|rows| - 1];
      assert Untouched(init, id) by { assert forall k :: 0 <= k < |init| ==> init[k] == rows[k]; }
      ApplyRowsElsewhere(s, init, id);
    }
  }

  /** The row is what store and cache hold for its incident. */
  ghost predicate IsLanded(s: State, inc: Incident) {
    && inc.id in s.rows && s.rows[inc.id] == inc && (inc.id in s.active <==> !inc.status.Resolved?)
    && (inc.id in s.active ==> s.active[inc.id] == inc)
  }

  lemma LandedStays(s: State, inc: Incident, r: DerivedRow)
    requires IsLanded(s, inc) && r.incident.id != inc.id
    ensures IsLanded(ApplyRow(s, r), inc)
  {
  }

  /** Each row of a batch reaches store and cache. */
  lemma {:induction false} ApplyRowsLand(s: State, rows: seq<DerivedRow>, k: nat)
    requires DistinctRows(rows) && k < |rows|
    ensures IsLanded(ApplyRows(s, rows), rows[k].incident)
  {
    var n := |rows| - 1;
    if k < n {
      var init := rows[..n];
      assert DistinctRows(init) by { assert forall k :: 0 <= k < n ==> init[k] == rows[k]; }
      ApplyRowsLand(s, init, k);
      LandedStays(ApplyRows(s, init), rows[k].incident, rows[n]);
    }
  }

  lemma RowIdsDistinct(seed: Table, rows: seq<DerivedRow>)
    requires RowsOk(seed, rows)
    ensures DistinctRows(rows)
  {
    forall i, j | 0 <= i < j < |rows| ensures rows[i].incident.id != rows[j].incident.id {
      assert RowOk(seed, rows[i]) && RowOk(seed, rows[j]);
      assert !SameFamily(rows[i].incident, rows[j].incident);
    }
  }

  // ---------- ticks and runs ----------

  /** One tick; an Upsert failure after the first `applied` rows ends it early. */
  datatype Tick = Tick(ds: seq<Detection>, now: int, found: seq<DerivedRow>, missing: seq<DerivedRow>, applied: nat)

  ghost predicate TickStep(resolveAfter: int, s: State, t: Tick, s': State) {
    && DistinctFamilies(t.ds) && Derives(resolveAfter, s.active, t.ds, t.now, t.found, t.missing)
    && t.applied <= |t.found| + |t.missing|
    && s' == ApplyRows(s, (t.found + t.missing)[..t.applied])
  }

  ghost predicate Run(resolveAfter: int, states: seq<State>, ticks: seq<Tick>) {
    && |states| == |ticks| + 1 && Inv(states[0]) && states[0].log == []
    && forall i :: 0 <= i < |ticks| ==> TickStep(resolveAfter, states[i], ticks[i], states[i + 1])
  }

  /** After every applied row of a tick the cache is the store's unresolved rows, one per family. */
  lemma TickKeeps(resolveAfter: int, s: State, t: Tick, s': State, k: nat)
    requires Inv(s) && TickStep(resolveAfter, s, t, s') && k <= t.applied
    ensures Inv(ApplyRows(s, (t.found + t.missing)[..k])) && Inv(s')
    ensures RowsOk(s.active, (t.found + t.missing)[..t.applied])
  {
    DerivedRowsOk(resolveAfter, s.active, t.ds, t.now, t.found, t.missing);
    RowsStillOk(s, t.found + t.missing, k);
    RowsStillOk(s, t.found + t.missing, t.applied);
  }

  lemma {:induction false} RunKeeps(resolveAfter: int, states: seq<State>, ticks: seq<Tick>, i: nat)
    requires Run(resolveAfter, states, ticks) && i < |states|
    ensures Inv(states[i])
    decreases i
  {
    if i > 0 {
      RunKeeps(resolveAfter, states, ticks, i - 1);
      assert TickStep(resolveAfter, states[i - 1], ticks[i - 1], states[i]);
      TickKeeps(resolveAfter, states[i - 1], ticks[i - 1], states[i], 0);
    }
  }

  function RowAt(t: Tick, k: nat): DerivedRow
    requires k < |t.found| + |t.missing|
  {
    if k < |t.found| then t.found[k] else t.missing[k - |t.found|]
  }

  /** A row is an active sighting stamped with the tick, or the transition of an unseen incident. */
  ghost predicate RowFits(resolveAfter: int, s: State, t: Tick, k: nat)
    requires k < |t.found| + |t.missing|
  {
    var r := RowAt(t, k);
    if k < |t.found| then
      r.incident.status.Active? && r.incident.lastSeenAt == t.now && r.incident.updatedAt == t.now
      && r.incident.recoveringAt.None? && r.incident.resolvedAt.None? && r.incident.id in SeenIds(t.found)
    else
      r.incident.id in s.active && r.incident.id !in SeenIds(t.found)
      && MissingRow(s.active[r.incident.id], t.now, resolveAfter) == Some(r)
  }

  lemma RowKind(resolveAfter: int, s: State, t: Tick, k: nat)
    requires Inv(s) && Derives(resolveAfter, s.active, t.ds, t.now, t.found, t.missing) && k < |t.found| + |t.missing|
    ensures RowFits(resolveAfter, s, t, k)
  {
    if k < |t.found| {
      assert IsFound(s.active, t.ds[k], t.now, t.found[k]);
      var prior :| IsPrior(s.active, t.ds[k], prior) && t.found[k] == BuildRow(s.active, t.ds[k], t.now, prior);
      assert t.found[k] in t.found;
    } else {
      var r := t.missing[k - |t.found|];
      assert r in t.missing;
      var id :| IsMissing(resolveAfter, s.active, SeenIds(t.found), t.now, id, r);
      MissingRowOk(resolveAfter, s.active, SeenIds(t.found), t.now, id, r);
    }
  }

  lemma AppliedRows(resolveAfter: int, s: State, t: Tick, s': State)
    requires Inv(s) && TickStep(resolveAfter, s, t, s')
    ensures DistinctRows((t.found + t.missing)[..t.applied])
  {
    TickKeeps(resolveAfter, s, t, s', 0);
    RowIdsDistinct(s.active, (t.found + t.missing)[..t.applied]);
  }

  /** A row applied in a tick decides its incident's place in store and cache. */
  lemma TickLands(resolveAfter: int, s: State, t: Tick, s': State, k: nat)
    requires Inv(s) && TickStep(resolveAfter, s, t, s') && k < t.applied
    ensures IsLanded(s', RowAt(t, k).incident) && RowFits(resolveAfter, s, t, k) && RowOk(s.active, RowAt(t, k))
  {
    var rows := (t.found + t.missing)[..t.applied];
    assert rows[k] == RowAt(t, k);
    assert DistinctRows(rows) by { AppliedRows(resolveAfter, s, t, s'); }
    assert RowOk(s.active, rows[k]) by { TickKeeps(resolveAfter, s, t, s', 0); }
    RowKind(resolveAfter, s, t, k);
    ApplyRowsLand(s, rows, k);
  }

  /** The applied row about an incident, or -1: then the tick left it alone. */
  lemma TickAt(resolveAfter: int, s: State, t: Tick, s': State, id: IncidentId) returns (k: int)
    requires Inv(s) && TickStep(resolveAfter, s, t, s')
    ensures -1 <= k < t.applied
    ensures k == -1 ==> (id in s'.active <==> id in s.active) && (id in s.active ==> s'.active[id] == s.active[id])
    ensures k == -1 ==> (id in s'.rows <==> id in s.rows) && (id in s.rows ==> s'.rows[id] == s.rows[id])
    ensures k >= 0 ==> RowAt(t, k).incident.id == id && IsLanded(s', RowAt(t, k).incident)
                       && RowFits(resolveAfter, s, t, k) && RowOk(s.active, RowAt(t, k))
  {
    var rows := (t.found + t.missing)[..t.applied];
    if Untouched(rows, id) {
      ApplyRowsElsewhere(s, rows, id);
      return -1;
    }
    k :| 0 <= k < |rows| && rows[k].incident.id == id;
    assert rows[k] == RowAt(t, k);
    TickLands(resolveAfter, s, t, s', k);
  }

  /** An incident that is open before and after a tick keeps its id and its start. */
  lemma OpenIncidentStable(resolveAfter: int, s: State, t: Tick, s': State, i: IncidentId, j: IncidentId)
    requires Inv(s) && TickStep(resolveAfter, s, t, s')
    requires i in s.active && j in s'.active && SameFamily(s.active[i], s'.active[j])
    ensures i == j && s.active[i].startedAt == s'.active[j].startedAt
  {
    var k := TickAt(resolveAfter, s, t, s', j);
    if k >= 0 { OkRowSameStart(s.active, RowAt(t, k), i); }
  }

  lemma OkRowSameStart(seed: Table, r: DerivedRow, i: IncidentId)
    requires SeedOk(seed) && RowOk(seed, r) && i in seed && SameFamily(seed[i], r.incident)
    ensures r.incident.id == i && r.incident.startedAt == seed[i].startedAt
  {
  }

  /** An incident leaves the cache only by resolving: it was recovering, unseen, and past its quiet period. */
  lemma LeavesOnlyFromRecovering(resolveAfter: int, s: State, t: Tick, s': State, id: IncidentId)
    requires Inv(s) && TickStep(resolveAfter, s, t, s')
    requires id in s.active && id !in s'.active
    ensures s.active[id].status.Recovering? && id !in SeenIds(t.found)
    ensures t.now - s.active[id].lastSeenAt >= resolveAfter
    ensures id in s'.rows && s'.rows[id].status.Resolved?
  {
    var k := TickAt(resolveAfter, s, t, s', id);
  }
}
