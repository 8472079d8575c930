/** Whole runs of the incident engine: quiet periods, timestamps, notifications, rebuilds. */
module IncidentRuns {
  import opened Events
  import opened Incidents

  // ---------- quiet period ----------

  ghost predicate ClockNeverRunsBack(ticks: seq<Tick>) {
    forall i, j :: 0 <= i <= j < |ticks| ==> ticks[i].now <= ticks[j].now
  }

  ghost predicate AllApplied(ticks: seq<Tick>) {
    forall i :: 0 <= i < |ticks| ==> ticks[i].applied == |ticks[i].found| + |ticks[i].missing|
  }

  /** Over one tick, an entry present afterwards was kept, advanced without a sighting, or sighted now. */
  lemma EntryAfterTick(resolveAfter: int, s: State, t: Tick, s': State, id: IncidentId)
    requires Inv(s) && TickStep(resolveAfter, s, t, s') && id in s'.active
    ensures s'.active[id].lastSeenAt == t.now || (id in s.active && s'.active[id].lastSeenAt == s.active[id].lastSeenAt)
  {
    var k := TickAt(resolveAfter, s, t, s', id);
  }

  lemma SightingRecorded(resolveAfter: int, s: State, t: Tick, s': State, id: IncidentId)
    requires Inv(s) && TickStep(resolveAfter, s, t, s') && id in SeenIds(t.found)
    requires t.applied == |t.found| + |t.missing|
    ensures id in s'.active && s'.active[id].lastSeenAt == t.now
  {
    var k :| 0 <= k < |t.found| && t.found[k].incident.id == id;
    TickLands(resolveAfter, s, t, s', k);
  }

  // ---------- what a tick does ----------

  ghost predicate FullyApplied(t: Tick) { t.applied == |t.found| + |t.missing| }

  lemma DueRowLands(resolveAfter: int, s: State, t: Tick, s': State, id: IncidentId, r: DerivedRow)
    requires Inv(s) && TickStep(resolveAfter, s, t, s') && FullyApplied(t)
    requires IsMissing(resolveAfter, s.active, SeenIds(t.found), t.now, id, r)
    ensures IsLanded(s', r.incident)
  {
    assert r in t.missing;
    var k :| 0 <= k < |t.missing| && t.missing[k] == r;
    TickLands(resolveAfter, s, t, s', |t.found| + k);
  }

  /** An active incident that a tick does not see is recovering from then on. */
  lemma UnseenRecovers(resolveAfter: int, s: State, t: Tick, s': State, id: IncidentId)
    requires Inv(s) && TickStep(resolveAfter, s, t, s') && FullyApplied(t)
    requires id in s.active && s.active[id].status == Active && id !in SeenIds(t.found)
    ensures id in s'.active && s'.active[id].status == Recovering && s'.active[id].recoveringAt == Some(t.now)
    ensures s'.active[id].lastSeenAt == s.active[id].lastSeenAt && s'.active[id].startedAt == s.active[id].startedAt
  {
    DueRowLands(resolveAfter, s, t, s', id, MissingRow(s.active[id], t.now, resolveAfter).value);
  }

  /** A recovering incident that a tick does not see is resolved if its quiet period is over, and unchanged if not. */
  lemma UnseenResolves(resolveAfter: int, s: State, t: Tick, s': State, id: IncidentId)
    requires Inv(s) && TickStep(resolveAfter, s, t, s') && FullyApplied(t)
    requires id in s.active && s.active[id].status == Recovering && id !in SeenIds(t.found)
    ensures t.now - s.active[id].lastSeenAt >= resolveAfter ==>
      id !in s'.active && id in s'.rows && s'.rows[id].status == Resolved && s'.rows[id].resolvedAt == Some(t.now)
    ensures t.now - s.active[id].lastSeenAt < resolveAfter ==> id in s'.active && s'.active[id] == s.active[id]
  {
    if t.now - s.active[id].lastSeenAt >= resolveAfter {
      DueRowLands(resolveAfter, s, t, s', id, MissingRow(s.active[id], t.now, resolveAfter).value);
    } else {
      var k := TickAt(resolveAfter, s, t, s', id);
    }
  }

  /** A resolved incident that a tick does not see stays as it is. */
  lemma ResolvedStays(resolveAfter: int, s: State, t: Tick, s': State, id: IncidentId)
    requires Inv(s) && TickStep(resolveAfter, s, t, s')
    requires id !in s.active && id in s.rows && id !in SeenIds(t.found)
    ensures id !in s'.active && id in s'.rows && s'.rows[id] == s.rows[id]
  {
    var k := TickAt(resolveAfter, s, t, s', id);
  }

  /** Every detection leaves an active incident of its family, seen now; a family that was not open starts with its
      earliest event, or now if that is later. */
  lemma DetectionOpens(resolveAfter: int, s: State, t: Tick, s': State, i: nat) returns (id: IncidentId)
    requires Inv(s) && TickStep(resolveAfter, s, t, s') && FullyApplied(t) && i < |t.ds|
    ensures id in s'.active && s'.active[id].env == t.ds[i].env && s'.active[id].family == t.ds[i].family
    ensures s'.active[id].status == Active && s'.active[id].lastSeenAt == s'.active[id].updatedAt == t.now
    ensures s'.active[id].recoveringAt.None? && s'.active[id].resolvedAt.None?
    ensures id in s.active ==> s'.active[id].startedAt == s.active[id].startedAt
    ensures id !in s.active ==> (forall x :: x in s.active ==> !SameFamily(s.active[x], s'.active[id]))
    ensures id !in s.active && t.ds[i].firstEvent <= t.now ==> s'.active[id].startedAt == t.ds[i].firstEvent
    ensures id !in s.active && t.ds[i].firstEvent > t.now ==> s'.active[id].startedAt == t.now
  {
    TickLands(resolveAfter, s, t, s', i);
    id := t.found[i].incident.id;
    assert IsFound(s.active, t.ds[i], t.now, t.found[i]);
    var prior :| IsPrior(s.active, t.ds[i], prior) && t.found[i] == BuildRow(s.active, t.ds[i], t.now, prior);
    BuildRowOk(s.active, t.ds[i], t.now, prior);
  }

  // ---------- quiet incidents over runs ----------

  ghost predicate UnseenDuring(ticks: seq<Tick>, i: nat, j: nat, id: IncidentId) {
    forall k :: i <= k < j && k < |ticks| ==> id !in SeenIds(ticks[k].found)
  }

  /** Still recovering with the same last sighting, or resolved. */
  ghost predicate IsFading(s: State, id: IncidentId, lastSeenAt: int) {
    || (id in s.active && s.active[id].status == Recovering && s.active[id].lastSeenAt == lastSeenAt)
    || (id !in s.active && id in s.rows && s.rows[id].status == Resolved)
  }

  lemma {:induction false} UnseenFades(resolveAfter: int, states: seq<State>, ticks: seq<Tick>, i: nat, j: nat,
                                       id: IncidentId)
    requires Run(resolveAfter, states, ticks) && AllApplied(ticks) && i < j <= |ticks|
    requires id in states[i].active && UnseenDuring(ticks, i, j, id)
    ensures IsFading(states[j], id, states[i].active[id].lastSeenAt)
    decreases j
  {
    RunKeeps(resolveAfter, states, ticks, j - 1);
    var s, t, s' := states[j - 1], ticks[j - 1], states[j];
    assert TickStep(resolveAfter, s, t, s') && FullyApplied(t);
    if i < j - 1 { UnseenFades(resolveAfter, states, ticks, i, j - 1, id); }
    if id !in s.active {
      ResolvedStays(resolveAfter, s, t, s', id);
    } else if s.active[id].status == Active {
      UnseenRecovers(resolveAfter, s, t, s', id);
    } else {
      assert s.active[id].status == Recovering;
      UnseenResolves(resolveAfter, s, t, s', id);
    }
  }

  /** An incident that two or more ticks in a row do not see, the last at least the resolve delay after its last
      sighting, is resolved. */
  lemma QuietResolves(resolveAfter: int, states: seq<State>, ticks: seq<Tick>, i: nat, j: nat, id: IncidentId)
    requires Run(resolveAfter, states, ticks) && AllApplied(ticks) && i < j < |ticks|
    requires id in states[i].active && UnseenDuring(ticks, i, j + 1, id)
    requires ticks[j].now - states[i].active[id].lastSeenAt >= resolveAfter
    ensures id !in states[j + 1].active && id in states[j + 1].rows && states[j + 1].rows[id].status == Resolved
  {
    UnseenFades(resolveAfter, states, ticks, i, j, id);
    RunKeeps(resolveAfter, states, ticks, j);
    assert TickStep(resolveAfter, states[j], ticks[j], states[j + 1]) && FullyApplied(ticks[j]);
    if id in states[j].active {
      UnseenResolves(resolveAfter, states[j], ticks[j], states[j + 1], id);
    } else {
      ResolvedStays(resolveAfter, states[j], ticks[j], states[j + 1], id);
    }
  }

  // ---------- sightings ----------

  /** The last sighting an open incident remembers is no earlier than any tick that saw it. */
  lemma {:induction false} SightingsRemembered(resolveAfter: int, states: seq<State>, ticks: seq<Tick>, k: nat,
                                               i: nat, id: IncidentId)
    requires Run(resolveAfter, states, ticks) && ClockNeverRunsBack(ticks) && AllApplied(ticks)
    requires k < i < |states| && id in SeenIds(ticks[k].found) && id in states[i].active
    ensures states[i].active[id].lastSeenAt >= ticks[k].now
    decreases i
  {
    RunKeeps(resolveAfter, states, ticks, i - 1);
    assert TickStep(resolveAfter, states[i - 1], ticks[i - 1], states[i]);
    EntryAfterTick(resolveAfter, states[i - 1], ticks[i - 1], states[i], id);
    if k == i - 1 { SightingRecorded(resolveAfter, states[k], ticks[k], states[i], id); }
    if k < i - 1 && states[i].active[id].lastSeenAt != ticks[i - 1].now {
      SightingsRemembered(resolveAfter, states, ticks, k, i - 1, id);
    }
  }

  /** An incident resolves only from recovering, and no tick within the last resolveAfter saw it. */
  lemma ResolvesAfterQuiet(resolveAfter: int, states: seq<State>, ticks: seq<Tick>, i: nat, k: nat, id: IncidentId)
    requires Run(resolveAfter, states, ticks) && ClockNeverRunsBack(ticks) && AllApplied(ticks)
    requires k < i < |ticks| && id in states[i].active && id !in states[i + 1].active
    ensures states[i].active[id].status.Recovering?
    ensures id in SeenIds(ticks[k].found) ==> ticks[i].now - ticks[k].now >= resolveAfter
  {
    RunKeeps(resolveAfter, states, ticks, i);
    assert TickStep(resolveAfter, states[i], ticks[i], states[i + 1]);
    LeavesOnlyFromRecovering(resolveAfter, states[i], ticks[i], states[i + 1], id);
    if id in SeenIds(ticks[k].found) { SightingsRemembered(resolveAfter, states, ticks, k, i, id); }
  }

  // ---------- timestamps ----------

  /** Ordered times, none in the future, and the marks that belong to the status. */
  ghost predicate Stamped(inc: Incident, now: int) {
    && inc.startedAt <= inc.lastSeenAt <= inc.updatedAt <= now
    && (inc.status.Active? ==> inc.recoveringAt.None? && inc.resolvedAt.None?)
    && (inc.status.Recovering? ==> inc.recoveringAt.Some? && inc.resolvedAt.None?)
    && (inc.status.Resolved? ==> inc.recoveringAt.Some? && inc.resolvedAt.Some?)
  }

  ghost predicate AllStamped(rows: Table, now: int) {
    forall id :: id in rows ==> Stamped(rows[id], now)
  }

  lemma RowStamped(resolveAfter: int, s: State, t: Tick, before: int, k: nat)
    requires Inv(s) && DistinctFamilies(t.ds) && Derives(resolveAfter, s.active, t.ds, t.now, t.found, t.missing)
    requires k < |t.found| + |t.missing| && AllStamped(s.rows, before) && before <= t.now
    ensures Stamped((t.found + t.missing)[k].incident, t.now)
  {
    RowKind(resolveAfter, s, t, k);
    assert (t.found + t.missing)[k] == RowAt(t, k);
    forall id | id in s.active ensures Stamped(s.active[id], before) { assert s.active[id] == Unresolved(s.rows)[id]; }
    if k < |t.found| {
      assert IsFound(s.active, t.ds[k], t.now, t.found[k]);
      var prior :| IsPrior(s.active, t.ds[k], prior) && t.found[k] == BuildRow(s.active, t.ds[k], t.now, prior);
      BuildRowOk(s.active, t.ds[k], t.now, prior);
    }
  }

  lemma {:induction false} ApplyStamped(s: State, rows: seq<DerivedRow>, now: int)
    requires AllStamped(s.rows, now) && forall k :: 0 <= k < |rows| ==> Stamped(rows[k].incident, now)
    ensures AllStamped(ApplyRows(s, rows).rows, now)
  {
    if rows != [] {
      assert forall k :: 0 <= k < |rows| - 1 ==> rows[..|rows| - 1][k] == rows[k];
      ApplyStamped(s, rows[..|rows| - 1], now);
    }
  }

  /** In every run, also with failed writes, stored times are ordered and marks match the status. */
  lemma {:induction false} TimesStayOrdered(resolveAfter: int, states: seq<State>, ticks: seq<Tick>, boot: int, i: nat)
    requires Run(resolveAfter, states, ticks) && ClockNeverRunsBack(ticks) && i < |states|
    requires AllStamped(states[0].rows, boot) && (ticks != [] ==> boot <= ticks[0].now)
    ensures AllStamped(states[i].rows, if i == 0 then boot else ticks[i - 1].now)
    decreases i
  {
    if i > 0 {
      TimesStayOrdered(resolveAfter, states, ticks, boot, i - 1);
      RunKeeps(resolveAfter, states, ticks, i - 1);
      var s, t := states[i - 1], ticks[i - 1];
      assert TickStep(resolveAfter, s, t, states[i]);
      var before := if i == 1 then boot else ticks[i - 2].now;
      forall k | 0 <= k < |t.found| + |t.missing| ensures Stamped((t.found + t.missing)[k].incident, t.now) {
        RowStamped(resolveAfter, s, t, before, k);
      }
      ApplyStamped(s, (t.found + t.missing)[..t.applied], t.now);
    }
  }

  // ---------- notifications ----------

  /** Whether the incident counts as open after these notifications. */
  ghost function OpenAfter(boot: set<IncidentId>, log: seq<Notification>, id: IncidentId): bool {
    if log == [] then id in boot
    else if log[|log| - 1].id == id then log[|log| - 1].Opened?
    else OpenAfter(boot, log[..|log| - 1], id)
  }

  /** Each notification changes the incident it names. */
  ghost predicate Alternating(boot: set<IncidentId>, log: seq<Notification>) {
    forall i :: 0 <= i < |log| ==> (log[i].Opened? <==> !OpenAfter(boot, log[..i], log[i].id))
  }

  ghost predicate LogMatches(boot: set<IncidentId>, s: State) {
    Alternating(boot, s.log) && forall id :: OpenAfter(boot, s.log, id) <==> id in s.active
  }

  lemma Notify(boot: set<IncidentId>, log: seq<Notification>, n: Notification)
    requires Alternating(boot, log) && (n.Opened? <==> !OpenAfter(boot, log, n.id))
    ensures Alternating(boot, log + [n])
    ensures forall id :: OpenAfter(boot, log + [n], id) <==> if id == n.id then n.Opened? else OpenAfter(boot, log, id)
  {
    var more := log + [n];
    assert more[..|log|] == log;
    forall i | 0 <= i < |more| ensures more[i].Opened? <==> !OpenAfter(boot, more[..i], more[i].id) {
      if i < |log| { assert more[..i] == log[..i] && more[i] == log[i]; }
    }
  }

  lemma ApplyRowNotifies(boot: set<IncidentId>, s: State, r: DerivedRow)
    requires LogMatches(boot, s) && RowOk(s.active, r) && (r.incident.status.Resolved? ==> r.existed)
    ensures LogMatches(boot, ApplyRow(s, r))
  {
    if r.incident.status.Resolved? {
      Notify(boot, s.log, Closed(r.incident.id));
    } else if r.incident.status.Active? && !r.existed {
      Notify(boot, s.log, Opened(r.incident.id));
    }
  }

  lemma ApplyLast(s: State, rows: seq<DerivedRow>, k: nat)
    requires 0 < k <= |rows|
    ensures ApplyRows(s, rows[..k]) == ApplyRow(ApplyRows(s, rows[..k - 1]), rows[k - 1])
  {
    assert rows[..k][..k - 1] == rows[..k - 1];
  }

  lemma NextRowOk(s: State, rows: seq<DerivedRow>, k: nat)
    requires Inv(s) && RowsOk(s.active, rows) && k < |rows|
    ensures RowOk(ApplyRows(s, rows[..k]).active, rows[k])
  {
    RowsStillOk(s, rows, k);
  }

  lemma {:induction false} ApplyRowsNotify(boot: set<IncidentId>, s: State, rows: seq<DerivedRow>, k: nat)
    requires Inv(s) && LogMatches(boot, s) && RowsOk(s.active, rows) && k <= |rows|
    ensures LogMatches(boot, ApplyRows(s, rows[..k]))
  {
    if k > 0 {
      ApplyRowsNotify(boot, s, rows, k - 1);
      NextRowOk(s, rows, k - 1);
      ApplyLast(s, rows, k);
      ApplyRowNotifies(boot, ApplyRows(s, rows[..k - 1]), rows[k - 1]);
    }
  }

  lemma {:induction false} RunNotifies(resolveAfter: int, states: seq<State>, ticks: seq<Tick>, i: nat)
    requires Run(resolveAfter, states, ticks) && i < |states|
    ensures LogMatches(states[0].active.Keys, states[i])
    decreases i
  {
    if i > 0 {
      RunNotifies(resolveAfter, states, ticks, i - 1);
      RunKeeps(resolveAfter, states, ticks, i - 1);
      var s, t := states[i - 1], ticks[i - 1];
      assert TickStep(resolveAfter, s, t, states[i]);
      DerivedRowsOk(resolveAfter, s.active, t.ds, t.now, t.found, t.missing);
      ApplyRowsNotify(states[0].active.Keys, s, t.found + t.missing, t.applied);
    }
  }

  /** Without a notification for id between them, nothing about id changes. */
  lemma {:induction false} OpenAfterGap(boot: set<IncidentId>, log: seq<Notification>, id: IncidentId, i: nat, j: nat)
    requires i <= j <= |log| && forall k :: i <= k < j ==> log[k].id != id
    ensures OpenAfter(boot, log[..j], id) == OpenAfter(boot, log[..i], id)
    decreases j
  {
    if i < j {
      assert log[..j][..j - 1] == log[..j - 1];
      OpenAfterGap(boot, log, id, i, j - 1);
    }
  }

  /** In any run, failed writes included, the notifications of one incident strictly alternate; the first
      is a resolution exactly when the incident was open at boot. */
  lemma NotificationsAlternate(resolveAfter: int, states: seq<State>, ticks: seq<Tick>, n: nat, i: nat, j: nat)
    requires Run(resolveAfter, states, ticks) && n < |states| && j < |states[n].log|
    ensures var log := states[n].log;
      && ((forall k :: 0 <= k < j ==> log[k].id != log[j].id) ==> (log[j].Closed? <==> log[j].id in states[0].active))
      && (i < j && log[i].id == log[j].id && (forall k :: i < k < j ==> log[k].id != log[j].id) ==>
            (log[i].Opened? <==> log[j].Closed?))
  {
    var log, boot := states[n].log, states[0].active.Keys;
    RunNotifies(resolveAfter, states, ticks, n);
    assert log[j].Opened? <==> !OpenAfter(boot, log[..j], log[j].id);
    if forall k :: 0 <= k < j ==> log[k].id != log[j].id { OpenAfterGap(boot, log, log[j].id, 0, j); }
    if i < j && log[i].id == log[j].id && forall k :: i < k < j ==> log[k].id != log[j].id {
      OpenAfterGap(boot, log, log[j].id, i + 1, j);
      assert log[..i + 1][|log[..i + 1]| - 1] == log[i];
    }
  }

  // ---------- rebuild ----------

  /** ReplaceNonResolved: the resolved rows stay, then every derived row is written. */
  function Replace(rows: Table, derived: seq<DerivedRow>): Table {
    if derived == [] then map id | id in rows && rows[id].status.Resolved? :: rows[id]
    else
      var inc := derived[|derived| - 1].incident;
      Replace(rows, derived[..|derived| - 1])[inc.id := inc]
  }

  /** ApplyRebuild: replace, then reload the cache from the store. */
  function Rebuild(s: State, derived: seq<DerivedRow>): State {
    var rows := Replace(s.rows, derived);
    State(Unresolved(rows), rows, s.log)
  }

  /** A family open in both tables is the same incident in both. */
  ghost predicate SameIncidents(a: Table, b: Table) {
    forall i, j :: i in a && j in b && SameFamily(a[i], b[j]) ==> i == j && a[i].startedAt == b[j].startedAt
  }

  lemma {:induction false} ReplacedRows(rows: Table, derived: seq<DerivedRow>, id: IncidentId)
    ensures id in Replace(rows, derived) && !Replace(rows, derived)[id].status.Resolved? ==>
              exists k :: 0 <= k < |derived| && derived[k].incident.id == id
                          && Replace(rows, derived)[id] == derived[k].incident
  {
    if derived != [] && derived[|derived| - 1].incident.id != id {
      ReplacedRows(rows, derived[..|derived| - 1], id);
    }
  }

  /** After a rebuild the cache is again the store's unresolved rows, one per family. */
  lemma RebuildKeeps(resolveAfter: int, s: State, ds: seq<Detection>, now: int, found: seq<DerivedRow>,
                     missing: seq<DerivedRow>)
    requires Inv(s) && DistinctFamilies(ds) && Derives(resolveAfter, s.active, ds, now, found, missing)
    ensures Inv(Rebuild(s, found + missing)) && SameIncidents(s.active, Rebuild(s, found + missing).active)
  {
    var rows := found + missing;
    DerivedRowsOk(resolveAfter, s.active, ds, now, found, missing);
    var s' := Rebuild(s, rows);
    forall id | id in s'.active
      ensures exists k :: 0 <= k < |rows| && rows[k].incident.id == id && s'.active[id] == rows[k].incident
                && RowOk(s.active, rows[k])
    {
      ReplacedRows(s.rows, rows, id);
    }
  }
}
