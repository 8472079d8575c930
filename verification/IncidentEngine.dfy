/** The incident engine and its in-memory store, updated in place. */
module IncidentEngine {
  import opened Events
  import opened Incidents
  import opened IncidentRuns

  class MemoryStore {
    var rows: Table

    constructor ()
      ensures rows == map[]
    {
      rows := map[];
    }

    method Upsert(inc: Incident)
      modifies this
      ensures rows == old(rows)[inc.id := inc]
    {
      rows := rows[inc.id := inc];
    }

    method ReplaceNonResolved(derived: seq<DerivedRow>)
      modifies this
      ensures rows == Replace(old(rows), derived)
    {
      var ids := rows.Keys;
      while ids != {}
        invariant ids <= old(rows).Keys
        invariant rows == map id | id in old(rows) && (id in ids || old(rows)[id].status.Resolved?) :: old(rows)[id]
        decreases ids
      {
        var id :| id in ids;
        if !rows[id].status.Resolved? { rows := rows - {id}; }
        ids := ids - {id};
      }
      for i := 0 to |derived|
        invariant rows == Replace(old(rows), derived[..i])
      {
        assert derived[..i + 1][..i] == derived[..i];
        rows := rows[derived[i].incident.id := derived[i].incident];
      }
      assert derived[..|derived|] == derived;
    }

    method ListActive() returns (open: Table)
      ensures open == Unresolved(rows)
    {
      open := map[];
      var ids := rows.Keys;
      while ids != {}
        invariant ids <= rows.Keys
        invariant open == Unresolved(rows - ids)
        decreases ids
      {
        var id :| id in ids;
        if !rows[id].status.Resolved? { open := open[id := rows[id]]; }
        ids := ids - {id};
      }
      assert rows - {} == rows;
    }
  }

  /** findByFamilyIn: scans the seed in an arbitrary order. */
  method FindByFamilyIn(seed: Table, d: Detection) returns (prior: Option<Incident>)
    ensures IsPrior(seed, d, prior)
  {
    var ids := seed.Keys;
    while ids != {}
      invariant ids <= seed.Keys
      invariant forall id :: id in seed && id !in ids ==> !OpenFor(seed[id], d.env, d.family)
      decreases ids
    {
      var id :| id in ids;
      if OpenFor(seed[id], d.env, d.family) { return Some(seed[id]); }
      ids := ids - {id};
    }
    return None;
  }

  /** One row per detection, in detection order. */
  method DeriveFound(seed: Table, ds: seq<Detection>, now: int) returns (found: seq<DerivedRow>)
    ensures |found| == |ds|
    ensures forall i :: 0 <= i < |ds| ==> IsFound(seed, ds[i], now, found[i])
  {
    found := [];
    for i := 0 to |ds|
      invariant |found| == i
      invariant forall j :: 0 <= j < i ==> IsFound(seed, ds[j], now, found[j])
    {
      var prior := FindByFamilyIn(seed, ds[i]);
      var row := BuildRow(seed, ds[i], now, prior);
      assert IsFound(seed, ds[i], now, row);
      found := found + [row];
    }
  }

  ghost predicate MissingOf(resolveAfter: int, seed: Table, seen: set<IncidentId>, now: int, missing: seq<DerivedRow>) {
    && (forall i, j :: 0 <= i < j < |missing| ==> missing[i].incident.id != missing[j].incident.id)
    && (forall r :: r in missing <==> exists id :: IsMissing(resolveAfter, seed, seen, now, id, r))
  }

  /** deriveMissing: the transitions of the incidents not seen this cycle, in an arbitrary order. */
  method DeriveMissing(resolveAfter: int, seed: Table, seen: set<IncidentId>, now: int)
    returns (missing: seq<DerivedRow>)
    requires forall id :: id in seed ==> seed[id].id == id
    ensures MissingOf(resolveAfter, seed, seen, now, missing)
  {
    missing := [];
    var ids := seed.Keys;
    while ids != {}
      invariant ids <= seed.Keys
      invariant forall i :: 0 <= i < |missing| ==> missing[i].incident.id in seed && missing[i].incident.id !in ids
      invariant forall i, j :: 0 <= i < j < |missing| ==> missing[i].incident.id != missing[j].incident.id
      invariant forall r :: r in missing ==> IsMissing(resolveAfter, seed, seen, now, r.incident.id, r)
      invariant forall id, r :: id !in ids && IsMissing(resolveAfter, seed, seen, now, id, r) ==> r in missing
      decreases ids
    {
      var id :| id in ids;
      ids := ids - {id};
      if id in seen { continue; }
      var row := MissingRow(seed[id], now, resolveAfter);
      if row.Some? {
        assert IsMissing(resolveAfter, seed, seen, now, id, row.value);
        missing := missing + [row.value];
      }
    }
  }

  class Engine {
    const store: MemoryStore
    const resolveAfter: int
    var active: Table
    var log: seq<Notification>

    ghost function View(): State
      reads this, store
    {
      State(active, store.rows, log)
    }

    /** Bootstrap: load the cache from the store. */
    constructor (store: MemoryStore, resolveAfter: int)
      ensures this.store == store && this.resolveAfter == resolveAfter
      ensures View() == State(Unresolved(store.rows), store.rows, [])
    {
      this.store, this.resolveAfter := store, resolveAfter;
      log, active := [], map[];
      new;
      active := store.ListActive();
    }

    /** ApplyLive: row by row; the Upsert of row failAt fails and ends the tick. */
    method ApplyLive(rows: seq<DerivedRow>, failAt: nat) returns (applied: nat)
      modifies this, store
      ensures applied == if failAt < |rows| then failAt else |rows|
      ensures View() == ApplyRows(old(View()), rows[..applied])
      ensures Inv(old(View())) && RowsOk(old(View().active), rows) ==> Inv(View())
    {
      ghost var before := View();
      applied := 0;
      while applied < |rows|
        invariant applied <= |rows| && applied <= failAt
        invariant View() == ApplyRows(old(View()), rows[..applied])
        decreases |rows| - applied
      {
        if applied == failAt { break; }
        var r := rows[applied];
        assert rows[..applied + 1][..applied] == rows[..applied];
        store.Upsert(r.incident);
        match r.incident.status {
          case Resolved =>
            active := active - {r.incident.id};
            log := log + [Closed(r.incident.id)];
          case Recovering =>
            active := active[r.incident.id := r.incident];
          case Active =>
            active := active[r.incident.id := r.incident];
            if !r.existed { log := log + [Opened(r.incident.id)]; }
        }
        applied := applied + 1;
      }
      if Inv(before) && RowsOk(before.active, rows) { RowsStillOk(before, rows, applied); }
    }

    /** Tick: derive from a snapshot of the cache, then apply. */
    method RunTick(ds: seq<Detection>, now: int, failAt: nat) returns (ghost t: Tick, applied: nat)
      requires Inv(View()) && DistinctFamilies(ds)
      modifies this, store
      ensures t.ds == ds && t.now == now && t.applied == applied && applied <= |t.found| + |t.missing|
      ensures TickStep(resolveAfter, old(View()), t, View()) && Inv(View())
    {
      var found := DeriveFound(active, ds, now);
      var missing := DeriveMissing(resolveAfter, active, SeenIds(found), now);
      ghost var before := View();
      applied := ApplyLive(found + missing, failAt);
      t := Tick(ds, now, found, missing, applied);
      TickKeeps(resolveAfter, before, t, View(), 0);
    }

    /** ApplyRebuild: replace the store's open rows, then reload the cache from the store. */
    method ApplyRebuild(derived: seq<DerivedRow>)
      modifies this, store
      ensures View() == Rebuild(old(View()), derived)
    {
      store.ReplaceNonResolved(derived);
      active := store.ListActive();
    }
  }
}
