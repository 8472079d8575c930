/** The idempotency cache: an LRU of finished responses and a table of requests in flight. */
module IdempotencyCache {
  import opened Ordering
  import opened Events

  const MAX_ENTRIES := 1000
  const MINUTE: int := 60_000_000_000

  datatype Response = Response(status: int, data: string, error: Option<string>, durationMs: int)

  /** A finished response with the body it answered; bodies stand for their hashes. */
  datatype Entry = Entry(response: Response, body: string, expiresAt: int)

  /** One execution: who runs it, for which key and body, and its entry once finished. */
  datatype Flight = Flight(key: string, body: string, owner: nat, entry: Option<Entry>)

  datatype Lru = Lru(entries: map<string, Entry>, order: seq<string>)

  datatype Cache = Cache(lru: Lru, pending: map<string, nat>, flights: seq<Flight>)

  function Ttl(status: int): int {
    if status == 200 || status == 400 || status == 422 then 5 * MINUTE
    else if status == 404 then MINUTE / 2
    else 0
  }

  predicate IsCacheable(status: int) { Ttl(status) > 0 }

  // ---------- the LRU ----------

  /** Table and list hold the same keys, each once, at most a thousand. */
  ghost predicate ValidLru(l: Lru) {
    NoDuplicates(l.order) && Elements(l.order) == l.entries.Keys && |l.order| <= MAX_ENTRIES
  }

  function Touched(l: Lru, k: string): Lru { l.(order := Without(l.order, k) + [k]) }

  function Forgotten(l: Lru, k: string): Lru {
    if k in l.entries then Lru(l.entries - {k}, Without(l.order, k)) else l
  }

  function Trimmed(l: Lru): Lru
    decreases |l.order|
  {
    if |l.order| < MAX_ENTRIES then l else Trimmed(Lru(l.entries - {l.order[0]}, l.order[1..]))
  }

  function Stored(l: Lru, k: string, e: Entry): Lru {
    if k in l.entries then Touched(l.(entries := l.entries[k := e]), k)
    else
      var t := Trimmed(l);
      Lru(t.entries[k := e], t.order + [k])
  }

  lemma SnocDistinct<T>(s: seq<T>, x: T)
    requires NoDuplicates(s) && x !in Elements(s)
    ensures NoDuplicates(s + [x]) && Elements(s + [x]) == Elements(s) + {x}
  {
    assert forall y :: y in s ==> y in Elements(s);
  }

  lemma TouchedKeeps(l: Lru, k: string)
    requires ValidLru(l) && k in l.entries
    ensures ValidLru(Touched(l, k))
  {
    assert k in l.order by { assert k in Elements(l.order); }
    WithoutFacts(l.order, k);
    WithoutElements(l.order, k);
    SnocDistinct(Without(l.order, k), k);
    assert Elements(l.order) - {k} + {k} == Elements(l.order);
  }

  lemma ForgottenKeeps(l: Lru, k: string)
    requires ValidLru(l)
    ensures ValidLru(Forgotten(l, k)) && k !in Forgotten(l, k).entries
    ensures Forgotten(l, k).entries == l.entries - {k}
  {
    if k in l.entries {
      assert k in l.order by { assert k in Elements(l.order); }
      WithoutFacts(l.order, k);
      WithoutElements(l.order, k);
      assert (l.entries - {k}).Keys == l.entries.Keys - {k};
    } else {
      assert l.entries - {k} == l.entries;
    }
  }

  lemma HeadForgotten(l: Lru)
    requires ValidLru(l) && l.order != []
    ensures Lru(l.entries - {l.order[0]}, l.order[1..]) == Forgotten(l, l.order[0])
  {
    assert l.order[0] in Elements(l.order);
  }

  lemma {:induction false} TrimmedKeeps(l: Lru)
    requires ValidLru(l)
    ensures ValidLru(Trimmed(l)) && |Trimmed(l).order| < MAX_ENTRIES && Within(Trimmed(l), l)
    decreases |l.order|
  {
    if |l.order| >= MAX_ENTRIES {
      HeadForgotten(l);
      ForgottenKeeps(l, l.order[0]);
      TrimmedKeeps(Forgotten(l, l.order[0]));
    }
  }

  /** Nothing new and nothing changed, though some entries may be gone. */
  ghost predicate Within(a: Lru, b: Lru) {
    forall k :: k in a.entries ==> k in b.entries && a.entries[k] == b.entries[k]
  }

  /** A key that was used becomes the newest, and the order of the others stays. */
  lemma TouchedIsNewest(l: Lru, k: string)
    requires ValidLru(l) && k in l.entries
    ensures var order := Touched(l, k).order;
            order != [] && order[|order| - 1] == k && Without(order, k) == Without(l.order, k)
  {
    assert k in l.order by { assert k in Elements(l.order); }
    WithoutFacts(l.order, k);
    var others := Without(l.order, k);
    assert (others + [k])[..|others|] == others;
    WithoutAt(others + [k], |others|, k);
  }

  /** Room is made by dropping the oldest keys only. */
  lemma {:induction false} TrimmedDropsOldest(l: Lru)
    ensures |Trimmed(l).order| <= |l.order| && Trimmed(l).order == l.order[|l.order| - |Trimmed(l).order|..]
    ensures |l.order| == MAX_ENTRIES ==> Trimmed(l).order == l.order[1..]
    decreases |l.order|
  {
    if |l.order| >= MAX_ENTRIES { TrimmedDropsOldest(Lru(l.entries - {l.order[0]}, l.order[1..])); }
  }

  /** A new key is the newest, after the oldest was dropped from a full cache. */
  lemma StoredOrder(l: Lru, k: string, e: Entry)
    requires ValidLru(l) && k !in l.entries
    ensures Stored(l, k, e).order == (if |l.order| < MAX_ENTRIES then l.order else l.order[1..]) + [k]
  {
    TrimmedDropsOldest(l);
  }

  lemma StoredKeeps(l: Lru, k: string, e: Entry)
    requires ValidLru(l)
    ensures ValidLru(Stored(l, k, e)) && k in Stored(l, k, e).entries && Stored(l, k, e).entries[k] == e
    ensures forall x :: x in Stored(l, k, e).entries && x != k ==>
      x in l.entries && Stored(l, k, e).entries[x] == l.entries[x]
  {
    if k in l.entries {
      var m := l.(entries := l.entries[k := e]);
      assert m.entries.Keys == l.entries.Keys;
      TouchedKeeps(m, k);
    } else {
      TrimmedKeeps(l);
      var t := Trimmed(l);
      SnocDistinct(t.order, k);
      assert t.entries[k := e].Keys == t.entries.Keys + {k};
    }
  }

  function LiveKeys(l: Lru, order: seq<string>, now: int): seq<string> {
    if order == [] then [] else
      (if order[0] in l.entries && l.entries[order[0]].expiresAt >= now then [order[0]] else [])
      + LiveKeys(l, order[1..], now)
  }

  lemma {:induction false} LiveConcat(l: Lru, a: seq<string>, b: seq<string>, now: int)
    ensures LiveKeys(l, a + b, now) == LiveKeys(l, a, now) + LiveKeys(l, b, now)
  {
    if a == [] { assert a + b == b; } else {
      assert (a + b)[1..] == a[1..] + b;
      LiveConcat(l, a[1..], b, now);
    }
  }

  lemma {:induction false} AllLive(l: Lru, order: seq<string>, now: int)
    requires forall k :: k in order ==> k in l.entries && l.entries[k].expiresAt >= now
    ensures LiveKeys(l, order, now) == order
  {
    if order != [] {
      assert forall k :: k in order[1..] ==> k in order;
      AllLive(l, order[1..], now);
    }
  }

  /** Eviction removes exactly the entries that expired before now and keeps the order of the rest. */
  ghost predicate IsSwept(l: Lru, r: Lru, now: int) {
    && ValidLru(r) && Within(r, l) && r.order == LiveKeys(l, l.order, now)
    && forall k :: k in l.entries ==> (k in r.entries <==> l.entries[k].expiresAt >= now)
  }

  /** A sweep that has reached position i: expired entries went, and the ones before i stay. */
  ghost predicate SweptTo(l: Lru, r: Lru, i: nat, now: int) {
    && i <= |r.order| && Within(r, l) && LiveKeys(l, r.order, now) == LiveKeys(l, l.order, now)
    && (forall k :: k in l.entries && k !in r.entries ==> l.entries[k].expiresAt < now)
    && (forall k :: k in r.order[..i] && k in l.entries ==> l.entries[k].expiresAt >= now)
  }

  function RemovedAt(l: Lru, i: nat): Lru
    requires i < |l.order|
  {
    Lru(l.entries - {l.order[i]}, l.order[..i] + l.order[i + 1..])
  }

  lemma SweepDrop(l: Lru, order: seq<string>, i: nat, now: int)
    requires i < |order| && order[i] in l.entries && l.entries[order[i]].expiresAt < now
    ensures LiveKeys(l, order[..i] + order[i + 1..], now) == LiveKeys(l, order, now)
  {
    LiveConcat(l, order[..i], order[i + 1..], now);
    LiveConcat(l, order[..i], order[i..], now);
    assert order == order[..i] + order[i..] && order[i..][1..] == order[i + 1..];
  }

  lemma SweepStep(l: Lru, r: Lru, i: nat, now: int)
    requires SweptTo(l, r, i, now) && i < |r.order| && r.order[i] in r.entries
    ensures r.entries[r.order[i]].expiresAt < now ==> SweptTo(l, RemovedAt(r, i), i, now)
    ensures r.entries[r.order[i]].expiresAt >= now ==> SweptTo(l, r, i + 1, now)
  {
    assert RemovedAt(r, i).order[..i] == r.order[..i];
    if r.entries[r.order[i]].expiresAt < now { SweepDrop(l, r.order, i, now); }
    assert r.order[..i + 1] == r.order[..i] + [r.order[i]];
  }

  lemma SweepDone(l: Lru, r: Lru, now: int)
    requires ValidLru(r) && SweptTo(l, r, |r.order|, now)
    ensures IsSwept(l, r, now)
  {
    assert r.order[..|r.order|] == r.order;
    forall k | k in r.entries ensures l.entries[k].expiresAt >= now { assert k in Elements(r.order); }
    forall k | k in r.order ensures k in r.entries { assert k in Elements(r.order); }
    AllLive(l, r.order, now);
  }

  // ---------- critical sections ----------

  datatype Verdict = Hit(entry: Entry) | Clash | Own | Wait(flight: nat)

  /** A live cached entry answers. */
  predicate IsLive(c: Cache, key: string, now: int) { key in c.lru.entries && c.lru.entries[key].expiresAt > now }

  function Judge(c: Cache, key: string, body: string, now: int): Verdict {
    if IsLive(c, key, now) then
      if c.lru.entries[key].body != body then Clash else Hit(c.lru.entries[key])
    else if key in c.pending then Wait(c.pending[key])
    else Own
  }

  /** The locked part of AcquireOrWait. */
  function Acquired(c: Cache, key: string, body: string, owner: nat, now: int): Cache {
    match Judge(c, key, body, now)
    case Clash => c
    case Hit(_) => c.(lru := Touched(c.lru, key))
    case Wait(_) => c.(lru := Forgotten(c.lru, key))
    case Own =>
      Cache(Forgotten(c.lru, key), c.pending[key := |c.flights|], c.flights + [Flight(key, body, owner, None)])
  }

  function MakeEntry(body: string, response: Response, now: int): Entry {
    Entry(response, body, if IsCacheable(response.status) then now + Ttl(response.status) else 0)
  }

  predicate PendingInRange(c: Cache) { forall k :: k in c.pending ==> c.pending[k] < |c.flights| }

  /** Complete. */
  function Finished(c: Cache, key: string, body: string, response: Response, now: int): Cache
    requires PendingInRange(c)
  {
    if key !in c.pending then c
    else
      var f, e := c.pending[key], MakeEntry(body, response, now);
      Cache(if IsCacheable(response.status) then Stored(c.lru, key, e) else c.lru,
            c.pending - {key}, c.flights[f := c.flights[f].(entry := Some(e))])
  }

  // ---------- the cache object ----------

  class DedupCache {
    var entries: map<string, Entry>
    var order: seq<string>
    var pending: map<string, nat>
    var flights: seq<Flight>

    ghost function State(): Cache
      reads this
    {
      Cache(Lru(entries, order), pending, flights)
    }

    ghost predicate Valid()
      reads this
    {
      ValidLru(State().lru) && PendingInRange(State())
    }

    constructor ()
      ensures Valid() && State() == Cache(Lru(map[], []), map[], [])
    {
      entries, order, pending, flights := map[], [], map[], [];
    }

    /** Takes the element at position i out of list and table. */
    method RemoveAt(i: nat)
      requires Valid() && i < |order|
      modifies this`entries, this`order
      ensures Valid() && State().lru == RemovedAt(old(State().lru), i)
    {
      var k := order[i];
      assert k in Elements(order);
      ForgottenKeeps(State().lru, k);
      WithoutAt(order, i, k);
      entries, order := entries - {k}, order[..i] + order[i + 1..];
    }

    method EvictExpired(now: int)
      requires Valid()
      modifies this`entries, this`order
      ensures Valid() && IsSwept(old(State().lru), State().lru, now)
    {
      var i := 0;
      ghost var before := State().lru;
      while i < |order|
        invariant Valid() && SweptTo(before, State().lru, i, now)
        decreases |order| - i
      {
        assert order[i] in Elements(order);
        SweepStep(before, State().lru, i, now);
        if entries[order[i]].expiresAt < now { RemoveAt(i); } else { i := i + 1; }
      }
      SweepDone(before, State().lru, now);
    }

    method StoreLocked(key: string, e: Entry)
      requires Valid()
      modifies this`entries, this`order
      ensures Valid() && State().lru == Stored(old(State().lru), key, e)
    {
      ghost var before := State().lru;
      StoredKeeps(before, key, e);
      if key in entries {
        entries := entries[key := e];
        order := Without(order, key) + [key];
        return;
      }
      while |order| >= MAX_ENTRIES
        invariant Valid() && Trimmed(State().lru) == Trimmed(before)
        decreases |order|
      {
        assert order[..0] + order[1..] == order[1..];
        RemoveAt(0);
      }
      assert Trimmed(State().lru) == State().lru;
      entries := entries[key := e];
      order := order + [key];
    }

    /** The locked part of AcquireOrWait: hit, conflict, ownership, or a flight to wait for. */
    method Acquire(key: string, body: string, owner: nat, now: int) returns (v: Verdict)
      requires Valid()
      modifies this
      ensures Valid() && State() == Acquired(old(State()), key, body, owner, now)
      ensures v == Judge(old(State()), key, body, now)
    {
      ghost var before := State();
      ForgottenKeeps(before.lru, key);
      if key in entries {
        var e := entries[key];
        if e.expiresAt > now {
          if e.body != body { return Clash; }
          TouchedKeeps(before.lru, key);
          order := Without(order, key) + [key];
          return Hit(e);
        }
        entries, order := entries - {key}, Without(order, key);
      }
      if key in pending { return Wait(pending[key]); }
      pending := pending[key := |flights|];
      flights := flights + [Flight(key, body, owner, None)];
      v := Own;
    }

    method Complete(key: string, body: string, response: Response, now: int)
      requires Valid()
      modifies this
      ensures Valid() && State() == Finished(old(State()), key, body, response, now)
    {
      if key !in pending { return; }
      var f, e := pending[key], MakeEntry(body, response, now);
      flights := flights[f := flights[f].(entry := Some(e))];
      if IsCacheable(response.status) { StoreLocked(key, e); }
      pending := pending - {key};
    }
  }
}
