/** Incremental first/last/count tables and what they must equal: a recount of the live events. */
module Rollup {
  import opened Events

  /** FirstSeen, LastSeen and Count of one table node. */
  datatype Node = Node(first: int, last: int, count: nat)

  /** TsEnd, or TsStart when TsEnd is the zero time. */
  function Stamp(e: Event): int { if e.tsEnd != 0 then e.tsEnd else e.tsStart }

  function TouchFirst(first: int, ts: int): int { if ts != 0 && (first == 0 || ts < first) then ts else first }

  function TouchLast(last: int, ts: int): int { if ts != 0 && (last == 0 || ts > last) then ts else last }

  /** Creates the node on first use, counts it, and widens its range. */
  function Touch<K>(t: map<K, Node>, k: K, ts: int): map<K, Node> {
    var n := if k in t then t[k] else Node(ts, 0, 0);
    t[k := Node(TouchFirst(n.first, ts), TouchLast(n.last, ts), n.count + 1)]
  }

  function TouchAll<K>(t: map<K, Node>, ks: seq<K>, ts: int): map<K, Node> {
    if ks == [] then t else Touch(TouchAll(t, ks[..|ks| - 1], ts), ks[|ks| - 1], ts)
  }

  // ---------- the recount ----------

  /** How often the events of S use key k. */
  ghost function Total<K>(S: set<Event>, keys: Event -> seq<K>, k: K): nat {
    if S == {} then 0 else
      var e :| e in S;
      multiset(keys(e))[k] + Total(S - {e}, keys, k)
  }

  ghost predicate Uses<K>(S: set<Event>, keys: Event -> seq<K>, k: K, e: Event) {
    e in S && k in keys(e)
  }

  /** v is the least non-zero stamp among the uses of k, or 0 if there is none. */
  ghost predicate IsFirst<K>(S: set<Event>, keys: Event -> seq<K>, k: K, v: int) {
    && (v != 0 ==> exists e :: Uses(S, keys, k, e) && Stamp(e) == v)
    && (forall e :: Uses(S, keys, k, e) && Stamp(e) != 0 ==> v != 0 && v <= Stamp(e))
  }

  /** v is the greatest non-zero stamp among the uses of k, or 0 if there is none. */
  ghost predicate IsLast<K>(S: set<Event>, keys: Event -> seq<K>, k: K, v: int) {
    && (v != 0 ==> exists e :: Uses(S, keys, k, e) && Stamp(e) == v)
    && (forall e :: Uses(S, keys, k, e) && Stamp(e) != 0 ==> v != 0 && v >= Stamp(e))
  }

  ghost predicate Recounts<K>(n: Node, S: set<Event>, keys: Event -> seq<K>, k: K) {
    n.count == Total(S, keys, k) && IsFirst(S, keys, k, n.first) && IsLast(S, keys, k, n.last)
  }

  /** The table has a node for exactly the used keys, and each node is the recount. */
  ghost predicate IsRecount<K(!new)>(t: map<K, Node>, S: set<Event>, keys: Event -> seq<K>) {
    && (forall k :: k in t <==> exists e :: Uses(S, keys, k, e))
    && (forall k :: k in t ==> Recounts(t[k], S, keys, k))
  }

  /** A recount is determined by the set of live events alone. */
  lemma RecountUnique<K(!new)>(t: map<K, Node>, u: map<K, Node>, S: set<Event>, keys: Event -> seq<K>)
    requires IsRecount(t, S, keys) && IsRecount(u, S, keys)
    ensures t == u
  {
    forall k | k in t ensures k in u && t[k] == u[k] {
      FirstUnique(S, keys, k, t[k].first, u[k].first);
      LastUnique(S, keys, k, t[k].last, u[k].last);
    }
  }

  lemma FirstUnique<K>(S: set<Event>, keys: Event -> seq<K>, k: K, v: int, w: int)
    requires IsFirst(S, keys, k, v) && IsFirst(S, keys, k, w)
    ensures v == w
  {
  }

  lemma LastUnique<K>(S: set<Event>, keys: Event -> seq<K>, k: K, v: int, w: int)
    requires IsLast(S, keys, k, v) && IsLast(S, keys, k, w)
    ensures v == w
  {
  }

  /** Adding an event adds its uses, whichever order the sum takes. */
  lemma {:induction false} TotalInsert<K>(S: set<Event>, keys: Event -> seq<K>, k: K, e: Event)
    requires e !in S
    ensures Total(S + {e}, keys, k) == Total(S, keys, k) + multiset(keys(e))[k]
  {
    var T := S + {e};
    var x :| x in T && Total(T, keys, k) == multiset(keys(x))[k] + Total(T - {x}, keys, k);
    if x == e {
      assert T - {e} == S;
    } else {
      TotalInsert(S - {x}, keys, k, e);
      assert T - {x} == (S - {x}) + {e};
      TotalInsert(S - {x}, keys, k, x);
      assert (S - {x}) + {x} == S;
    }
  }

  lemma {:induction false} TotalUnused<K>(S: set<Event>, keys: Event -> seq<K>, k: K)
    requires forall e :: e in S ==> k !in keys(e)
    ensures Total(S, keys, k) == 0
  {
    if S != {} {
      var e :| e in S && Total(S, keys, k) == multiset(keys(e))[k] + Total(S - {e}, keys, k);
      TotalUnused(S - {e}, keys, k);
    }
  }

  // ---------- the incremental step ----------

  ghost function Touched<K>(t: map<K, Node>, k: K, ts: int, times: nat): Node {
    var n := if k in t then t[k] else Node(ts, 0, 0);
    Node(TouchFirst(n.first, ts), TouchLast(n.last, ts), n.count + times)
  }

  /** Touching the keys of one event: one widening per key, one count per use. */
  lemma {:induction false} TouchAllAt<K>(t: map<K, Node>, ks: seq<K>, ts: int, k: K)
    ensures k in TouchAll(t, ks, ts) <==> k in t || k in ks
    ensures k in t && k !in ks ==> TouchAll(t, ks, ts)[k] == t[k]
    ensures k in ks ==> TouchAll(t, ks, ts)[k] == Touched(t, k, ts, multiset(ks)[k])
  {
    if ks != [] {
      var p := ks[..|ks| - 1];
      assert ks == p + [ks[|ks| - 1]];
      TouchAllAt(t, p, ts, k);
    }
  }

  lemma FirstInsert<K>(S: set<Event>, keys: Event -> seq<K>, k: K, e: Event, v: int)
    requires e !in S && k in keys(e)
    requires IsFirst(S, keys, k, v) || ((forall x :: !Uses(S, keys, k, x)) && v == Stamp(e))
    ensures IsFirst(S + {e}, keys, k, TouchFirst(v, Stamp(e)))
  {
    var T, w := S + {e}, TouchFirst(v, Stamp(e));
    assert Uses(T, keys, k, e);
    forall x ensures Uses(T, keys, k, x) <==> Uses(S, keys, k, x) || x == e {}
    if w != 0 && w != Stamp(e) {
      var x :| Uses(S, keys, k, x) && Stamp(x) == v;
      assert Uses(T, keys, k, x);
    }
  }

  lemma LastInsert<K>(S: set<Event>, keys: Event -> seq<K>, k: K, e: Event, v: int)
    requires e !in S && k in keys(e)
    requires IsLast(S, keys, k, v)
    ensures IsLast(S + {e}, keys, k, TouchLast(v, Stamp(e)))
  {
    var T, w := S + {e}, TouchLast(v, Stamp(e));
    assert Uses(T, keys, k, e);
    forall x ensures Uses(T, keys, k, x) <==> Uses(S, keys, k, x) || x == e {}
    if w != 0 && w != Stamp(e) {
      var x :| Uses(S, keys, k, x) && Stamp(x) == v;
      assert Uses(T, keys, k, x);
    }
  }

  lemma RecountOther<K>(n: Node, S: set<Event>, keys: Event -> seq<K>, k: K, e: Event)
    requires e !in S && k !in keys(e) && Recounts(n, S, keys, k)
    ensures Recounts(n, S + {e}, keys, k)
  {
    TotalInsert(S, keys, k, e);
    forall x ensures Uses(S + {e}, keys, k, x) <==> Uses(S, keys, k, x) {}
  }

  lemma RecountTouched<K(!new)>(t: map<K, Node>, S: set<Event>, keys: Event -> seq<K>, k: K, e: Event)
    requires e !in S && k in keys(e) && IsRecount(t, S, keys)
    ensures k in TouchAll(t, keys(e), Stamp(e)) && Recounts(TouchAll(t, keys(e), Stamp(e))[k], S + {e}, keys, k)
  {
    TouchAllAt(t, keys(e), Stamp(e), k);
    TotalInsert(S, keys, k, e);
    if k in t {
      FirstInsert(S, keys, k, e, t[k].first);
      LastInsert(S, keys, k, e, t[k].last);
    } else {
      assert forall x :: !Uses(S, keys, k, x);
      forall x | x in S ensures k !in keys(x) { assert !Uses(S, keys, k, x); }
      TotalUnused(S, keys, k);
      FirstInsert(S, keys, k, e, Stamp(e));
      LastInsert(S, keys, k, e, 0);
    }
  }

  /** The incremental update of a recount is the recount of the larger set. */
  lemma RecountInsert<K(!new)>(t: map<K, Node>, S: set<Event>, keys: Event -> seq<K>, e: Event)
    requires e !in S && IsRecount(t, S, keys)
    ensures IsRecount(TouchAll(t, keys(e), Stamp(e)), S + {e}, keys)
  {
    var u := TouchAll(t, keys(e), Stamp(e));
    forall k ensures k in u <==> exists x :: Uses(S + {e}, keys, k, x) {
      TouchAllAt(t, keys(e), Stamp(e), k);
      forall x ensures Uses(S + {e}, keys, k, x) <==> Uses(S, keys, k, x) || (x == e && k in keys(e)) {}
      if k in keys(e) { assert Uses(S + {e}, keys, k, e); }
    }
    forall k | k in u ensures Recounts(u[k], S + {e}, keys, k) {
      TouchAllAt(t, keys(e), Stamp(e), k);
      if k in keys(e) { RecountTouched(t, S, keys, k, e); } else { RecountOther(t[k], S, keys, k, e); }
    }
  }

  lemma EmptyRecount<K(!new)>(keys: Event -> seq<K>)
    ensures IsRecount(map[], {}, keys)
  {
  }
}
