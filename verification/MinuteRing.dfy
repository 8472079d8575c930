/** The ring of 120 one-minute counters, against the plain history of recorded events. */
module MinuteRing {
  const SLOTS := 120
  const SECOND: int := 1_000_000_000
  const MINUTE: int := 60 * SECOND

  datatype Bucket = Bucket(minute: int, total: nat, errors: nat)

  /** One recorded event. */
  datatype Hit = Hit(minute: int, isError: bool)

  /** The two things counted: every event, or errors only. */
  datatype Kind = All | Errors

  function Worth(h: Hit, kind: Kind): nat { if kind.All? || h.isError then 1 else 0 }

  function Field(b: Bucket, kind: Kind): nat { if kind.All? then b.total else b.errors }

  /** time.Unix()/60 of a time in nanoseconds: seconds round down, the division truncates. */
  function MinuteOf(t: int): int {
    var s := t / SECOND;
    if s >= 0 then s / 60 else -((-s) / 60)
  }

  /** Minute m lasts from m to m + 1 times sixty seconds. */
  lemma MinuteByClock(t: int)
    requires t >= 0
    ensures MinuteOf(t) * 60_000_000_000 <= t < (MinuteOf(t) + 1) * 60_000_000_000
  {
  }

  lemma MinuteNotNegative(t: int)
    requires t >= 0
    ensures MinuteOf(t) >= 0
  {
  }

  // ---------- the history ----------

  /** Everything recorded since the cutoff minute. */
  function Since(hits: seq<Hit>, cutoff: int, kind: Kind): nat
    decreases |hits|
  {
    if hits == [] then 0 else
      Since(hits[..|hits| - 1], cutoff, kind)
      + if hits[|hits| - 1].minute >= cutoff then Worth(hits[|hits| - 1], kind) else 0
  }

  predicate Matches(h: Hit, slot: int, cutoff: int) { h.minute % SLOTS == slot && h.minute >= cutoff }

  /** The same, for the minutes that share a slot. */
  function SlotSince(hits: seq<Hit>, slot: int, cutoff: int, kind: Kind): nat
    decreases |hits|
  {
    if hits == [] then 0 else
      SlotSince(hits[..|hits| - 1], slot, cutoff, kind)
      + if Matches(hits[|hits| - 1], slot, cutoff) then Worth(hits[|hits| - 1], kind) else 0
  }

  /** Everything recorded in one minute. */
  function At(hits: seq<Hit>, minute: int, kind: Kind): nat
    decreases |hits|
  {
    if hits == [] then 0 else
      At(hits[..|hits| - 1], minute, kind)
      + if hits[|hits| - 1].minute == minute then Worth(hits[|hits| - 1], kind) else 0
  }

  /** Nothing is recorded after this minute. */
  predicate UpTo(hits: seq<Hit>, now: int)
    decreases |hits|
  {
    hits == [] || (hits[|hits| - 1].minute <= now && UpTo(hits[..|hits| - 1], now))
  }

  /** Calls may arrive out of order, as the clock is read before the lock is taken, but less than two hours late. */
  predicate Timely(hits: seq<Hit>)
    decreases |hits|
  {
    hits == []
    || (0 <= hits[|hits| - 1].minute && UpTo(hits[..|hits| - 1], hits[|hits| - 1].minute + SLOTS - 1)
        && Timely(hits[..|hits| - 1]))
  }

  predicate HasHit(hits: seq<Hit>, minute: int)
    decreases |hits|
  {
    hits != [] && (hits[|hits| - 1].minute == minute || HasHit(hits[..|hits| - 1], minute))
  }

  lemma {:induction false} AtNone(hits: seq<Hit>, minute: int, kind: Kind)
    ensures At(hits, minute, All) == 0 <==> !HasHit(hits, minute)
    ensures At(hits, minute, All) == 0 ==> At(hits, minute, kind) == 0
    decreases |hits|
  {
    if hits != [] { AtNone(hits[..|hits| - 1], minute, kind); }
  }

  lemma {:induction false} HitUpTo(hits: seq<Hit>, now: int, minute: int)
    requires UpTo(hits, now) && HasHit(hits, minute)
    ensures minute <= now
    decreases |hits|
  {
    if hits[|hits| - 1].minute != minute { HitUpTo(hits[..|hits| - 1], now, minute); }
  }

  // ---------- a slot ----------

  function BucketAt(hits: seq<Hit>, minute: int): Bucket {
    Bucket(minute, At(hits, minute, All), At(hits, minute, Errors))
  }

  /** The last minute recorded in a slot, or -1. */
  function LastOf(hits: seq<Hit>, slot: int): int
    decreases |hits|
  {
    if hits == [] then -1
    else if hits[|hits| - 1].minute % SLOTS == slot then hits[|hits| - 1].minute else LastOf(hits[..|hits| - 1], slot)
  }

  /** What a slot must hold: the counts of the last minute recorded in it. */
  function SlotOf(hits: seq<Hit>, slot: int): Bucket {
    if LastOf(hits, slot) < 0 then Bucket(0, 0, 0) else BucketAt(hits, LastOf(hits, slot))
  }

  /** The slot has no later minute than its last, which was recorded. */
  lemma {:induction false} LastFacts(hits: seq<Hit>, slot: int, m: int)
    requires Timely(hits)
    ensures LastOf(hits, slot) >= 0 ==> HasHit(hits, LastOf(hits, slot)) && LastOf(hits, slot) % SLOTS == slot
    ensures HasHit(hits, m) && m % SLOTS == slot ==> 0 <= m <= LastOf(hits, slot)
    decreases |hits|
  {
    if hits != [] {
      var init, last := hits[..|hits| - 1], hits[|hits| - 1];
      LastFacts(init, slot, m);
      if HasHit(init, m) { HitUpTo(init, last.minute + SLOTS - 1, m); }
    }
  }

  /** Inc on one bucket. */
  function Bump(b: Bucket, h: Hit): Bucket {
    var c := if b.minute != h.minute then Bucket(h.minute, 0, 0) else b;
    Bucket(c.minute, c.total + 1, if h.isError then c.errors + 1 else c.errors)
  }

  /** For a minute less than two hours late, the slot holds its counts or those of an earlier minute. */
  lemma SlotTally(hits: seq<Hit>, m: int, kind: Kind)
    requires Timely(hits) && UpTo(hits, m + SLOTS - 1) && m >= 0
    ensures var b := SlotOf(hits, m % SLOTS); At(hits, m, kind) == if b.minute != m then 0 else Field(b, kind)
  {
    var slot := m % SLOTS;
    LastFacts(hits, slot, m);
    AtNone(hits, m, kind);
    if LastOf(hits, slot) >= 0 { HitUpTo(hits, m + SLOTS - 1, LastOf(hits, slot)); }
  }

  lemma AtSnoc(hits: seq<Hit>, h: Hit, m: int, kind: Kind)
    ensures At(hits + [h], m, kind) == At(hits, m, kind) + if h.minute == m then Worth(h, kind) else 0
  {
    assert (hits + [h])[..|hits|] == hits;
  }

  lemma LastSnoc(hits: seq<Hit>, h: Hit, slot: int)
    ensures LastOf(hits + [h], slot) == if h.minute % SLOTS == slot then h.minute else LastOf(hits, slot)
  {
    assert (hits + [h])[..|hits|] == hits;
  }

  /** Recording an event changes its slot alone, and as Inc does. */
  lemma SlotAfter(hits: seq<Hit>, h: Hit, slot: int)
    requires Timely(hits) && UpTo(hits, h.minute + SLOTS - 1) && h.minute >= 0
    ensures SlotOf(hits + [h], slot) ==
            if h.minute % SLOTS == slot then Bump(SlotOf(hits, slot), h) else SlotOf(hits, slot)
  {
    LastSnoc(hits, h, slot);
    var last := LastOf(hits + [h], slot);
    AtSnoc(hits, h, last, All);
    AtSnoc(hits, h, last, Errors);
    if h.minute % SLOTS == slot {
      SlotTally(hits, h.minute, All);
      SlotTally(hits, h.minute, Errors);
    } else {
      LastFacts(hits, slot, last);
    }
  }

  // ---------- summing the slots ----------

  /** What Sum takes from a slot. */
  function Share(b: Bucket, cutoff: int, kind: Kind): nat {
    if b.minute >= cutoff && b.total > 0 then Field(b, kind) else 0
  }

  /** A minute since the cutoff, before m, was recorded in the slot. */
  predicate HasEarlier(hits: seq<Hit>, slot: int, cutoff: int, m: int)
    decreases |hits|
  {
    hits != []
      && ((Matches(hits[|hits| - 1], slot, cutoff) && hits[|hits| - 1].minute < m)
          || HasEarlier(hits[..|hits| - 1], slot, cutoff, m))
  }

  /** The slot has lost a minute since the cutoff to a later one. */
  predicate Overwritten(hits: seq<Hit>, slot: int, cutoff: int) { HasEarlier(hits, slot, cutoff, LastOf(hits, slot)) }

  /** No minute of the slot after m was recorded. */
  predicate NoneAfter(hits: seq<Hit>, slot: int, m: int)
    decreases |hits|
  {
    hits == []
    || ((hits[|hits| - 1].minute % SLOTS == slot ==> hits[|hits| - 1].minute <= m)
        && NoneAfter(hits[..|hits| - 1], slot, m))
  }

  lemma {:induction false} NoneAfterUpTo(hits: seq<Hit>, slot: int, m: int)
    requires UpTo(hits, m + SLOTS - 1) && m % SLOTS == slot
    ensures NoneAfter(hits, slot, m)
    decreases |hits|
  {
    if hits != [] { NoneAfterUpTo(hits[..|hits| - 1], slot, m); }
  }

  lemma {:induction false} NoneAfterLast(hits: seq<Hit>, slot: int)
    requires Timely(hits)
    ensures NoneAfter(hits, slot, LastOf(hits, slot))
    decreases |hits|
  {
    if hits != [] {
      var init, last := hits[..|hits| - 1], hits[|hits| - 1];
      if last.minute % SLOTS == slot { NoneAfterUpTo(init, slot, last.minute); } else { NoneAfterLast(init, slot); }
    }
  }

  /** The counts of a slot's last minute against those of all its minutes since the cutoff. */
  lemma {:induction false} SlotShare(hits: seq<Hit>, slot: int, cutoff: int, m: int, kind: Kind)
    requires m % SLOTS == slot && m >= cutoff && NoneAfter(hits, slot, m)
    ensures At(hits, m, kind) <= SlotSince(hits, slot, cutoff, kind)
    ensures !HasEarlier(hits, slot, cutoff, m) ==> At(hits, m, kind) == SlotSince(hits, slot, cutoff, kind)
    ensures HasEarlier(hits, slot, cutoff, m) ==> At(hits, m, All) < SlotSince(hits, slot, cutoff, All)
    decreases |hits|
  {
    if hits != [] {
      SlotShare(hits[..|hits| - 1], slot, cutoff, m, kind);
      SlotShare(hits[..|hits| - 1], slot, cutoff, m, All);
    }
  }

  /** A slot whose last minute is before the cutoff has nothing to give. */
  lemma {:induction false} SlotStale(hits: seq<Hit>, slot: int, cutoff: int, m: int, kind: Kind)
    requires NoneAfter(hits, slot, m) && m < cutoff
    ensures SlotSince(hits, slot, cutoff, kind) == 0 && !HasEarlier(hits, slot, cutoff, m)
    decreases |hits|
  {
    if hits != [] { SlotStale(hits[..|hits| - 1], slot, cutoff, m, kind); }
  }

  lemma {:induction false} SlotUntouched(hits: seq<Hit>, slot: int, cutoff: int, kind: Kind)
    requires Timely(hits) && LastOf(hits, slot) < 0
    ensures SlotSince(hits, slot, cutoff, kind) == 0 && !HasEarlier(hits, slot, cutoff, LastOf(hits, slot))
    decreases |hits|
  {
    if hits != [] { SlotUntouched(hits[..|hits| - 1], slot, cutoff, kind); }
  }

  /** A slot's share is all that was recorded in it since the cutoff, unless it was overwritten. */
  lemma ShareExact(hits: seq<Hit>, slot: int, cutoff: int, kind: Kind)
    requires Timely(hits)
    ensures !Overwritten(hits, slot, cutoff) ==>
      Share(SlotOf(hits, slot), cutoff, kind) == SlotSince(hits, slot, cutoff, kind)
    ensures Overwritten(hits, slot, cutoff) ==>
      Share(SlotOf(hits, slot), cutoff, All) < SlotSince(hits, slot, cutoff, All)
  {
    var m := LastOf(hits, slot);
    LastFacts(hits, slot, m);
    NoneAfterLast(hits, slot);
    if m < 0 {
      SlotUntouched(hits, slot, cutoff, kind);
    } else if m >= cutoff {
      AtNone(hits, m, kind);
      SlotShare(hits, slot, cutoff, m, kind);
    } else {
      SlotStale(hits, slot, cutoff, m, kind);
    }
  }

  /** The shares of the first n slots. */
  function Shares(hits: seq<Hit>, cutoff: int, n: nat, kind: Kind): nat {
    if n == 0 then 0 else Shares(hits, cutoff, n - 1, kind) + Share(SlotOf(hits, n - 1), cutoff, kind)
  }

  function SlotsSince(hits: seq<Hit>, cutoff: int, n: nat, kind: Kind): nat {
    if n == 0 then 0 else SlotsSince(hits, cutoff, n - 1, kind) + SlotSince(hits, n - 1, cutoff, kind)
  }

  lemma {:induction false} SlotsSnoc(hits: seq<Hit>, cutoff: int, n: nat, kind: Kind)
    requires hits != []
    ensures SlotsSince(hits, cutoff, n, kind) == SlotsSince(hits[..|hits| - 1], cutoff, n, kind)
              + if hits[|hits| - 1].minute % SLOTS < n && hits[|hits| - 1].minute >= cutoff
                then Worth(hits[|hits| - 1], kind) else 0
    decreases n
  {
    if n > 0 { SlotsSnoc(hits, cutoff, n - 1, kind); }
  }

  lemma {:induction false} NoSlots(cutoff: int, n: nat, kind: Kind)
    ensures SlotsSince([], cutoff, n, kind) == 0
    decreases n
  {
    if n > 0 { NoSlots(cutoff, n - 1, kind); }
  }

  /** The slots together hold every minute once. */
  lemma {:induction false} SlotsPartition(hits: seq<Hit>, cutoff: int, kind: Kind)
    ensures SlotsSince(hits, cutoff, SLOTS, kind) == Since(hits, cutoff, kind)
    decreases |hits|
  {
    if hits == [] {
      NoSlots(cutoff, SLOTS, kind);
    } else {
      SlotsPartition(hits[..|hits| - 1], cutoff, kind);
      SlotsSnoc(hits, cutoff, SLOTS, kind);
    }
  }

  /** One of the first n slots has lost a minute. */
  predicate AnyOverwritten(hits: seq<Hit>, cutoff: int, n: nat) {
    n > 0 && (Overwritten(hits, n - 1, cutoff) || AnyOverwritten(hits, cutoff, n - 1))
  }

  lemma {:induction false} SharesExact(hits: seq<Hit>, cutoff: int, n: nat, kind: Kind)
    requires Timely(hits)
    ensures !AnyOverwritten(hits, cutoff, n) ==> Shares(hits, cutoff, n, kind) == SlotsSince(hits, cutoff, n, kind)
    ensures Shares(hits, cutoff, n, All) <= SlotsSince(hits, cutoff, n, All)
    ensures AnyOverwritten(hits, cutoff, n) ==> Shares(hits, cutoff, n, All) < SlotsSince(hits, cutoff, n, All)
    decreases n
  {
    if n > 0 {
      SharesExact(hits, cutoff, n - 1, kind);
      SharesExact(hits, cutoff, n - 1, All);
      ShareExact(hits, n - 1, cutoff, kind);
      ShareExact(hits, n - 1, cutoff, All);
    }
  }

  // ---------- when the ring is exact ----------

  /** The one minute that a full two-hour window can lose: it was recorded, and so was the minute 120 later. */
  predicate LosesOldest(hits: seq<Hit>, now: int, cutoff: int) {
    cutoff <= now - SLOTS && HasHit(hits, now - SLOTS) && HasHit(hits, now)
  }

  /** Some recorded minute of the slot, since the cutoff, before m. */
  lemma {:induction false} EarlierMinute(hits: seq<Hit>, slot: int, cutoff: int, m: int) returns (earlier: int)
    requires HasEarlier(hits, slot, cutoff, m)
    ensures HasHit(hits, earlier) && earlier % SLOTS == slot && cutoff <= earlier < m
    decreases |hits|
  {
    if Matches(hits[|hits| - 1], slot, cutoff) && hits[|hits| - 1].minute < m { return hits[|hits| - 1].minute; }
    earlier := EarlierMinute(hits[..|hits| - 1], slot, cutoff, m);
  }

  lemma {:induction false} IsEarlier(hits: seq<Hit>, slot: int, cutoff: int, m: int, earlier: int)
    requires HasHit(hits, earlier) && earlier % SLOTS == slot && cutoff <= earlier < m
    ensures HasEarlier(hits, slot, cutoff, m)
    decreases |hits|
  {
    if hits[|hits| - 1].minute != earlier { IsEarlier(hits[..|hits| - 1], slot, cutoff, m, earlier); }
  }

  lemma SameSlotApart(a: int, b: int, now: int)
    requires a < b <= now && a % SLOTS == b % SLOTS && a >= now - SLOTS
    ensures a == now - SLOTS && b == now
  {
  }

  lemma OverwrittenIsOldest(hits: seq<Hit>, now: int, cutoff: int, slot: int)
    requires Timely(hits) && UpTo(hits, now) && cutoff >= now - SLOTS && Overwritten(hits, slot, cutoff)
    ensures LosesOldest(hits, now, cutoff)
  {
    var last := LastOf(hits, slot);
    var earlier := EarlierMinute(hits, slot, cutoff, last);
    LastFacts(hits, slot, earlier);
    HitUpTo(hits, now, last);
    SameSlotApart(earlier, last, now);
  }

  lemma {:induction false} AnyIsOldest(hits: seq<Hit>, now: int, cutoff: int, n: nat)
    requires Timely(hits) && UpTo(hits, now) && cutoff >= now - SLOTS && AnyOverwritten(hits, cutoff, n)
    ensures LosesOldest(hits, now, cutoff)
    decreases n
  {
    if Overwritten(hits, n - 1, cutoff) {
      OverwrittenIsOldest(hits, now, cutoff, n - 1);
    } else {
      AnyIsOldest(hits, now, cutoff, n - 1);
    }
  }

  lemma {:induction false} IsAny(hits: seq<Hit>, cutoff: int, n: nat, slot: nat)
    requires slot < n && Overwritten(hits, slot, cutoff)
    ensures AnyOverwritten(hits, cutoff, n)
    decreases n
  {
    if slot < n - 1 { IsAny(hits, cutoff, n - 1, slot); }
  }

  lemma OldestIsAny(hits: seq<Hit>, now: int, cutoff: int)
    requires Timely(hits) && UpTo(hits, now) && cutoff >= now - SLOTS && LosesOldest(hits, now, cutoff)
    ensures AnyOverwritten(hits, cutoff, SLOTS)
  {
    SameSlot(now);
    OldestOverwritten(hits, now, cutoff);
    IsAny(hits, cutoff, SLOTS, now % SLOTS);
  }

  lemma SameSlot(now: int)
    ensures (now - SLOTS) % SLOTS == now % SLOTS
  {
  }

  lemma OldestOverwritten(hits: seq<Hit>, now: int, cutoff: int)
    requires Timely(hits) && cutoff >= now - SLOTS && LosesOldest(hits, now, cutoff)
    requires (now - SLOTS) % SLOTS == now % SLOTS
    ensures Overwritten(hits, now % SLOTS, cutoff)
  {
    var slot := now % SLOTS;
    LastFacts(hits, slot, now);
    IsEarlier(hits, slot, cutoff, LastOf(hits, slot), now - SLOTS);
  }

  /** For any window up to two hours Sum is exact if and only if it does not reach a minute the ring has reused. */
  lemma RingExact(hits: seq<Hit>, now: int, cutoff: int, kind: Kind)
    requires Timely(hits) && UpTo(hits, now) && cutoff >= now - SLOTS
    ensures Shares(hits, cutoff, SLOTS, All) == Since(hits, cutoff, All) <==> !LosesOldest(hits, now, cutoff)
    ensures !LosesOldest(hits, now, cutoff) ==> Shares(hits, cutoff, SLOTS, kind) == Since(hits, cutoff, kind)
  {
    SharesExact(hits, cutoff, SLOTS, kind);
    SharesExact(hits, cutoff, SLOTS, All);
    SlotsPartition(hits, cutoff, kind);
    SlotsPartition(hits, cutoff, All);
    if AnyOverwritten(hits, cutoff, SLOTS) { AnyIsOldest(hits, now, cutoff, SLOTS); }
    if LosesOldest(hits, now, cutoff) { OldestIsAny(hits, now, cutoff); }
  }

  /** The cutoff of a window, in minutes. */
  lemma CutoffOf(now: int, window: int)
    requires now >= 0
    ensures window <= 119 * MINUTE ==> MinuteOf(now - window) > MinuteOf(now) - SLOTS
    ensures window <= 120 * MINUTE ==> MinuteOf(now - window) >= MinuteOf(now) - SLOTS
  {
  }

  /** A window of exactly two hours can lose a recorded minute. */
  lemma TwoHoursCanLose()
    ensures var hits := [Hit(0, false), Hit(SLOTS, false)];
            Timely(hits) && UpTo(hits, SLOTS) && Shares(hits, 0, SLOTS, All) != Since(hits, 0, All)
  {
    var hits := [Hit(0, false), Hit(SLOTS, false)];
    assert hits[..1] == [Hit(0, false)] && hits[..1][..0] == [];
    assert HasHit(hits[..1], 0);
    TimelySnoc([], hits[0]);
    TimelySnoc([hits[0]], hits[1]);
    assert hits == [hits[0]] + [hits[1]] && [hits[0]] == [] + [hits[0]];
    RingExact(hits, SLOTS, 0, All);
  }

  // ---------- the counters ----------

  class UnsampledCounters {
    const buckets: array<Bucket>
    ghost var hits: seq<Hit>

    /** Every slot holds what the history says. */
    ghost predicate Valid()
      reads this, buckets
    {
      buckets.Length == SLOTS && Timely(hits) && forall i :: 0 <= i < SLOTS ==> buckets[i] == SlotOf(hits, i)
    }

    constructor ()
      ensures Valid() && hits == [] && fresh(buckets)
    {
      buckets := new Bucket[SLOTS](_ => Bucket(0, 0, 0));
      hits := [];
    }

    method Inc(isError: bool, now: int)
      requires Valid() && now >= 0 && UpTo(hits, MinuteOf(now) + SLOTS - 1)
      modifies this, buckets
      ensures Valid() && hits == old(hits) + [Hit(MinuteOf(now), isError)]
    {
      MinuteNotNegative(now);
      IncAt(MinuteOf(now), isError);
    }

    /** The part under the lock. */
    method IncAt(minute: int, isError: bool)
      requires Valid() && minute >= 0 && UpTo(hits, minute + SLOTS - 1)
      modifies this, buckets
      ensures Valid() && hits == old(hits) + [Hit(minute, isError)]
    {
      ghost var h, slot := Hit(minute, isError), minute % SLOTS;
      TimelySnoc(hits, h);
      forall i | 0 <= i < SLOTS
        ensures SlotOf(hits + [h], i) == if i == slot then Bump(SlotOf(hits, i), h) else SlotOf(hits, i)
      {
        SlotAfter(hits, h, i);
      }
      var idx := minute % SLOTS;
      var b := buckets[idx];
      if b.minute != minute { b := Bucket(minute, 0, 0); }
      b := b.(total := b.total + 1);
      if isError { b := b.(errors := b.errors + 1); }
      assert b == Bump(SlotOf(hits, slot), h);
      buckets[idx] := b;
      hits := hits + [h];
    }

    /** Sum: exact unless a slot since the cutoff was reused. If nothing is recorded after now, it is exact for every
        window up to 119 minutes, and up to two hours unless the oldest minute was lost. Nothing beyond two hours. */
    method Sum(window: int, now: int) returns (total: nat, errs: nat)
      requires Valid() && now >= 0
      ensures window > 120 * MINUTE ==> total == 0 && errs == 0
      ensures window <= 120 * MINUTE ==>
        (total == Since(hits, MinuteOf(now - window), All)
         <==> !AnyOverwritten(hits, MinuteOf(now - window), SLOTS))
      ensures window <= 119 * MINUTE && UpTo(hits, MinuteOf(now)) ==>
        total == Since(hits, MinuteOf(now - window), All) && errs == Since(hits, MinuteOf(now - window), Errors)
      ensures window <= 120 * MINUTE && UpTo(hits, MinuteOf(now)) ==>
        (total == Since(hits, MinuteOf(now - window), All)
         <==> !LosesOldest(hits, MinuteOf(now), MinuteOf(now - window)))
    {
      total, errs := 0, 0;
      if window > 120 * MINUTE { return; }
      var cutoff := MinuteOf(now - window);
      for i := 0 to SLOTS
        invariant total == Shares(hits, cutoff, i, All) && errs == Shares(hits, cutoff, i, Errors)
      {
        var b := buckets[i];
        if b.minute >= cutoff && b.total > 0 { total, errs := total + b.total, errs + b.errors; }
      }
      CutoffOf(now, window);
      SlotsPartition(hits, cutoff, All);
      SharesExact(hits, cutoff, SLOTS, All);
      if UpTo(hits, MinuteOf(now)) {
        RingExact(hits, MinuteOf(now), cutoff, All);
        RingExact(hits, MinuteOf(now), cutoff, Errors);
      }
    }
  }

  lemma TimelySnoc(hits: seq<Hit>, h: Hit)
    requires Timely(hits) && UpTo(hits, h.minute + SLOTS - 1) && h.minute >= 0
    ensures Timely(hits + [h])
  {
    assert (hits + [h])[..|hits|] == hits;
  }
}
