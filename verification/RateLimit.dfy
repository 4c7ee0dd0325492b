/**
 Per-identity token buckets with an idle sweeper. The contract taken for the token-bucket library: a bucket starts
 full, refills continuously at rps up to burst, and a call takes one token if there is one. Tokens and idleness are
 measured on one clock, and times and rates are real numbers.
*/
module RateLimit {
  datatype Bucket = Bucket(tokens: real, last: real)

  function Min(a: real, b: real): real {
    if a < b then a else b
  }

  /** The tokens a bucket holds at a time. */
  function Level(rps: real, burst: nat, b: Bucket, now: real): real {
    Min(burst as real, b.tokens + rps * (now - b.last))
  }

  /** At the moment of its own timestamp nothing has been refilled yet. */
  lemma LevelNow(rps: real, burst: nat, b: Bucket, now: real)
    requires b.last == now
    ensures Level(rps, burst, b, now) == Min(burst as real, b.tokens)
  {
    var elapsed := now - b.last;
    assert elapsed == 0.0;
    assert rps * elapsed == 0.0;
  }

  /** One library Allow: decision and bucket afterwards. A refused call leaves the bucket as it was. */
  function TakeToken(rps: real, burst: nat, b: Bucket, now: real): (bool, Bucket) {
    var level := Level(rps, burst, b, now);
    if level >= 1.0 then (true, Bucket(level - 1.0, now)) else (false, b)
  }

  function Full(burst: nat, now: real): Bucket {
    Bucket(burst as real, now)
  }

  datatype Slot = Slot(bucket: Bucket, lastSeen: real)

  type Slots = map<string, Slot>

  // ---- What each operation does ----

  function BucketFor(slots: Slots, burst: nat, id: string, now: real): Bucket {
    if id in slots then slots[id].bucket else Full(burst, now)
  }

  function Allowed(slots: Slots, rps: real, burst: nat, id: string, now: real): bool {
    rps <= 0.0 || TakeToken(rps, burst, BucketFor(slots, burst, id, now), now).0
  }

  function AfterAllow(slots: Slots, rps: real, burst: nat, id: string, now: real): Slots {
    if rps <= 0.0 then slots
    else slots[id := Slot(TakeToken(rps, burst, BucketFor(slots, burst, id, now), now).1, now)]
  }

  function AfterSweep(slots: Slots, idleTTL: real, now: real): Slots {
    map id | id in slots && !(slots[id].lastSeen < now - idleTTL) :: slots[id]
  }

  class Limiter {
    var buckets: Slots
    const rps: real
    const burst: nat
    const idleTTL: real

    constructor (rps: real, burst: int, idleTTL: real)
      ensures buckets == map[] && this.rps == rps && this.idleTTL == idleTTL
      ensures this.burst >= 1 && this.burst == if burst <= 0 then 1 else burst
    {
      this.buckets := map[];
      this.rps, this.idleTTL := rps, idleTTL;
      this.burst := if burst <= 0 then 1 else burst;
    }

    method Allow(identity: string, now: real) returns (ok: bool)
      modifies this
      ensures ok == Allowed(old(buckets), rps, burst, identity, now)
      ensures buckets == AfterAllow(old(buckets), rps, burst, identity, now)
      ensures rps <= 0.0 ==> ok && buckets == old(buckets)
      ensures rps > 0.0 && burst >= 1 && identity !in old(buckets) ==>
        ok && buckets == old(buckets)[identity := Slot(Bucket(burst as real - 1.0, now), now)]
      ensures rps > 0.0 && burst >= 1 && identity in old(buckets) ==>
        var b := old(buckets)[identity].bucket;
        var refilled := b.tokens + rps * (now - b.last);
        var left := if refilled < burst as real then refilled - 1.0 else burst as real - 1.0;
        && (ok <==> left >= 0.0)
        && identity in buckets && buckets == old(buckets)[identity := buckets[identity]]
        && buckets[identity].lastSeen == now
        && if ok then buckets[identity].bucket.tokens == left && buckets[identity].bucket.last == now
           else buckets[identity].bucket == b
    {
      if rps <= 0.0 {
        return true;
      }
      LevelNow(rps, burst, Full(burst, now), now);
      assert burst >= 1 ==> burst as real >= 1.0;
      if identity !in buckets {
        buckets := buckets[identity := Slot(Full(burst, now), now)];
      }
      buckets := buckets[identity := buckets[identity].(lastSeen := now)];
      var b;
      ok, b := TakeToken(rps, burst, buckets[identity].bucket, now).0,
        TakeToken(rps, burst, buckets[identity].bucket, now).1;
      buckets := buckets[identity := buckets[identity].(bucket := b)];
    }

    /** Drops exactly the buckets idle for longer than the limit, and counts them. */
    method Sweep(now: real) returns (removed: nat)
      modifies this
      ensures buckets == AfterSweep(old(buckets), idleTTL, now)
      ensures forall id :: id in buckets <==> id in old(buckets) && now - old(buckets)[id].lastSeen <= idleTTL
      ensures forall id | id in buckets :: buckets[id] == old(buckets)[id]
      ensures removed == |old(buckets)| - |buckets|
    {
      var cutoff := now - idleTTL;
      removed := 0;
      var remaining := buckets.Keys;
      while remaining != {}
        invariant remaining <= buckets.Keys <= old(buckets).Keys
        invariant forall k | k in buckets :: buckets[k] == old(buckets)[k]
        invariant forall k | k in old(buckets) && k !in remaining ::
          k in buckets <==> !(old(buckets)[k].lastSeen < cutoff)
        invariant removed == |old(buckets).Keys| - |buckets.Keys|
        decreases remaining
      {
        var k :| k in remaining;
        remaining := remaining - {k};
        if buckets[k].lastSeen < cutoff {
          assert (buckets - {k}).Keys == buckets.Keys - {k};
          buckets := buckets - {k};
          removed := removed + 1;
        }
      }
      assert buckets == AfterSweep(old(buckets), idleTTL, now);
    }
  }

  // ---- Sweeping is unobservable ----

  datatype Op = Allow(id: string, now: real) | Sweep(now: real)

  predicate Monotone(t: real, ops: seq<Op>)
    decreases |ops|
  {
    ops == [] || (t <= ops[0].now && Monotone(ops[0].now, ops[1..]))
  }

  /** The decisions of a run. */
  function Decisions(slots: Slots, rps: real, burst: nat, idleTTL: real, ops: seq<Op>): seq<bool>
    decreases |ops|
  {
    if ops == [] then []
    else match ops[0]
      case Allow(id, now) =>
        [Allowed(slots, rps, burst, id, now)]
          + Decisions(AfterAllow(slots, rps, burst, id, now), rps, burst, idleTTL, ops[1..])
      case Sweep(now) => Decisions(AfterSweep(slots, idleTTL, now), rps, burst, idleTTL, ops[1..])
  }

  /** The decisions of a limiter that never sweeps. */
  function NeverSwept(slots: Slots, rps: real, burst: nat, ops: seq<Op>): seq<bool>
    decreases |ops|
  {
    if ops == [] then []
    else match ops[0]
      case Allow(id, now) =>
        [Allowed(slots, rps, burst, id, now)] + NeverSwept(AfterAllow(slots, rps, burst, id, now), rps, burst, ops[1..])
      case Sweep(_) => NeverSwept(slots, rps, burst, ops[1..])
  }

  predicate SlotOk(s: Slot, t: real) {
    0.0 <= s.bucket.tokens && s.bucket.last <= s.lastSeen <= t
  }

  /** A bucket whose refill has reached the burst. */
  predicate Refilled(b: Bucket, rps: real, burst: nat, t: real) {
    b.tokens + rps * (t - b.last) >= burst as real
  }

  /** The swept limiter holds some of the slots; a missing one has refilled completely by time t. */
  ghost predicate Trims(slots: Slots, whole: Slots, rps: real, burst: nat, t: real) {
    && (forall id | id in slots :: id in whole && whole[id] == slots[id])
    && (forall id | id in whole :: SlotOk(whole[id], t))
    && (forall id | id in whole && id !in slots ::
       Refilled(whole[id].bucket, rps, burst, t))
  }

  lemma MulMonotone(r: real, a: real, b: real)
    requires 0.0 <= r && a <= b
    ensures r * a <= r * b
  {
  }

  lemma MulNonNegative(r: real, a: real)
    requires 0.0 <= r && 0.0 <= a
    ensures 0.0 <= r * a
  {
  }

  lemma SumNonNegative(a: real, b: real)
    requires 0.0 <= a && 0.0 <= b
    ensures 0.0 <= a + b
  {
  }

  lemma AddAtLeast(a: real, b: real, full: real)
    requires 0.0 <= a && full <= b
    ensures full <= a + b
  {
  }

  lemma RefillGrows(tokens: real, rps: real, last: real, t: real, u: real, full: real)
    requires rps > 0.0 && t <= u && tokens + rps * (t - last) >= full
    ensures tokens + rps * (u - last) >= full
  {
    MulMonotone(rps, t - last, u - last);
  }

  lemma IdleRefills(tokens: real, rps: real, last: real, now: real, idleTTL: real, full: real)
    requires rps > 0.0 && 0.0 <= tokens && idleTTL <= now - last && idleTTL * rps >= full
    ensures tokens + rps * (now - last) >= full
  {
    var elapsed := now - last;
    MulMonotone(rps, idleTTL, elapsed);
    assert idleTTL * rps == rps * idleTTL;
    AddAtLeast(tokens, rps * elapsed, full);
  }

  lemma TrimsLater(slots: Slots, whole: Slots, rps: real, burst: nat, t: real, u: real)
    requires Trims(slots, whole, rps, burst, t) && t <= u && rps > 0.0
    ensures Trims(slots, whole, rps, burst, u)
  {
    forall id | id in whole && id !in slots
      ensures Refilled(whole[id].bucket, rps, burst, u)
    {
      RefillGrows(whole[id].bucket.tokens, rps, whole[id].bucket.last, t, u, burst as real);
    }
  }

  lemma TakeKeepsSlot(rps: real, burst: nat, b: Bucket, t: real, now: real)
    requires 0.0 <= b.tokens && b.last <= t <= now && rps > 0.0
    ensures SlotOk(Slot(TakeToken(rps, burst, b, now).1, now), now)
  {
  }

  /** A bucket that has refilled decides and continues like a new one. */
  lemma RefilledIsNew(rps: real, burst: nat, b: Bucket, now: real)
    requires burst >= 1 && Refilled(b, rps, burst, now)
    ensures TakeToken(rps, burst, b, now) == TakeToken(rps, burst, Full(burst, now), now)
  {
    LevelNow(rps, burst, Full(burst, now), now);
    assert Level(rps, burst, b, now) == burst as real == Level(rps, burst, Full(burst, now), now);
  }

  lemma UpdateKeepsTrims(slots: Slots, whole: Slots, rps: real, burst: nat, t: real, id: string, slot: Slot)
    requires Trims(slots, whole, rps, burst, t) && SlotOk(slot, t)
    ensures Trims(slots[id := slot], whole[id := slot], rps, burst, t)
  {
  }

  lemma AllowKeepsTrims(slots: Slots, whole: Slots, rps: real, burst: nat, t: real, id: string, now: real)
    requires rps > 0.0 && burst >= 1 && t <= now && Trims(slots, whole, rps, burst, t)
    ensures Allowed(slots, rps, burst, id, now) == Allowed(whole, rps, burst, id, now)
    ensures Trims(AfterAllow(slots, rps, burst, id, now), AfterAllow(whole, rps, burst, id, now), rps, burst, now)
  {
    TrimsLater(slots, whole, rps, burst, t, now);
    var b := BucketFor(whole, burst, id, now);
    assert TakeToken(rps, burst, BucketFor(slots, burst, id, now), now) == TakeToken(rps, burst, b, now) by {
      if id in whole && id !in slots { RefilledIsNew(rps, burst, b, now); }
    }
    assert b.last <= now && 0.0 <= b.tokens;
    TakeKeepsSlot(rps, burst, b, b.last, now);
    UpdateKeepsTrims(slots, whole, rps, burst, now, id, Slot(TakeToken(rps, burst, b, now).1, now));
  }

  /** A bucket the sweep drops has refilled. */
  lemma SweptHasRefilled(slot: Slot, rps: real, burst: nat, idleTTL: real, now: real)
    requires rps > 0.0 && idleTTL * rps >= burst as real && SlotOk(slot, now) && slot.lastSeen < now - idleTTL
    ensures Refilled(slot.bucket, rps, burst, now)
  {
    IdleRefills(slot.bucket.tokens, rps, slot.bucket.last, now, idleTTL, burst as real);
  }

  lemma SweepKeepsTrims(slots: Slots, whole: Slots, rps: real, burst: nat, idleTTL: real, t: real, now: real)
    requires rps > 0.0 && idleTTL * rps >= burst as real && t <= now && Trims(slots, whole, rps, burst, t)
    ensures Trims(AfterSweep(slots, idleTTL, now), whole, rps, burst, now)
  {
    hide Refilled;
    TrimsLater(slots, whole, rps, burst, t, now);
    forall id | id in whole && id !in AfterSweep(slots, idleTTL, now)
      ensures Refilled(whole[id].bucket, rps, burst, now)
    {
      if id in slots { SweptHasRefilled(whole[id], rps, burst, idleTTL, now); }
    }
  }

  /**
   With idleTTL * rps >= burst the sweeper is invisible: whatever sweeps run, every decision is that of a limiter that
   never forgets an identity.
  */
  lemma {:induction false} SweepUnobservable(slots: Slots, whole: Slots, rps: real, burst: nat, idleTTL: real, t: real,
                                             ops: seq<Op>)
    requires rps > 0.0 && burst >= 1 && idleTTL * rps >= burst as real
    requires Trims(slots, whole, rps, burst, t) && Monotone(t, ops)
    ensures Decisions(slots, rps, burst, idleTTL, ops) == NeverSwept(whole, rps, burst, ops)
    decreases |ops|
  {
    if ops != [] {
      match ops[0]
      case Allow(id, now) =>
        AllowKeepsTrims(slots, whole, rps, burst, t, id, now);
        SweepUnobservable(AfterAllow(slots, rps, burst, id, now), AfterAllow(whole, rps, burst, id, now), rps, burst,
          idleTTL, now, ops[1..]);
      case Sweep(now) =>
        SweepKeepsTrims(slots, whole, rps, burst, idleTTL, t, now);
        SweepUnobservable(AfterSweep(slots, idleTTL, now), whole, rps, burst, idleTTL, now, ops[1..]);
    }
  }

  /** From an empty limiter. */
  lemma SweepUnobservableFromStart(rps: real, burst: nat, idleTTL: real, t: real, ops: seq<Op>)
    requires rps > 0.0 && burst >= 1 && idleTTL * rps >= burst as real && Monotone(t, ops)
    ensures Decisions(map[], rps, burst, idleTTL, ops) == NeverSwept(map[], rps, burst, ops)
  {
    SweepUnobservable(map[], map[], rps, burst, idleTTL, t, ops);
  }

  // ---- The idle limit is exactly right ----

  /** n calls of one identity at one moment. */
  function Calls(id: string, now: real, n: nat): seq<Op> {
    if n == 0 then [] else [Allow(id, now)] + Calls(id, now, n - 1)
  }

  function Trues(n: nat): seq<bool> {
    seq(n, _ => true)
  }

  /** A bucket holding n tokens or more admits n calls at once, swept later or not. */
  lemma {:induction false} Spends(slots: Slots, rps: real, burst: nat, idleTTL: real, id: string, now: real,
                                  level: real, n: nat, rest: seq<Op>)
    requires rps > 0.0 && n >= 1 && level >= n as real
    requires Level(rps, burst, BucketFor(slots, burst, id, now), now) == level
    ensures var after := slots[id := Slot(Bucket(level - n as real, now), now)];
      && Decisions(slots, rps, burst, idleTTL, Calls(id, now, n) + rest)
         == Trues(n) + Decisions(after, rps, burst, idleTTL, rest)
      && NeverSwept(slots, rps, burst, Calls(id, now, n) + rest) == Trues(n) + NeverSwept(after, rps, burst, rest)
    decreases n
  {
    assert level <= burst as real;
    hide Level;
    var ops := Calls(id, now, n) + rest;
    assert ops[0] == Allow(id, now) && ops[1..] == Calls(id, now, n - 1) + rest;
    var next := AfterAllow(slots, rps, burst, id, now);
    assert next == slots[id := Slot(Bucket(level - 1.0, now), now)];
    if n == 1 {
      assert ops[1..] == rest;
      assert Trues(1) == [true];
    } else {
      LevelNow(rps, burst, Bucket(level - 1.0, now), now);
      Spends(next, rps, burst, idleTTL, id, now, level - 1.0, n - 1, rest);
      assert next[id := Slot(Bucket(level - n as real, now), now)]
        == slots[id := Slot(Bucket(level - n as real, now), now)];
      assert forall tail: seq<bool> :: [true] + (Trues(n - 1) + tail) == Trues(n) + tail;
    }
  }

  /** A bucket holding less than n tokens does not admit n calls at once. */
  lemma {:induction false} CannotOverspend(slots: Slots, rps: real, burst: nat, id: string, now: real, n: nat)
    requires rps > 0.0 && Level(rps, burst, BucketFor(slots, burst, id, now), now) < n as real && n >= 1
    ensures NeverSwept(slots, rps, burst, Calls(id, now, n)) != Trues(n)
    decreases n
  {
    var level := Level(rps, burst, BucketFor(slots, burst, id, now), now);
    assert Calls(id, now, n)[1..] == Calls(id, now, n - 1);
    if level >= 1.0 {
      assert n >= 2;
      LevelNow(rps, burst, Bucket(level - 1.0, now), now);
      CannotOverspend(AfterAllow(slots, rps, burst, id, now), rps, burst, id, now, n - 1);
      assert Trues(n)[1..] == Trues(n - 1);
    } else {
      assert Trues(n)[0];
    }
  }

  lemma {:induction false} CallsMonotone(t: real, id: string, now: real, n: nat, rest: seq<Op>)
    requires t <= now && Monotone(now, rest)
    ensures Monotone(t, Calls(id, now, n) + rest)
    decreases n
  {
    if n == 0 {
      assert Calls(id, now, 0) + rest == rest;
      assert rest == [] || Monotone(rest[0].now, rest[1..]);
    } else {
      assert (Calls(id, now, n) + rest)[1..] == Calls(id, now, n - 1) + rest;
      CallsMonotone(now, id, now, n - 1, rest);
    }
  }

  /** Spend the burst at time 0, sweep at time at, then ask for the whole burst again. */
  function ProbeRun(id: string, burst: nat, at: real): seq<Op> {
    Calls(id, 0.0, burst) + ([Sweep(at)] + Calls(id, at, burst))
  }

  lemma ProbeSeesSweep(id: string, rps: real, burst: nat, idleTTL: real, at: real)
    requires rps > 0.0 && burst >= 1 && 0.0 <= at && idleTTL < at && rps * at < burst as real
    ensures Monotone(0.0, ProbeRun(id, burst, at))
    ensures Decisions(map[], rps, burst, idleTTL, ProbeRun(id, burst, at))
      != NeverSwept(map[], rps, burst, ProbeRun(id, burst, at))
  {
    var again := Calls(id, at, burst);
    var tail := [Sweep(at)] + again;
    assert again + [] == again;
    CallsMonotone(at, id, at, burst, []);
    assert tail[1..] == again;
    CallsMonotone(0.0, id, 0.0, burst, tail);
    LevelNow(rps, burst, Full(burst, 0.0), 0.0);
    LevelNow(rps, burst, Full(burst, at), at);
    Spends(map[], rps, burst, idleTTL, id, 0.0, burst as real, burst, tail);
    var spent: Slots := map[id := Slot(Bucket(0.0, 0.0), 0.0)];
    assert AfterSweep(spent, idleTTL, at) == map[];
    Spends(map[], rps, burst, idleTTL, id, at, burst as real, burst, []);
    assert Decisions(map[], rps, burst, idleTTL, again) == Trues(burst);
    CannotOverspend(spent, rps, burst, id, at, burst);
    assert Decisions(spent, rps, burst, idleTTL, tail) != NeverSwept(spent, rps, burst, tail);
    SamePrefix(Trues(burst), Decisions(spent, rps, burst, idleTTL, tail), NeverSwept(spent, rps, burst, tail));
  }

  lemma SamePrefix(p: seq<bool>, a: seq<bool>, b: seq<bool>)
    requires a != b
    ensures p + a != p + b
  {
    assert (p + a)[|p|..] == a && (p + b)[|p|..] == b;
  }

  ghost predicate SweepsInvisible(rps: real, burst: nat, idleTTL: real) {
    forall t: real, ops: seq<Op> | Monotone(t, ops) ::
      Decisions(map[], rps, burst, idleTTL, ops) == NeverSwept(map[], rps, burst, ops)
  }

  /** Sweeping changes no decision of any run exactly when a bucket refills completely within the idle limit. */
  lemma SweepInvisibleExactly(rps: real, burst: nat, idleTTL: real)
    requires rps > 0.0 && burst >= 1
    ensures SweepsInvisible(rps, burst, idleTTL) <==> idleTTL * rps >= burst as real
  {
    if idleTTL * rps >= burst as real {
      forall t: real, ops: seq<Op> | Monotone(t, ops)
        ensures Decisions(map[], rps, burst, idleTTL, ops) == NeverSwept(map[], rps, burst, ops)
      {
        SweepUnobservableFromStart(rps, burst, idleTTL, t, ops);
      }
    } else {
      var at := if idleTTL < 0.0 then 0.0 else (idleTTL + burst as real / rps) / 2.0;
      HalfwayToFull(rps, burst, idleTTL);
      ProbeSeesSweep("id", rps, burst, idleTTL, at);
    }
  }

  lemma HalfwayToFull(rps: real, burst: nat, idleTTL: real)
    requires rps > 0.0 && burst >= 1 && idleTTL * rps < burst as real
    ensures var at := if idleTTL < 0.0 then 0.0 else (idleTTL + burst as real / rps) / 2.0;
      0.0 <= at && idleTTL < at && rps * at < burst as real
  {
    if idleTTL >= 0.0 {
      var full := burst as real / rps;
      assert rps * full == burst as real;
      if full <= idleTTL { MulMonotone(rps, full, idleTTL); }
      var at := (idleTTL + full) / 2.0;
      assert rps * at == (rps * idleTTL + rps * full) / 2.0;
    }
  }

  // ---- The rate bound ----

  /** How many calls of one identity the decisions of a run admit. */
  function Admitted(ops: seq<Op>, decisions: seq<bool>, id: string): nat
    decreases |ops|
  {
    if ops == [] || decisions == [] then 0
    else match ops[0]
      case Allow(i, _) => (if i == id && decisions[0] then 1 else 0) + Admitted(ops[1..], decisions[1..], id)
      case Sweep(_) => Admitted(ops[1..], decisions, id)
  }

  predicate EndsBy(ops: seq<Op>, to: real) {
    forall k | 0 <= k < |ops| :: ops[k].now <= to
  }

  ghost predicate SlotsOk(slots: Slots, t: real) {
    forall id | id in slots :: SlotOk(slots[id], t)
  }

  function LevelOf(slots: Slots, rps: real, burst: nat, id: string, t: real): real {
    Level(rps, burst, BucketFor(slots, burst, id, t), t)
  }

  lemma LevelRises(slots: Slots, rps: real, burst: nat, id: string, t: real, now: real)
    requires rps > 0.0 && t <= now && SlotsOk(slots, t)
    ensures LevelOf(slots, rps, burst, id, now) <= LevelOf(slots, rps, burst, id, t) + rps * (now - t)
  {
    LevelNow(rps, burst, Full(burst, t), t);
    LevelNow(rps, burst, Full(burst, now), now);
    MulNonNegative(rps, now - t);
    if id in slots {
      var last := slots[id].bucket.last;
      assert rps * (now - last) == rps * (now - t) + rps * (t - last);
    }
  }

  /** Whatever a call decides, it and the tokens left are paid for by the tokens before. */
  lemma CallIsPaid(slots: Slots, rps: real, burst: nat, id: string, i: string, now: real)
    requires rps > 0.0 && burst >= 1 && SlotsOk(slots, now)
    ensures SlotsOk(AfterAllow(slots, rps, burst, i, now), now)
    ensures (if i == id && Allowed(slots, rps, burst, i, now) then 1.0 else 0.0)
            + LevelOf(AfterAllow(slots, rps, burst, i, now), rps, burst, id, now) <= LevelOf(slots, rps, burst, id, now)
  {
    var b := BucketFor(slots, burst, i, now);
    TakeKeepsSlot(rps, burst, b, b.last, now);
    var taken := TakeToken(rps, burst, b, now);
    if taken.0 { LevelNow(rps, burst, taken.1, now); }
  }

  /** Adding up a budget: one call now, the rest later. */
  lemma PaidInTotal(one: real, rest: real, next: real, now: real, from: real, rps: real, t0: real, t1: real, t2: real)
    requires rest <= next + rps * (t2 - t1) && one + next <= now && now <= from + rps * (t1 - t0)
    ensures one + rest <= from + rps * (t2 - t0)
  {
    assert rps * (t2 - t0) == rps * (t2 - t1) + rps * (t1 - t0);
  }

  lemma AllowAdmits(slots: Slots, rps: real, burst: nat, ops: seq<Op>, id: string)
    requires ops != [] && ops[0].Allow?
    ensures var i, now := ops[0].id, ops[0].now;
      Admitted(ops, NeverSwept(slots, rps, burst, ops), id)
      == (if i == id && Allowed(slots, rps, burst, i, now) then 1 else 0)
         + Admitted(ops[1..], NeverSwept(AfterAllow(slots, rps, burst, i, now), rps, burst, ops[1..]), id)
  {
    var next := AfterAllow(slots, rps, burst, ops[0].id, ops[0].now);
    assert NeverSwept(slots, rps, burst, ops)[1..] == NeverSwept(next, rps, burst, ops[1..]);
  }

  lemma SweepAdmits(slots: Slots, rps: real, burst: nat, ops: seq<Op>, id: string)
    requires ops != [] && ops[0].Sweep?
    ensures Admitted(ops, NeverSwept(slots, rps, burst, ops), id)
            == Admitted(ops[1..], NeverSwept(slots, rps, burst, ops[1..]), id)
  {
    if NeverSwept(slots, rps, burst, ops) == [] { NoDecisions(ops[1..], id); }
  }

  lemma NoDecisions(ops: seq<Op>, id: string)
    ensures Admitted(ops, [], id) == 0
  {
  }

  /** The decisions of a run are paid for by the tokens at its start and those refilled until its end. */
  lemma {:induction false} AdmittedIsPaid(slots: Slots, rps: real, burst: nat, ops: seq<Op>, id: string, from: real,
                                          to: real)
    requires rps > 0.0 && burst >= 1 && SlotsOk(slots, from) && from <= to && Monotone(from, ops) && EndsBy(ops, to)
    ensures Admitted(ops, NeverSwept(slots, rps, burst, ops), id) as real
            <= LevelOf(slots, rps, burst, id, from) + rps * (to - from)
    decreases |ops|
  {
    hide LevelOf, Allowed, AfterAllow, SlotsOk;
    if ops == [] {
      NoneAdmitted(NeverSwept(slots, rps, burst, ops), id);
      hide NeverSwept, Admitted;
      var window := to - from;
      MulNonNegative(rps, window);
      LevelNonNegative(slots, rps, burst, id, from);
      SumNonNegative(LevelOf(slots, rps, burst, id, from), rps * window);
    } else {
      var now := ops[0].now;
      assert forall k | 0 <= k < |ops[1..]| :: ops[1..][k] == ops[k + 1];
      assert ops[0] in ops && now <= to;
      SlotsLater(slots, from, now);
      LevelRises(slots, rps, burst, id, from, now);
      var before, level := LevelOf(slots, rps, burst, id, from), LevelOf(slots, rps, burst, id, now);
      match ops[0]
      case Allow(i, _) =>
        hide NeverSwept, Admitted;
        CallIsPaid(slots, rps, burst, id, i, now);
        var next := AfterAllow(slots, rps, burst, i, now);
        AdmittedIsPaid(next, rps, burst, ops[1..], id, now, to);
        AllowAdmits(slots, rps, burst, ops, id);
        var one := if i == id && Allowed(slots, rps, burst, i, now) then 1.0 else 0.0;
        var rest := Admitted(ops[1..], NeverSwept(next, rps, burst, ops[1..]), id);
        PaidInTotal(one, rest as real, LevelOf(next, rps, burst, id, now), level, before, rps, from, now, to);
      case Sweep(_) =>
        hide NeverSwept, Admitted;
        AdmittedIsPaid(slots, rps, burst, ops[1..], id, now, to);
        SweepAdmits(slots, rps, burst, ops, id);
        var rest := Admitted(ops[1..], NeverSwept(slots, rps, burst, ops[1..]), id);
        PaidInTotal(0.0, rest as real, level, level, before, rps, from, now, to);
    }
  }

  lemma NoneAdmitted(decisions: seq<bool>, id: string)
    ensures Admitted([], decisions, id) == 0
  {
  }

  lemma SlotsLater(slots: Slots, t: real, u: real)
    requires SlotsOk(slots, t) && t <= u
    ensures SlotsOk(slots, u)
  {
  }

  lemma LevelNonNegative(slots: Slots, rps: real, burst: nat, id: string, t: real)
    requires rps > 0.0 && SlotsOk(slots, t)
    ensures 0.0 <= LevelOf(slots, rps, burst, id, t)
  {
    LevelNow(rps, burst, Full(burst, t), t);
    if id in slots {
      var b := slots[id].bucket;
      MulNonNegative(rps, t - b.last);
      SumNonNegative(b.tokens, rps * (t - b.last));
    }
  }

  /** The limiter, and the one that never sweeps, after a run. */
  function AfterRun(slots: Slots, rps: real, burst: nat, idleTTL: real, sweeping: bool, ops: seq<Op>): Slots
    decreases |ops|
  {
    if ops == [] then slots
    else match ops[0]
      case Allow(id, now) => AfterRun(AfterAllow(slots, rps, burst, id, now), rps, burst, idleTTL, sweeping, ops[1..])
      case Sweep(now) =>
        AfterRun(if sweeping then AfterSweep(slots, idleTTL, now) else slots, rps, burst, idleTTL, sweeping, ops[1..])
  }

  lemma {:induction false} RunKeepsTrims(slots: Slots, whole: Slots, rps: real, burst: nat, idleTTL: real, t: real,
                                         ops: seq<Op>, to: real)
    requires rps > 0.0 && burst >= 1 && idleTTL * rps >= burst as real && t <= to
    requires Trims(slots, whole, rps, burst, t) && Monotone(t, ops) && EndsBy(ops, to)
    ensures Trims(AfterRun(slots, rps, burst, idleTTL, true, ops), AfterRun(whole, rps, burst, idleTTL, false, ops),
      rps, burst, to)
    decreases |ops|
  {
    if ops == [] {
      TrimsLater(slots, whole, rps, burst, t, to);
    } else {
      var now := ops[0].now;
      assert forall k | 0 <= k < |ops[1..]| :: ops[1..][k] == ops[k + 1];
      match ops[0]
      case Allow(id, _) =>
        AllowKeepsTrims(slots, whole, rps, burst, t, id, now);
        RunKeepsTrims(AfterAllow(slots, rps, burst, id, now), AfterAllow(whole, rps, burst, id, now), rps, burst,
          idleTTL, now, ops[1..], to);
      case Sweep(_) =>
        SweepKeepsTrims(slots, whole, rps, burst, idleTTL, t, now);
        RunKeepsTrims(AfterSweep(slots, idleTTL, now), whole, rps, burst, idleTTL, now, ops[1..], to);
    }
  }

  /**
   The rate bound survives sweeping: after any run, in any following window from one time to another, one identity gets
   at most burst + rps * (length of the window) calls admitted, whatever else happens and whatever is swept.
  */
  lemma RateBound(rps: real, burst: nat, idleTTL: real, t: real, before: seq<Op>, window: seq<Op>, from: real,
                  to: real, id: string)
    requires rps > 0.0 && burst >= 1 && idleTTL * rps >= burst as real
    requires Monotone(t, before) && EndsBy(before, from) && t <= from <= to && Monotone(from, window)
      && EndsBy(window, to)
    ensures var slots := AfterRun(map[], rps, burst, idleTTL, true, before);
      Admitted(window, Decisions(slots, rps, burst, idleTTL, window), id) as real <= burst as real + rps * (to - from)
  {
    RunKeepsTrims(map[], map[], rps, burst, idleTTL, t, before, from);
    var slots := AfterRun(map[], rps, burst, idleTTL, true, before);
    var whole := AfterRun(map[], rps, burst, idleTTL, false, before);
    SweepUnobservable(slots, whole, rps, burst, idleTTL, from, window);
    AdmittedIsPaid(whole, rps, burst, window, id, from, to);
  }
}
