/** The TTL map behind Idempotency-Key, and the proof that deleting from it cannot be observed. */
module IdempotencyStore {
  import opened Options

  datatype Entry = Entry(status: int, body: seq<bv8>)

  datatype Stored = Stored(entry: Entry, expiresAt: int)

  type Entries = map<string, Stored>

  const DEFAULT_TTL := 300_000_000_000

  predicate Expired(s: Stored, now: int) {
    now > s.expiresAt
  }

  // ---- What each operation does to the map ----

  function Found(m: Entries, key: string, now: int): Option<Entry> {
    if key in m && !Expired(m[key], now) then Some(m[key].entry) else None
  }

  function AfterGet(m: Entries, key: string, now: int): Entries {
    if key in m && Expired(m[key], now) then m - {key} else m
  }

  /** The clock is read once for the check and again for the expiry. At the expiry instant itself a set overwrites. */
  function AfterSet(m: Entries, ttl: int, key: string, entry: Entry, now: int, later: int): Entries {
    if key in m && now < m[key].expiresAt then m else m[key := Stored(entry, later + ttl)]
  }

  function AfterSweep(m: Entries, now: int): Entries {
    map k | k in m && !Expired(m[k], now) :: m[k]
  }

  class InmemStore {
    var entries: Entries
    const ttl: int

    constructor (ttl: int)
      ensures entries == map[]
      ensures this.ttl > 0 && this.ttl == if ttl <= 0 then 300_000_000_000 else ttl
    {
      entries := map[];
      this.ttl := if ttl <= 0 then DEFAULT_TTL else ttl;
    }

    method Get(key: string, now: int) returns (r: Option<Entry>)
      modifies this
      ensures r == Found(old(entries), key, now)
      ensures entries == AfterGet(old(entries), key, now)
      ensures if key in old(entries) && now <= old(entries)[key].expiresAt
              then r == Some(old(entries)[key].entry) && entries == old(entries)
              else r == None && entries == old(entries) - {key}
    {
      if key !in entries {
        return None;
      }
      var e := entries[key];
      if now > e.expiresAt {
        entries := entries - {key};
        return None;
      }
      return Some(e.entry);
    }

    /** Set-if-absent: an unexpired entry stays as it is. */
    method Set(key: string, entry: Entry, now: int, later: int)
      requires now <= later
      modifies this
      ensures entries == AfterSet(old(entries), ttl, key, entry, now, later)
      ensures if key in old(entries) && now < old(entries)[key].expiresAt
              then entries == old(entries)
              else entries == old(entries)[key := Stored(entry, later + ttl)]
    {
      if key in entries && now < entries[key].expiresAt {
        return;
      }
      entries := entries[key := Stored(entry, later + ttl)];
    }

    /** Deletes exactly the expired entries, in whatever order the map is visited, and counts them. */
    method Sweep(now: int) returns (removed: nat)
      modifies this
      ensures entries == AfterSweep(old(entries), now)
      ensures forall k :: k in entries <==> k in old(entries) && now <= old(entries)[k].expiresAt
      ensures forall k | k in entries :: entries[k] == old(entries)[k]
      ensures removed == |old(entries)| - |entries|
    {
      removed := 0;
      var remaining := entries.Keys;
      while remaining != {}
        invariant remaining <= entries.Keys <= old(entries).Keys
        invariant forall k | k in entries :: entries[k] == old(entries)[k]
        invariant forall k | k in old(entries) && k !in remaining :: k in entries <==> !Expired(old(entries)[k], now)
        invariant removed == |old(entries).Keys| - |entries.Keys|
        decreases remaining
      {
        var k :| k in remaining;
        remaining := remaining - {k};
        if now > entries[k].expiresAt {
          assert (entries - {k}).Keys == entries.Keys - {k};
          entries := entries - {k};
          removed := removed + 1;
        }
      }
      assert entries == AfterSweep(old(entries), now);
    }
  }

  // ---- Deletion is unobservable ----

  datatype Op = Get(key: string, now: int) | Set(key: string, entry: Entry, now: int, later: int) | Sweep(now: int)

  predicate Monotone(t: int, ops: seq<Op>)
    decreases |ops|
  {
    ops == [] ||
    (t <= ops[0].now && (ops[0].Set? ==> ops[0].now <= ops[0].later) &&
     Monotone(if ops[0].Set? then ops[0].later else ops[0].now, ops[1..]))
  }

  /** The answers of the store's Gets over a run. */
  function Answers(m: Entries, ttl: int, ops: seq<Op>): seq<Option<Entry>>
    decreases |ops|
  {
    if ops == [] then []
    else match ops[0]
      case Get(k, now) => [Found(m, k, now)] + Answers(AfterGet(m, k, now), ttl, ops[1..])
      case Set(k, e, now, later) => Answers(AfterSet(m, ttl, k, e, now, later), ttl, ops[1..])
      case Sweep(now) => Answers(AfterSweep(m, now), ttl, ops[1..])
  }

  /** The same for a map that never deletes and only compares timestamps. */
  function Reference(m: Entries, ttl: int, ops: seq<Op>): seq<Option<Entry>>
    decreases |ops|
  {
    if ops == [] then []
    else match ops[0]
      case Get(k, now) => [Found(m, k, now)] + Reference(m, ttl, ops[1..])
      case Set(k, e, now, later) => Reference(AfterSet(m, ttl, k, e, now, later), ttl, ops[1..])
      case Sweep(_) => Reference(m, ttl, ops[1..])
  }

  /** What was deleted had expired by time t. */
  ghost predicate Trims(m: Entries, whole: Entries, t: int) {
    && (forall k | k in m :: k in whole && whole[k] == m[k])
    && (forall k | k in whole && k !in m :: Expired(whole[k], t))
  }

  lemma {:induction false} DeletionUnobservable(m: Entries, whole: Entries, ttl: int, t: int, ops: seq<Op>)
    requires Trims(m, whole, t) && Monotone(t, ops)
    ensures Answers(m, ttl, ops) == Reference(whole, ttl, ops)
    decreases |ops|
  {
    if ops != [] {
      match ops[0]
      case Get(k, now) =>
        DeletionUnobservable(AfterGet(m, k, now), whole, ttl, now, ops[1..]);
      case Set(k, e, now, later) =>
        DeletionUnobservable(AfterSet(m, ttl, k, e, now, later), AfterSet(whole, ttl, k, e, now, later), ttl, later,
          ops[1..]);
      case Sweep(now) =>
        DeletionUnobservable(AfterSweep(m, now), whole, ttl, now, ops[1..]);
    }
  }

  function WithoutSweeps(ops: seq<Op>): seq<Op>
    decreases |ops|
  {
    if ops == [] then []
    else if ops[0].Sweep? then WithoutSweeps(ops[1..])
    else [ops[0]] + WithoutSweeps(ops[1..])
  }

  lemma {:induction false} ReferenceIgnoresSweeps(m: Entries, ttl: int, ops: seq<Op>)
    ensures Reference(m, ttl, ops) == Reference(m, ttl, WithoutSweeps(ops))
    decreases |ops|
  {
    if ops != [] {
      assert ([ops[0]] + WithoutSweeps(ops[1..]))[1..] == WithoutSweeps(ops[1..]);
      match ops[0]
      case Get(k, now) => ReferenceIgnoresSweeps(m, ttl, ops[1..]);
      case Set(k, e, now, later) => ReferenceIgnoresSweeps(AfterSet(m, ttl, k, e, now, later), ttl, ops[1..]);
      case Sweep(_) => ReferenceIgnoresSweeps(m, ttl, ops[1..]);
    }
  }

  lemma {:induction false} EarlierStart(t: int, u: int, ops: seq<Op>)
    requires Monotone(u, ops) && t <= u
    ensures Monotone(t, ops)
  {
  }

  lemma {:induction false} WithoutSweepsMonotone(t: int, ops: seq<Op>)
    requires Monotone(t, ops)
    ensures Monotone(t, WithoutSweeps(ops))
    decreases |ops|
  {
    if ops != [] {
      assert ([ops[0]] + WithoutSweeps(ops[1..]))[1..] == WithoutSweeps(ops[1..]);
      var next := if ops[0].Set? then ops[0].later else ops[0].now;
      WithoutSweepsMonotone(next, ops[1..]);
      EarlierStart(t, next, WithoutSweeps(ops[1..]));
    }
  }

  /**
   Under a clock that never goes back, lookups answer as a map that never deletes would, and inserting or dropping
   sweeps anywhere in a run changes no answer.
  */
  lemma SweepsUnobservable(m: Entries, ttl: int, t: int, ops: seq<Op>, others: seq<Op>)
    requires Monotone(t, ops) && Monotone(t, others) && WithoutSweeps(ops) == WithoutSweeps(others)
    ensures Answers(m, ttl, ops) == Answers(m, ttl, others) == Reference(m, ttl, WithoutSweeps(ops))
  {
    DeletionUnobservable(m, m, ttl, t, ops);
    DeletionUnobservable(m, m, ttl, t, others);
    ReferenceIgnoresSweeps(m, ttl, ops);
    ReferenceIgnoresSweeps(m, ttl, others);
  }

  /**
   While an entry is a hit, no set changes the map except at the very expiry instant: there a lookup still hits and
   every set with another response replaces what it hit.
  */
  lemma ExpiryInstant(m: Entries, ttl: int, key: string, now: int)
    requires key in m && Found(m, key, now) == Some(m[key].entry)
    ensures (forall e, later :: AfterSet(m, ttl, key, e, now, later) == m) <==> now != m[key].expiresAt
  {
    if now == m[key].expiresAt {
      var other := Entry(m[key].entry.status + 1, []);
      assert AfterSet(m, ttl, key, other, now, now)[key].entry != m[key].entry;
    }
  }
}
