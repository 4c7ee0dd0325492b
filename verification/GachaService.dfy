/** Roll: the service loop over one player's stored counter, and the ledger of interleaved rolls of many players. */
module GachaService {
  import opened GachaPool
  import opened GachaEngine
  import opened GachaStore

  /** The most pulls one call may ask for. */
  const MAX_COUNT := 10

  datatype RollResult =
    | Rolled(rolls: seq<Roll>)
    | InvalidCount
    | PoolNotFound
    | EmptyPool
    | GetPityError
    | IdError
    | WriteError

  datatype IdFault = IdsOk | IdFailsAt(k: nat)

  datatype Faults = Faults(getPity: bool, id: IdFault, write: WriteFault)

  function ToRoll(pull: Pull, pair: Pair, id: string, now: int): Roll {
    Roll(id, pair, pull.card.id, pull.card.rarity, pull.isPity, now)
  }

  function ToRolls(pulls: seq<Pull>, pair: Pair, ids: nat -> string, now: int): seq<Roll> {
    seq(|pulls|, i requires 0 <= i < |pulls| => ToRoll(pulls[i], pair, ids(i), now))
  }

  lemma ToRollsKeepsMarks(pulls: seq<Pull>, pair: Pair, ids: nat -> string, now: int)
    ensures MarksOf(ToRolls(pulls, pair, ids, now)) == Marks(pulls)
    ensures AllOwnedBy(ToRolls(pulls, pair, ids, now), pair)
  {
    var rolls := ToRolls(pulls, pair, ids, now);
    forall i | 0 <= i < |pulls| ensures rolls[i].ToMark() == pulls[i].ToMark() && rolls[i].owner == pair {
      assert rolls[i] == ToRoll(pulls[i], pair, ids(i), now);
    }
    assert MarksOf(rolls) == Marks(pulls);
  }

  lemma ToRollsSnoc(pulls: seq<Pull>, pull: Pull, pair: Pair, ids: nat -> string, now: int)
    ensures ToRolls(pulls + [pull], pair, ids, now)
      == ToRolls(pulls, pair, ids, now) + [ToRoll(pull, pair, ids(|pulls|), now)]
  {
  }

  /** The pools whose ceiling survives storage: the counter must also fit its 32-bit column. */
  predicate Promised(pools: map<string, Pool>, pair: Pair) {
    pair.pool in pools && Guaranteed(pools[pair.pool]) && pools[pair.pool].pityThreshold <= 0x8000_0000
  }

  /** Stored counter and stored history of a pair agree. */
  ghost predicate PairOk<K>(b: Backend<K>, store: Store<K>, pools: map<string, Pool>, pair: Pair) {
    b.serves(pair) && Promised(pools, pair) ==>
      && HistoryOk(pools[pair.pool].pityThreshold, 0, HistoryOf(store.rolls, pair))
      && CounterOf(b, store, pair) == CounterAfter(0, HistoryOf(store.rolls, pair))
  }

  ghost predicate StoreOk<K>(b: Backend<K>, store: Store<K>, pools: map<string, Pool>) {
    forall pair: Pair :: PairOk(b, store, pools, pair)
  }

  /** Appending rolls that extend one pair's history correctly, with the counter they give, keeps every pair right. */
  lemma AppendKeepsStore<K>(b: Backend<K>, store: Store<K>, pools: map<string, Pool>, pair: Pair, rolls: seq<Roll>,
                            counter: int)
    requires Faithful(b) && b.serves(pair) && StoreOk(b, store, pools) && AllOwnedBy(rolls, pair)
    requires Promised(pools, pair) ==>
      var history := HistoryOf(store.rolls, pair) + MarksOf(rolls);
      HistoryOk(pools[pair.pool].pityThreshold, 0, history) && counter == CounterAfter(0, history)
    ensures StoreOk(b, Appended(b, store, rolls, pair, counter), pools)
  {
    var after := Appended(b, store, rolls, pair, counter);
    forall other: Pair ensures PairOk(b, after, pools, other) {
      assert PairOk(b, store, pools, other);
      HistoryOfAppend(store.rolls, rolls, pair, other);
      if other == pair && Promised(pools, pair) {
        CounterBelowThreshold(pools[pair.pool].pityThreshold, 0, HistoryOf(after.rolls, pair));
        assert b.column(counter) == counter;
      }
    }
  }

  /** What a stored history of a promised pool looks like to a player. */
  lemma StoredHistory<K>(b: Backend<K>, store: Store<K>, pools: map<string, Pool>, pair: Pair)
    requires StoreOk(b, store, pools) && b.serves(pair) && Promised(pools, pair)
    ensures var t: nat := pools[pair.pool].pityThreshold;
      var history := HistoryOf(store.rolls, pair);
      && Ceiling(t, history)
      && 0 <= CounterOf(b, store, pair) < t
      && CounterOf(b, store, pair) == CounterAfter(0, history)
      && (forall k: nat | k < |history| ::
            history[k].isPity <==> t - 1 <= k && !HasSSR(history, k - (t - 1), t - 1))
  {
    assert PairOk(b, store, pools, pair);
    var t: nat := pools[pair.pool].pityThreshold;
    var history := HistoryOf(store.rolls, pair);
    HistoryHasCeiling(t, 0, history);
    CounterBelowThreshold(t, 0, history);
    forall k: nat | k < |history|
      ensures history[k].isPity <==> t - 1 <= k && !HasSSR(history, k - (t - 1), t - 1)
    {
      PityExactly(t, history, k);
    }
  }

  class Service {
    const repo: MysqlGachaRepo
    const pools: map<string, Pool>
    const g: Generator
    var rng: nat

    constructor (repo: MysqlGachaRepo, pools: map<string, Pool>, g: Generator, seed: nat)
      ensures this.repo == repo && this.pools == pools && this.g == g && rng == seed
    {
      this.repo, this.pools, this.g, this.rng := repo, pools, g, seed;
    }

    /** The rolls a call makes when nothing fails, and where they leave counter and generator. */
    function Outcome(pair: Pair, count: nat): Batch
      reads this, repo
      requires pair.pool in pools
    {
      DrawMany(g, pools[pair.pool], CounterOf(MYSQL, repo.store, pair), rng, count)
    }

    /**
     One Roll call. Every early error leaves the store alone; a success stores exactly the batch the pity machine
     gives from the stored counter; a write error stores nothing, or everything when only the commit's answer was lost.
     Whatever happens, stored counters keep agreeing with stored histories.
    */
    method Roll(player: string, poolId: string, count: int, now: int, ids: nat -> string, faults: Faults)
      returns (r: RollResult)
      modifies this`rng, repo
      ensures var pair := Pair(player, poolId);
        match r
        case InvalidCount => !(1 <= count <= 10) && repo.store == old(repo.store) && rng == old(rng)
        case PoolNotFound => poolId !in pools && repo.store == old(repo.store) && rng == old(rng)
        case EmptyPool => poolId in pools && pools[poolId].cards == [] && repo.store == old(repo.store)
          && rng == old(rng)
        case GetPityError => faults.getPity && repo.store == old(repo.store) && rng == old(rng)
        case IdError =>
          && faults.id.IdFailsAt? && faults.id.k < count && poolId in pools && repo.store == old(repo.store)
          && rng == old(Outcome(pair, faults.id.k + 1)).state
        case WriteError =>
          && 1 <= count && poolId in pools
          && rng == old(Outcome(pair, count)).state
          && var rolls := ToRolls(old(Outcome(pair, count)).pulls, pair, ids, now);
             var distinct := FreshIds(old(repo.store.rolls), rolls);
             && (WriteFails(faults.write, count) || !distinct)
             && repo.store == if faults.write == AtCommit(true) && distinct
                              then Appended(MYSQL, old(repo.store), rolls, pair, old(Outcome(pair, count)).pity)
                              else old(repo.store)
        case Rolled(rolls) =>
          && 1 <= count <= 10 && poolId in pools && pools[poolId].cards != []
          && rolls == ToRolls(old(Outcome(pair, count)).pulls, pair, ids, now)
          && |rolls| == count
          && (forall k | 0 <= k < count ::
                var pull := old(Outcome(pair, count)).pulls[k];
                && rolls[k].id == ids(k) && rolls[k].owner == pair && rolls[k].pulledAt == now
                && rolls[k].cardId == pull.card.id && rolls[k].rarity == pull.card.rarity
                && rolls[k].isPity == pull.isPity)
          && repo.store == Appended(MYSQL, old(repo.store), rolls, pair, old(Outcome(pair, count)).pity)
          && rng == old(Outcome(pair, count)).state
      ensures r.InvalidCount? <==> count < 1 || count > 10
      ensures r.PoolNotFound? <==> 1 <= count <= 10 && poolId !in pools
      ensures r.EmptyPool? <==> 1 <= count <= 10 && poolId in pools && pools[poolId].cards == []
      ensures r.Rolled? || r.IdError? || r.WriteError?
              <==> 1 <= count <= 10 && poolId in pools && pools[poolId].cards != [] && !faults.getPity
      ensures r.IdError? ==> faults.id.IdFailsAt?
      ensures r.Rolled? || r.WriteError? ==> !(faults.id.IdFailsAt? && faults.id.k < count)
      ensures r.Rolled? ==> !WriteFails(faults.write, count)
      ensures StoreOk(MYSQL, old(repo.store), pools) ==> StoreOk(MYSQL, repo.store, pools)
    {
      if count < 1 || count > MAX_COUNT {
        return InvalidCount;
      }
      if poolId !in pools {
        return PoolNotFound;
      }
      var pool := pools[poolId];
      if |pool.cards| == 0 {
        return EmptyPool;
      }
      var pair := Pair(player, poolId);
      if faults.getPity {
        return GetPityError;
      }
      var pity := repo.GetPity(pair);
      ghost var before := repo.store;
      var ok, rolls, newCounter := DrawBatch(pool, pair, pity, count, now, ids, faults.id);
      if !ok {
        return IdError;
      }
      MysqlIsFaithful();
      BatchKeepsStore(MYSQL, before, pair, pools, g, old(rng), count, ids, now);
      ok := repo.InsertRollsAndUpdatePity(rolls, pair, newCounter, faults.write);
      return if ok then Rolled(rolls) else WriteError;
    }

    /** The roll loop. It stops without rolls when an id cannot be made. */
    method DrawBatch(pool: Pool, pair: Pair, pity: int, count: nat, now: int, ids: nat -> string, fault: IdFault)
      returns (ok: bool, rolls: seq<Roll>, newCounter: int)
      modifies this`rng
      ensures ok <==> !(fault.IdFailsAt? && fault.k < count)
      ensures ok ==> |rolls| == count && forall k | 0 <= k < count ::
        var pull := DrawMany(g, pool, pity, old(rng), count).pulls[k];
        && rolls[k].id == ids(k) && rolls[k].owner == pair && rolls[k].pulledAt == now
        && rolls[k].cardId == pull.card.id && rolls[k].rarity == pull.card.rarity && rolls[k].isPity == pull.isPity
      ensures !ok ==> rng == DrawMany(g, pool, pity, old(rng), fault.k + 1).state
      ensures var b := DrawMany(g, pool, pity, old(rng), count);
        ok ==> rolls == ToRolls(b.pulls, pair, ids, now) && newCounter == b.pity && rng == b.state
    {
      hide DrawOne;
      ghost var pulls: seq<Pull> := [];
      rolls, newCounter := [], pity;
      for i := 0 to count
        invariant DrawMany(g, pool, pity, old(rng), i) == Batch(pulls, newCounter, rng)
        invariant rolls == ToRolls(pulls, pair, ids, now)
        invariant fault.IdFailsAt? ==> i <= fault.k
      {
        var pull;
        pull, newCounter := Turn(pool, newCounter);
        if fault == IdFailsAt(i) {
          return false, [], newCounter;
        }
        ToRollsSnoc(pulls, pull, pair, ids, now);
        pulls := pulls + [pull];
        rolls := rolls + [ToRoll(pull, pair, ids(i), now)];
      }
      ok := true;
    }

    /** One turn of the loop: which cards are eligible, and what becomes of the counter. */
    method Turn(pool: Pool, pity: int) returns (pull: Pull, pity': int)
      modifies this`rng
      ensures (pull, pity', rng) == DrawOne(g, pool, pity, old(rng))
      ensures var due := pool.pityThreshold > 0 && pity + 1 >= pool.pityThreshold;
        && (pull.isPity <==> due && HasRarity(pool.cards, "SSR"))
        && (if pull.isPity
            then exists ssr :: CardsOf(pool.cards, "SSR", ssr) && PickedFrom(g, ssr, old(rng), pull.card, rng)
            else PickedFrom(g, pool.cards, old(rng), pull.card, rng))
        && pity' == if due || pull.card.rarity == "SSR" then 0 else pity + 1
    {
      PullComesFrom(g, pool, pity, rng);
      pity' := pity + 1;
      var card;
      var isPity := false;
      if pool.pityThreshold > 0 && pity' >= pool.pityThreshold {
        var ssrCards := FilterByRarity(pool.cards, RARITY_SSR);
        if |ssrCards| == 0 {
          card, rng := WeightedPick(g, pool.cards, rng);
        } else {
          card, rng := WeightedPick(g, ssrCards, rng);
          isPity := true;
        }
        pity' := 0;
      } else {
        card, rng := WeightedPick(g, pool.cards, rng);
        if card.rarity == RARITY_SSR {
          pity' := 0;
        }
      }
      pull := Pull(card, isPity);
    }
  }

  lemma BatchKeepsStore<K>(b: Backend<K>, store: Store<K>, pair: Pair, pools: map<string, Pool>, g: Generator, rng: nat,
                           count: nat, ids: nat -> string, now: int)
    requires Faithful(b) && b.serves(pair) && pair.pool in pools
    ensures var batch := DrawMany(g, pools[pair.pool], CounterOf(b, store, pair), rng, count);
      StoreOk(b, store, pools) ==>
        StoreOk(b, Appended(b, store, ToRolls(batch.pulls, pair, ids, now), pair, batch.pity), pools)
  {
    if StoreOk(b, store, pools) {
      var batch := DrawMany(g, pools[pair.pool], CounterOf(b, store, pair), rng, count);
      ToRollsKeepsMarks(batch.pulls, pair, ids, now);
      assert PairOk(b, store, pools, pair);
      if Promised(pools, pair) {
        BatchExtendsHistory(g, pools[pair.pool], 0, HistoryOf(store.rolls, pair), rng, count);
      }
      AppendKeepsStore(b, store, pools, pair, ToRolls(batch.pulls, pair, ids, now), batch.pity);
    }
  }

  // ---- Two calls against one ----

  lemma ToRollsSplit(first: seq<Pull>, second: seq<Pull>, pair: Pair, ids: nat -> string, now: int)
    ensures ToRolls(first + second, pair, ids, now) ==
            ToRolls(first, pair, ids, now) + ToRolls(second, pair, (i: nat) => ids(|first| + i), now)
  {
  }

  /**
   Two Roll calls are one: stored after the other, on the same random stream, they leave the rolls, the counter and the
   generator of a single call for both counts.
  */
  lemma TwoRollsAreOne<K>(b: Backend<K>, g: Generator, pool: Pool, store: Store<K>, pair: Pair, rng: nat, m: nat,
                          n: nat, ids: nat -> string, now: int)
    requires var pity := DrawMany(g, pool, CounterOf(b, store, pair), rng, m).pity; b.column(pity) == pity
    ensures var first := DrawMany(g, pool, CounterOf(b, store, pair), rng, m);
      var between := Appended(b, store, ToRolls(first.pulls, pair, ids, now), pair, first.pity);
      var second := DrawMany(g, pool, CounterOf(b, between, pair), first.state, n);
      var whole := DrawMany(g, pool, CounterOf(b, store, pair), rng, m + n);
      && second.state == whole.state
      && Appended(b, between, ToRolls(second.pulls, pair, (i: nat) => ids(m + i), now), pair, second.pity) ==
         Appended(b, store, ToRolls(whole.pulls, pair, ids, now), pair, whole.pity)
  {
    var first := DrawMany(g, pool, CounterOf(b, store, pair), rng, m);
    BatchingIsTransparent(g, pool, CounterOf(b, store, pair), rng, m, n);
    var second := DrawMany(g, pool, first.pity, first.state, n);
    ToRollsSplit(first.pulls, second.pulls, pair, ids, now);
    var rest := ToRolls(second.pulls, pair, (i: nat) => ids(m + i), now);
    assert store.rolls + (ToRolls(first.pulls, pair, ids, now) + rest)
      == store.rolls + ToRolls(first.pulls, pair, ids, now) + rest;
  }

  // ---- Interleaved rolls ----

  /** A Roll call between reading its counter and its write. */
  datatype Flight = Flight(pity: int, rolls: seq<Roll>)

  datatype Ledger<K(==)> = Ledger(store: Store<K>, open: map<Pair, Flight>, rng: nat)

  /** Steps of Roll calls of different pairs, in any order; the generator is shared between them. */
  datatype Step =
    | ReadCounter(pair: Pair)
    | DrawCard(pair: Pair, id: string, now: int)
    | WriteBatch(pair: Pair)
    | FailWrite(pair: Pair)
    | CommitUnacknowledged(pair: Pair)

  predicate Enabled<K(==)>(b: Backend<K>, l: Ledger<K>, pools: map<string, Pool>, s: Step) {
    match s
    case ReadCounter(pair) => b.serves(pair) && pair !in l.open && pair.pool in pools && pools[pair.pool].cards != []
    case DrawCard(pair, _, _) => pair in l.open && pair.pool in pools && |l.open[pair].rolls| < MAX_COUNT
    case WriteBatch(pair) => pair in l.open && |l.open[pair].rolls| >= 1
    case FailWrite(pair) => pair in l.open
    case CommitUnacknowledged(pair) => pair in l.open && |l.open[pair].rolls| >= 1
  }

  function Next<K(==)>(b: Backend<K>, l: Ledger<K>, pools: map<string, Pool>, g: Generator, s: Step): Ledger<K>
    requires Enabled(b, l, pools, s)
  {
    match s
    case ReadCounter(pair) => l.(open := l.open[pair := Flight(CounterOf(b, l.store, pair), [])])
    case DrawCard(pair, id, now) =>
      var f := l.open[pair];
      var (pull, pity', rng') := DrawOne(g, pools[pair.pool], f.pity, l.rng);
      l.(open := l.open[pair := Flight(pity', f.rolls + [ToRoll(pull, pair, id, now)])], rng := rng')
    case WriteBatch(pair) => Landed(b, l, pair)
    case FailWrite(pair) => l.(open := l.open - {pair})
    case CommitUnacknowledged(pair) => Landed(b, l, pair)
  }

  function Landed<K(==)>(b: Backend<K>, l: Ledger<K>, pair: Pair): Ledger<K>
    requires pair in l.open
  {
    Ledger(Appended(b, l.store, l.open[pair].rolls, pair, l.open[pair].pity), l.open - {pair}, l.rng)
  }

  /** An open call continues its pair's stored history. */
  ghost predicate FlightOk<K>(l: Ledger<K>, pools: map<string, Pool>, pair: Pair)
    requires pair in l.open
  {
    && AllOwnedBy(l.open[pair].rolls, pair)
    && (Promised(pools, pair) ==>
          var history := HistoryOf(l.store.rolls, pair) + MarksOf(l.open[pair].rolls);
          && HistoryOk(pools[pair.pool].pityThreshold, 0, history)
          && l.open[pair].pity == CounterAfter(0, history))
  }

  ghost predicate LedgerOk<K>(b: Backend<K>, l: Ledger<K>, pools: map<string, Pool>) {
    StoreOk(b, l.store, pools) && (forall pair | pair in l.open :: b.serves(pair) && FlightOk(l, pools, pair))
  }

  predicate ValidRun<K(==)>(b: Backend<K>, l: Ledger<K>, pools: map<string, Pool>, g: Generator, run: seq<Step>)
    decreases |run|
  {
    run == [] || (Enabled(b, l, pools, run[0]) && ValidRun(b, Next(b, l, pools, g, run[0]), pools, g, run[1..]))
  }

  function Exec<K(==)>(b: Backend<K>, l: Ledger<K>, pools: map<string, Pool>, g: Generator, run: seq<Step>): Ledger<K>
    requires ValidRun(b, l, pools, g, run)
    decreases |run|
  {
    if run == [] then l else Exec(b, Next(b, l, pools, g, run[0]), pools, g, run[1..])
  }

  lemma {:induction false} RunSnoc<K>(b: Backend<K>, l: Ledger<K>, pools: map<string, Pool>, g: Generator,
                                      run: seq<Step>, s: Step)
    requires ValidRun(b, l, pools, g, run) && Enabled(b, Exec(b, l, pools, g, run), pools, s)
    ensures ValidRun(b, l, pools, g, run + [s])
    ensures Exec(b, l, pools, g, run + [s]) == Next(b, Exec(b, l, pools, g, run), pools, g, s)
    decreases |run|
  {
    hide Enabled, Next;
    if run == [] {
      assert (run + [s])[1..] == [];
    } else {
      assert (run + [s])[1..] == run[1..] + [s];
      RunSnoc(b, Next(b, l, pools, g, run[0]), pools, g, run[1..], s);
    }
  }

  /** The steps of one call until its write. */
  function DrawSteps(pair: Pair, count: nat, ids: nat -> string, now: int): seq<Step> {
    if count == 0 then [ReadCounter(pair)]
    else DrawSteps(pair, count - 1, ids, now) + [DrawCard(pair, ids(count - 1), now)]
  }

  /** One more card of an open call whose rolls so far are a batch. */
  lemma DrawExtendsBatch<K>(b: Backend<K>, l: Ledger<K>, pools: map<string, Pool>, g: Generator, pair: Pair,
                            batch: Batch, ids: nat -> string, now: int)
    requires pair in l.open && pair.pool in pools && |batch.pulls| < 10 && l.rng == batch.state
    requires l.open[pair] == Flight(batch.pity, ToRolls(batch.pulls, pair, ids, now))
    ensures var e := Extended(g, pools[pair.pool], batch);
      var draw := DrawCard(pair, ids(|batch.pulls|), now);
      && Enabled(b, l, pools, draw)
      && Next(b, l, pools, g, draw)
         == l.(open := l.open[pair := Flight(e.pity, ToRolls(e.pulls, pair, ids, now))], rng := e.state)
  {
    hide DrawOne;
    ToRollsSnoc(batch.pulls, DrawOne(g, pools[pair.pool], batch.pity, batch.state).0, pair, ids, now);
  }

  lemma {:induction false} DrawsAreABatch<K>(b: Backend<K>, l: Ledger<K>, pools: map<string, Pool>, g: Generator,
                                             pair: Pair, count: nat, ids: nat -> string, now: int)
    requires b.serves(pair) && pair !in l.open && pair.pool in pools && pools[pair.pool].cards != [] && count <= 10
    ensures var steps := DrawSteps(pair, count, ids, now);
      var batch := DrawMany(g, pools[pair.pool], CounterOf(b, l.store, pair), l.rng, count);
      && ValidRun(b, l, pools, g, steps)
      && Exec(b, l, pools, g, steps)
         == l.(open := l.open[pair := Flight(batch.pity, ToRolls(batch.pulls, pair, ids, now))], rng := batch.state)
  {
    hide Extended, CounterOf;
    assert ValidRun(b, l, pools, g, []) && Exec(b, l, pools, g, []) == l;
    hide ValidRun, Exec;
    if count == 0 {
      RunSnoc(b, l, pools, g, [], ReadCounter(pair));
      assert [] + [ReadCounter(pair)] == DrawSteps(pair, 0, ids, now);
      assert ToRolls([], pair, ids, now) == [];
    } else {
      hide Enabled, Next, ToRolls;
      DrawsAreABatch(b, l, pools, g, pair, count - 1, ids, now);
      var steps := DrawSteps(pair, count - 1, ids, now);
      var batch := DrawMany(g, pools[pair.pool], CounterOf(b, l.store, pair), l.rng, count - 1);
      DrawExtendsBatch(b, Exec(b, l, pools, g, steps), pools, g, pair, batch, ids, now);
      RunSnoc(b, l, pools, g, steps, DrawCard(pair, ids(count - 1), now));
    }
  }

  /**
   A call is a run of the ledger: whatever other calls are open, reading the counter, drawing, and writing at once leave
   exactly what Roll leaves, the batch of the pity machine from the stored counter; a failed write leaves the store
   alone, and a lost answer leaves the batch.
  */
  lemma RollIsARun<K>(b: Backend<K>, l: Ledger<K>, pools: map<string, Pool>, g: Generator, pair: Pair, count: nat,
                      ids: nat -> string, now: int)
    requires b.serves(pair) && pair !in l.open && pair.pool in pools && pools[pair.pool].cards != []
    requires 1 <= count <= 10
    ensures var steps := DrawSteps(pair, count, ids, now);
      var batch := DrawMany(g, pools[pair.pool], CounterOf(b, l.store, pair), l.rng, count);
      var stored := Appended(b, l.store, ToRolls(batch.pulls, pair, ids, now), pair, batch.pity);
      && ValidRun(b, l, pools, g, steps + [WriteBatch(pair)])
      && Exec(b, l, pools, g, steps + [WriteBatch(pair)]) == Ledger(stored, l.open, batch.state)
      && ValidRun(b, l, pools, g, steps + [FailWrite(pair)])
      && Exec(b, l, pools, g, steps + [FailWrite(pair)]) == Ledger(l.store, l.open, batch.state)
      && ValidRun(b, l, pools, g, steps + [CommitUnacknowledged(pair)])
      && Exec(b, l, pools, g, steps + [CommitUnacknowledged(pair)]) == Ledger(stored, l.open, batch.state)
  {
    hide DrawOne, CounterOf, ValidRun, Exec, Appended;
    var steps := DrawSteps(pair, count, ids, now);
    DrawsAreABatch(b, l, pools, g, pair, count, ids, now);
    assert Exec(b, l, pools, g, steps).open - {pair} == l.open;
    RunSnoc(b, l, pools, g, steps, WriteBatch(pair));
    RunSnoc(b, l, pools, g, steps, FailWrite(pair));
    RunSnoc(b, l, pools, g, steps, CommitUnacknowledged(pair));
  }

  /** Appending a pull to an open call extends the history it continues. */
  lemma DrawKeepsFlight<K>(b: Backend<K>, l: Ledger<K>, pools: map<string, Pool>, g: Generator, pair: Pair, id: string,
                           now: int)
    requires Enabled(b, l, pools, DrawCard(pair, id, now)) && FlightOk(l, pools, pair)
    ensures FlightOk(Next(b, l, pools, g, DrawCard(pair, id, now)), pools, pair)
  {
    hide HistoryOk, CounterAfter, DrawOne;
    if Promised(pools, pair) {
      var f := l.open[pair];
      var pull := DrawOne(g, pools[pair.pool], f.pity, l.rng).0;
      var stored, marks := HistoryOf(l.store.rolls, pair), MarksOf(f.rolls);
      DrawExtendsHistory(g, pools[pair.pool], 0, stored + marks, l.rng);
      assert MarksOf(f.rolls + [ToRoll(pull, pair, id, now)]) == marks + [pull.ToMark()];
      assert stored + (marks + [pull.ToMark()]) == stored + marks + [pull.ToMark()];
    }
  }

  lemma DrawKeepsLedger<K>(b: Backend<K>, l: Ledger<K>, pools: map<string, Pool>, g: Generator, pair: Pair, id: string,
                           now: int)
    requires Faithful(b) && LedgerOk(b, l, pools) && Enabled(b, l, pools, DrawCard(pair, id, now))
    ensures LedgerOk(b, Next(b, l, pools, g, DrawCard(pair, id, now)), pools)
  {
    var l' := Next(b, l, pools, g, DrawCard(pair, id, now));
    DrawKeepsFlight(b, l, pools, g, pair, id, now);
    forall other | other in l'.open ensures FlightOk(l', pools, other) {
      if other != pair { assert FlightOk(l, pools, other); }
    }
  }

  lemma LandingKeepsLedger<K>(b: Backend<K>, l: Ledger<K>, pools: map<string, Pool>, pair: Pair)
    requires Faithful(b) && LedgerOk(b, l, pools) && pair in l.open
    ensures LedgerOk(b, Landed(b, l, pair), pools)
  {
    var f := l.open[pair];
    var l' := Landed(b, l, pair);
    assert FlightOk(l, pools, pair);
    AppendKeepsStore(b, l.store, pools, pair, f.rolls, f.pity);
    forall other | other in l'.open ensures FlightOk(l', pools, other) {
      assert FlightOk(l, pools, other);
      HistoryOfAppend(l.store.rolls, f.rolls, pair, other);
    }
  }

  lemma StepKeepsLedger<K>(b: Backend<K>, l: Ledger<K>, pools: map<string, Pool>, g: Generator, s: Step)
    requires Faithful(b) && LedgerOk(b, l, pools) && Enabled(b, l, pools, s)
    ensures LedgerOk(b, Next(b, l, pools, g, s), pools)
  {
    match s
    case ReadCounter(pair) =>
      var l' := Next(b, l, pools, g, s);
      assert PairOk(b, l.store, pools, pair);
      forall other | other in l'.open ensures FlightOk(l', pools, other) {
        if other == pair {
          assert HistoryOf(l.store.rolls, pair) + MarksOf([]) == HistoryOf(l.store.rolls, pair);
        } else {
          assert FlightOk(l, pools, other);
        }
      }
    case DrawCard(pair, id, now) => DrawKeepsLedger(b, l, pools, g, pair, id, now);
    case FailWrite(pair) =>
      var l' := Next(b, l, pools, g, s);
      forall other | other in l'.open ensures FlightOk(l', pools, other) {
        assert FlightOk(l, pools, other);
      }
    case _ => LandingKeepsLedger(b, l, pools, s.pair);
  }

  lemma {:induction false} RunKeepsLedger<K>(b: Backend<K>, l: Ledger<K>, pools: map<string, Pool>, g: Generator,
                                             run: seq<Step>)
    requires Faithful(b) && LedgerOk(b, l, pools) && ValidRun(b, l, pools, g, run)
    ensures LedgerOk(b, Exec(b, l, pools, g, run), pools)
    decreases |run|
  {
    if run != [] {
      StepKeepsLedger(b, l, pools, g, run[0]);
      RunKeepsLedger(b, Next(b, l, pools, g, run[0]), pools, g, run[1..]);
    }
  }

  /**
   The hard ceiling over whole runs: from an empty store, however the calls of different players and pools interleave
   and whichever writes fail, the stored counter of a pair is the number of its stored rolls since its last SSR and
   stays below the threshold, any threshold consecutive stored rolls of the pair contain an SSR, and a roll is marked
   as pity exactly when the threshold - 1 rolls before it had none.
  */
  lemma CeilingOverRuns<K>(b: Backend<K>, pools: map<string, Pool>, g: Generator, seed: nat, run: seq<Step>, pair: Pair)
    requires ValidRun(b, Ledger(Store([], map[]), map[], seed), pools, g, run) && Promised(pools, pair)
    requires Faithful(b) && b.serves(pair)
    ensures var store := Exec(b, Ledger(Store([], map[]), map[], seed), pools, g, run).store;
      var t: nat := pools[pair.pool].pityThreshold;
      var history := HistoryOf(store.rolls, pair);
      && Ceiling(t, history)
      && 0 <= CounterOf(b, store, pair) < t
      && CounterOf(b, store, pair) == CounterAfter(0, history)
      && (forall k: nat | k < |history| ::
            history[k].isPity <==> t - 1 <= k && !HasSSR(history, k - (t - 1), t - 1))
  {
    var start := Ledger(Store([], map[]), map[], seed);
    forall p: Pair ensures PairOk(b, start.store, pools, p) {
    }
    RunKeepsLedger(b, start, pools, g, run);
    StoredHistory(b, Exec(b, start, pools, g, run).store, pools, pair);
  }

  /** The same over the in-memory repository, for players without a slash in their id. */
  lemma InmemCeiling(pools: map<string, Pool>, g: Generator, seed: nat, run: seq<Step>, pair: Pair)
    requires ValidRun(INMEM, Ledger(Store([], map[]), map[], seed), pools, g, run) && Promised(pools, pair)
    requires '/' !in pair.player
    ensures var store := Exec(INMEM, Ledger(Store([], map[]), map[], seed), pools, g, run).store;
      var t: nat := pools[pair.pool].pityThreshold;
      var history := HistoryOf(store.rolls, pair);
      && Ceiling(t, history)
      && 0 <= CounterOf(INMEM, store, pair) < t
      && CounterOf(INMEM, store, pair) == CounterAfter(0, history)
  {
    InmemIsFaithful();
    CeilingOverRuns(INMEM, pools, g, seed, run, pair);
  }

  // ---- The demo pool ----

  const DEMO_POOL := Pool("demo", "Demo Pool", 80, [
    Card("c_miku_ssr", "Miku SSR", "SSR", 10), Card("c_rin_ssr", "Rin SSR", "SSR", 10),
    Card("c_len_ssr", "Len SSR", "SSR", 10),
    Card("c_miku_sr", "Miku SR", "SR", 50), Card("c_rin_sr", "Rin SR", "SR", 50), Card("c_len_sr", "Len SR", "SR", 70),
    Card("c_basic_a", "Basic A", "R", 300), Card("c_basic_b", "Basic B", "R", 300),
    Card("c_basic_c", "Basic C", "R", 200)])

  lemma {:induction false} DemoTotals(rarity: Rarity, n: nat)
    requires n <= 9
    ensures var w := TotalWeight(Filtered(DEMO_POOL.cards[..n], rarity));
      w == if n == 0 then 0
           else TotalWeight(Filtered(DEMO_POOL.cards[..n - 1], rarity)) +
                if DEMO_POOL.cards[n - 1].rarity == rarity then DEMO_POOL.cards[n - 1].weight else 0
  {
    if n > 0 { FilteredTotalStep(DEMO_POOL.cards, rarity, n); }
  }

  lemma DemoSSR(rarity: Rarity)
    ensures TotalWeight(Filtered(DEMO_POOL.cards[..3], rarity)) == if rarity == "SSR" then 30 else 0
  {
    DemoTotals(rarity, 0);
    DemoTotals(rarity, 1);
    DemoTotals(rarity, 2);
    DemoTotals(rarity, 3);
  }

  lemma DemoHead(rarity: Rarity)
    ensures TotalWeight(Filtered(DEMO_POOL.cards[..6], rarity)) ==
            if rarity == "SSR" then 30 else if rarity == "SR" then 170 else 0
  {
    DemoSSR(rarity);
    DemoTotals(rarity, 4);
    DemoTotals(rarity, 5);
    DemoTotals(rarity, 6);
  }

  lemma DemoTotal(rarity: Rarity)
    ensures TotalWeight(Filtered(DEMO_POOL.cards, rarity)) ==
            if rarity == "SSR" then 30 else if rarity == "SR" then 170 else if rarity == "R" then 800 else 0
  {
    DemoHead(rarity);
    DemoTotals(rarity, 7);
    DemoTotals(rarity, 8);
    DemoTotals(rarity, 9);
    assert DEMO_POOL.cards[..9] == DEMO_POOL.cards;
  }

  lemma DemoWeight()
    ensures TotalWeight(DEMO_POOL.cards) == 1000
  {
    var c := DEMO_POOL.cards;
    assert Prefix(c, 3) == 30;
    assert Prefix(c, 6) == 200;
    assert Prefix(c, 9) == 1000;
  }

  /** The demo pool's declared odds are exact: 30, 170 and 800 of every 1000 draws, and its ceiling is promised. */
  lemma DemoPool()
    ensures TotalWeight(DEMO_POOL.cards) == 1000
    ensures RarityDraws(DEMO_POOL.cards, "SSR", 1000) == 30
    ensures RarityDraws(DEMO_POOL.cards, "SR", 1000) == 170
    ensures RarityDraws(DEMO_POOL.cards, "R", 1000) == 800
    ensures Promised(map["demo" := DEMO_POOL], Pair("anyone", "demo")) && DEMO_POOL.pityThreshold == 80
  {
    DemoWeight();
    DemoTotal("SSR");
    DemoTotal("SR");
    DemoTotal("R");
    RarityOdds(DEMO_POOL.cards, "SSR");
    RarityOdds(DEMO_POOL.cards, "SR");
    RarityOdds(DEMO_POOL.cards, "R");
  }
}
