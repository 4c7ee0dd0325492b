/**
 The player_hp table under SELECT ... FOR UPDATE transactions, as a state machine over single statements.
 The contract taken for MySQL: a row lock is exclusive and held to commit or rollback, a locking read of a missing
 row takes no lock, player_id is a unique key, an uncommitted insert holds its row's lock, and a rollback undoes
 everything. Any statement may fail at any moment; a failing commit may or may not have been applied.
*/
module RowLock {
  import opened BattleDomain

  type TxId = nat

  datatype Stage = BeginTx | SelectForUpdate | InsertHp | UpdateHp | CommitTx

  datatype Result = Ok(hp: int) | Failed(stage: Stage)

  /** Where a transaction stands: what it has read, locked and staged. */
  datatype Phase =
    | Begun
    | SawNoRow
    | Holding(hp: int, inserted: bool)
    | Updated(newHp: int, insertedRow: bool)
    | Finished(result: Result)
  {
    predicate HoldsLock() { Holding? || Updated? }
  }

  datatype Tx = Tx(player: Player, damage: int, phase: Phase)

  datatype Committed = Committed(tx: TxId, player: Player, damage: int, hp: int)

  /** rows is the committed table; log lists the commits that took effect, oldest first. */
  datatype Db = Db(rows: map<Player, int>, locks: map<Player, TxId>, txs: map<TxId, Tx>, log: seq<Committed>)

  datatype Statement =
    | Begin(t: TxId, player: Player, damage: int)
    | Refuse(t: TxId, player: Player, damage: int)
    | Select(t: TxId)
    | Insert(t: TxId)
    | Update(t: TxId)
    | Commit(t: TxId)
    | CommitUnacknowledged(t: TxId)
    | Fail(t: TxId)
  {
    predicate IsFault() { Refuse? || CommitUnacknowledged? || Fail? }
  }

  function Init(rows: map<Player, int>): Db {
    Db(rows, map[], map[], [])
  }

  /** The statement can execute now. A statement that asks for a held lock has to wait. */
  predicate Enabled(db: Db, s: Statement) {
    match s
    case Begin(t, _, _) => t !in db.txs
    case Refuse(t, _, _) => t !in db.txs
    case Select(t) => t in db.txs && db.txs[t].phase.Begun? && db.txs[t].player !in db.locks
    case Insert(t) => t in db.txs && db.txs[t].phase.SawNoRow? && db.txs[t].player !in db.locks
    case Update(t) => t in db.txs && db.txs[t].phase.Holding?
    case Commit(t) => t in db.txs && db.txs[t].phase.Updated?
    case CommitUnacknowledged(t) => t in db.txs && db.txs[t].phase.Updated?
    case Fail(t) => t in db.txs && !db.txs[t].phase.Finished?
  }

  /** The statement whose error a transaction in this phase reports. */
  function FailingStage(phase: Phase): Stage {
    match phase
    case Begun => SelectForUpdate
    case SawNoRow => InsertHp
    case Holding(_, _) => UpdateHp
    case Updated(_, _) => CommitTx
    case Finished(_) => CommitTx
  }

  function Step(db: Db, s: Statement): Db
    requires Enabled(db, s)
  {
    match s
    case Begin(t, p, d) => db.(txs := db.txs[t := Tx(p, d, Begun)])
    case Refuse(t, p, d) => db.(txs := db.txs[t := Tx(p, d, Finished(Failed(BeginTx)))])
    case Select(t) =>
      var p := db.txs[t].player;
      if p in db.rows then
        SetPhase(db, t, Holding(db.rows[p], false)).(locks := db.locks[p := t])
      else
        SetPhase(db, t, SawNoRow)
    case Insert(t) =>
      var p := db.txs[t].player;
      if p in db.rows then
        SetPhase(db, t, Finished(Failed(InsertHp)))
      else
        SetPhase(db, t, Holding(DEFAULT_INITIAL_HP, true)).(locks := db.locks[p := t])
    case Update(t) =>
      var tx := db.txs[t];
      SetPhase(db, t, Updated(Hit(tx.phase.hp, tx.damage), tx.phase.inserted))
    case Commit(t) => Apply(db, t, Ok(db.txs[t].phase.newHp))
    case CommitUnacknowledged(t) => Apply(db, t, Failed(CommitTx))
    case Fail(t) => Release(SetPhase(db, t, Finished(Failed(FailingStage(db.txs[t].phase)))), t)
  }

  function SetPhase(db: Db, t: TxId, phase: Phase): Db
    requires t in db.txs
  {
    db.(txs := db.txs[t := db.txs[t].(phase := phase)])
  }

  function Release(db: Db, t: TxId): Db
    requires t in db.txs
  {
    var p := db.txs[t].player;
    if p in db.locks && db.locks[p] == t then db.(locks := db.locks - {p}) else db
  }

  function Apply(db: Db, t: TxId, result: Result): Db
    requires t in db.txs && db.txs[t].phase.Updated?
  {
    var tx := db.txs[t];
    var n := tx.phase.newHp;
    Release(SetPhase(db, t, Finished(result)), t)
      .(rows := db.rows[tx.player := n], log := db.log + [Committed(t, tx.player, tx.damage, n)])
  }

  predicate ValidRun(db: Db, run: seq<Statement>)
    decreases |run|
  {
    run == [] || (Enabled(db, run[0]) && ValidRun(Step(db, run[0]), run[1..]))
  }

  function Exec(db: Db, run: seq<Statement>): Db
    requires ValidRun(db, run)
    decreases |run|
  {
    if run == [] then db else Exec(Step(db, run[0]), run[1..])
  }

  /** The damages committed for one player, in commit order. */
  function DamagesOf(log: seq<Committed>, p: Player): seq<int> {
    if log == [] then []
    else
      var earlier := DamagesOf(log[..|log| - 1], p);
      if log[|log| - 1].player == p then earlier + [log[|log| - 1].damage] else earlier
  }

  // ---- Invariants ----

  /** A lock belongs to exactly the transactions between their locking statement and their end. */
  ghost predicate LocksMatch(db: Db) {
    && (forall p | p in db.locks ::
          db.locks[p] in db.txs && db.txs[db.locks[p]].player == p && db.txs[db.locks[p]].phase.HoldsLock())
    && (forall t | t in db.txs && db.txs[t].phase.HoldsLock() ::
          db.txs[t].player in db.locks && db.locks[db.txs[t].player] == t)
  }

  /** What a lock holder has read is still the committed value. */
  ghost predicate ReadsCurrent(db: Db) {
    forall t | t in db.txs ::
      var tx := db.txs[t];
      match tx.phase
      case Holding(hp, inserted) => hp == HpIn(db.rows, tx.player) && (inserted <==> tx.player !in db.rows)
      case Updated(n, inserted) =>
        n == Hit(HpIn(db.rows, tx.player), tx.damage) && (inserted <==> tx.player !in db.rows)
      case _ => true
  }

  /** The table is the sequential history of the log. */
  ghost predicate TableIsHistory(db: Db, start: map<Player, int>) {
    forall p: Player :: RowIsHistory(db, start, p)
  }

  ghost predicate RowIsHistory(db: Db, start: map<Player, int>, p: Player) {
    && HpIn(db.rows, p) == HitAll(HpIn(start, p), DamagesOf(db.log, p))
    && (p in db.rows <==> p in start || DamagesOf(db.log, p) != [])
  }

  /** Every commit left the HP its own prefix of the log gives. */
  ghost predicate CommitsSequential(log: seq<Committed>, start: map<Player, int>) {
    forall k | 0 <= k < |log| ::
      log[k].hp == HitAll(HpIn(start, log[k].player), DamagesOf(log[..k + 1], log[k].player))
  }

  ghost predicate Logged(log: seq<Committed>, t: TxId) {
    exists k :: 0 <= k < |log| && log[k].tx == t
  }

  /** Each log entry is one finished transaction that was told success or an ambiguous commit error. */
  ghost predicate LogMatchesTxs(db: Db) {
    && (forall k | 0 <= k < |db.log| ::
          var e := db.log[k];
          && e.tx in db.txs
          && db.txs[e.tx].player == e.player
          && db.txs[e.tx].damage == e.damage
          && db.txs[e.tx].phase.Finished?
          && (db.txs[e.tx].phase.result == Ok(e.hp) || db.txs[e.tx].phase.result == Failed(CommitTx)))
    && (forall k, l | 0 <= k < l < |db.log| :: db.log[k].tx != db.log[l].tx)
    && (forall t | t in db.txs && db.txs[t].phase.Finished? && db.txs[t].phase.result.Ok? :: Logged(db.log, t))
  }

  ghost predicate Inv(db: Db, start: map<Player, int>) {
    && LocksMatch(db)
    && ReadsCurrent(db)
    && TableIsHistory(db, start)
    && CommitsSequential(db.log, start)
    && LogMatchesTxs(db)
  }

  lemma InitInv(start: map<Player, int>)
    ensures Inv(Init(start), start)
  {
  }

  lemma DamagesOfSnoc(log: seq<Committed>, e: Committed, p: Player)
    ensures DamagesOf(log + [e], p) == if e.player == p then DamagesOf(log, p) + [e.damage] else DamagesOf(log, p)
  {
    assert (log + [e])[..|log|] == log;
  }

  lemma HitAllSnoc(hp: int, ds: seq<int>, d: int)
    ensures HitAll(hp, ds + [d]) == Hit(HitAll(hp, ds), d)
  {
    assert (ds + [d])[..|ds|] == ds;
  }

  lemma StepKeepsLocks(db: Db, s: Statement)
    requires Enabled(db, s) && LocksMatch(db)
    ensures LocksMatch(Step(db, s))
  {
  }

  lemma StepKeepsReads(db: Db, s: Statement)
    requires Enabled(db, s) && LocksMatch(db) && ReadsCurrent(db)
    ensures ReadsCurrent(Step(db, s))
  {
  }

  lemma ApplyKeepsRow(db: Db, t: TxId, result: Result, start: map<Player, int>, p: Player)
    requires t in db.txs && db.txs[t].phase.Updated?
    requires ReadsCurrent(db) && RowIsHistory(db, start, p)
    ensures RowIsHistory(Apply(db, t, result), start, p)
  {
    var tx := db.txs[t];
    var e := Committed(t, tx.player, tx.damage, tx.phase.newHp);
    DamagesOfSnoc(db.log, e, p);
    HitAllSnoc(HpIn(start, p), DamagesOf(db.log, p), tx.damage);
  }

  lemma ApplyKeepsHistory(db: Db, t: TxId, result: Result, start: map<Player, int>)
    requires t in db.txs && db.txs[t].phase.Updated?
    requires ReadsCurrent(db) && TableIsHistory(db, start) && CommitsSequential(db.log, start)
    ensures TableIsHistory(Apply(db, t, result), start)
    ensures CommitsSequential(Apply(db, t, result).log, start)
  {
    var db' := Apply(db, t, result);
    forall p: Player ensures RowIsHistory(db', start, p) {
      assert RowIsHistory(db, start, p);
      ApplyKeepsRow(db, t, result, start, p);
    }
    var log' := db'.log;
    forall k | 0 <= k < |log'|
      ensures log'[k].hp == HitAll(HpIn(start, log'[k].player), DamagesOf(log'[..k + 1], log'[k].player))
    {
      if k < |db.log| {
        assert log'[..k + 1] == db.log[..k + 1];
      } else {
        assert log'[..k + 1] == log';
        assert RowIsHistory(db', start, log'[k].player);
      }
    }
  }

  lemma ApplyKeepsLog(db: Db, t: TxId, result: Result)
    requires t in db.txs && db.txs[t].phase.Updated?
    requires LogMatchesTxs(db) && (result == Ok(db.txs[t].phase.newHp) || result == Failed(CommitTx))
    ensures LogMatchesTxs(Apply(db, t, result))
  {
    var db' := Apply(db, t, result);
    assert db'.log[|db.log|].tx == t;
    forall u | u in db'.txs && db'.txs[u].phase.Finished? && db'.txs[u].phase.result.Ok?
      ensures Logged(db'.log, u)
    {
      if u != t {
        var k :| 0 <= k < |db.log| && db.log[k].tx == u;
        assert db'.log[k].tx == u;
      }
    }
  }

  lemma StepKeepsInv(db: Db, s: Statement, start: map<Player, int>)
    requires Enabled(db, s) && Inv(db, start)
    ensures Inv(Step(db, s), start)
  {
    StepKeepsLocks(db, s);
    StepKeepsReads(db, s);
    match s
    case Commit(t) =>
      ApplyKeepsHistory(db, t, Ok(db.txs[t].phase.newHp), start);
      ApplyKeepsLog(db, t, Ok(db.txs[t].phase.newHp));
    case CommitUnacknowledged(t) =>
      ApplyKeepsHistory(db, t, Failed(CommitTx), start);
      ApplyKeepsLog(db, t, Failed(CommitTx));
    case _ =>
      QuietStepKeepsLog(db, s, start);
  }

  lemma QuietStepKeepsLog(db: Db, s: Statement, start: map<Player, int>)
    requires Enabled(db, s) && !s.Commit? && !s.CommitUnacknowledged? && Inv(db, start)
    ensures TableIsHistory(Step(db, s), start)
    ensures CommitsSequential(Step(db, s).log, start)
    ensures LogMatchesTxs(Step(db, s))
  {
    var db' := Step(db, s);
    assert db'.log == db.log && db'.rows == db.rows;
    forall p: Player ensures RowIsHistory(db', start, p) {
      assert RowIsHistory(db, start, p);
    }
    LogUntouched(db, db', s.t);
  }

  lemma LogUntouched(db: Db, db': Db, t: TxId)
    requires LogMatchesTxs(db) && db'.log == db.log
    requires t !in db.txs || !db.txs[t].phase.Finished?
    requires t in db'.txs && db'.txs == db.txs[t := db'.txs[t]]
    requires !(db'.txs[t].phase.Finished? && db'.txs[t].phase.result.Ok?)
    ensures LogMatchesTxs(db')
  {
  }

  lemma {:induction false} RunKeepsInv(db: Db, run: seq<Statement>, start: map<Player, int>)
    requires ValidRun(db, run) && Inv(db, start)
    ensures Inv(Exec(db, run), start)
    decreases |run|
  {
    if run != [] {
      StepKeepsInv(db, run[0], start);
      RunKeepsInv(Step(db, run[0]), run[1..], start);
    }
  }

  /** A statement changes its own transaction, its own player's lock and at most its own player's row. */
  lemma StatementFrame(db: Db, st: Statement)
    requires Enabled(db, st)
    ensures st.t in Step(db, st).txs
    ensures forall t | t != st.t :: t in Step(db, st).txs <==> t in db.txs
    ensures forall t | t in db.txs && t != st.t :: Step(db, st).txs[t] == db.txs[t]
    ensures forall q | q in Step(db, st).rows && q !in db.rows :: st.t in db.txs && q == db.txs[st.t].player
  {
  }

  lemma NotLoggedYet(db: Db, start: map<Player, int>, t: TxId)
    requires Inv(db, start) && (t in db.txs ==> !db.txs[t].phase.Finished?)
    ensures !Logged(db.log, t)
  {
  }

  // ---- Main results ----

  /** The outcome of a serializable execution, transaction by transaction. */
  ghost predicate Serialized(db: Db, start: map<Player, int>) {
    && (forall p: Player :: RowIsHistory(db, start, p))
    && CommitsSequential(db.log, start)
    && (forall k, l | 0 <= k < l < |db.log| :: db.log[k].tx != db.log[l].tx)
    && (forall t | t in db.txs :: Fate(db, t))
  }

  /** What the log says about a transaction, given what its caller was told. */
  ghost predicate Fate(db: Db, t: TxId)
    requires t in db.txs
  {
    var tx := db.txs[t];
    match tx.phase
    case Finished(Ok(hp)) => exists k :: 0 <= k < |db.log| && db.log[k] == Committed(t, tx.player, tx.damage, hp)
    case Finished(Failed(stage)) => Logged(db.log, t) ==> stage == CommitTx
    case _ => !Logged(db.log, t)
  }

  lemma InvGivesFate(db: Db, start: map<Player, int>, t: TxId)
    requires Inv(db, start) && t in db.txs
    ensures Fate(db, t)
  {
    var tx := db.txs[t];
    if tx.phase.Finished? && tx.phase.result.Ok? {
      assert Logged(db.log, t);
      var k :| 0 <= k < |db.log| && db.log[k].tx == t;
      assert db.log[k] == Committed(t, tx.player, tx.damage, tx.phase.result.hp);
    }
  }

  /**
   Serializability. However transactions interleave and wherever they fail, the committed HP of a player is the
   sequential history of the damages committed for that player, from the stored or default HP; every transaction told
   success took effect exactly once and was told the HP of its own point in that history; one told an error took
   effect at most once, and then only through its commit statement.
  */
  lemma Serializable(run: seq<Statement>, start: map<Player, int>)
    requires ValidRun(Init(start), run)
    ensures Serialized(Exec(Init(start), run), start)
  {
    InitInv(start);
    RunKeepsInv(Init(start), run, start);
    var db := Exec(Init(start), run);
    forall t | t in db.txs ensures Fate(db, t) {
      InvGivesFate(db, start, t);
    }
  }

  lemma {:induction false} DamagesOfNonNegative(log: seq<Committed>, p: Player)
    requires forall k | 0 <= k < |log| :: 0 <= log[k].damage
    ensures NonNegative(DamagesOf(log, p))
  {
    if log != [] {
      DamagesOfNonNegative(log[..|log| - 1], p);
    }
  }

  /** With non-negative damages the committed HP is one clamped subtraction of the committed total. */
  lemma CommittedHp(run: seq<Statement>, start: map<Player, int>, p: Player)
    requires ValidRun(Init(start), run)
    requires forall k | 0 <= k < |Exec(Init(start), run).log| :: 0 <= Exec(Init(start), run).log[k].damage
    requires 0 <= HpIn(start, p)
    ensures var db := Exec(Init(start), run);
      var total := Total(DamagesOf(db.log, p));
      HpIn(db.rows, p) == if HpIn(start, p) < total then 0 else HpIn(start, p) - total
  {
    Serializable(run, start);
    var db := Exec(Init(start), run);
    assert RowIsHistory(db, start, p);
    DamagesOfNonNegative(db.log, p);
    HitAllClampsOnce(HpIn(start, p), DamagesOf(db.log, p));
  }

  /**
   Waiting never turns into deadlock: a transaction that waits for a lock waits for one whose next statement is
   enabled, because no transaction asks for a second lock.
  */
  lemma NoDeadlock(run: seq<Statement>, start: map<Player, int>, t: TxId)
    requires ValidRun(Init(start), run)
    requires t in Exec(Init(start), run).txs && !Exec(Init(start), run).txs[t].phase.Finished?
    ensures exists s: Statement :: Enabled(Exec(Init(start), run), s) && !s.IsFault() && !s.Begin? &&
              Exec(Init(start), run).txs[s.t].player == Exec(Init(start), run).txs[t].player
  {
    InitInv(start);
    RunKeepsInv(Init(start), run, start);
    var db := Exec(Init(start), run);
    var p := db.txs[t].player;
    var u := if p in db.locks then db.locks[p] else t;
    match db.txs[u].phase
    case Begun => assert Enabled(db, Select(u));
    case SawNoRow => assert Enabled(db, Insert(u));
    case Holding(_, _) => assert Enabled(db, Update(u));
    case Updated(_, _) => assert Enabled(db, Commit(u));
  }

  /** No transaction heals. */
  predicate Harmless(db: Db) {
    forall t | t in db.txs :: 0 <= db.txs[t].damage
  }

  predicate HarmlessStatement(s: Statement) {
    s.Begin? || s.Refuse? ==> 0 <= s.damage
  }

  lemma StepNeverRaisesHp(db: Db, s: Statement, start: map<Player, int>, p: Player)
    requires Inv(db, start) && Enabled(db, s) && Harmless(db) && HarmlessStatement(s) && 0 <= HpIn(db.rows, p)
    ensures Harmless(Step(db, s)) && 0 <= HpIn(Step(db, s).rows, p) <= HpIn(db.rows, p)
  {
    assert ReadsCurrent(db);
  }

  /**
   No interleaving resets a player: over every run, with failures anywhere and any number of first hits racing to insert
   the missing row, the committed HP never rises.
  */
  lemma {:induction false} RunNeverRaisesHp(db: Db, run: seq<Statement>, start: map<Player, int>, p: Player)
    requires Inv(db, start) && ValidRun(db, run) && Harmless(db) && 0 <= HpIn(db.rows, p)
    requires forall k | 0 <= k < |run| :: HarmlessStatement(run[k])
    ensures 0 <= HpIn(Exec(db, run).rows, p) <= HpIn(db.rows, p)
    decreases |run|
  {
    if run != [] {
      StepKeepsInv(db, run[0], start);
      StepNeverRaisesHp(db, run[0], start, p);
      RunNeverRaisesHp(Step(db, run[0]), run[1..], start, p);
    }
  }

  /**
   Two first hits on a player without a row: both read "no row", the second insert has to wait, and after the first
   commit it fails on the unique key instead of resetting the HP.
  */
  lemma TwoFirstHits(p: Player, d: int, e: int)
    requires ValidDamage(d) && ValidDamage(e)
    ensures var both := [Begin(0, p, d), Begin(1, p, e), Select(0), Select(1), Insert(0)];
      && ValidRun(Init(map[]), both)
      && !Enabled(Exec(Init(map[]), both), Insert(1))
      && ValidRun(Init(map[]), both + [Update(0), Commit(0), Insert(1)])
      && var db := Exec(Init(map[]), both + [Update(0), Commit(0), Insert(1)]);
         && db.rows == map[p := Hit(DEFAULT_INITIAL_HP, d)]
         && 1 in db.txs && db.txs[1].phase == Finished(Failed(InsertHp))
  {
    var start := Init(map[]);
    var r0: seq<Statement> := [];
    RunSnoc(start, r0, Begin(0, p, d));
    var r1 := r0 + [Begin(0, p, d)];
    RunSnoc(start, r1, Begin(1, p, e));
    var r2 := r1 + [Begin(1, p, e)];
    RunSnoc(start, r2, Select(0));
    var r3 := r2 + [Select(0)];
    RunSnoc(start, r3, Select(1));
    var r4 := r3 + [Select(1)];
    RunSnoc(start, r4, Insert(0));
    var r5 := r4 + [Insert(0)];
    assert r5 == [Begin(0, p, d), Begin(1, p, e), Select(0), Select(1), Insert(0)];
    RunSnoc(start, r5, Update(0));
    var r6 := r5 + [Update(0)];
    RunSnoc(start, r6, Commit(0));
    var r7 := r6 + [Commit(0)];
    RunSnoc(start, r7, Insert(1));
    assert r7 + [Insert(1)] == r5 + [Update(0), Commit(0), Insert(1)];
  }

  lemma {:induction false} RunSnoc(db: Db, run: seq<Statement>, s: Statement)
    requires ValidRun(db, run) && Enabled(Exec(db, run), s)
    ensures ValidRun(db, run + [s]) && Exec(db, run + [s]) == Step(Exec(db, run), s)
    decreases |run|
  {
    if run == [] {
      assert run + [s] == [s];
      assert [s][1..] == [];
    } else {
      assert (run + [s])[1..] == run[1..] + [s];
      RunSnoc(Step(db, run[0]), run[1..], s);
    }
  }

  ghost predicate Reaches(db: Db, db': Db) {
    exists run :: ValidRun(db, run) && Exec(db, run) == db'
  }

  lemma ReachesItself(db: Db)
    ensures Reaches(db, db)
  {
    assert ValidRun(db, []) && Exec(db, []) == db;
  }

  lemma ReachesNext(db: Db, db': Db, s: Statement)
    requires Reaches(db, db') && Enabled(db', s)
    ensures Reaches(db, Step(db', s))
  {
    var run :| ValidRun(db, run) && Exec(db, run) == db';
    RunSnoc(db, run, s);
  }
}
