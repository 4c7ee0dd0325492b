/**
 The MySQL repository: the statement sequence of one ApplyDamageNaive call, with a failure point at every statement and
 statements of other transactions running in between.
*/
module BattleRepoMysql {
  import opened BattleDomain
  import opened RowLock

  datatype Fault = NoFault | FaultAt(stage: Stage, appliedAnyway: bool)
  {
    predicate Hits(s: Stage) { FaultAt? && stage == s }
  }

  /** What other transactions do while this call waits to issue each of its statements. */
  datatype Others = Others(
    beforeSelect: seq<Statement>, beforeInsert: seq<Statement>,
    beforeUpdate: seq<Statement>, beforeCommit: seq<Statement>)

  const QUIET := Others([], [], [], [])

  /** The statements of others, each as soon as it can run; one that cannot is left out. */
  function Meanwhile(db: Db, t: TxId, run: seq<Statement>): Db
    decreases |run|
  {
    if run == [] then db
    else if run[0].t != t && Enabled(db, run[0]) then Meanwhile(Step(db, run[0]), t, run[1..])
    else Meanwhile(db, t, run[1..])
  }

  /** The table when a call's locking SELECT gives up waiting or is granted. */
  function Waited(db: Db, t: TxId, player: Player, damage: int, others: Others): Db {
    Meanwhile(db.(txs := db.txs[t := Tx(player, damage, Begun)]), t, others.beforeSelect)
  }

  /** The table when the INSERT of a row the SELECT did not find gives up waiting or is executed. */
  function WaitedAgain(db: Db, t: TxId, player: Player, damage: int, others: Others): Db {
    var seen := Waited(db, t, player, damage, others);
    Meanwhile(seen.(txs := seen.txs[t := Tx(player, damage, SawNoRow)]), t, others.beforeInsert)
  }

  /** What others do leaves this transaction as it is, and the table the history of its log. */
  lemma {:induction false} MeanwhileFrame(db: Db, t: TxId, run: seq<Statement>, start: map<Player, int>)
    requires Inv(db, start)
    ensures Inv(Meanwhile(db, t, run), start)
    ensures t in Meanwhile(db, t, run).txs <==> t in db.txs
    ensures t in db.txs ==> Meanwhile(db, t, run).txs[t] == db.txs[t]
    decreases |run|
  {
    hide Inv, Step, Enabled;
    if run != [] {
      if run[0].t != t && Enabled(db, run[0]) {
        StepKeepsInv(db, run[0], start);
        StatementFrame(db, run[0]);
        MeanwhileFrame(Step(db, run[0]), t, run[1..], start);
      } else {
        MeanwhileFrame(db, t, run[1..], start);
      }
    }
  }

  lemma {:induction false} MeanwhileReaches(from: Db, db: Db, t: TxId, run: seq<Statement>)
    requires Reaches(from, db)
    ensures Reaches(from, Meanwhile(db, t, run))
    decreases |run|
  {
    hide Reaches, Step, Enabled;
    if run != [] {
      if run[0].t != t && Enabled(db, run[0]) {
        ReachesNext(from, db, run[0]);
        MeanwhileReaches(from, Step(db, run[0]), t, run[1..]);
      } else {
        MeanwhileReaches(from, db, t, run[1..]);
      }
    }
  }

  class BattleRepo {
    var db: Db
    ghost const start: map<Player, int>

    constructor (rows: map<Player, int>)
      ensures db == Init(rows) && start == rows && Inv(db, start)
    {
      db := Init(rows);
      start := rows;
      InitInv(rows);
    }

    /**
     One call among others. Whatever other transactions do between its statements, a success is the newest commit, once,
     with the HP of its own point in the sequential history; an error has applied nothing unless the commit's answer was
     lost; no lock is left behind. Left alone, it fails only by its own fault and subtracts from the stored HP.
    */
    method ApplyDamageNaive(t: TxId, player: Player, damage: int, fault: Fault, others: Others) returns (r: Result)
      requires Inv(db, start) && t !in db.txs
      modifies this`db
      ensures Inv(db, start) && Reaches(old(db), db)
      ensures t in db.txs && db.txs[t] == Tx(player, damage, Finished(r))
      ensures forall p | p in db.locks :: db.locks[p] != t
      ensures r.Ok? ==> db.log != [] && db.log[|db.log| - 1] == Committed(t, player, damage, r.hp)
      ensures r.Ok? ==> r.hp == HpIn(db.rows, player) == HitAll(HpIn(start, player), DamagesOf(db.log, player))
      ensures r.Failed? ==> (Logged(db.log, t) <==> r.stage == CommitTx && fault == FaultAt(CommitTx, true))
      ensures var atSelect := Waited(old(db), t, player, damage, others);
        var atInsert := WaitedAgain(old(db), t, player, damage, others);
        if fault.Hits(BeginTx) then r == Failed(BeginTx)
        else if fault.Hits(SelectForUpdate) || player in atSelect.locks then r == Failed(SelectForUpdate)
        else if (player !in atSelect.rows
                 && (fault.Hits(InsertHp) || player in atInsert.locks || player in atInsert.rows))
        then r == Failed(InsertHp)
        else if fault.Hits(UpdateHp) then r == Failed(UpdateHp)
        else if fault.Hits(CommitTx) then r == Failed(CommitTx)
        else r.Ok?
      ensures others == QUIET && player !in old(db).locks ==> Alone(old(db), db, t, player, damage, fault, r)
    {
      hide Inv, Reaches, Logged, HitAll, DamagesOf;
      ReachesItself(db);
      if fault.Hits(BeginTx) {
        Issue(old(db), Refuse(t, player, damage));
        r := Failed(BeginTx);
      } else {
        Issue(old(db), Begin(t, player, damage));
        assert db == old(db).(txs := old(db).txs[t := Tx(player, damage, Begun)]);
        r := Run(old(db), t, fault, others);
      }
      FinishedFacts(db, t, start);
    }

    /** Everything after BEGIN. */
    method Run(ghost from: Db, t: TxId, fault: Fault, others: Others) returns (r: Result)
      requires Inv(db, start) && Reaches(from, db) && t in db.txs && db.txs[t].phase.Begun? && !fault.Hits(BeginTx)
      modifies this`db
      ensures Inv(db, start) && Reaches(from, db)
      ensures t in db.txs && db.txs[t] == old(db).txs[t].(phase := Finished(r))
      ensures r.Ok? ==> var tx := old(db).txs[t];
        db.log != [] && db.log[|db.log| - 1] == Committed(t, tx.player, tx.damage, r.hp)
      ensures r.Failed? ==> (Logged(db.log, t) <==> r.stage == CommitTx && fault == FaultAt(CommitTx, true))
      ensures var p := old(db).txs[t].player;
        var atSelect := Meanwhile(old(db), t, others.beforeSelect);
        var atInsert := Meanwhile(
          atSelect.(txs := atSelect.txs[t := old(db).txs[t].(phase := SawNoRow)]), t, others.beforeInsert);
        if fault.Hits(SelectForUpdate) || p in atSelect.locks then r == Failed(SelectForUpdate)
        else if p !in atSelect.rows && (fault.Hits(InsertHp) || p in atInsert.locks || p in atInsert.rows)
        then r == Failed(InsertHp)
        else if fault.Hits(UpdateHp) then r == Failed(UpdateHp)
        else if fault.Hits(CommitTx) then r == Failed(CommitTx)
        else r.Ok?
      ensures others == QUIET && old(db).txs[t].player !in old(db).locks ==>
        Alone(old(db), db, t, old(db).txs[t].player, old(db).txs[t].damage, fault, r)
    {
      hide Inv, Reaches, Meanwhile, Step, Enabled, Logged;
      forall d: Db ensures Meanwhile(d, t, []) == d { LeftAlone(d, t); }
      var locked := SelectRow(from, t, fault, others);
      if !locked {
        FinishedFacts(db, t, start);
        return db.txs[t].phase.result;
      }
      r := WriteAndCommit(from, t, fault, others);
    }

    /** UPDATE and COMMIT. */
    method WriteAndCommit(ghost from: Db, t: TxId, fault: Fault, others: Others) returns (r: Result)
      requires Inv(db, start) && Reaches(from, db) && t in db.txs && db.txs[t].phase.Holding?
      modifies this`db
      ensures Inv(db, start) && Reaches(from, db)
      ensures t in db.txs && db.txs[t] == old(db).txs[t].(phase := Finished(r))
      ensures var tx := old(db).txs[t];
        r == if fault.Hits(UpdateHp) then Failed(UpdateHp)
             else if fault.Hits(CommitTx) then Failed(CommitTx)
             else Ok(Hit(tx.phase.hp, tx.damage))
      ensures r.Ok? ==> var tx := old(db).txs[t];
        db.log != [] && db.log[|db.log| - 1] == Committed(t, tx.player, tx.damage, r.hp)
      ensures Logged(db.log, t) <==> r.Ok? || fault == FaultAt(CommitTx, true)
      ensures others == QUIET && old(db).txs[t].player in old(db).locks && old(db).locks[old(db).txs[t].player] == t ==>
        var tx := old(db).txs[t];
        var after := old(db).rows[tx.player := Hit(tx.phase.hp, tx.damage)];
        && db.rows == (if r.Ok? || fault == FaultAt(CommitTx, true) then after else old(db).rows)
        && db.locks == old(db).locks - {tx.player}
        && db.txs == old(db).txs[t := tx.(phase := Finished(r))]
    {
      hide Inv, Reaches, Meanwhile, Step, Enabled, Logged;
      forall d: Db ensures Meanwhile(d, t, []) == d { LeftAlone(d, t); }
      var written := WriteRow(from, t, fault, others);
      if !written {
        FinishedFacts(db, t, start);
        return Failed(UpdateHp);
      }
      r := Finish(from, t, fault, others);
    }

    /** The locking SELECT, and the INSERT when it saw no row. A row still locked after the wait times out. */
    method SelectRow(ghost from: Db, t: TxId, fault: Fault, others: Others) returns (locked: bool)
      requires Inv(db, start) && Reaches(from, db) && t in db.txs && db.txs[t].phase.Begun?
      modifies this`db
      ensures Inv(db, start) && Reaches(from, db)
      ensures t in db.txs && db.txs[t].player == old(db).txs[t].player && db.txs[t].damage == old(db).txs[t].damage
      ensures var p := old(db).txs[t].player;
        var atSelect := Meanwhile(old(db), t, others.beforeSelect);
        var atInsert := Meanwhile(
          atSelect.(txs := atSelect.txs[t := old(db).txs[t].(phase := SawNoRow)]), t, others.beforeInsert);
        if fault.Hits(SelectForUpdate) || p in atSelect.locks
        then !locked && db.txs[t].phase == Finished(Failed(SelectForUpdate))
        else if p !in atSelect.rows && (fault.Hits(InsertHp) || p in atInsert.locks || p in atInsert.rows)
        then !locked && db.txs[t].phase == Finished(Failed(InsertHp))
        else locked && db.txs[t].phase.Holding?
      ensures var p := old(db).txs[t].player;
        others == QUIET && p !in old(db).locks ==>
          && (locked <==> !(fault.Hits(SelectForUpdate) || (fault.Hits(InsertHp) && p !in old(db).rows)))
          && db == if locked
                   then SetPhase(old(db), t, Holding(HpIn(old(db).rows, p), p !in old(db).rows))
                        .(locks := old(db).locks[p := t])
                   else SetPhase(old(db), t, Finished(Failed(fault.stage)))
    {
      hide Inv, Reaches, Meanwhile;
      forall d: Db ensures Meanwhile(d, t, []) == d { LeftAlone(d, t); }
      Wait(from, t, others.beforeSelect);
      assert others == QUIET ==> db == old(db);
      HoldsNoLock(db, t, start);
      if fault.Hits(SelectForUpdate) || db.txs[t].player in db.locks {
        Issue(from, Fail(t));
        return false;
      }
      Issue(from, Select(t));
      if db.txs[t].phase.SawNoRow? {
        locked := InsertRow(from, t, fault, others);
      } else {
        locked := true;
      }
    }

    /** The INSERT of a missing row, which another transaction may have inserted meanwhile. */
    method InsertRow(ghost from: Db, t: TxId, fault: Fault, others: Others) returns (inserted: bool)
      requires Inv(db, start) && Reaches(from, db) && t in db.txs && db.txs[t].phase.SawNoRow?
      modifies this`db
      ensures Inv(db, start) && Reaches(from, db)
      ensures var p := old(db).txs[t].player;
        var before := Meanwhile(old(db), t, others.beforeInsert);
        && t in before.txs && before.txs[t] == old(db).txs[t]
        && (inserted <==> !fault.Hits(InsertHp) && p !in before.locks && p !in before.rows)
        && db == if inserted
                 then SetPhase(before, t, Holding(DEFAULT_INITIAL_HP, true)).(locks := before.locks[p := t])
                 else SetPhase(before, t, Finished(Failed(InsertHp)))
    {
      hide Inv, Reaches, Meanwhile;
      Wait(from, t, others.beforeInsert);
      HoldsNoLock(db, t, start);
      if fault.Hits(InsertHp) || db.txs[t].player in db.locks {
        Issue(from, Fail(t));
        return false;
      }
      Issue(from, Insert(t));
      return db.txs[t].phase.Holding?;
    }

    /** The UPDATE, or the rollback that replaces it. */
    method WriteRow(ghost from: Db, t: TxId, fault: Fault, others: Others) returns (written: bool)
      requires Inv(db, start) && Reaches(from, db) && t in db.txs && db.txs[t].phase.Holding?
      modifies this`db
      ensures Inv(db, start) && Reaches(from, db)
      ensures var tx := old(db).txs[t];
        var before := Meanwhile(old(db), t, others.beforeUpdate);
        && t in before.txs && before.txs[t] == tx
        && (written <==> !fault.Hits(UpdateHp))
        && db == if written then SetPhase(before, t, Updated(Hit(tx.phase.hp, tx.damage), tx.phase.inserted))
                 else Release(SetPhase(before, t, Finished(Failed(UpdateHp))), t)
    {
      hide Inv;
      Wait(from, t, others.beforeUpdate);
      if fault.Hits(UpdateHp) {
        Issue(from, Fail(t));
        return false;
      }
      Issue(from, Update(t));
      return true;
    }

    /** The COMMIT, its lost answer, or the rollback that replaces it. */
    method Finish(ghost from: Db, t: TxId, fault: Fault, others: Others) returns (r: Result)
      requires Inv(db, start) && Reaches(from, db) && t in db.txs && db.txs[t].phase.Updated?
      modifies this`db
      ensures Inv(db, start) && Reaches(from, db)
      ensures r == if fault.Hits(CommitTx) then Failed(CommitTx) else Ok(old(db).txs[t].phase.newHp)
      ensures var before := Meanwhile(old(db), t, others.beforeCommit);
        && t in before.txs && before.txs[t] == old(db).txs[t]
        && db == if r.Ok? || fault.appliedAnyway then Apply(before, t, r)
                 else Release(SetPhase(before, t, Finished(r)), t)
      ensures Logged(db.log, t) <==> r.Ok? || fault.appliedAnyway
    {
      hide Inv;
      Wait(from, t, others.beforeCommit);
      NotYetLogged(db, t, start);
      var newHp := db.txs[t].phase.newHp;
      if !fault.Hits(CommitTx) {
        Issue(from, Commit(t));
        r := Ok(newHp);
      } else if fault.appliedAnyway {
        Issue(from, CommitUnacknowledged(t));
        r := Failed(CommitTx);
      } else {
        Issue(from, Fail(t));
        r := Failed(CommitTx);
      }
      assert r.Ok? || fault.appliedAnyway ==> db.log[|db.log| - 1].tx == t;
    }

    /** Lets the others run. */
    method Wait(ghost from: Db, t: TxId, run: seq<Statement>)
      requires Inv(db, start) && Reaches(from, db)
      modifies this`db
      ensures db == Meanwhile(old(db), t, run) && Inv(db, start) && Reaches(from, db)
      ensures t in db.txs <==> t in old(db).txs
      ensures t in db.txs ==> db.txs[t] == old(db).txs[t]
    {
      MeanwhileFrame(db, t, run, start);
      MeanwhileReaches(from, db, t, run);
      for i := 0 to |run|
        invariant Meanwhile(db, t, run[i..]) == Meanwhile(old(db), t, run)
      {
        assert run[i..][1..] == run[i + 1..];
        if run[i].t != t && Enabled(db, run[i]) {
          db := Step(db, run[i]);
        }
      }
    }

    /** Sends one statement. */
    method Issue(ghost from: Db, s: Statement)
      requires Enabled(db, s) && Inv(db, start) && Reaches(from, db)
      modifies this`db
      ensures db == Step(old(db), s) && Inv(db, start) && Reaches(from, db)
    {
      ReachesNext(from, db, s);
      StepKeepsInv(db, s, start);
      db := Step(db, s);
    }
  }

  /** A call that no other transaction disturbed: its own fault decides, and it subtracts from the stored HP once. */
  predicate Alone(before: Db, after: Db, t: TxId, player: Player, damage: int, fault: Fault, r: Result) {
    var hp := Hit(HpIn(before.rows, player), damage);
    && (r.Ok? <==> fault.NoFault? || (fault.Hits(InsertHp) && player in before.rows))
    && (r.Failed? ==> fault.Hits(r.stage))
    && (r.Ok? ==> r.hp == hp)
    && after.rows == (if r.Ok? || fault == FaultAt(CommitTx, true) then before.rows[player := hp] else before.rows)
    && after.locks == before.locks
    && after.txs == before.txs[t := Tx(player, damage, Finished(r))]
  }

  lemma LeftAlone(db: Db, t: TxId)
    ensures Meanwhile(db, t, []) == db
  {
  }

  /** A transaction that has locked nothing holds no lock. */
  lemma HoldsNoLock(db: Db, t: TxId, start: map<Player, int>)
    requires Inv(db, start) && t in db.txs && !db.txs[t].phase.HoldsLock()
    ensures forall p | p in db.locks :: db.locks[p] != t
  {
  }

  lemma NotYetLogged(db: Db, t: TxId, start: map<Player, int>)
    requires Inv(db, start) && t in db.txs && !db.txs[t].phase.Finished?
    ensures !Logged(db.log, t)
  {
  }

  /** A finished transaction holds no lock; a failed one is in the log only after a commit error. */
  lemma FinishedFacts(db: Db, t: TxId, start: map<Player, int>)
    requires Inv(db, start) && t in db.txs && db.txs[t].phase.Finished?
    ensures forall p | p in db.locks :: db.locks[p] != t
    ensures Logged(db.log, t) && db.txs[t].phase.result.Failed? ==> db.txs[t].phase.result.stage == CommitTx
    ensures db.log != [] ==>
      var e := db.log[|db.log| - 1];
      e.hp == HitAll(HpIn(start, e.player), DamagesOf(db.log, e.player)) == HpIn(db.rows, e.player)
  {
    if db.log != [] {
      assert db.log[..|db.log| - 1 + 1] == db.log;
      assert RowIsHistory(db, start, db.log[|db.log| - 1].player);
    }
  }
}
