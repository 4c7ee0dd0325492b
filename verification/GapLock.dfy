/**
 Gap locks on top of the row-locking table. The contract taken for the default isolation level, which the transaction
 does not change: a locking read of a missing row locks the gap between the rows present around it until its transaction
 ends; such locks do not exclude each other, but an insert waits while another transaction locks the gap it falls into.
*/
module GapLock {
  import opened BattleDomain
  import opened RowLock
  import Ranking
  import UserQueue
  import UserQueueInv
  import UserQueueTheorems

  /** gaps: for each open transaction that saw no row, the rows that were present then. */
  datatype GapDb = GapDb(db: Db, gaps: map<TxId, set<Player>>)

  /** The rows a locking read meets, committed or not. */
  function Present(db: Db): set<Player> {
    db.rows.Keys + db.locks.Keys
  }

  /** Two ids fall into one gap between these rows. */
  predicate SameGap(rows: set<Player>, p: Player, q: Player) {
    q !in rows && (forall r | r in rows :: Ranking.Less(r, p) <==> Ranking.Less(r, q))
  }

  /** Two absent ids share a gap exactly when no row lies between them. */
  lemma SameGapExactly(rows: set<Player>, p: Player, q: Player)
    requires p !in rows && q !in rows
    ensures SameGap(rows, p, q) <==>
      forall r | r in rows :: !(Ranking.Less(p, r) && Ranking.Less(r, q)) && !(Ranking.Less(q, r) && Ranking.Less(r, p))
  {
    forall r | r in rows
      ensures Ranking.Less(r, p) != Ranking.Less(p, r) && Ranking.Less(r, q) != Ranking.Less(q, r)
    {
      Ranking.LessTotal(r, p);
      Ranking.LessTotal(r, q);
      Ranking.LessIsStrict(r);
      if Ranking.Less(r, p) && Ranking.Less(p, r) { Ranking.LessTransitive(r, p, r); }
      if Ranking.Less(r, q) && Ranking.Less(q, r) { Ranking.LessTransitive(r, q, r); }
    }
  }

  /** A transaction's gap lock reaches this id. */
  predicate Reached(g: GapDb, t: TxId, p: Player) {
    t in g.gaps && t in g.db.txs && SameGap(g.gaps[t], g.db.txs[t].player, p)
  }

  /** As without gap locks, but an insert also waits for the gap locks of others. */
  predicate CanRun(g: GapDb, s: Statement) {
    Enabled(g.db, s) && (s.Insert? ==> forall t | t in g.gaps && t != s.t :: !Reached(g, t, g.db.txs[s.t].player))
  }

  function Next(g: GapDb, s: Statement): GapDb
    requires Enabled(g.db, s)
  {
    var db := Step(g.db, s);
    if s.t in db.txs && db.txs[s.t].phase.SawNoRow? then GapDb(db, g.gaps[s.t := Present(g.db)])
    else if s.t in db.txs && db.txs[s.t].phase.Finished? then GapDb(db, g.gaps - {s.t})
    else GapDb(db, g.gaps)
  }

  predicate CanRunAll(g: GapDb, run: seq<Statement>)
    decreases |run|
  {
    run == [] || (CanRun(g, run[0]) && CanRunAll(Next(g, run[0]), run[1..]))
  }

  function After(g: GapDb, run: seq<Statement>): GapDb
    requires CanRunAll(g, run)
    decreases |run|
  {
    if run == [] then g else After(Next(g, run[0]), run[1..])
  }

  // ---- Deadlock ----

  /** Each of two transactions is about to insert into a gap the other has locked. */
  predicate Deadlocked(g: GapDb, t: TxId, u: TxId) {
    && t != u && t in g.db.txs && u in g.db.txs
    && g.db.txs[t].phase.SawNoRow? && g.db.txs[u].phase.SawNoRow?
    && Reached(g, t, g.db.txs[u].player) && Reached(g, u, g.db.txs[t].player)
  }

  lemma StepKeepsDeadlock(g: GapDb, s: Statement, t: TxId, u: TxId)
    requires Deadlocked(g, t, u) && CanRun(g, s) && s != Fail(t) && s != Fail(u)
    ensures Deadlocked(Next(g, s), t, u)
  {
    StatementFrame(g.db, s);
  }

  /** Nothing anyone else does ends a deadlock: in every run that rolls neither back, both are still waiting. */
  lemma {:induction false} DeadlockLasts(g: GapDb, run: seq<Statement>, t: TxId, u: TxId)
    requires Deadlocked(g, t, u) && CanRunAll(g, run) && Fail(t) !in run && Fail(u) !in run
    ensures Deadlocked(After(g, run), t, u)
    ensures !CanRun(After(g, run), Insert(t)) && !CanRun(After(g, run), Insert(u))
    decreases |run|
  {
    if run != [] {
      assert run[0] in run && forall s | s in run[1..] :: s in run;
      StepKeepsDeadlock(g, run[0], t, u);
      DeadlockLasts(Next(g, run[0]), run[1..], t, u);
    }
  }

  lemma OneStatement(g: GapDb, s: Statement)
    requires CanRun(g, s)
    ensures CanRunAll(g, [s]) && After(g, [s]) == Next(g, s)
  {
    assert [s][1..] == [];
  }

  /**
   Two first hits, of one player or of two, that both look before either inserts: they deadlock exactly when their ids
   fall into one gap between the rows present.
  */
  lemma FirstHitsDeadlockExactly(g: GapDb, t: TxId, u: TxId)
    requires t != u && CanRun(g, Select(t)) && CanRun(g, Select(u))
    requires g.db.txs[t].player !in g.db.rows && g.db.txs[u].player !in g.db.rows
    ensures CanRunAll(g, [Select(t), Select(u)])
    ensures After(g, [Select(t), Select(u)]).db == SetPhase(SetPhase(g.db, t, SawNoRow), u, SawNoRow)
    ensures Deadlocked(After(g, [Select(t), Select(u)]), t, u)
            <==> SameGap(Present(g.db), g.db.txs[t].player, g.db.txs[u].player)
    ensures var p, q := g.db.txs[t].player, g.db.txs[u].player;
      SameGap(Present(g.db), p, q) <==>
      forall r | r in g.db.rows || r in g.db.locks ::
        !(Ranking.Less(p, r) && Ranking.Less(r, q)) && !(Ranking.Less(q, r) && Ranking.Less(r, p))
  {
    SameGapExactly(Present(g.db), g.db.txs[t].player, g.db.txs[u].player);
    var run := [Select(t), Select(u)];
    var mid := Next(g, Select(t));
    assert run[1..] == [Select(u)] && [Select(u)][1..] == [];
    assert mid.db == SetPhase(g.db, t, SawNoRow) && CanRun(mid, Select(u));
    var last := Next(mid, Select(u));
    OneStatement(mid, Select(u));
    assert After(g, run) == After(mid, run[1..]);
    assert last.gaps[t] == last.gaps[u] == Present(g.db);
  }

  // ---- Players whose rows exist ----

  /** Every open transaction is on an existing row and has not missed it. */
  predicate AllKnown(db: Db) {
    forall t | t in db.txs && !db.txs[t].phase.Finished? :: db.txs[t].player in db.rows && !db.txs[t].phase.SawNoRow?
  }

  lemma StepKeepsKnown(g: GapDb, s: Statement)
    requires g.gaps == map[] && AllKnown(g.db) && Enabled(g.db, s) && (s.Begin? ==> s.player in g.db.rows)
    ensures CanRun(g, s) && Next(g, s) == GapDb(Step(g.db, s), map[])
    ensures AllKnown(Step(g.db, s)) && g.db.rows.Keys <= Step(g.db, s).rows.Keys
  {
  }

  /**
   With rows for all its players the table never sees a gap lock: every run of the table without gap locks is a run with
   them, statement by statement and state by state.
  */
  lemma {:induction false} KnownPlayersMeetNoGaps(g: GapDb, run: seq<Statement>)
    requires g.gaps == map[] && AllKnown(g.db) && ValidRun(g.db, run)
    requires forall k | 0 <= k < |run| && run[k].Begin? :: run[k].player in g.db.rows
    ensures CanRunAll(g, run) && After(g, run) == GapDb(Exec(g.db, run), map[])
    decreases |run|
  {
    hide Step, Next, CanRun, AllKnown;
    if run != [] {
      StepKeepsKnown(g, run[0]);
      var next := Next(g, run[0]);
      forall k | 0 <= k < |run[1..]| && run[1..][k].Begin? ensures run[1..][k].player in next.db.rows {
        assert run[1..][k] == run[k + 1];
      }
      KnownPlayersMeetNoGaps(next, run[1..]);
    }
  }

  // ---- The queue service ----

  /** Where every player of a call has a row, a busy worker's next statement never waits, gap locks or not. */
  lemma KnownWorkersNeverWait(s: UserQueue.State, start: map<Player, int>, w: nat)
    requires UserQueue.Reachable(s, start) && UserQueue.Busy(s, w)
    requires forall c | 0 <= c < |s.calls| :: s.calls[c].player in start
    ensures AllKnown(s.db)
    ensures var a := UserQueueTheorems.NextAction(s, w);
      UserQueue.Enabled(s, a) && (a.Repo? ==> CanRun(GapDb(s.db, map[]), a.s))
  {
    UserQueueTheorems.WorkerNeverWaits(s, start, w);
    UserQueueInv.ReachableInv(s, start);
    forall t | t in s.db.txs && !s.db.txs[t].phase.Finished?
      ensures s.db.txs[t].player in s.db.rows && !s.db.txs[t].phase.SawNoRow?
    {
      assert UserQueueInv.TxOk(s, t) && RowIsHistory(s.db, start, s.db.txs[t].player);
    }
  }

  /** Looking up a missing row only changes the phase of its transaction; the insert is next. */
  lemma LookThenInsert(s: UserQueue.State, w: nat)
    requires UserQueue.Busy(s, w)
    requires UserQueueTheorems.NextAction(s, w) == UserQueue.Repo(w, Select(s.workers[w].job.value))
    requires UserQueue.Enabled(s, UserQueueTheorems.NextAction(s, w))
    requires s.db.txs[s.workers[w].job.value].player !in s.db.rows
    ensures var c := s.workers[w].job.value;
      var s' := s.(db := SetPhase(s.db, c, SawNoRow), clock := s.clock + 1);
      && UserQueue.Step(s, UserQueue.Repo(w, Select(c))) == s'
      && UserQueueTheorems.NextAction(s', w) == UserQueue.Repo(w, Insert(c))
  {
    var c := s.workers[w].job.value;
    assert s.calls[c := s.calls[c]] == s.calls;
  }

  /** Another transaction's phase does not change what a worker does next. */
  lemma NextActionFrame(s: UserQueue.State, w: nat, t: TxId, phase: Phase, clock: nat)
    requires UserQueue.Busy(s, w) && t in s.db.txs && t != s.workers[w].job.value
    ensures var s' := s.(db := SetPhase(s.db, t, phase), clock := clock);
      UserQueue.Busy(s', w) && UserQueueTheorems.NextAction(s', w) == UserQueueTheorems.NextAction(s, w)
  {
  }

  /**
   Two workers about to look up new players of one gap: after both have looked, each one's next statement is the insert,
   and both wait for each other.
  */
  lemma NewPlayersDeadlockWorkers(s: UserQueue.State, start: map<Player, int>, g: GapDb, v: nat, w: nat)
    requires UserQueue.Reachable(s, start) && g.db == s.db && v != w && UserQueue.Busy(s, v) && UserQueue.Busy(s, w)
    requires UserQueueTheorems.NextAction(s, v) == UserQueue.Repo(v, Select(s.workers[v].job.value))
    requires UserQueueTheorems.NextAction(s, w) == UserQueue.Repo(w, Select(s.workers[w].job.value))
    requires s.workers[v].player !in s.db.rows && s.workers[w].player !in s.db.rows
    requires SameGap(Present(s.db), s.workers[v].player, s.workers[w].player)
    ensures var c, e := s.workers[v].job.value, s.workers[w].job.value;
      && UserQueue.ValidRun(s, [UserQueue.Repo(v, Select(c)), UserQueue.Repo(w, Select(e))])
      && var last := UserQueue.Exec(s, [UserQueue.Repo(v, Select(c)), UserQueue.Repo(w, Select(e))]);
      && UserQueue.Busy(last, v) && UserQueueTheorems.NextAction(last, v) == UserQueue.Repo(v, Insert(c))
      && UserQueue.Busy(last, w) && UserQueueTheorems.NextAction(last, w) == UserQueue.Repo(w, Insert(e))
      && CanRunAll(g, [Select(c), Select(e)]) && After(g, [Select(c), Select(e)]).db == last.db
      && Deadlocked(After(g, [Select(c), Select(e)]), c, e)
  {
    hide UserQueue.Reachable, UserQueueTheorems.NextAction, UserQueue.Step, UserQueue.ValidRun, UserQueue.Exec;
    hide SameGap, Deadlocked, CanRunAll, After;
    var c, e := s.workers[v].job.value, s.workers[w].job.value;
    BothCanLook(s, start, v, w);
    FirstHitsDeadlockExactly(g, c, e);
    LookThenInsert(s, v);
    var mid := s.(db := SetPhase(s.db, c, SawNoRow), clock := s.clock + 1);
    NextActionFrame(s, w, c, SawNoRow, s.clock + 1);
    LookThenInsert(mid, w);
    var last := mid.(db := SetPhase(mid.db, e, SawNoRow), clock := mid.clock + 1);
    NextActionFrame(mid, v, e, SawNoRow, mid.clock + 1);
    TwoActions(s, UserQueue.Repo(v, Select(c)), UserQueue.Repo(w, Select(e)));
  }

  lemma TwoActions(s: UserQueue.State, a: UserQueue.Action, b: UserQueue.Action)
    requires UserQueue.Enabled(s, a) && UserQueue.Enabled(UserQueue.Step(s, a), b)
    ensures UserQueue.ValidRun(s, [a, b])
    ensures UserQueue.Exec(s, [a, b]) == UserQueue.Step(UserQueue.Step(s, a), b)
  {
    hide UserQueue.Enabled, UserQueue.Step;
    var mid := UserQueue.Step(s, a);
    OneAction(mid, b);
    assert [a, b][1..] == [b];
    assert UserQueue.ValidRun(s, [a, b]) == UserQueue.ValidRun(mid, [b]);
  }

  lemma OneAction(s: UserQueue.State, a: UserQueue.Action)
    requires UserQueue.Enabled(s, a)
    ensures UserQueue.ValidRun(s, [a]) && UserQueue.Exec(s, [a]) == UserQueue.Step(s, a)
  {
    assert [a][1..] == [];
  }

  /** Two busy workers serve different calls, each with its own player, and both looks are granted. */
  lemma BothCanLook(s: UserQueue.State, start: map<Player, int>, v: nat, w: nat)
    requires UserQueue.Reachable(s, start) && v != w && UserQueue.Busy(s, v) && UserQueue.Busy(s, w)
    requires UserQueueTheorems.NextAction(s, v) == UserQueue.Repo(v, Select(s.workers[v].job.value))
    requires UserQueueTheorems.NextAction(s, w) == UserQueue.Repo(w, Select(s.workers[w].job.value))
    ensures var c, e := s.workers[v].job.value, s.workers[w].job.value;
      && c != e && Enabled(s.db, Select(c)) && Enabled(s.db, Select(e))
      && s.db.txs[c].player == s.workers[v].player && s.db.txs[e].player == s.workers[w].player
      && UserQueue.Enabled(s, UserQueue.Repo(v, Select(c))) && UserQueue.Enabled(s, UserQueue.Repo(w, Select(e)))
  {
    UserQueueTheorems.WorkerNeverWaits(s, start, v);
    UserQueueTheorems.WorkerNeverWaits(s, start, w);
    UserQueueInv.ReachableInv(s, start);
    hide UserQueueTheorems.NextAction;
    var c, e := s.workers[v].job.value, s.workers[w].job.value;
    assert UserQueueInv.WorkerOk(s, v) && UserQueueInv.WorkerOk(s, w);
    assert UserQueueInv.TxOk(s, c) && UserQueueInv.TxOk(s, e);
  }
}
