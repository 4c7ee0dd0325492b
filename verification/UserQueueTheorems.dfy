/** What V2UserQueue guarantees in every reachable state, and that every run drains. */
module UserQueueTheorems {
  import opened BattleDomain
  import opened Options
  import opened Sums
  import opened UserQueue
  import opened UserQueueInv
  import RL = RowLock

  // ---- No lock waiting ----

  ghost predicate OpenTx(s: State, t: RL.TxId) {
    t in s.db.txs && !s.db.txs[t].phase.Finished?
  }

  /** At most one channel, one worker and one open transaction per player, and never more than the capacity queued. */
  lemma OneWriterPerPlayer(s: State, start: map<Player, int>)
    requires Reachable(s, start)
    ensures forall v, w | 0 <= v < |s.workers| && 0 <= w < |s.workers| ::
              s.workers[v].player == s.workers[w].player ==> v == w
    ensures forall p | p in s.queues :: |s.queues[p]| <= 64 && HasWorker(s, p)
    ensures forall t, u | OpenTx(s, t) && OpenTx(s, u) :: s.db.txs[t].player == s.db.txs[u].player ==> t == u
  {
    ReachableInv(s, start);
    forall p | p in s.queues ensures |s.queues[p]| <= QUEUE_CAPACITY { assert QueueOk(s, p); }
    forall t, u | OpenTx(s, t) && OpenTx(s, u) && s.db.txs[t].player == s.db.txs[u].player ensures t == u {
      assert TxOk(s, t) && TxOk(s, u);
      SoleInService(s, t, u);
    }
  }

  /** The statement or reply a worker issues next; a transaction whose context has ended is refused or rolled back. */
  function NextAction(s: State, w: nat): Action
    requires Busy(s, w)
  {
    var c := s.workers[w].job.value;
    if c !in s.db.txs && Severed(s, c) then Repo(w, RL.Refuse(c, s.calls[c].player, s.calls[c].damage))
    else if c !in s.db.txs then Repo(w, RL.Begin(c, s.calls[c].player, s.calls[c].damage))
    else if Severed(s, c) && !s.db.txs[c].phase.Finished? then Repo(w, RL.Fail(c))
    else match s.db.txs[c].phase
      case Begun => Repo(w, RL.Select(c))
      case SawNoRow => Repo(w, RL.Insert(c))
      case Holding(_, _) => Repo(w, RL.Update(c))
      case Updated(_, _) => Repo(w, RL.Commit(c))
      case Finished(_) => Reply(w)
  }

  /**
   V2 removes lock waiting: whatever other players' workers hold, a busy worker's next statement is granted at once,
   an insert never meets a duplicate key, and the reply never blocks because its channel is empty.
  */
  lemma WorkerNeverWaits(s: State, start: map<Player, int>, w: nat)
    requires Reachable(s, start) && Busy(s, w)
    ensures Enabled(s, NextAction(s, w))
    ensures NextAction(s, w).Repo? && NextAction(s, w).s.Insert?
      ==> s.calls[s.workers[w].job.value].player !in s.db.rows
  {
    ReachableInv(s, start);
    NextIsEnabled(s, start, w);
  }

  /** A call in service holds or can have its player's lock, and a missing row stays missing for it. */
  lemma LockIsOwn(s: State, start: map<Player, int>, c: CallId)
    requires Inv(s, start) && c < |s.calls| && s.calls[c].work.InService?
    ensures s.calls[c].player in s.db.locks
      ==> s.db.locks[s.calls[c].player] == c && c in s.db.txs && s.db.txs[c].phase.HoldsLock()
    ensures TxOk(s, c) && s.calls[c].reply.None?
  {
    assert CallOk(s.calls[c]);
    var p := s.calls[c].player;
    if p in s.db.locks { SoleTransaction(s, start, c, s.db.locks[p]); }
  }

  lemma NextIsEnabled(s: State, start: map<Player, int>, w: nat)
    requires Inv(s, start) && Busy(s, w)
    ensures Enabled(s, NextAction(s, w))
    ensures NextAction(s, w).Repo? && NextAction(s, w).s.Insert?
      ==> s.calls[s.workers[w].job.value].player !in s.db.rows
  {
    assert WorkerOk(s, w);
    LockIsOwn(s, start, s.workers[w].job.value);
    OwnLockEnables(s, w);
  }

  lemma OwnLockEnables(s: State, w: nat)
    requires Busy(s, w) && WorkerOk(s, w)
    requires var c := s.workers[w].job.value;
      && TxOk(s, c) && s.calls[c].reply.None?
      && (s.calls[c].player in s.db.locks ==> c in s.db.txs && s.db.txs[c].phase.HoldsLock())
    ensures Enabled(s, NextAction(s, w))
    ensures NextAction(s, w).Repo? && NextAction(s, w).s.Insert?
      ==> s.calls[s.workers[w].job.value].player !in s.db.rows
  {
  }

  // ---- Linearizability ----

  predicate Succeeded(call: Call) {
    call.client.Returned? && call.client.outcome.Damaged?
  }

  /** Call c took effect as the k-th operation of the sequential history. */
  ghost predicate TakesEffectAt(s: State, c: CallId, k: nat)
    requires c < |s.calls|
  {
    k < |s.db.log| && s.db.log[k].tx == c && s.db.log[k].player == s.calls[c].player
      && s.db.log[k].damage == s.calls[c].damage
  }

  /**
   Linearizability: the commit log is a sequential history of saturating subtractions in which every call that returned
   (hp, nil) occurs exactly once, with its own player and damage, and with hp the HP of that point; the point lies
   between the call's invocation and its return; calls that do not overlap keep their order.
  */
  ghost predicate Linearized(s: State, start: map<Player, int>) {
    && RL.Serialized(s.db, start)
    && (forall c: CallId | c < |s.calls| && Succeeded(s.calls[c]) ::
          && (exists k: nat :: TakesEffectAt(s, c, k) && s.db.log[k].hp == s.calls[c].client.outcome.hp)
          && s.calls[c].invokedAt < s.calls[c].appliedAt < s.calls[c].returnedAt)
    && (forall c: CallId, e: CallId, k: nat, l: nat
          | c < |s.calls| && e < |s.calls| && TakesEffectAt(s, c, k) && TakesEffectAt(s, e, l) ::
          Succeeded(s.calls[c]) && s.calls[c].returnedAt <= s.calls[e].invokedAt ==> k < l)
  }

  lemma InvGivesSerialized(s: State, start: map<Player, int>)
    requires Inv(s, start)
    ensures RL.Serialized(s.db, start)
  {
    forall t | t in s.db.txs ensures RL.Fate(s.db, t) { RL.InvGivesFate(s.db, start, t); }
  }

  lemma SuccessTakesEffect(s: State, start: map<Player, int>, c: CallId)
    requires Inv(s, start) && c < |s.calls| && Succeeded(s.calls[c])
    ensures exists k: nat :: TakesEffectAt(s, c, k) && s.db.log[k].hp == s.calls[c].client.outcome.hp
    ensures s.calls[c].invokedAt < s.calls[c].appliedAt < s.calls[c].returnedAt
  {
    assert TxOk(s, c) && StampsOk(s, c) && CallOk(s.calls[c]);
    RL.InvGivesFate(s.db, start, c);
    var hp := s.calls[c].client.outcome.hp;
    var k :| 0 <= k < |s.db.log| && s.db.log[k] == RL.Committed(c, s.calls[c].player, s.calls[c].damage, hp);
    assert TakesEffectAt(s, c, k);
    assert RL.Logged(s.db.log, c);
  }

  lemma EffectOrder(s: State, k: nat, l: nat)
    requires LogOrdered(s) && k < |s.db.log| && l < |s.db.log|
    requires s.db.log[k].tx < |s.calls| && s.db.log[l].tx < |s.calls|
    requires s.calls[s.db.log[k].tx].appliedAt < s.calls[s.db.log[l].tx].appliedAt
    ensures k < l
  {
    assert l < k ==> LogPair(s, s.db.log[l], s.db.log[k]);
  }

  lemma Linearizable(s: State, start: map<Player, int>)
    requires Reachable(s, start)
    ensures Linearized(s, start)
  {
    ReachableInv(s, start);
    InvGivesSerialized(s, start);
    forall c: CallId | c < |s.calls| && Succeeded(s.calls[c])
      ensures exists k: nat :: TakesEffectAt(s, c, k) && s.db.log[k].hp == s.calls[c].client.outcome.hp
      ensures s.calls[c].invokedAt < s.calls[c].appliedAt < s.calls[c].returnedAt
    {
      SuccessTakesEffect(s, start, c);
    }
    forall c: CallId, e: CallId, k: nat, l: nat
      | c < |s.calls| && e < |s.calls| && TakesEffectAt(s, c, k) && TakesEffectAt(s, e, l) &&
        Succeeded(s.calls[c]) && s.calls[c].returnedAt <= s.calls[e].invokedAt
      ensures k < l
    {
      SuccessTakesEffect(s, start, c);
      assert RL.Logged(s.db.log, e);
      assert StampsOk(s, e) && TxOk(s, e) && CallOk(s.calls[e]);
      EffectOrder(s, k, l);
    }
  }

  /** Per player, damage is applied in the order of the channel sends. */
  lemma AppliedInSendOrder(s: State, start: map<Player, int>, k: nat, l: nat)
    requires Reachable(s, start) && k < l < |s.db.log| && s.db.log[k].player == s.db.log[l].player
    ensures s.db.log[k].tx < |s.calls| && s.db.log[l].tx < |s.calls|
    ensures s.calls[s.db.log[k].tx].sentAt < s.calls[s.db.log[l].tx].sentAt
  {
    ReachableInv(s, start);
    assert LogPair(s, s.db.log[k], s.db.log[l]);
  }

  // ---- The fate of a request ----

  /** How often a call took effect: entries of the log that carry its number. */
  function TimesApplied(log: seq<RL.Committed>, c: CallId): nat {
    if log == [] then 0
    else TimesApplied(log[..|log| - 1], c) + if log[|log| - 1].tx == c then 1 else 0
  }

  lemma {:induction false} AppliedOnceOrNever(log: seq<RL.Committed>, c: CallId)
    requires forall k, l | 0 <= k < l < |log| :: log[k].tx != log[l].tx
    ensures TimesApplied(log, c) == if RL.Logged(log, c) then 1 else 0
  {
    if log != [] {
      var n := |log| - 1;
      AppliedOnceOrNever(log[..n], c);
      LoggedSnoc(log, c);
      if RL.Logged(log[..n], c) {
        var k :| 0 <= k < n && log[..n][k].tx == c;
        assert log[k].tx == c && log[n].tx != c;
      }
    }
  }

  lemma LoggedSnoc(log: seq<RL.Committed>, c: CallId)
    requires log != []
    ensures RL.Logged(log, c) <==> RL.Logged(log[..|log| - 1], c) || log[|log| - 1].tx == c
  {
    var earlier := log[..|log| - 1];
    assert forall k | 0 <= k < |earlier| :: earlier[k] == log[k];
    if RL.Logged(earlier, c) {
      var k :| 0 <= k < |earlier| && earlier[k].tx == c;
      assert log[k].tx == c;
    }
    if RL.Logged(log, c) && log[|log| - 1].tx != c {
      var k :| 0 <= k < |log| && log[k].tx == c;
      assert earlier[k].tx == c;
    }
  }

  /**
   Rejected and enqueue-failed calls are never applied, successful calls exactly once, await-failed calls at most once,
   and a repository error can hide an application only when it is a commit error.
  */
  lemma RequestFate(s: State, start: map<Player, int>, c: CallId)
    requires Reachable(s, start) && c < |s.calls|
    ensures TimesApplied(s.db.log, c) <= 1
    ensures s.calls[c].client.Returned? ==>
      match s.calls[c].client.outcome
      case Damaged(_) => TimesApplied(s.db.log, c) == 1
      case InvalidDamage => TimesApplied(s.db.log, c) == 0
      case EnqueueError => TimesApplied(s.db.log, c) == 0
      case RepoError(stage) => TimesApplied(s.db.log, c) == 1 ==> stage == RL.CommitTx
      case AwaitError => true
  {
    ReachableInv(s, start);
    AppliedOnceOrNever(s.db.log, c);
    assert TxOk(s, c) && CallOk(s.calls[c]);
    if c in s.db.txs { RL.InvGivesFate(s.db, start, c); }
    if Succeeded(s.calls[c]) {
      SuccessTakesEffect(s, start, c);
      assert RL.Logged(s.db.log, c);
    }
  }

  /** A call whose context has ended with nothing applied and no commit that could be on its way. */
  ghost predicate TooLate(s: State, c: CallId) {
    Severed(s, c) && !RL.Logged(s.db.log, c) && (c in s.db.txs ==> !s.db.txs[c].phase.Updated?)
  }

  lemma StepKeepsTooLate(s: State, a: Action, start: map<Player, int>, c: CallId)
    requires Inv(s, start) && Enabled(s, a) && TooLate(s, c)
    ensures TooLate(Step(s, a), c)
  {
    StepFrame(s, a);
    StepLog(s, a, c);
    if a.Repo? { RL.StatementFrame(s.db, a.s); }
  }

  lemma {:induction false} RunKeepsTooLate(s: State, run: seq<Action>, start: map<Player, int>, c: CallId)
    requires Inv(s, start) && ValidRun(s, run) && TooLate(s, c)
    ensures Inv(Exec(s, run), start) && TooLate(Exec(s, run), c)
    decreases |run|
  {
    hide Inv, TooLate;
    if run != [] {
      StepKeepsInv(s, run[0], start);
      StepKeepsTooLate(s, run[0], start, c);
      RunKeepsTooLate(Step(s, run[0]), run[1..], start, c);
    }
  }

  /** A call with its update written can still commit, whatever its context says. */
  lemma UpdatedCanCommit(s: State, start: map<Player, int>, c: CallId) returns (a: Action)
    requires Inv(s, start) && c < |s.calls| && c in s.db.txs && s.db.txs[c].phase.Updated?
    ensures Enabled(s, a) && RL.Logged(Step(s, a).db.log, c)
  {
    assert TxOk(s, c) && Placed(s, c);
    var w := s.calls[c].work.worker;
    a := Repo(w, RL.Commit(c));
    assert Step(s, a).db.log[|s.db.log|].tx == c;
  }

  ghost predicate NeverAppliedLater(s: State, c: CallId) {
    forall run | ValidRun(s, run) :: !RL.Logged(Exec(s, run).db.log, c)
  }

  /**
   Over a repository that heeds contexts, a call whose context has ended is never applied, in any continuation, exactly
   when it has not been applied yet and its update has not been written.
  */
  lemma NeverAppliedExactly(s: State, start: map<Player, int>, c: CallId)
    requires Reachable(s, start) && Severed(s, c)
    ensures NeverAppliedLater(s, c) <==> !RL.Logged(s.db.log, c) && (c in s.db.txs ==> !s.db.txs[c].phase.Updated?)
  {
    ReachableInv(s, start);
    if TooLate(s, c) {
      forall run | ValidRun(s, run) ensures !RL.Logged(Exec(s, run).db.log, c) {
        RunKeepsTooLate(s, run, start, c);
      }
    } else if RL.Logged(s.db.log, c) {
      assert ValidRun(s, []) && Exec(s, []) == s;
    } else {
      var a := UpdatedCanCommit(s, start, c);
      assert [a][1..] == [] && ValidRun(s, [a]) && Exec(s, [a]) == Step(s, a);
    }
  }

  /** In particular a call whose context ended before its transaction began is never applied nor told a success. */
  lemma EndedBeforeBeginIsNeverApplied(s: State, run: seq<Action>, start: map<Player, int>, c: CallId)
    requires Reachable(s, start) && ValidRun(s, run) && Severed(s, c) && c !in s.db.txs
    ensures TimesApplied(Exec(s, run).db.log, c) == 0
    ensures c < |Exec(s, run).calls| && !Succeeded(Exec(s, run).calls[c])
  {
    ReachableInv(s, start);
    NeverAppliedExactly(s, start, c);
    RunKeepsInv(s, run, start);
    RunKeepsCalls(s, run);
    var last := Exec(s, run);
    AppliedOnceOrNever(last.db.log, c);
    if Succeeded(last.calls[c]) { SuccessIsLogged(last, start, c); }
  }

  lemma SuccessIsLogged(s: State, start: map<Player, int>, c: CallId)
    requires Inv(s, start) && c < |s.calls| && Succeeded(s.calls[c])
    ensures RL.Logged(s.db.log, c)
  {
    SuccessTakesEffect(s, start, c);
  }

  lemma {:induction false} RunKeepsCalls(s: State, run: seq<Action>)
    requires ValidRun(s, run)
    ensures |s.calls| <= |Exec(s, run).calls|
    decreases |run|
  {
    if run != [] {
      StepFrame(s, run[0]);
      RunKeepsCalls(Step(s, run[0]), run[1..]);
    }
  }

  /** An await error decides nothing: one caller view is reached with the damage applied and with it lost. */
  lemma AwaitErrorIsAmbiguous(p: Player, d: int)
    requires ValidDamage(d)
    ensures exists s, u ::
      && Reachable(s, map[]) && Reachable(u, map[]) && s.ctxAware && u.ctxAware
      && |s.calls| == |u.calls| == 1
      && s.calls[0].client == u.calls[0].client == Returned(AwaitError)
      && s.calls[0].work.Replied? && u.calls[0].work.Replied?
      && TimesApplied(s.db.log, 0) == 1 && TimesApplied(u.db.log, 0) == 0
  {
    var s4 := InServiceFromStart(p, d);
    var u := GivesUpBeforeBegin(p, d, s4);
    var s := GivesUpAfterCommit(p, d, s4);
  }

  /** The worker has taken the first call; its repository call has not begun and its context is alive. */
  function InServiceState(p: Player, d: int, txs: map<RL.TxId, RL.Tx>, clock: nat): State {
    State([Call(p, d, Awaiting, InService(0), None, false, 0, 2, 0, 0)], map[p := []], [Worker(p, Some(0))],
          RL.Db(map[], map[], txs, []), true, clock)
  }

  lemma InServiceFromStart(p: Player, d: int) returns (s: State)
    requires ValidDamage(d)
    ensures Reachable(s, map[]) && s == InServiceState(p, d, map[], 4)
  {
    ReachInit(map[], true);
    s := Reach(Init(map[], true), map[], Invoke(p, d));
    assert s.calls == [Call(p, d, Arrived, Unsent, None, false, 0, 0, 0, 0)];
    s := Reach(s, map[], Locate(0));
    assert s.calls == [Call(p, d, Enqueueing, Unsent, None, false, 0, 0, 0, 0)];
    assert s.queues == map[p := []] && s.workers == [Worker(p, None)];
    s := Reach(s, map[], Send(0));
    assert s.queues[p] == [0] && s.queues == map[p := [0]];
    assert s.calls == [Call(p, d, Awaiting, Queued, None, false, 0, 2, 0, 0)];
    s := Reach(s, map[], Take(0));
  }

  lemma GivesUpBeforeBegin(p: Player, d: int, s4: State) returns (u: State)
    requires Reachable(s4, map[]) && s4 == InServiceState(p, d, map[], 4)
    ensures Reachable(u, map[]) && u.ctxAware && |u.calls| == 1
    ensures u.calls[0].client == Returned(AwaitError) && u.calls[0].work.Replied?
    ensures TimesApplied(u.db.log, 0) == 0
  {
    u := Reach(s4, map[], End(0));
    u := Reach(u, map[], CancelAwait(0));
    assert Busy(u, 0) && u.calls[0].reply == None && u.db == s4.db;
    u := Reach(u, map[], Repo(0, RL.Refuse(0, p, d)));
    u := Reach(u, map[], Reply(0));
  }

  lemma GivesUpAfterCommit(p: Player, d: int, s4: State) returns (s: State)
    requires Reachable(s4, map[]) && s4 == InServiceState(p, d, map[], 4)
    ensures Reachable(s, map[]) && s.ctxAware && |s.calls| == 1
    ensures s.calls[0].client == Returned(AwaitError) && s.calls[0].work.Replied?
    ensures TimesApplied(s.db.log, 0) == 1
  {
    s := Reach(s4, map[], Repo(0, RL.Begin(0, p, d)));
    s := Reach(s, map[], Repo(0, RL.Select(0)));
    assert s.db.txs == map[0 := RL.Tx(p, d, RL.SawNoRow)];
    assert s == InServiceState(p, d, map[0 := RL.Tx(p, d, RL.SawNoRow)], 6);
    s := InsertToCommit(s, p, d);
    s := Reach(s, map[], End(0));
    s := Reach(s, map[], CancelAwait(0));
    assert Busy(s, 0) && s.calls[0].reply == None && s.db.txs[0].phase.Finished?;
    s := Reach(s, map[], Reply(0));
  }

  lemma InsertToCommit(s6: State, p: Player, d: int) returns (s: State)
    requires Reachable(s6, map[]) && s6 == InServiceState(p, d, map[0 := RL.Tx(p, d, RL.SawNoRow)], 6)
    ensures Reachable(s, map[]) && s.ctxAware && |s.calls| == 1 && Busy(s, 0) && s.workers[0].job.value == 0
    ensures s.calls[0].client.Awaiting? && !s.calls[0].ended && s.calls[0].reply == None
    ensures 0 in s.db.txs && s.db.txs[0].phase.Finished? && TimesApplied(s.db.log, 0) == 1
  {
    s := Reach(s6, map[], Repo(0, RL.Insert(0)));
    s := Reach(s, map[], Repo(0, RL.Update(0)));
    assert s.calls == s6.calls && s.workers == s6.workers && s.db.log == [];
    s := Reach(s, map[], Repo(0, RL.Commit(0)));
    assert |s.db.log| == 1 && s.db.log[0].tx == 0 && s.db.log[..0] == [];
  }

  lemma ReachInit(start: map<Player, int>, ctxAware: bool)
    ensures Reachable(Init(start, ctxAware), start)
  {
    var init := Init(start, ctxAware);
    assert ValidRun(init, []) && Exec(init, []) == init;
  }

  lemma Reach(s: State, start: map<Player, int>, a: Action) returns (s': State)
    requires Reachable(s, start) && Enabled(s, a)
    ensures s' == Step(s, a) && Reachable(s', start)
  {
    s' := Step(s, a);
    var init := Init(start, s.ctxAware);
    var run :| ValidRun(init, run) && Exec(init, run) == s;
    RunSnoc(init, run, a);
    assert s'.ctxAware == s.ctxAware;
  }

  lemma {:induction false} RunSnoc(s: State, run: seq<Action>, a: Action)
    requires ValidRun(s, run) && Enabled(Exec(s, run), a)
    ensures ValidRun(s, run + [a]) && Exec(s, run + [a]) == Step(Exec(s, run), a)
    decreases |run|
  {
    if run == [] {
      assert run + [a] == [a];
      assert [a][1..] == [];
    } else {
      assert (run + [a])[1..] == run[1..] + [a];
      RunSnoc(Step(s, run[0]), run[1..], a);
    }
  }

  // ---- HP bounds ----

  ghost function Applied(s: State, log: seq<RL.Committed>, p: Player): nat -> int {
    (c: nat) => if c < |s.calls| && s.calls[c].player == p && RL.Logged(log, c) then s.calls[c].damage else 0
  }

  ghost function Acknowledged(s: State, p: Player): nat -> int {
    (c: nat) => if c < |s.calls| && s.calls[c].player == p && Succeeded(s.calls[c]) then s.calls[c].damage else 0
  }

  ghost function Enqueued(s: State, p: Player): nat -> int {
    (c: nat) => if c < |s.calls| && s.calls[c].player == p && !s.calls[c].work.Unsent? then s.calls[c].damage else 0
  }

  /** The committed total of a player, summed over calls instead of over the log. */
  lemma {:induction false} LogTotalByCall(s: State, log: seq<RL.Committed>, p: Player)
    requires forall k | 0 <= k < |log| ::
      log[k].tx < |s.calls| && s.calls[log[k].tx].player == log[k].player && s.calls[log[k].tx].damage == log[k].damage
    requires forall k, l | 0 <= k < l < |log| :: log[k].tx != log[l].tx
    ensures Total(RL.DamagesOf(log, p)) == Sum(Applied(s, log, p), |s.calls|)
  {
    if log == [] {
      SumAgrees(_ => 0, Applied(s, log, p), |s.calls|);
      SumOfZeros(|s.calls|);
    } else {
      var n := |log| - 1;
      var earlier := log[..n];
      var e := log[n];
      LogTotalByCall(s, earlier, p);
      forall c: nat ensures RL.Logged(log, c) <==> RL.Logged(earlier, c) || c == e.tx {
        LoggedSnoc(log, c);
      }
      SumChanges(Applied(s, earlier, p), Applied(s, log, p), |s.calls|, e.tx);
      var ds := RL.DamagesOf(earlier, p);
      assert (ds + [e.damage])[..|ds|] == ds;
    }
  }

  /** Acknowledged damage is committed, and committed damage was enqueued. */
  lemma DamageIsAccounted(s: State, start: map<Player, int>, p: Player, c: nat)
    requires Inv(s, start) && c < |s.calls|
    ensures Acknowledged(s, p)(c) <= Applied(s, s.db.log, p)(c) <= Enqueued(s, p)(c)
  {
    assert CallOk(s.calls[c]) && TxOk(s, c);
    if Succeeded(s.calls[c]) {
      SuccessTakesEffect(s, start, c);
      assert RL.Logged(s.db.log, c);
    }
  }

  lemma LogEntryIsCall(s: State, start: map<Player, int>, k: nat)
    requires Inv(s, start) && k < |s.db.log|
    ensures var e := s.db.log[k];
      e.tx < |s.calls| && s.calls[e.tx].player == e.player && s.calls[e.tx].damage == e.damage && 0 <= e.damage
  {
    assert TxOk(s, s.db.log[k].tx) && CallOk(s.calls[s.db.log[k].tx]);
  }

  /** HP is never below what all enqueued damage would leave, nor above what the acknowledged damage alone leaves. */
  lemma HpBounds(s: State, start: map<Player, int>, p: Player)
    requires Reachable(s, start) && 0 <= HpIn(start, p)
    ensures Hit(HpIn(start, p), Sum(Enqueued(s, p), |s.calls|)) <= HpIn(s.db.rows, p)
    ensures HpIn(s.db.rows, p) <= Hit(HpIn(start, p), Sum(Acknowledged(s, p), |s.calls|))
  {
    ReachableInv(s, start);
    var log := s.db.log;
    forall k: nat | k < |log|
      ensures log[k].tx < |s.calls| && s.calls[log[k].tx].player == log[k].player
      ensures s.calls[log[k].tx].damage == log[k].damage && 0 <= log[k].damage
    {
      LogEntryIsCall(s, start, k);
    }
    LogTotalByCall(s, log, p);
    forall c: nat | c < |s.calls|
      ensures Acknowledged(s, p)(c) <= Applied(s, log, p)(c) <= Enqueued(s, p)(c)
    {
      DamageIsAccounted(s, start, p, c);
    }
    SumMonotone(Acknowledged(s, p), Applied(s, log, p), |s.calls|);
    SumMonotone(Applied(s, log, p), Enqueued(s, p), |s.calls|);
    assert RL.RowIsHistory(s.db, start, p);
    RL.DamagesOfNonNegative(log, p);
    HitAllClampsOnce(HpIn(start, p), RL.DamagesOf(log, p));
  }

  // ---- Draining ----

  function ClientRank(client: Client): nat {
    match client
    case Arrived => 3
    case Enqueueing => 2
    case Awaiting => 1
    case Returned(_) => 0
  }

  function TxRank(phase: RL.Phase): nat {
    match phase
    case Begun => 5
    case SawNoRow => 4
    case Holding(_, _) => 3
    case Updated(_, _) => 2
    case Finished(_) => 1
  }

  /** Steps a call may still take part in: its caller's, and its envelope's through queue, transaction and reply. */
  function Rank(s: State, c: CallId): nat {
    if c >= |s.calls| then 0
    else
      var call := s.calls[c];
      ClientRank(call.client) + (if call.ended then 0 else 1) +
      match call.work
      case Unsent => if call.client.Returned? then 0 else 8
      case Queued => 7
      case InService(_) => if c in s.db.txs then TxRank(s.db.txs[c].phase) else 6
      case Replied => 0
  }

  function Measure(s: State): int {
    Sum((c: nat) => Rank(s, c), |s.calls|)
  }

  /** Nothing left to do: every caller has returned and every envelope sent has been answered. */
  predicate Settled(s: State) {
    forall c | 0 <= c < |s.calls| ::
      s.calls[c].client.Returned? && (s.calls[c].work.Unsent? || s.calls[c].work.Replied?)
  }

  lemma StatementLowersTxRank(db: RL.Db, st: RL.Statement)
    requires RL.Enabled(db, st)
    ensures st.t in RL.Step(db, st).txs
    ensures TxRank(RL.Step(db, st).txs[st.t].phase) < if st.t in db.txs then TxRank(db.txs[st.t].phase) else 6
  {
  }

  lemma StatementLowersRank(s: State, w: nat, st: RL.Statement)
    requires Enabled(s, Repo(w, st)) && WorkerOk(s, w)
    ensures Rank(Step(s, Repo(w, st)), st.t) < Rank(s, st.t)
  {
    StatementLowersTxRank(s.db, st);
  }

  lemma StepLowersRank(s: State, a: Action)
    requires Enabled(s, a) && ActorOk(s, a) && !a.Invoke? && CallOf(s, a) < |s.calls|
    requires CallOk(s.calls[CallOf(s, a)]) && TxOk(s, CallOf(s, a))
    ensures Rank(Step(s, a), CallOf(s, a)) < Rank(s, CallOf(s, a))
  {
    if a.Repo? { StatementLowersRank(s, a.w, a.s); }
  }

  lemma StepKeepsOtherRanks(s: State, a: Action, e: CallId)
    requires Enabled(s, a) && e < |s.calls| && e != CallOf(s, a)
    ensures Rank(Step(s, a), e) == Rank(s, e)
  {
    StepFrame(s, a);
    if a.Repo? { RL.StatementFrame(s.db, a.s); }
  }

  lemma StepLowersMeasure(s: State, a: Action, start: map<Player, int>)
    requires Inv(s, start) && Enabled(s, a) && !a.Invoke?
    ensures Measure(Step(s, a)) < Measure(s)
  {
    var s' := Step(s, a);
    StructureGivesActor(s, a);
    assert CallOk(s.calls[CallOf(s, a)]) && TxOk(s, CallOf(s, a));
    StepLowersRank(s, a);
    StepFrame(s, a);
    forall e: nat | e < |s.calls| && e != CallOf(s, a) ensures Rank(s', e) == Rank(s, e) {
      StepKeepsOtherRanks(s, a, e);
    }
    SumChanges((c: nat) => Rank(s, c), (c: nat) => Rank(s', c), |s.calls|, CallOf(s, a));
  }

  lemma {:induction false} RunLowersMeasure(s: State, run: seq<Action>, start: map<Player, int>)
    requires Inv(s, start) && ValidRun(s, run) && (forall k | 0 <= k < |run| :: !run[k].Invoke?)
    ensures |run| + Measure(Exec(s, run)) <= Measure(s)
    decreases |run|
  {
    if run != [] {
      StepKeepsInv(s, run[0], start);
      StepLowersMeasure(s, run[0], start);
      RunLowersMeasure(Step(s, run[0]), run[1..], start);
    }
  }

  lemma {:induction false} MeasureBounds(s: State, n: nat)
    ensures 0 <= Sum((c: nat) => Rank(s, c), n) <= 12 * n
  {
    if n > 0 { MeasureBounds(s, n - 1); }
  }

  lemma NextIsProgram(s: State, w: nat)
    requires Busy(s, w)
    ensures !IsEnvironment(s, NextAction(s, w))
  {
  }

  lemma IdleCanTake(s: State, w: nat)
    requires w < |s.workers| && s.workers[w].job.None? && s.workers[w].player in s.queues
    requires QueueOk(s, s.workers[w].player) && s.queues[s.workers[w].player] != []
    ensures Enabled(s, Take(w)) && !IsEnvironment(s, Take(w))
  {
  }

  /** A worker with something to serve can act, and no giving up and no fault is needed for it. */
  lemma WorkerCanAct(s: State, start: map<Player, int>, w: nat)
    requires Inv(s, start) && w < |s.workers|
    requires s.workers[w].job.Some? || s.queues[s.workers[w].player] != []
    ensures exists a :: Enabled(s, a) && !IsEnvironment(s, a)
  {
    hide Enabled, IsEnvironment, NextAction, Table, Time;
    assert WorkerOk(s, w) && QueueOk(s, s.workers[w].player);
    if s.workers[w].job.Some? {
      NextIsEnabled(s, start, w);
      NextIsProgram(s, w);
    } else {
      IdleCanTake(s, w);
    }
  }

  lemma QueueCanAct(s: State, start: map<Player, int>, p: Player)
    requires Inv(s, start) && p in s.queues && s.queues[p] != []
    ensures exists a :: Enabled(s, a) && !IsEnvironment(s, a)
  {
    assert HasWorker(s, p);
    var w :| 0 <= w < |s.workers| && s.workers[w].player == p;
    WorkerCanAct(s, start, w);
  }

  /** No reachable state is stuck: while work remains, the program itself can take a step. */
  lemma Progress(s: State, start: map<Player, int>)
    requires Reachable(s, start) && !Settled(s)
    ensures exists a :: Enabled(s, a) && !IsEnvironment(s, a)
  {
    ReachableInv(s, start);
    var c :| 0 <= c < |s.calls| &&
      !(s.calls[c].client.Returned? && (s.calls[c].work.Unsent? || s.calls[c].work.Replied?));
    var call := s.calls[c];
    assert CallOk(call) && Placed(s, c);
    if call.work.Queued? {
      QueueCanAct(s, start, call.player);
    } else if call.work.InService? {
      WorkerCanAct(s, start, call.work.worker);
    } else {
      match call.client
      case Arrived => assert Enabled(s, Locate(c)) && !IsEnvironment(s, Locate(c));
      case Enqueueing =>
        if |s.queues[call.player]| < QUEUE_CAPACITY {
          assert Enabled(s, Send(c)) && !IsEnvironment(s, Send(c));
        } else {
          QueueCanAct(s, start, call.player);
        }
      case Awaiting => assert Enabled(s, Receive(c)) && !IsEnvironment(s, Receive(c));
      case Returned(_) => assert false;
    }
  }

  /**
   Every run drains: from a reachable state with n calls, no sequence of steps without new calls is longer than 12 n,
   and one that cannot be extended by the program itself has settled with no queued request, no open transaction and
   no row lock.
  */
  lemma EveryRunDrains(s: State, run: seq<Action>, start: map<Player, int>)
    requires Reachable(s, start) && ValidRun(s, run) && (forall k | 0 <= k < |run| :: !run[k].Invoke?)
    ensures |run| <= 12 * |s.calls|
    ensures var last := Exec(s, run);
      (forall a :: Enabled(last, a) ==> IsEnvironment(last, a)) ==>
        && Settled(last)
        && (forall p | p in last.queues :: last.queues[p] == [])
        && (forall t | t in last.db.txs :: last.db.txs[t].phase.Finished?)
        && last.db.locks == map[]
  {
    ReachableInv(s, start);
    RunLowersMeasure(s, run, start);
    RunKeepsInv(s, run, start);
    var last := Exec(s, run);
    MeasureBounds(s, |s.calls|);
    MeasureBounds(last, |last.calls|);
    if forall a :: Enabled(last, a) ==> IsEnvironment(last, a) {
      ReachRun(s, run, start);
      if !Settled(last) { Progress(last, start); }
      SettledIsClean(last, start);
    }
  }

  lemma QueueHead(s: State, p: Player)
    requires p in s.queues && QueueOk(s, p) && s.queues[p] != []
    ensures s.queues[p][0] < |s.calls| && s.calls[s.queues[p][0]].work == Queued
  {
  }

  lemma SettledIsClean(s: State, start: map<Player, int>)
    requires Inv(s, start) && Settled(s)
    ensures forall p | p in s.queues :: s.queues[p] == []
    ensures forall t | t in s.db.txs :: s.db.txs[t].phase.Finished?
    ensures s.db.locks == map[]
  {
    forall p | p in s.queues ensures s.queues[p] == [] {
      assert QueueOk(s, p);
      if s.queues[p] != [] {
        QueueHead(s, p);
        assert false;
      }
    }
    forall t | t in s.db.txs ensures s.db.txs[t].phase.Finished? {
      assert TxOk(s, t);
    }
  }

  lemma {:induction false} ReachRun(s: State, run: seq<Action>, start: map<Player, int>)
    requires Reachable(s, start) && ValidRun(s, run)
    ensures Reachable(Exec(s, run), start)
    decreases |run|
  {
    if run != [] {
      var s' := Reach(s, start, run[0]);
      ReachRun(s', run[1..], start);
    }
  }

  // ---- One worker on its own ----

  lemma WorkerPlayerHasQueue(s: State, start: map<Player, int>, w: nat)
    requires Reachable(s, start) && w < |s.workers|
    ensures s.workers[w].player in s.queues
    ensures s.workers[w].job.Some? ==> Busy(s, w)
  {
    ReachableInv(s, start);
    assert WorkerOk(s, w);
  }

  lemma HeadIsCall(s: State, start: map<Player, int>, w: nat)
    requires Reachable(s, start) && w < |s.workers| && s.workers[w].job.None?
    requires s.workers[w].player in s.queues && s.queues[s.workers[w].player] != []
    ensures Enabled(s, Take(w))
  {
    ReachableInv(s, start);
    QueueHead(s, s.workers[w].player);
  }

  /** An idle worker with an empty channel has answered everything ever sent to its player. */
  lemma IdleWorkerIsDone(s: State, start: map<Player, int>, w: nat)
    requires Reachable(s, start) && w < |s.workers| && s.workers[w].job.None?
    requires s.workers[w].player in s.queues && s.queues[s.workers[w].player] == []
    ensures forall c | 0 <= c < |s.calls| && s.calls[c].player == s.workers[w].player ::
              s.calls[c].work.Unsent? || s.calls[c].work.Replied?
  {
    ReachableInv(s, start);
    forall c | 0 <= c < |s.calls| && s.calls[c].player == s.workers[w].player
      ensures s.calls[c].work.Unsent? || s.calls[c].work.Replied?
    {
      assert Placed(s, c);
    }
  }

  // ---- Against V1 ----

  /** V1 transactions and V2 calls that committed the same damages, in whatever orders, leave the same HP. */
  lemma SameHpAsNaive(s: State, run: seq<RL.Statement>, start: map<Player, int>, p: Player)
    requires Reachable(s, start) && RL.ValidRun(RL.Init(start), run)
    requires multiset(RL.DamagesOf(RL.Exec(RL.Init(start), run).log, p)) == multiset(RL.DamagesOf(s.db.log, p))
    ensures HpIn(RL.Exec(RL.Init(start), run).rows, p) == HpIn(s.db.rows, p)
  {
    ReachableInv(s, start);
    var naive := RL.Exec(RL.Init(start), run);
    RL.Serializable(run, start);
    forall k | 0 <= k < |s.db.log| ensures 0 <= s.db.log[k].damage {
      assert TxOk(s, s.db.log[k].tx) && CallOk(s.calls[s.db.log[k].tx]);
    }
    assert RL.RowIsHistory(s.db, start, p) && RL.RowIsHistory(naive, start, p);
    RL.DamagesOfNonNegative(s.db.log, p);
    HitOrderIrrelevant(HpIn(start, p), RL.DamagesOf(s.db.log, p), RL.DamagesOf(naive.log, p));
  }
}
