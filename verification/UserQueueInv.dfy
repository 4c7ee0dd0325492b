/** What every step of V2UserQueue keeps. */
module UserQueueInv {
  import opened BattleDomain
  import opened Options
  import opened UserQueue
  import RL = RowLock

  // ---- Channels and workers ----

  /** One channel and one worker per player, created together. */
  ghost predicate OneWorkerPerPlayer(s: State) {
    && (forall v, w | 0 <= v < w < |s.workers| :: s.workers[v].player != s.workers[w].player)
    && (forall w | 0 <= w < |s.workers| :: s.workers[w].player in s.queues)
    && (forall p | p in s.queues :: HasWorker(s, p))
  }

  ghost predicate HasWorker(s: State, p: Player) {
    exists w :: 0 <= w < |s.workers| && s.workers[w].player == p
  }

  ghost predicate QueueOk(s: State, p: Player)
    requires p in s.queues
  {
    var q := s.queues[p];
    && |q| <= QUEUE_CAPACITY
    && (forall k | 0 <= k < |q| :: q[k] < |s.calls| && s.calls[q[k]].player == p && s.calls[q[k]].work == Queued)
    && (forall k, l | 0 <= k < l < |q| :: s.calls[q[k]].sentAt < s.calls[q[l]].sentAt)
  }

  ghost predicate WorkerOk(s: State, w: nat)
    requires w < |s.workers|
  {
    var worker := s.workers[w];
    worker.job.Some? ==>
      && worker.job.value < |s.calls|
      && s.calls[worker.job.value].player == worker.player
      && s.calls[worker.job.value].work == InService(w)
  }

  // ---- Calls ----

  /** Caller, envelope and reply channel tell one story. */
  predicate CallOk(call: Call) {
    && (call.client.Arrived? || call.client.Enqueueing? ==> call.work.Unsent? && ValidDamage(call.damage))
    && (call.client.Awaiting? ==> !call.work.Unsent?)
    && (call.client.Returned?
       ==> (call.client.outcome.InvalidDamage? || call.client.outcome.EnqueueError? <==> call.work.Unsent?))
    && (!call.work.Replied? ==> call.reply.None?)
    && (call.client.Awaiting? && call.work.Replied? ==> call.reply.Some?)
    && (call.client.Returned? && (call.client.outcome.Damaged? || call.client.outcome.RepoError?)
       ==> call.work.Replied?)
    && (call.client.Returned? && call.client.outcome.InvalidDamage? <==> !ValidDamage(call.damage))
    && (call.client.Returned? && (call.client.outcome.EnqueueError? || call.client.outcome.AwaitError?) ==> call.ended)
  }

  /** Where a call's envelope is. */
  ghost predicate Placed(s: State, c: CallId)
    requires c < |s.calls|
  {
    var call := s.calls[c];
    && (call.client.Enqueueing? || !call.work.Unsent? ==> call.player in s.queues)
    && (call.work.Queued? ==> call.player in s.queues && c in s.queues[call.player])
    && (call.work.InService?
       ==> call.work.worker < |s.workers| && s.workers[call.work.worker] == Worker(call.player, Some(c)))
  }

  /** A call and its transaction: none before service, finished after the reply, and the reply carries its result. */
  ghost predicate TxOk(s: State, c: CallId)
    requires c < |s.calls|
  {
    var call := s.calls[c];
    && (c in s.db.txs ==>
          && s.db.txs[c].player == call.player
          && s.db.txs[c].damage == call.damage
          && (call.work.InService? || (call.work.Replied? && s.db.txs[c].phase.Finished?))
          && (s.db.txs[c].phase.SawNoRow? ==> call.player !in s.db.rows))
    && (call.work.Replied? ==> c in s.db.txs && s.db.txs[c].phase.Finished?)
    && (call.reply.Some? ==> c in s.db.txs && s.db.txs[c].phase == RL.Finished(call.reply.value))
    && (call.client.Returned? && (call.client.outcome.Damaged? || call.client.outcome.RepoError?) ==>
          c in s.db.txs && s.db.txs[c].phase.Finished? && OutcomeOf(s.db.txs[c].phase.result) == call.client.outcome)
  }

  // ---- Time ----

  ghost predicate StampsOk(s: State, c: CallId)
    requires c < |s.calls|
  {
    var call := s.calls[c];
    && call.invokedAt < s.clock
    && (!call.work.Unsent? ==> call.invokedAt < call.sentAt < s.clock)
    && (call.client.Returned? ==> call.returnedAt < s.clock)
    && (RL.Logged(s.db.log, c) ==> call.sentAt < call.appliedAt < s.clock)
    && (RL.Logged(s.db.log, c) && call.client.Returned? && call.client.outcome.Damaged? ==>
          call.appliedAt < call.returnedAt)
  }

  /** First sent, first served: an earlier request is at least as far along. */
  ghost predicate Fifo(s: State) {
    forall c, e | 0 <= c < |s.calls| && 0 <= e < |s.calls| && c != e :: FifoPair(s.calls[c], s.calls[e])
  }

  predicate FifoPair(c: Call, e: Call) {
    c.player == e.player && !c.work.Unsent? && !e.work.Unsent? ==>
      && c.sentAt != e.sentAt
      && (c.sentAt < e.sentAt ==> c.work.Order() <= e.work.Order())
  }

  /** The log is in commit order, and per player in send order. */
  ghost predicate LogOrdered(s: State) {
    && (forall k | 0 <= k < |s.db.log| :: s.db.log[k].tx < |s.calls|)
    && (forall k, l | 0 <= k < l < |s.db.log| :: LogPair(s, s.db.log[k], s.db.log[l]))
  }

  predicate LogPair(s: State, a: RL.Committed, b: RL.Committed) {
    a.tx < |s.calls| && b.tx < |s.calls| ==>
      && s.calls[a.tx].appliedAt < s.calls[b.tx].appliedAt
      && (a.player == b.player ==> s.calls[a.tx].sentAt < s.calls[b.tx].sentAt)
  }

  // ---- The invariant ----

  ghost predicate Structure(s: State) {
    && OneWorkerPerPlayer(s)
    && (forall p | p in s.queues :: QueueOk(s, p))
    && (forall w: nat | w < |s.workers| :: WorkerOk(s, w))
    && (forall c: CallId | c < |s.calls| :: CallOk(s.calls[c]))
    && (forall c: CallId | c < |s.calls| :: Placed(s, c))
  }

  ghost predicate Table(s: State, start: map<Player, int>) {
    && RL.Inv(s.db, start)
    && (forall t | t in s.db.txs :: t < |s.calls|)
    && (forall c: CallId | c < |s.calls| :: TxOk(s, c))
  }

  ghost predicate Time(s: State) {
    && (forall c: CallId | c < |s.calls| :: StampsOk(s, c))
    && Fifo(s)
    && LogOrdered(s)
  }

  ghost predicate Inv(s: State, start: map<Player, int>) {
    Structure(s) && Table(s, start) && Time(s)
  }

  lemma InitInv(start: map<Player, int>, ctxAware: bool)
    ensures Inv(Init(start, ctxAware), start)
  {
    RL.InitInv(start);
  }

  /** No two workers serve one player, so a call in service is the only one of its player. */
  lemma SoleInService(s: State, c: CallId, e: CallId)
    requires Structure(s)
    requires c < |s.calls| && e < |s.calls| && s.calls[c].work.InService? && s.calls[e].work.InService?
    requires s.calls[c].player == s.calls[e].player
    ensures c == e
  {
    assert Placed(s, c) && Placed(s, e);
  }

  // ---- Structure is kept ----

  lemma StepKeepsWorkers(s: State, a: Action)
    requires OneWorkerPerPlayer(s) && Enabled(s, a)
    ensures OneWorkerPerPlayer(Step(s, a))
  {
    var s' := Step(s, a);
    forall w | 0 <= w < |s.workers| ensures w < |s'.workers| && s'.workers[w].player == s.workers[w].player {
    }
    forall q | q in s'.queues ensures HasWorker(s', q) {
      if q in s.queues {
        assert HasWorker(s, q);
        var w :| 0 <= w < |s.workers| && s.workers[w].player == q;
        assert s'.workers[w].player == q;
      } else {
        assert s'.workers[|s.workers|].player == q;
      }
    }
    forall w | 0 <= w < |s.workers| ensures HasWorker(s, s.workers[w].player) {
    }
  }

  lemma StepKeepsCallOk(s: State, a: Action, e: CallId)
    requires Enabled(s, a) && ActorOk(s, a) && e < |Step(s, a).calls|
    requires e < |s.calls| ==> CallOk(s.calls[e])
    ensures CallOk(Step(s, a).calls[e])
  {
  }

  /** The parts of the structure that say where envelopes are. */
  ghost predicate Positions(s: State) {
    && (forall p | p in s.queues :: QueueOk(s, p))
    && (forall w: nat | w < |s.workers| :: WorkerOk(s, w))
    && (forall c: CallId | c < |s.calls| :: Placed(s, c))
  }

  lemma InvokeKeepsPositions(s: State, p: Player, d: int)
    requires Structure(s)
    ensures Positions(Step(s, Invoke(p, d)))
  {
    var s' := Step(s, Invoke(p, d));
    forall q | q in s'.queues ensures QueueOk(s', q) { assert QueueOk(s, q); }
    forall w: nat | w < |s'.workers| ensures WorkerOk(s', w) { assert WorkerOk(s, w); }
    forall c: CallId | c < |s'.calls| ensures Placed(s', c) {
      if c < |s.calls| { assert Placed(s, c); }
    }
  }

  lemma LocateKeepsPositions(s: State, c: CallId)
    requires Structure(s) && Enabled(s, Locate(c))
    ensures Positions(Step(s, Locate(c)))
  {
    var s' := Step(s, Locate(c));
    assert CallOk(s.calls[c]);
    forall q | q in s'.queues ensures QueueOk(s', q) { if q in s.queues { assert QueueOk(s, q); } }
    forall w: nat | w < |s'.workers| ensures WorkerOk(s', w) { if w < |s.workers| { assert WorkerOk(s, w); } }
    forall e: CallId | e < |s'.calls| ensures Placed(s', e) { assert Placed(s, e); }
  }

  lemma SendKeepsQueue(s: State, c: CallId, q: Player)
    requires Enabled(s, Send(c)) && q in s.queues && QueueOk(s, q) && CallOk(s.calls[c])
    requires forall e: CallId | e < |s.calls| :: StampsOk(s, e)
    ensures QueueOk(Step(s, Send(c)), q)
  {
    if q == s.calls[c].player {
      forall k | 0 <= k < |s.queues[q]| ensures s.calls[s.queues[q][k]].sentAt < s.clock {
        assert StampsOk(s, s.queues[q][k]);
      }
    }
  }

  lemma SendKeepsPositions(s: State, c: CallId)
    requires Structure(s) && Enabled(s, Send(c)) && (forall e: CallId | e < |s.calls| :: StampsOk(s, e))
    ensures Positions(Step(s, Send(c)))
  {
    var s' := Step(s, Send(c));
    var p := s.calls[c].player;
    assert CallOk(s.calls[c]);
    forall q | q in s'.queues ensures QueueOk(s', q) {
      assert QueueOk(s, q);
      SendKeepsQueue(s, c, q);
    }
    forall w: nat | w < |s'.workers| ensures WorkerOk(s', w) { assert WorkerOk(s, w); }
    forall e: CallId | e < |s'.calls| ensures Placed(s', e) {
      assert Placed(s, e);
      if e == c { assert s'.queues[p][|s.queues[p]|] == c; }
    }
  }

  lemma TakeKeepsQueue(s: State, w: nat, q: Player)
    requires Enabled(s, Take(w)) && q in s.queues && QueueOk(s, q) && QueueOk(s, s.workers[w].player)
    ensures QueueOk(Step(s, Take(w)), q)
  {
    var p := s.workers[w].player;
    if q == p {
      var rest := Step(s, Take(w)).queues[p];
      forall k | 0 <= k < |rest| ensures rest[k] == s.queues[p][k + 1] != s.queues[p][0] {
        assert s.calls[s.queues[p][0]].sentAt < s.calls[s.queues[p][k + 1]].sentAt;
      }
    }
  }

  lemma TakeKeepsPositions(s: State, w: nat)
    requires Structure(s) && Enabled(s, Take(w))
    ensures Positions(Step(s, Take(w)))
  {
    hide CallOk, OneWorkerPerPlayer;
    var s' := Step(s, Take(w));
    var p := s.workers[w].player;
    var c := s.queues[p][0];
    assert QueueOk(s, p);
    forall q | q in s'.queues ensures QueueOk(s', q) {
      assert QueueOk(s, q);
      TakeKeepsQueue(s, w, q);
    }
    forall v: nat | v < |s'.workers| ensures WorkerOk(s', v) { assert WorkerOk(s, v); }
    forall e: CallId | e < |s'.calls| ensures Placed(s', e) {
      assert Placed(s, e);
      if e != c && s.calls[e].work.Queued? && s.calls[e].player == p {
        var k :| 0 <= k < |s.queues[p]| && s.queues[p][k] == e;
        assert s'.queues[p][k - 1] == e;
      }
    }
  }

  lemma ReplyKeepsPositions(s: State, w: nat)
    requires Structure(s) && Enabled(s, Reply(w))
    ensures Positions(Step(s, Reply(w)))
  {
    hide CallOk, OneWorkerPerPlayer;
    var s' := Step(s, Reply(w));
    assert WorkerOk(s, w);
    forall q | q in s'.queues ensures QueueOk(s', q) { assert QueueOk(s, q); }
    forall v: nat | v < |s'.workers| ensures WorkerOk(s', v) { assert WorkerOk(s, v); }
    forall e: CallId | e < |s'.calls| ensures Placed(s', e) { assert Placed(s, e); }
  }

  /** Steps that touch one call's caller side or its transaction only. */
  lemma CallerStepKeepsPositions(s: State, a: Action)
    requires Structure(s) && Enabled(s, a)
    requires a.End? || a.CancelEnqueue? || a.Repo? || a.Receive? || a.CancelAwait?
    ensures Positions(Step(s, a))
  {
    var s' := Step(s, a);
    assert s'.queues == s.queues && s'.workers == s.workers && |s'.calls| == |s.calls|;
    forall e: CallId | e < |s.calls| ensures SamePlace(s.calls[e], s'.calls[e]) { assert CallOk(s.calls[e]); }
    forall q | q in s'.queues ensures QueueOk(s', q) { assert QueueOk(s, q); }
    forall v: nat | v < |s'.workers| ensures WorkerOk(s', v) { assert WorkerOk(s, v); }
    forall e: CallId | e < |s'.calls|
      ensures Placed(s', e) { assert Placed(s, e) && SamePlace(s.calls[e], s'.calls[e]); }
  }

  predicate SamePlace(c: Call, d: Call) {
    d.player == c.player && d.work == c.work && d.sentAt == c.sentAt && (d.client.Enqueueing? ==> c.client.Enqueueing?)
  }

  lemma StepKeepsStructure(s: State, a: Action)
    requires Structure(s) && Enabled(s, a) && (forall e: CallId | e < |s.calls| :: StampsOk(s, e))
    ensures Structure(Step(s, a))
  {
    StepKeepsWorkers(s, a);
    StructureGivesActor(s, a);
    forall e: CallId | e < |Step(s, a).calls| ensures CallOk(Step(s, a).calls[e]) { StepKeepsCallOk(s, a, e); }
    match a
    case Invoke(p, d) => InvokeKeepsPositions(s, p, d);
    case Locate(c) => LocateKeepsPositions(s, c);
    case Send(c) => SendKeepsPositions(s, c);
    case Take(w) => TakeKeepsPositions(s, w);
    case Reply(w) => ReplyKeepsPositions(s, w);
    case _ => CallerStepKeepsPositions(s, a);
  }

  // ---- The table is kept ----

  /** Only the call in service can have an unfinished transaction of its player. */
  lemma SoleTransaction(s: State, start: map<Player, int>, c: CallId, t: RL.TxId)
    requires Structure(s) && Table(s, start)
    requires c < |s.calls| && s.calls[c].work.InService?
    requires t in s.db.txs && !s.db.txs[t].phase.Finished? && s.db.txs[t].player == s.calls[c].player
    ensures t == c
  {
    assert TxOk(s, t);
    SoleInService(s, c, t);
  }

  lemma RepoKeepsOtherTx(s: State, w: nat, st: RL.Statement, start: map<Player, int>, e: CallId)
    requires Structure(s) && Table(s, start) && Enabled(s, Repo(w, st)) && e < |s.calls| && e != st.t
    ensures TxOk(Step(s, Repo(w, st)), e)
  {
    assert WorkerOk(s, w);
    assert TxOk(s, e) && CallOk(s.calls[e]) && TxOk(s, st.t);
    RL.StatementFrame(s.db, st);
    if e in s.db.txs && s.db.txs[e].phase.SawNoRow? && s.calls[e].player == s.calls[st.t].player {
      SoleTransaction(s, start, st.t, e);
    }
  }

  lemma RepoKeepsOwnTx(s: State, w: nat, st: RL.Statement, start: map<Player, int>)
    requires Structure(s) && Table(s, start) && Enabled(s, Repo(w, st))
    ensures st.t < |s.calls| && TxOk(Step(s, Repo(w, st)), st.t)
  {
    assert WorkerOk(s, w);
    assert TxOk(s, st.t) && CallOk(s.calls[st.t]);
  }

  lemma RepoKeepsTable(s: State, w: nat, st: RL.Statement, start: map<Player, int>)
    requires Structure(s) && Table(s, start) && Enabled(s, Repo(w, st))
    ensures Table(Step(s, Repo(w, st)), start)
  {
    var s' := Step(s, Repo(w, st));
    RL.StepKeepsInv(s.db, st, start);
    RepoKeepsOwnTx(s, w, st, start);
    RL.StatementFrame(s.db, st);
    forall e: CallId | e < |s'.calls| ensures TxOk(s', e) {
      if e != st.t { RepoKeepsOtherTx(s, w, st, start, e); }
    }
  }

  /** The worker of an action knows its call, and the head of a queue is a queued call. */
  ghost predicate ActorOk(s: State, a: Action)
    requires Enabled(s, a)
  {
    && (a.Reply? || a.Repo? ==> WorkerOk(s, a.w))
    && (a.Take? ==> QueueOk(s, s.workers[a.w].player))
  }

  lemma StructureGivesActor(s: State, a: Action)
    requires Structure(s) && Enabled(s, a)
    ensures ActorOk(s, a)
  {
  }

  lemma OtherStepKeepsTx(s: State, a: Action, e: CallId)
    requires Enabled(s, a) && ActorOk(s, a) && !a.Repo? && e < |s.calls| && TxOk(s, e) && CallOk(s.calls[e])
    ensures TxOk(Step(s, a), e)
  {
    StepFrame(s, a);
    assert Step(s, a).db == s.db;
  }

  lemma OtherStepKeepsTable(s: State, a: Action, start: map<Player, int>)
    requires Structure(s) && Table(s, start) && Enabled(s, a) && !a.Repo?
    ensures Table(Step(s, a), start)
  {
    var s' := Step(s, a);
    StructureGivesActor(s, a);
    forall e: CallId | e < |s'.calls| ensures TxOk(s', e) {
      if e < |s.calls| { OtherStepKeepsTx(s, a, e); }
    }
  }

  lemma StepKeepsTable(s: State, a: Action, start: map<Player, int>)
    requires Structure(s) && Table(s, start) && Enabled(s, a)
    ensures Table(Step(s, a), start)
  {
    if a.Repo? {
      RepoKeepsTable(s, a.w, a.s, start);
    } else {
      OtherStepKeepsTable(s, a, start);
    }
  }

  // ---- Time is kept ----

  /** The one call an action moves. */
  function CallOf(s: State, a: Action): CallId
    requires Enabled(s, a)
  {
    match a
    case Invoke(_, _) => |s.calls|
    case Take(w) => s.queues[s.workers[w].player][0]
    case Repo(w, _) => s.workers[w].job.value
    case Reply(w) => s.workers[w].job.value
    case _ => a.c
  }

  predicate IsCommit(a: Action) {
    a.Repo? && (a.s.Commit? || a.s.CommitUnacknowledged?)
  }

  lemma StepFrame(s: State, a: Action)
    requires Enabled(s, a)
    ensures Step(s, a).clock == s.clock + 1
    ensures |Step(s, a).calls| == if a.Invoke? then |s.calls| + 1 else |s.calls|
    ensures forall e | 0 <= e < |s.calls| && e != CallOf(s, a) :: Step(s, a).calls[e] == s.calls[e]
  {
  }

  lemma StepLog(s: State, a: Action, c: CallId)
    requires Enabled(s, a)
    ensures RL.Logged(Step(s, a).db.log, c) ==> RL.Logged(s.db.log, c) || (IsCommit(a) && c == CallOf(s, a))
  {
    var s' := Step(s, a);
    if RL.Logged(s'.db.log, c) {
      var k :| 0 <= k < |s'.db.log| && s'.db.log[k].tx == c;
      if k < |s.db.log| { assert s.db.log[k].tx == c; }
    }
  }

  lemma StampsOfSubject(s: State, a: Action)
    requires Enabled(s, a) && ActorOk(s, a) && !a.Invoke? && CallOf(s, a) < |s.calls|
    requires StampsOk(s, CallOf(s, a)) && CallOk(s.calls[CallOf(s, a)])
    requires RL.Logged(s.db.log, CallOf(s, a)) ==> !s.calls[CallOf(s, a)].work.Unsent?
    ensures StampsOk(Step(s, a), CallOf(s, a))
  {
    StepLog(s, a, CallOf(s, a));
  }

  lemma StampsOfNew(s: State, p: Player, d: int, start: map<Player, int>)
    requires Inv(s, start)
    ensures StampsOk(Step(s, Invoke(p, d)), |s.calls|)
  {
    assert forall k | 0 <= k < |s.db.log| :: s.db.log[k].tx < |s.calls|;
  }

  lemma StepKeepsStamps(s: State, a: Action, start: map<Player, int>)
    requires Inv(s, start) && Enabled(s, a)
    ensures forall c: CallId | c < |Step(s, a).calls| :: StampsOk(Step(s, a), c)
  {
    StepFrame(s, a);
    forall c: CallId | c < |Step(s, a).calls| ensures StampsOk(Step(s, a), c) {
      if c == CallOf(s, a) {
        StructureGivesActor(s, a);
        if !a.Invoke? { assert TxOk(s, c); }
        if a.Invoke? { StampsOfNew(s, a.player, a.damage, start); } else { StampsOfSubject(s, a); }
      } else {
        StepLog(s, a, c);
        assert StampsOk(s, c);
      }
    }
  }

  /** The pair of the moved call and any other. */
  lemma FifoOfSubject(s: State, a: Action, e: CallId)
    requires Structure(s) && Enabled(s, a) && !a.Invoke? && e < |s.calls| && e != CallOf(s, a)
    requires CallOf(s, a) < |s.calls| && StampsOk(s, e)
    requires FifoPair(s.calls[CallOf(s, a)], s.calls[e]) && FifoPair(s.calls[e], s.calls[CallOf(s, a)])
    ensures FifoPair(Step(s, a).calls[CallOf(s, a)], s.calls[e])
    ensures FifoPair(s.calls[e], Step(s, a).calls[CallOf(s, a)])
  {
    hide CallOk, Placed, OneWorkerPerPlayer;
    var c := CallOf(s, a);
    match a
    case Take(w) =>
      assert QueueOk(s, s.workers[w].player);
      HeadIsFirst(s, w, e);
    case Reply(w) =>
      assert WorkerOk(s, w);
      if s.calls[e].work.InService? && s.calls[e].player == s.calls[c].player { SoleInService(s, c, e); }
    case _ =>
  }

  lemma StepKeepsFifo(s: State, a: Action, start: map<Player, int>)
    requires Inv(s, start) && Enabled(s, a)
    ensures Fifo(Step(s, a))
  {
    var s' := Step(s, a);
    StepFrame(s, a);
    forall c, e | 0 <= c < |s'.calls| && 0 <= e < |s'.calls| && c != e ensures FifoPair(s'.calls[c], s'.calls[e]) {
      var m := CallOf(s, a);
      if c != m && e != m {
        assert FifoPair(s.calls[c], s.calls[e]);
      } else if !a.Invoke? {
        var other := if c == m then e else c;
        assert StampsOk(s, other) && FifoPair(s.calls[m], s.calls[other]) && FifoPair(s.calls[other], s.calls[m]);
        FifoOfSubject(s, a, other);
      }
    }
  }

  /** The head of a queue was sent before every other queued call of its player. */
  lemma HeadIsFirst(s: State, w: nat, e: CallId)
    requires Structure(s) && Enabled(s, Take(w)) && e < |s.calls|
    ensures var head := s.queues[s.workers[w].player][0];
      e != head && s.calls[e].player == s.workers[w].player && s.calls[e].work.Queued? ==>
        s.calls[head].sentAt < s.calls[e].sentAt
  {
    var q := s.queues[s.workers[w].player];
    assert QueueOk(s, s.workers[w].player) && Placed(s, e);
    if e != q[0] && s.calls[e].player == s.workers[w].player && s.calls[e].work.Queued? {
      var k :| 0 <= k < |q| && q[k] == e;
    }
  }

  /** A commit comes after every logged commit, and after every logged send of its player. */
  lemma CommitComesLast(s: State, w: nat, st: RL.Statement, start: map<Player, int>, k: nat)
    requires Inv(s, start) && Enabled(s, Repo(w, st)) && (st.Commit? || st.CommitUnacknowledged?) && k < |s.db.log|
    ensures s.db.log[k].tx < |s.calls| && s.db.log[k].tx != st.t
    ensures s.calls[s.db.log[k].tx].appliedAt < s.clock
    ensures s.db.log[k].player == s.calls[st.t].player ==> s.calls[s.db.log[k].tx].sentAt < s.calls[st.t].sentAt
  {
    var c := st.t;
    var e := s.db.log[k].tx;
    assert WorkerOk(s, w);
    assert RL.Logged(s.db.log, e);
    assert StampsOk(s, e) && TxOk(s, e) && TxOk(s, c);
    if s.db.log[k].player == s.calls[c].player {
      if s.calls[e].work.InService? { SoleInService(s, c, e); }
      assert FifoPair(s.calls[c], s.calls[e]);
    }
  }

  /** What a commit appends. */
  lemma CommitAppends(s: State, w: nat, st: RL.Statement, start: map<Player, int>)
    requires Inv(s, start) && Enabled(s, Repo(w, st)) && (st.Commit? || st.CommitUnacknowledged?)
    ensures var s' := Step(s, Repo(w, st));
      && |s'.db.log| == |s.db.log| + 1 && s'.db.log[..|s.db.log|] == s.db.log
      && s'.db.log[|s.db.log|].tx == st.t < |s.calls|
      && s'.db.log[|s.db.log|].player == s.calls[st.t].player
      && s'.calls == s.calls[st.t := s.calls[st.t].(appliedAt := s.clock)]
  {
    assert WorkerOk(s, w) && TxOk(s, st.t);
  }

  /** Appending an entry that comes after all others keeps the log in order. */
  lemma AppendKeepsLogOrder(s: State, s': State, c: CallId)
    requires LogOrdered(s) && c < |s.calls|
    requires |s'.db.log| == |s.db.log| + 1 && s'.db.log[..|s.db.log|] == s.db.log
    requires s'.db.log[|s.db.log|].tx == c && s'.db.log[|s.db.log|].player == s.calls[c].player
    requires s'.calls == s.calls[c := s.calls[c].(appliedAt := s.clock)]
    requires forall k | 0 <= k < |s.db.log| ::
      var e := s.db.log[k];
      && e.tx < |s.calls| && e.tx != c && s.calls[e.tx].appliedAt < s.clock
      && (e.player == s.calls[c].player ==> s.calls[e.tx].sentAt < s.calls[c].sentAt)
    ensures LogOrdered(s')
  {
    var log, log' := s.db.log, s'.db.log;
    forall k | 0 <= k < |log| ensures log'[k] == log[k] {
      assert log'[..|log|][k] == log[k];
    }
    forall k, l | 0 <= k < l < |log'| ensures LogPair(s', log'[k], log'[l]) {
      if l < |log| { assert LogPair(s, log[k], log[l]); }
    }
  }

  lemma CommitKeepsLogOrder(s: State, w: nat, st: RL.Statement, start: map<Player, int>)
    requires Inv(s, start) && Enabled(s, Repo(w, st)) && (st.Commit? || st.CommitUnacknowledged?)
    ensures LogOrdered(Step(s, Repo(w, st)))
  {
    CommitAppends(s, w, st, start);
    forall k: nat | k < |s.db.log|
      ensures var e := s.db.log[k];
        && e.tx < |s.calls| && e.tx != st.t && s.calls[e.tx].appliedAt < s.clock
        && (e.player == s.calls[st.t].player ==> s.calls[e.tx].sentAt < s.calls[st.t].sentAt)
    {
      CommitComesLast(s, w, st, start, k);
    }
    AppendKeepsLogOrder(s, Step(s, Repo(w, st)), st.t);
  }

  lemma QuietStepKeepsLogOrder(s: State, a: Action, start: map<Player, int>)
    requires Inv(s, start) && Enabled(s, a) && !IsCommit(a)
    ensures LogOrdered(Step(s, a))
  {
    var s' := Step(s, a);
    LogUnchanged(s, a);
    StepFrame(s, a);
    forall k | 0 <= k < |s.db.log| ensures SameStamps(s, s', s.db.log[k].tx) {
      var e := s.db.log[k].tx;
      assert TxOk(s, e) && CallOk(s.calls[e]);
      LoggedKeepsStamps(s, a, e);
    }
    forall k, l | 0 <= k < l < |s.db.log| ensures LogPair(s', s.db.log[k], s.db.log[l]) {
      assert LogPair(s, s.db.log[k], s.db.log[l]);
      assert SameStamps(s, s', s.db.log[k].tx) && SameStamps(s, s', s.db.log[l].tx);
    }
  }

  lemma StepKeepsLogOrder(s: State, a: Action, start: map<Player, int>)
    requires Inv(s, start) && Enabled(s, a)
    ensures LogOrdered(Step(s, a))
  {
    if IsCommit(a) {
      CommitKeepsLogOrder(s, a.w, a.s, start);
    } else {
      QuietStepKeepsLogOrder(s, a, start);
    }
  }

  lemma LogUnchanged(s: State, a: Action)
    requires Enabled(s, a) && !IsCommit(a)
    ensures Step(s, a).db.log == s.db.log
  {
  }

  predicate SameStamps(s: State, s': State, c: CallId) {
    c < |s.calls| && c < |s'.calls| && s'.calls[c].sentAt == s.calls[c].sentAt
      && s'.calls[c].appliedAt == s.calls[c].appliedAt
  }

  lemma LoggedKeepsStamps(s: State, a: Action, e: CallId)
    requires Enabled(s, a) && !IsCommit(a) && e < |s.calls| && e in s.db.txs && TxOk(s, e) && CallOk(s.calls[e])
    ensures SameStamps(s, Step(s, a), e)
  {
    StepFrame(s, a);
  }

  lemma StepKeepsInv(s: State, a: Action, start: map<Player, int>)
    requires Inv(s, start) && Enabled(s, a)
    ensures Inv(Step(s, a), start)
  {
    StepKeepsStructure(s, a);
    StepKeepsTable(s, a, start);
    StepKeepsStamps(s, a, start);
    StepKeepsFifo(s, a, start);
    StepKeepsLogOrder(s, a, start);
  }

  lemma {:induction false} RunKeepsInv(s: State, run: seq<Action>, start: map<Player, int>)
    requires Inv(s, start) && ValidRun(s, run)
    ensures Inv(Exec(s, run), start)
    decreases |run|
  {
    if run != [] {
      StepKeepsInv(s, run[0], start);
      RunKeepsInv(Step(s, run[0]), run[1..], start);
    }
  }

  lemma ReachableInv(s: State, start: map<Player, int>)
    requires Reachable(s, start)
    ensures Inv(s, start)
  {
    var init := Init(start, s.ctxAware);
    var run :| ValidRun(init, run) && Exec(init, run) == s;
    InitInv(start, s.ctxAware);
    RunKeepsInv(init, run, start);
  }
}
