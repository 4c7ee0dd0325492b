/** The two appliers as objects: V1Naive over the MySQL repository, and the worker loop of V2UserQueue. */
module BattleService {
  import opened BattleDomain
  import opened Options
  import opened UserQueue
  import RL = RowLock
  import MySql = BattleRepoMysql
  import UserQueueInv
  import UserQueueTheorems

  class V1Naive {
    const repo: MySql.BattleRepo

    constructor (repo: MySql.BattleRepo)
      ensures this.repo == repo
    {
      this.repo := repo;
    }

    /**
     An invalid damage never reaches the repository; otherwise the caller gets the repository's answer, whatever other
     transactions do in between.
    */
    method Apply(t: RL.TxId, player: Player, damage: int, fault: MySql.Fault, others: MySql.Others) returns (r: Outcome)
      requires RL.Inv(repo.db, repo.start) && t !in repo.db.txs
      modifies repo`db
      ensures RL.Inv(repo.db, repo.start) && RL.Reaches(old(repo.db), repo.db)
      ensures r.InvalidDamage? <==> damage < 1 || damage > 100_000
      ensures r.InvalidDamage? ==> repo.db == old(repo.db)
      ensures r.Damaged? ==>
        repo.db.log != [] && repo.db.log[|repo.db.log| - 1] == RL.Committed(t, player, damage, r.hp)
      ensures r.Damaged? ==>
        r.hp == HpIn(repo.db.rows, player) == HitAll(HpIn(repo.start, player), RL.DamagesOf(repo.db.log, player))
      ensures r.RepoError? ==> (RL.Logged(repo.db.log, t)
        <==> r.stage == RL.CommitTx && fault == MySql.FaultAt(RL.CommitTx, true))
      ensures others == MySql.QUIET && player !in old(repo.db).locks && ValidDamage(damage) ==>
        exists result: RL.Result ::
          r == OutcomeOf(result) && MySql.Alone(old(repo.db), repo.db, t, player, damage, fault, result)
      ensures 1 <= damage <= 100_000 ==>
        var atSelect := MySql.Waited(old(repo.db), t, player, damage, others);
        var atInsert := MySql.WaitedAgain(old(repo.db), t, player, damage, others);
        if fault.Hits(RL.BeginTx) then r == RepoError(RL.BeginTx)
        else if fault.Hits(RL.SelectForUpdate) || player in atSelect.locks then r == RepoError(RL.SelectForUpdate)
        else if (player !in atSelect.rows
                 && (fault.Hits(RL.InsertHp) || player in atInsert.locks || player in atInsert.rows))
        then r == RepoError(RL.InsertHp)
        else if fault.Hits(RL.UpdateHp) then r == RepoError(RL.UpdateHp)
        else if fault.Hits(RL.CommitTx) then r == RepoError(RL.CommitTx)
        else r.Damaged?
    {
      hide RL.Inv, RL.Reaches, RL.Logged, HitAll, RL.DamagesOf, MySql.Alone, MySql.Waited, MySql.WaitedAgain;
      if damage < 1 || damage > MAX_DAMAGE_PER_REQUEST {
        RL.ReachesItself(repo.db);
        return InvalidDamage;
      }
      var result := repo.ApplyDamageNaive(t, player, damage, fault, others);
      r := OutcomeOf(result);
    }
  }

  /** When a caller's context ends. */
  datatype Context = Live | EndsBeforeSend | EndsInQueue | EndsBeforeReceive

  /** What each select takes when both of its branches are ready: the channel, or giving up. */
  datatype Picks = Picks(giveUpSending: bool, giveUpWaiting: bool)

  /** What goes wrong with one statement of one call: nothing, it fails, or a commit is applied and its answer lost. */
  datatype Mishap = Fine | Fails | AnswerLost

  type Mishaps = (CallId, RL.Stage) -> Mishap

  /** No statement of this call goes wrong. */
  ghost predicate AllFine(m: Mishaps, c: CallId) {
    forall stage: RL.Stage :: m(c, stage).Fine?
  }

  /** Every statement of every call fails. */
  ghost predicate AllFail(m: Mishaps) {
    forall c: CallId, stage: RL.Stage :: m(c, stage).Fails?
  }

  /** The queue service with every goroutine's state; methods run one goroutine while the others stand still. */
  class V2UserQueue {
    var state: State
    ghost const start: map<Player, int>

    constructor (rows: map<Player, int>, ctxAware: bool)
      ensures start == rows && state == Init(rows, ctxAware) && Reachable(state, start)
    {
      start := rows;
      state := Init(rows, ctxAware);
      new;
      UserQueueTheorems.ReachInit(rows, ctxAware);
    }

    /**
     One Apply call from whatever state earlier calls left, with the player's worker running whenever this caller
     blocks and statements failing where they may. A live caller gets the HP its own damage left, counted once, or the
     error of the first statement that failed. Giving up takes an ended context, but an ended context may still be sent,
     served or answered. Over a repository that heeds contexts a request served after its context ended is refused and
     not applied; one that gave up after its commit was applied.
    */
    method Apply(player: Player, damage: int, ctx: Context, picks: Picks, m: Mishaps) returns (r: Outcome)
      requires Reachable(state, start)
      modifies this`state
      ensures Reachable(state, start) && |state.calls| == |old(state).calls| + 1
      ensures state.ctxAware == old(state).ctxAware
      ensures var call := state.calls[|old(state).calls|];
        call.player == player && call.damage == damage && call.client == Returned(r)
      ensures r.InvalidDamage? <==> !(1 <= damage <= 100_000)
      ensures r.InvalidDamage? ==> state.queues == old(state).queues && state.workers == old(state).workers
      ensures r.InvalidDamage? ==> state.db == old(state).db
      ensures r.EnqueueError? <==>
        && 1 <= damage <= 100_000 && ctx.EndsBeforeSend?
        && (picks.giveUpSending || (player in old(state).queues && |old(state).queues[player]| >= 64))
      ensures r.EnqueueError? ==> state.db == old(state).db
      ensures r.AwaitError? <==>
        1 <= damage <= 100_000 && !r.EnqueueError? && picks.giveUpWaiting && !ctx.Live?
      ensures !r.InvalidDamage? && !r.EnqueueError? ==>
        Received(state, start, |old(state).calls|, player, ctx, picks, m, r)
      ensures 1 <= damage <= 100_000 && ctx.Live? && AllFine(m, |old(state).calls|) ==> r.Damaged?
      ensures 1 <= damage <= 100_000 && ctx.Live? && !m(|old(state).calls|, RL.BeginTx).Fine? ==>
        r == RepoError(RL.BeginTx) && !RL.Logged(state.db.log, |old(state).calls|)
      ensures r == RepoError(RL.CommitTx) ==>
        (RL.Logged(state.db.log, |old(state).calls|) <==> m(|old(state).calls|, RL.CommitTx).AnswerLost?)
      ensures AllFail(m) ==> state.db.rows == old(state).db.rows && state.db.log == old(state).db.log
      ensures forall e | 0 <= e < |old(state).calls| :: state.calls[e].client == old(state).calls[e].client
    {
      hide Reachable, UserQueueTheorems.TakesEffectAt, RL.Logged, EarlierRow;
      var c := |state.calls|;
      Act(Invoke(player, damage));
      if damage < 1 || damage > MAX_DAMAGE_PER_REQUEST {
        return InvalidDamage;
      }
      var w := GetOrCreate(c);
      r := Submit(c, w, ctx, picks, m);
    }

    /** The two selects: send or give up, then receive or give up. */
    method Submit(c: CallId, w: nat, ctx: Context, picks: Picks, m: Mishaps) returns (r: Outcome)
      requires Reachable(state, start) && c < |state.calls| && state.calls[c].client.Enqueueing?
      requires !state.calls[c].ended
      requires w < |state.workers| && state.workers[w].player == state.calls[c].player
      requires state.calls[c].player in state.queues
      modifies this`state
      ensures Reachable(state, start) && |state.calls| == |old(state).calls| && state.ctxAware == old(state).ctxAware
      ensures state.calls[c].client == Returned(r) && !r.InvalidDamage?
      ensures state.calls[c].player == old(state).calls[c].player && state.calls[c].damage == old(state).calls[c].damage
      ensures r.EnqueueError? <==>
        ctx.EndsBeforeSend? && (picks.giveUpSending || |old(state).queues[old(state).calls[c].player]| >= 64)
      ensures r.EnqueueError? ==> state.db == old(state).db
      ensures r.AwaitError? <==> !r.EnqueueError? && picks.giveUpWaiting && !ctx.Live?
      ensures !r.EnqueueError? ==> Received(state, start, c, state.calls[c].player, ctx, picks, m, r)
      ensures AllFail(m) ==> state.db.rows == old(state).db.rows && state.db.log == old(state).db.log
      ensures forall e | 0 <= e < |state.calls| && e != c :: state.calls[e].client == old(state).calls[e].client
    {
      hide Reachable, Received;
      var p := state.calls[c].player;
      if ctx.EndsBeforeSend? {
        Act(End(c));
        if picks.giveUpSending || |state.queues[p]| >= QUEUE_CAPACITY {
          Act(CancelEnqueue(c));
          return EnqueueError;
        }
      }
      if |state.queues[p]| >= QUEUE_CAPACITY {
        Worker(w, m);
      }
      Act(Send(c));
      if ctx.EndsInQueue? {
        Act(End(c));
      }
      r := Await(c, w, ctx, picks, m);
    }

    /** The second select of a request that has been sent. */
    method Await(c: CallId, w: nat, ctx: Context, picks: Picks, m: Mishaps) returns (r: Outcome)
      requires Reachable(state, start) && c < |state.calls| && state.calls[c].client.Awaiting?
      requires state.calls[c].work.Queued?
      requires w < |state.workers| && state.workers[w].player == state.calls[c].player
      requires state.calls[c].ended <==> ctx.EndsBeforeSend? || ctx.EndsInQueue?
      modifies this`state
      ensures Reachable(state, start) && |state.calls| == |old(state).calls| && state.ctxAware == old(state).ctxAware
      ensures state.calls[c].client == Returned(r)
      ensures state.calls[c].player == old(state).calls[c].player && state.calls[c].damage == old(state).calls[c].damage
      ensures !r.EnqueueError? && !r.InvalidDamage?
      ensures r.AwaitError? <==> picks.giveUpWaiting && !ctx.Live?
      ensures Received(state, start, c, state.calls[c].player, ctx, picks, m, r)
      ensures AllFail(m) ==> state.db.rows == old(state).db.rows && state.db.log == old(state).db.log
      ensures forall e | 0 <= e < |state.calls| && e != c :: state.calls[e].client == old(state).calls[e].client
    {
      hide Reachable, RL.Logged, EarlierRow, UserQueueTheorems.TakesEffectAt;
      if picks.giveUpWaiting && state.calls[c].ended {
        Act(CancelAwait(c));
        QueuedFacts(state, start, c);
        return AwaitError;
      }
      Worker(w, m);
      ReplyFacts(state, start, c);
      ghost var answered := state;
      if ctx.EndsBeforeReceive? {
        Act(End(c));
        if picks.giveUpWaiting {
          Act(CancelAwait(c));
          SameVerdict(answered, state, start, c);
          return AwaitError;
        }
      }
      r := OutcomeOf(state.calls[c].reply.value);
      Act(Receive(c));
      SameVerdict(answered, state, start, c);
    }

    /** Looks the player's channel up, and makes it together with its worker when there is none. */
    method GetOrCreate(c: CallId) returns (w: nat)
      requires Reachable(state, start) && Enabled(state, Locate(c))
      modifies this`state
      ensures state == Step(old(state), Locate(c)) && Reachable(state, start)
      ensures var p := old(state).calls[c].player;
        && p in state.queues && w < |state.workers| && state.workers[w].player == p
        && state.queues == if p in old(state).queues then old(state).queues else old(state).queues[p := []]
    {
      ghost var next := UserQueueTheorems.Reach(state, start, Locate(c));
      var p := state.calls[c].player;
      var queues, workers := state.queues, state.workers;
      if p !in queues {
        queues := queues[p := []];
        workers := workers + [UserQueue.Worker(p, None)];
      }
      var call := state.calls[c].(client := Enqueueing);
      state := State(state.calls[c := call], queues, workers, state.db, state.ctxAware, state.clock + 1);
      UserQueueInv.ReachableInv(state, start);
      assert UserQueueInv.HasWorker(state, p);
      w :| w < |state.workers| && state.workers[w].player == p;
    }

    /**
     The worker loop, left alone: it answers every queued request of its player with what its statements come to, a
     refusal at BEGIN when its context has ended, the error of the first statement that fails, or a success; it leaves
     the other players' channels and all callers as they were, and when every statement fails the table too.
    */
    method Worker(w: nat, m: Mishaps)
      requires Reachable(state, start) && w < |state.workers|
      modifies this`state
      ensures Reachable(state, start) && w < |state.workers| == |old(state).workers|
      ensures |state.calls| == |old(state).calls| && state.ctxAware == old(state).ctxAware
      ensures var p := old(state).workers[w].player;
        && state.workers[w] == UserQueue.Worker(p, None)
        && p in state.queues && state.queues[p] == []
        && state.queues.Keys == old(state).queues.Keys
        && (forall q | q in state.queues && q != p :: state.queues[q] == old(state).queues[q])
        && (forall c | 0 <= c < |state.calls| && old(state).calls[c].work.Queued? && old(state).calls[c].player == p ::
              && state.calls[c].work.Replied? && state.calls[c].reply.Some?
              && Verdict(m, c, Severed(old(state), c), EarlierRow(state, start, c), RL.Logged(state.db.log, c),
                         state.calls[c].reply.value))
      ensures AllFail(m) ==> state.db.rows == old(state).db.rows && state.db.log == old(state).db.log
      ensures forall c | 0 <= c < |state.calls| :: SameCaller(old(state).calls[c], state.calls[c])
    {
      hide Reachable, EarlierRow, RL.Logged;
      ghost var first := state;
      ServingStarts(state, start, w, m);
      while state.workers[w].job.Some? || state.queues[state.workers[w].player] != []
        invariant Serving(first, state, start, w, m)
        decreases UserQueueTheorems.Measure(state)
      {
        ServingStep(first, state, start, w, m);
        UserQueueTheorems.MeasureBounds(state, |state.calls|);
        state := Step(state, TurnOf(state, w, m));
      }
      UserQueueTheorems.IdleWorkerIsDone(state, start, w);
      forall c | 0 <= c < |state.calls|
        ensures SameCaller(first.calls[c], state.calls[c])
        ensures first.calls[c].work.Queued? && first.calls[c].player == first.workers[w].player ==>
          && state.calls[c].work.Replied? && state.calls[c].reply.Some?
          && Verdict(m, c, Severed(first, c), EarlierRow(state, start, c), RL.Logged(state.db.log, c),
                     state.calls[c].reply.value)
      {
        assert Kept(first, state, start, c, m);
        ReplyIsResult(state, start, c);
      }
    }

    /** Takes one step. */
    method Act(a: Action)
      requires Reachable(state, start) && Enabled(state, a)
      modifies this`state
      ensures state == Step(old(state), a) && Reachable(state, start)
    {
      ghost var next := UserQueueTheorems.Reach(state, start, a);
      state := Step(state, a);
    }
  }

  /** The statement a worker sends next, or what its failure turns it into. */
  function StatementOf(s: State, c: CallId, m: Mishaps): RL.Statement
    requires c < |s.calls| && (c in s.db.txs ==> !s.db.txs[c].phase.Finished?)
  {
    var call := s.calls[c];
    if c !in s.db.txs then
      if Severed(s, c) || !m(c, RL.BeginTx).Fine? then RL.Refuse(c, call.player, call.damage)
      else RL.Begin(c, call.player, call.damage)
    else if Severed(s, c) then RL.Fail(c)
    else match s.db.txs[c].phase
      case Begun => if m(c, RL.SelectForUpdate).Fine? then RL.Select(c) else RL.Fail(c)
      case SawNoRow => if m(c, RL.InsertHp).Fine? then RL.Insert(c) else RL.Fail(c)
      case Holding(_, _) => if m(c, RL.UpdateHp).Fine? then RL.Update(c) else RL.Fail(c)
      case Updated(_, _) =>
        match m(c, RL.CommitTx)
        case Fine => RL.Commit(c)
        case Fails => RL.Fail(c)
        case AnswerLost => RL.CommitUnacknowledged(c)
  }

  /** What a worker does at a turn. */
  function TurnOf(s: State, w: nat, m: Mishaps): Action
    requires w < |s.workers| && (s.workers[w].job.Some? ==> Busy(s, w))
  {
    if s.workers[w].job.None? then Take(w)
    else
      var c := s.workers[w].job.value;
      if c in s.db.txs && s.db.txs[c].phase.Finished? then Reply(w) else Repo(w, StatementOf(s, c, m))
  }

  /** A row of this call's player was there, or committed for an earlier request. */
  ghost predicate EarlierRow(s: State, start: map<Player, int>, c: CallId)
    requires c < |s.calls|
  {
    s.calls[c].player in start || EarlierCommit(s, c)
  }

  ghost predicate EarlierCommit(s: State, c: CallId)
    requires c < |s.calls|
  {
    exists j :: 0 <= j < |s.db.log| && s.db.log[j].player == s.calls[c].player && s.db.log[j].tx < |s.calls|
                && s.calls[s.db.log[j].tx].sentAt < s.calls[c].sentAt
  }

  /**
   What a request's statements come to: a refusal at BEGIN when its context has ended, else the error of the first one
   that goes wrong, the insert only when there is no row yet, else a success. It is applied on success, or when only the
   commit's answer was lost.
  */
  ghost predicate Verdict(m: Mishaps, c: CallId, severed: bool, earlier: bool, logged: bool, result: RL.Result) {
    && (if severed || !m(c, RL.BeginTx).Fine? then result == RL.Failed(RL.BeginTx)
        else if !m(c, RL.SelectForUpdate).Fine? then result == RL.Failed(RL.SelectForUpdate)
        else if !m(c, RL.InsertHp).Fine? && !earlier then result == RL.Failed(RL.InsertHp)
        else if !m(c, RL.UpdateHp).Fine? then result == RL.Failed(RL.UpdateHp)
        else if !m(c, RL.CommitTx).Fine? then result == RL.Failed(RL.CommitTx)
        else result.Ok?)
    && (logged <==> result.Ok? || (result == RL.Failed(RL.CommitTx) && m(c, RL.CommitTx).AnswerLost?))
  }

  /** The answers of a sent request, and what each says about its damage. */
  ghost predicate Received(s: State, start: map<Player, int>, c: CallId, p: Player, ctx: Context, picks: Picks,
                           m: Mishaps, r: Outcome)
    requires c < |s.calls|
  {
    var endedEarly := ctx.EndsBeforeSend? || ctx.EndsInQueue?;
    if picks.giveUpWaiting && endedEarly then
      r == AwaitError && !RL.Logged(s.db.log, c) && p in s.queues && c in s.queues[p]
    else
      && c in s.db.txs && s.db.txs[c].phase.Finished?
      && var result := s.db.txs[c].phase.result;
      && Verdict(m, c, s.ctxAware && endedEarly, EarlierRow(s, start, c), RL.Logged(s.db.log, c), result)
      && (result.Ok? ==> exists k: nat :: UserQueueTheorems.TakesEffectAt(s, c, k) && s.db.log[k].hp == result.hp)
      && r == if picks.giveUpWaiting && ctx.EndsBeforeReceive? then AwaitError else OutcomeOf(result)
  }

  /** Steps of a caller after its reply change nothing the verdict speaks of. */
  lemma SameVerdict(s: State, s': State, start: map<Player, int>, c: CallId)
    requires c < |s.calls| == |s'.calls| && s'.db == s.db
    requires forall e | 0 <= e < |s.calls| :: s'.calls[e].sentAt == s.calls[e].sentAt
    requires s'.calls[c].player == s.calls[c].player && s'.calls[c].damage == s.calls[c].damage
    ensures EarlierRow(s', start, c) <==> EarlierRow(s, start, c)
    ensures forall k: nat :: UserQueueTheorems.TakesEffectAt(s', c, k) <==> UserQueueTheorems.TakesEffectAt(s, c, k)
  {
  }

  /** A request still in the channel has not been applied. */
  lemma QueuedFacts(s: State, start: map<Player, int>, c: CallId)
    requires Reachable(s, start) && c < |s.calls| && s.calls[c].work.Queued?
    ensures !RL.Logged(s.db.log, c) && s.calls[c].player in s.queues && c in s.queues[s.calls[c].player]
  {
    UserQueueInv.ReachableInv(s, start);
    assert UserQueueInv.TxOk(s, c) && UserQueueInv.Placed(s, c);
  }

  /** A reply carries the result of the transaction, and a success is in the log. */
  lemma ReplyFacts(s: State, start: map<Player, int>, c: CallId)
    requires Reachable(s, start) && c < |s.calls| && s.calls[c].reply.Some?
    ensures c in s.db.txs && s.db.txs[c].phase == RL.Finished(s.calls[c].reply.value)
    ensures s.calls[c].reply.value.Ok? ==>
      exists k: nat :: UserQueueTheorems.TakesEffectAt(s, c, k) && s.db.log[k].hp == s.calls[c].reply.value.hp
  {
    UserQueueInv.ReachableInv(s, start);
    assert UserQueueInv.TxOk(s, c);
    RL.InvGivesFate(s.db, start, c);
    if s.calls[c].reply.value.Ok? {
      var hp := s.calls[c].reply.value.hp;
      var k :| 0 <= k < |s.db.log| && s.db.log[k] == RL.Committed(c, s.calls[c].player, s.calls[c].damage, hp);
      assert UserQueueTheorems.TakesEffectAt(s, c, k);
    }
  }

  lemma ReplyIsResult(s: State, start: map<Player, int>, c: CallId)
    requires Reachable(s, start) && c < |s.calls|
    ensures s.calls[c].reply.Some? ==> c in s.db.txs && s.db.txs[c].phase == RL.Finished(s.calls[c].reply.value)
    ensures s.calls[c].work.Replied? ==> c in s.db.txs
  {
    UserQueueInv.ReachableInv(s, start);
    assert UserQueueInv.TxOk(s, c);
  }

  predicate SameCaller(before: Call, now: Call) {
    && now.player == before.player && now.damage == before.damage && now.client == before.client
    && now.ended == before.ended && (before.work.Unsent? <==> now.work.Unsent?)
  }

  /** How a transaction stands so far, by what went wrong with its statements. */
  ghost predicate OnTrack(m: Mishaps, c: CallId, severed: bool, earlier: bool, logged: bool, phase: RL.Phase) {
    match phase
    case Begun => !severed && m(c, RL.BeginTx).Fine?
    case SawNoRow => !severed && m(c, RL.BeginTx).Fine? && m(c, RL.SelectForUpdate).Fine? && !earlier
    case Holding(_, inserted) =>
      && !severed && m(c, RL.BeginTx).Fine? && m(c, RL.SelectForUpdate).Fine?
      && (inserted <==> !earlier) && (inserted ==> m(c, RL.InsertHp).Fine?)
    case Updated(_, inserted) =>
      && !severed && m(c, RL.BeginTx).Fine? && m(c, RL.SelectForUpdate).Fine? && m(c, RL.UpdateHp).Fine?
      && (inserted <==> !earlier) && (inserted ==> m(c, RL.InsertHp).Fine?)
    case Finished(result) => Verdict(m, c, severed, earlier, logged, result)
  }

  /** What a worker's loop keeps of a call: its caller, and the track of a request queued when the loop started. */
  ghost predicate Kept(first: State, s: State, start: map<Player, int>, c: CallId, m: Mishaps)
    requires c < |first.calls| && c < |s.calls|
  {
    && SameCaller(first.calls[c], s.calls[c])
    && (first.calls[c].work.Queued? ==>
          && (s.calls[c].work.Replied? ==> s.calls[c].reply.Some?)
          && (c in s.db.txs ==>
                OnTrack(m, c, Severed(first, c), EarlierRow(s, start, c), RL.Logged(s.db.log, c), s.db.txs[c].phase)))
  }

  /** How far one worker's loop has come since it started in state first. */
  ghost predicate Serving(first: State, s: State, start: map<Player, int>, w: nat, m: Mishaps) {
    && Reachable(s, start)
    && w < |s.workers| == |first.workers|
    && s.workers[w].player == first.workers[w].player
    && s.workers[w].player in s.queues
    && (s.workers[w].job.Some? ==> Busy(s, w))
    && s.queues.Keys == first.queues.Keys
    && (forall q | q in s.queues && q != s.workers[w].player :: s.queues[q] == first.queues[q])
    && |s.calls| == |first.calls| && s.ctxAware == first.ctxAware
    && (AllFail(m) ==> s.db.rows == first.db.rows && s.db.log == first.db.log)
    && (forall c | 0 <= c < |first.calls| :: Kept(first, s, start, c, m))
  }

  lemma ServingStarts(s: State, start: map<Player, int>, w: nat, m: Mishaps)
    requires Reachable(s, start) && w < |s.workers|
    ensures Serving(s, s, start, w, m)
  {
    UserQueueTheorems.WorkerPlayerHasQueue(s, start, w);
    UserQueueInv.ReachableInv(s, start);
    forall c | 0 <= c < |s.calls| ensures Kept(s, s, start, c, m) {
      assert UserQueueInv.TxOk(s, c);
    }
  }

  lemma ServingStep(first: State, s: State, start: map<Player, int>, w: nat, m: Mishaps)
    requires Serving(first, s, start, w, m)
    requires s.workers[w].job.Some? || s.queues[s.workers[w].player] != []
    ensures var a := TurnOf(s, w, m);
      && Enabled(s, a)
      && Serving(first, Step(s, a), start, w, m)
      && UserQueueTheorems.Measure(Step(s, a)) < UserQueueTheorems.Measure(s)
  {
    hide Kept, Reachable, UserQueueTheorems.Measure;
    var a := TurnOf(s, w, m);
    WorkersTurn(s, start, w, m);
    UserQueueInv.ReachableInv(s, start);
    hide UserQueueInv.Inv;
    UserQueueTheorems.StepLowersMeasure(s, a, start);
    var s' := UserQueueTheorems.Reach(s, start, a);
    ServingFrame(s, a, w);
    UserQueueTheorems.WorkerPlayerHasQueue(s', start, w);
    if AllFail(m) { FailingTurnKeepsTable(s, w, m); }
    forall c | 0 <= c < |first.calls| ensures Kept(first, s', start, c, m) {
      assert Kept(first, s, start, c, m);
      TurnKeepsCall(first, s, start, w, c, m, a);
    }
  }

  /** When every statement fails, no turn touches the table. */
  lemma FailingTurnKeepsTable(s: State, w: nat, m: Mishaps)
    requires w < |s.workers| && (s.workers[w].job.Some? ==> Busy(s, w)) && Enabled(s, TurnOf(s, w, m)) && AllFail(m)
    ensures Step(s, TurnOf(s, w, m)).db.rows == s.db.rows && Step(s, TurnOf(s, w, m)).db.log == s.db.log
  {
    if s.workers[w].job.Some? {
      var c := s.workers[w].job.value;
      assert forall stage: RL.Stage :: m(c, stage).Fails?;
    }
  }

  /** A worker's turn can be taken. */
  lemma WorkersTurn(s: State, start: map<Player, int>, w: nat, m: Mishaps)
    requires Reachable(s, start) && w < |s.workers| && s.workers[w].player in s.queues
    requires s.workers[w].job.Some? ==> Busy(s, w)
    requires s.workers[w].job.Some? || s.queues[s.workers[w].player] != []
    ensures Enabled(s, TurnOf(s, w, m)) && !TurnOf(s, w, m).Invoke?
  {
    hide Reachable, UserQueueTheorems.NextAction;
    if s.workers[w].job.Some? {
      UserQueueTheorems.WorkerNeverWaits(s, start, w);
      TurnEnabled(s, w, m);
    } else {
      UserQueueTheorems.HeadIsCall(s, start, w);
    }
  }

  lemma TurnEnabled(s: State, w: nat, m: Mishaps)
    requires Busy(s, w) && Enabled(s, UserQueueTheorems.NextAction(s, w))
    ensures Enabled(s, TurnOf(s, w, m))
  {
  }

  /** A worker's own step leaves other workers and other channels alone. */
  lemma ServingFrame(s: State, a: Action, w: nat)
    requires Enabled(s, a) && (a == Take(w) || (a.Repo? && a.w == w) || a == Reply(w))
    requires s.workers[w].player in s.queues
    ensures var s' := Step(s, a);
      && |s'.workers| == |s.workers| && s'.workers[w].player == s.workers[w].player
      && s'.queues.Keys == s.queues.Keys
      && (forall q | q in s.queues && q != s.workers[w].player :: s'.queues[q] == s.queues[q])
      && |s'.calls| == |s.calls| && s'.ctxAware == s.ctxAware
      && (forall c | 0 <= c < |s.calls| :: SameCaller(s.calls[c], s'.calls[c]) || s.calls[c].work.Unsent?)
      && (forall c | 0 <= c < |s.calls| :: s'.calls[c].sentAt == s.calls[c].sentAt)
  {
  }

  // ---- The row a request meets ----

  /** For the call in service the row is there exactly when it was there before its request. */
  lemma RowInService(s: State, start: map<Player, int>, c: CallId)
    requires UserQueueInv.Inv(s, start) && c < |s.calls| && s.calls[c].work.InService? && !RL.Logged(s.db.log, c)
    ensures EarlierRow(s, start, c) <==> s.calls[c].player in s.db.rows
  {
    var p := s.calls[c].player;
    assert RL.RowIsHistory(s.db, start, p);
    DamagesMeanEntries(s.db.log, p);
    if j :| 0 <= j < |s.db.log| && s.db.log[j].player == p {
      LoggedWasSentEarlier(s, start, c, j);
    }
  }

  lemma {:induction false} DamagesMeanEntries(log: seq<RL.Committed>, p: Player)
    ensures RL.DamagesOf(log, p) != [] <==> exists j :: 0 <= j < |log| && log[j].player == p
  {
    if log != [] {
      var n := |log| - 1;
      DamagesMeanEntries(log[..n], p);
      if j :| 0 <= j < |log[..n]| && log[..n][j].player == p { assert log[j].player == p; }
      if j :| 0 <= j < |log| && log[j].player == p && log[n].player != p { assert log[..n][j].player == p; }
    }
  }

  lemma LoggedWasSentEarlier(s: State, start: map<Player, int>, c: CallId, j: nat)
    requires UserQueueInv.Inv(s, start) && c < |s.calls| && s.calls[c].work.InService? && !RL.Logged(s.db.log, c)
    requires j < |s.db.log| && s.db.log[j].player == s.calls[c].player
    ensures s.db.log[j].tx < |s.calls| && s.calls[s.db.log[j].tx].sentAt < s.calls[c].sentAt
  {
    var e := s.db.log[j].tx;
    assert RL.Logged(s.db.log, e);
    assert UserQueueInv.TxOk(s, e) && UserQueueInv.CallOk(s.calls[e]) && UserQueueInv.CallOk(s.calls[c]);
    if s.calls[e].work.InService? { UserQueueInv.SoleInService(s, c, e); }
    assert UserQueueInv.FifoPair(s.calls[c], s.calls[e]);
  }

  /** A commit of a later request, or one's own, does not change what was there before. */
  lemma EarlierRowStays(s: State, s': State, start: map<Player, int>, c: CallId)
    requires c < |s.calls| == |s'.calls| && s'.calls[c].player == s.calls[c].player
    requires forall e | 0 <= e < |s.calls| :: s'.calls[e].sentAt == s.calls[e].sentAt
    requires |s.db.log| <= |s'.db.log| && s'.db.log[..|s.db.log|] == s.db.log
    requires forall j | |s.db.log| <= j < |s'.db.log| ::
      s'.db.log[j].player == s.calls[c].player ==>
        s'.db.log[j].tx < |s.calls| && s.calls[c].sentAt <= s.calls[s'.db.log[j].tx].sentAt
    ensures EarlierRow(s', start, c) <==> EarlierRow(s, start, c)
  {
    assert forall j | 0 <= j < |s.db.log| :: s'.db.log[..|s.db.log|][j] == s.db.log[j];
    if EarlierCommit(s, c) {
      var j :| 0 <= j < |s.db.log| && s.db.log[j].player == s.calls[c].player && s.db.log[j].tx < |s.calls|
               && s.calls[s.db.log[j].tx].sentAt < s.calls[c].sentAt;
      assert s'.db.log[j] == s.db.log[j];
    }
  }

  /** A request that comes into service is sent after every one of its player that has left the channel. */
  lemma ServedAfter(s: State, start: map<Player, int>, e: CallId, c: CallId)
    requires UserQueueInv.Inv(s, start) && c < |s.calls| && e < |s.calls| && c != e
    requires s.calls[e].work.InService? && s.calls[e].player == s.calls[c].player
    requires s.calls[c].work.InService? || s.calls[c].work.Replied?
    ensures s.calls[c].sentAt <= s.calls[e].sentAt
  {
    if s.calls[c].work.InService? { UserQueueInv.SoleInService(s, c, e); }
    assert UserQueueInv.FifoPair(s.calls[e], s.calls[c]);
  }

  // ---- A turn keeps every call on its track ----

  lemma TurnKeepsCall(first: State, s: State, start: map<Player, int>, w: nat, c: CallId, m: Mishaps, a: Action)
    requires UserQueueInv.Inv(s, start) && w < |s.workers| && (s.workers[w].job.Some? ==> Busy(s, w))
    requires a == TurnOf(s, w, m) && Enabled(s, a) && s.workers[w].player in s.queues
    requires c < |first.calls| == |s.calls| && first.ctxAware == s.ctxAware && Kept(first, s, start, c, m)
    ensures Kept(first, Step(s, a), start, c, m)
  {
    hide Kept, EarlierRow, OnTrack, RL.Logged;
    if a.Repo? {
      StatementKeepsCall(first, s, start, w, c, m, a.s);
    } else {
      assert a.Reply? ==> UserQueueInv.WorkerOk(s, w);
      assert a.Take? ==> UserQueueInv.QueueOk(s, s.workers[w].player);
      QuietTurnKeepsCall(first, s, start, w, c, m, a);
    }
  }

  /** Taking a request and replying leave the table and all send times alone. */
  lemma QuietTurnKeepsCall(first: State, s: State, start: map<Player, int>, w: nat, c: CallId, m: Mishaps, a: Action)
    requires w < |s.workers| && s.workers[w].player in s.queues && Enabled(s, a)
    requires (a == Take(w) && UserQueueInv.QueueOk(s, s.workers[w].player))
      || (a == Reply(w) && UserQueueInv.WorkerOk(s, w))
    requires c < |first.calls| == |s.calls| && first.ctxAware == s.ctxAware && Kept(first, s, start, c, m)
    ensures Kept(first, Step(s, a), start, c, m)
  {
    hide OnTrack, RL.Logged, EarlierRow;
    ServingFrame(s, a, w);
    EarlierRowStays(s, Step(s, a), start, c);
  }

  lemma StatementKeepsCall(first: State, s: State, start: map<Player, int>, w: nat, c: CallId, m: Mishaps,
                           st: RL.Statement)
    requires UserQueueInv.Inv(s, start) && Busy(s, w) && TurnOf(s, w, m) == Repo(w, st) && Enabled(s, Repo(w, st))
    requires s.workers[w].player in s.queues
    requires c < |first.calls| == |s.calls| && first.ctxAware == s.ctxAware && Kept(first, s, start, c, m)
    ensures Kept(first, Step(s, Repo(w, st)), start, c, m)
  {
    var e := s.workers[w].job.value;
    assert UserQueueInv.WorkerOk(s, w) && UserQueueInv.TxOk(s, e) && UserQueueInv.TxOk(s, c);
    assert e in s.db.txs ==> s.db.txs[e].player == s.calls[e].player;
    hide EarlierRow, OnTrack, Kept;
    if c == e {
      RL.NotLoggedYet(s.db, start, e);
      RowInService(s, start, e);
      assert st == StatementOf(s, e, m) && RL.ReadsCurrent(s.db);
      hide UserQueueInv.Inv, TurnOf, StatementOf;
      OwnStatementKeepsCall(first, s, start, w, c, m, st);
    } else {
      if s.calls[c].player == s.calls[e].player && c in s.db.txs { ServedAfter(s, start, e, c); }
      hide UserQueueInv.Inv, TurnOf, StatementOf;
      OtherStatementKeepsCall(first, s, start, w, c, m, st);
    }
  }

  lemma OwnStatementKeepsCall(first: State, s: State, start: map<Player, int>, w: nat, c: CallId, m: Mishaps,
                              st: RL.Statement)
    requires Busy(s, w) && Enabled(s, Repo(w, st)) && s.workers[w].player in s.queues && c == s.workers[w].job.value
    requires c in s.db.txs ==> !s.db.txs[c].phase.Finished? && s.db.txs[c].player == s.calls[c].player
    requires s.calls[c].work.InService? && st == StatementOf(s, c, m) && RL.ReadsCurrent(s.db)
    requires !RL.Logged(s.db.log, c) && (EarlierRow(s, start, c) <==> s.calls[c].player in s.db.rows)
    requires c < |first.calls| == |s.calls| && first.ctxAware == s.ctxAware && Kept(first, s, start, c, m)
    ensures Kept(first, Step(s, Repo(w, st)), start, c, m)
  {
    StatementLog(s.db, st);
    ServingFrame(s, Repo(w, st), w);
    EarlierRowStays(s, Step(s, Repo(w, st)), start, c);
    hide EarlierRow, OnTrack, StatementOf;
    if first.calls[c].work.Queued? { OwnStatement(s, c, m, st); }
  }

  lemma OtherStatementKeepsCall(first: State, s: State, start: map<Player, int>, w: nat, c: CallId, m: Mishaps,
                                st: RL.Statement)
    requires Busy(s, w) && Enabled(s, Repo(w, st)) && s.workers[w].player in s.queues
    requires c < |first.calls| == |s.calls| && first.ctxAware == s.ctxAware && Kept(first, s, start, c, m)
    requires var e := s.workers[w].job.value;
      && c != e && (e in s.db.txs ==> s.db.txs[e].player == s.calls[e].player)
      && (s.calls[c].player == s.calls[e].player && c in s.db.txs ==> s.calls[c].sentAt <= s.calls[e].sentAt)
    ensures Kept(first, Step(s, Repo(w, st)), start, c, m)
  {
    StatementLog(s.db, st);
    RL.StatementFrame(s.db, st);
    ServingFrame(s, Repo(w, st), w);
    hide EarlierRow, OnTrack;
    if c in s.db.txs { EarlierRowStays(s, Step(s, Repo(w, st)), start, c); }
  }

  /** What a statement does to the log. */
  lemma StatementLog(db: RL.Db, st: RL.Statement)
    requires RL.Enabled(db, st)
    ensures var log := RL.Step(db, st).log;
      && |db.log| <= |log| <= |db.log| + 1 && log[..|db.log|] == db.log
      && (|log| == |db.log| + 1 <==> st.Commit? || st.CommitUnacknowledged?)
      && (|log| == |db.log| + 1
         ==> st.t in db.txs && log[|db.log|].tx == st.t && log[|db.log|].player == db.txs[st.t].player)
      && (forall t :: RL.Logged(log, t) <==> RL.Logged(db.log, t) || (|log| == |db.log| + 1 && t == st.t))
  {
    var log := RL.Step(db, st).log;
    forall t ensures RL.Logged(log, t) <==> RL.Logged(db.log, t) || (|log| == |db.log| + 1 && t == st.t) {
      if RL.Logged(db.log, t) {
        var k :| 0 <= k < |db.log| && db.log[k].tx == t;
        assert log[..|db.log|][k].tx == t;
      }
      if RL.Logged(log, t) {
        var k :| 0 <= k < |log| && log[k].tx == t;
        if k < |db.log| { assert log[..|db.log|][k].tx == t; }
      }
      if |log| == |db.log| + 1 && t == st.t { assert log[|db.log|].tx == t; }
    }
  }

  /** The call in service stays on its track through its own statement. */
  lemma OwnStatement(s: State, c: CallId, m: Mishaps, st: RL.Statement)
    requires c < |s.calls| && (c in s.db.txs
      ==> !s.db.txs[c].phase.Finished? && s.db.txs[c].player == s.calls[c].player)
    requires st == StatementOf(s, c, m) && RL.Enabled(s.db, st) && RL.ReadsCurrent(s.db)
    requires var earlier := s.calls[c].player in s.db.rows;
      c in s.db.txs ==> OnTrack(m, c, Severed(s, c), earlier, false, s.db.txs[c].phase)
    ensures var earlier := s.calls[c].player in s.db.rows;
      var db := RL.Step(s.db, st);
      c in db.txs && OnTrack(m, c, Severed(s, c), earlier, st.Commit? || st.CommitUnacknowledged?, db.txs[c].phase)
  {
    if c in s.db.txs {
      OpenStatement(s, c, m, st);
    }
  }

  lemma OpenStatement(s: State, c: CallId, m: Mishaps, st: RL.Statement)
    requires c < |s.calls| && c in s.db.txs && !s.db.txs[c].phase.Finished? && s.db.txs[c].player == s.calls[c].player
    requires st == StatementOf(s, c, m) && RL.Enabled(s.db, st)
    requires var earlier := s.calls[c].player in s.db.rows;
      OnTrack(m, c, Severed(s, c), earlier, false, s.db.txs[c].phase)
    ensures var earlier := s.calls[c].player in s.db.rows;
      var db := RL.Step(s.db, st);
      c in db.txs && OnTrack(m, c, Severed(s, c), earlier, st.Commit? || st.CommitUnacknowledged?, db.txs[c].phase)
  {
    match s.db.txs[c].phase
    case Begun =>
    case SawNoRow =>
    case Holding(_, _) =>
    case Updated(_, _) =>
  }
}
