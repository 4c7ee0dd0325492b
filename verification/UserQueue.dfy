/**
 V2UserQueue as a state machine: callers, one bounded channel and one worker per player, capacity-1 reply channels,
 contexts that end at any moment, and the row-locking table underneath. Each action is one atomic step of the program: a
 mutex-protected section, a channel operation, or a single SQL statement; any action of any goroutine may come next. A
 select whose context has ended may still take its channel branch. The request carries its caller's context into the
 repository: a context-aware one issues no statement of a transaction after the context has ended, except that a commit
 already sent may still take effect. A call's number doubles as the number of its transaction.
*/
module UserQueue {
  import opened BattleDomain
  import opened Options
  import RL = RowLock

  const QUEUE_CAPACITY := 64

  type CallId = nat

  /** What Apply returns: (hp, nil), or one of its errors. */
  datatype Outcome = Damaged(hp: int) | InvalidDamage | EnqueueError | AwaitError | RepoError(stage: RL.Stage)

  /** The calling goroutine. */
  datatype Client = Arrived | Enqueueing | Awaiting | Returned(outcome: Outcome)

  /** The request envelope, from the channel to the reply. */
  datatype Work = Unsent | Queued | InService(worker: nat) | Replied
  {
    /** How far the request has moved, most advanced first. */
    function Order(): nat {
      if Replied? then 0 else if InService? then 1 else 2
    }
  }

  /**
   One Apply call; ended says that its context is done. The last four fields record when the call reached each point, on
   the clock of steps.
  */
  datatype Call = Call(
    player: Player, damage: int, client: Client, work: Work, reply: Option<RL.Result>, ended: bool,
    invokedAt: nat, sentAt: nat, appliedAt: nat, returnedAt: nat)

  datatype Worker = Worker(player: Player, job: Option<CallId>)

  /** ctxAware: the repository heeds contexts, as the MySQL one does and the in-memory one does not. */
  datatype State = State(
    calls: seq<Call>, queues: map<Player, seq<CallId>>, workers: seq<Worker>, db: RL.Db, ctxAware: bool, clock: nat)

  datatype Action =
    | Invoke(player: Player, damage: int)
    | End(c: CallId)
    | Locate(c: CallId)
    | Send(c: CallId)
    | CancelEnqueue(c: CallId)
    | Take(w: nat)
    | Repo(w: nat, s: RL.Statement)
    | Reply(w: nat)
    | Receive(c: CallId)
    | CancelAwait(c: CallId)

  function Init(rows: map<Player, int>, ctxAware: bool): State {
    State([], map[], [], RL.Init(rows), ctxAware, 0)
  }

  /** The repository refuses to go on with this call, because its context has ended. */
  predicate Severed(s: State, c: CallId) {
    s.ctxAware && c < |s.calls| && s.calls[c].ended
  }

  /** New calls, ending contexts, giving up, and repository faults that no ended context explains. */
  predicate IsEnvironment(s: State, a: Action) {
    a.Invoke? || a.End? || a.CancelEnqueue? || a.CancelAwait? || (a.Repo? && a.s.IsFault() && !Severed(s, a.s.t))
  }

  predicate Busy(s: State, w: nat) {
    w < |s.workers| && s.workers[w].job.Some? && s.workers[w].job.value < |s.calls|
  }

  /** The worker issues statements for the call it is serving, with that call's player and damage. */
  predicate IssuedFor(s: State, c: CallId, st: RL.Statement)
    requires c < |s.calls|
  {
    && st.t == c
    && (st.Begin? || st.Refuse? ==> st.player == s.calls[c].player && st.damage == s.calls[c].damage)
    && (Severed(s, c) ==> !st.Begin? && !st.Select? && !st.Insert? && !st.Update?)
  }

  predicate Enabled(s: State, a: Action) {
    match a
    case Invoke(_, _) => true
    case End(c) => c < |s.calls| && !s.calls[c].ended
    case Locate(c) => c < |s.calls| && s.calls[c].client.Arrived?
    case Send(c) =>
      && c < |s.calls| && s.calls[c].client.Enqueueing?
      && s.calls[c].player in s.queues && |s.queues[s.calls[c].player]| < QUEUE_CAPACITY
    case CancelEnqueue(c) => c < |s.calls| && s.calls[c].client.Enqueueing? && s.calls[c].ended
    case Take(w) =>
      && w < |s.workers| && s.workers[w].job.None?
      && s.workers[w].player in s.queues && s.queues[s.workers[w].player] != []
      && s.queues[s.workers[w].player][0] < |s.calls|
    case Repo(w, st) => Busy(s, w) && IssuedFor(s, s.workers[w].job.value, st) && RL.Enabled(s.db, st)
    case Reply(w) =>
      && Busy(s, w)
      && s.workers[w].job.value in s.db.txs && s.db.txs[s.workers[w].job.value].phase.Finished?
      && s.calls[s.workers[w].job.value].reply.None?
    case Receive(c) => c < |s.calls| && s.calls[c].client.Awaiting? && s.calls[c].reply.Some?
    case CancelAwait(c) => c < |s.calls| && s.calls[c].client.Awaiting? && s.calls[c].ended
  }

  function OutcomeOf(r: RL.Result): Outcome {
    match r
    case Ok(hp) => Damaged(hp)
    case Failed(stage) => RepoError(stage)
  }

  function SetCall(s: State, c: CallId, call: Call): State
    requires c < |s.calls|
  {
    s.(calls := s.calls[c := call], clock := s.clock + 1)
  }

  function Step(s: State, a: Action): State
    requires Enabled(s, a)
  {
    match a
    case Invoke(p, d) =>
      var client := if ValidDamage(d) then Arrived else Returned(InvalidDamage);
      s.(calls := s.calls + [Call(p, d, client, Unsent, None, false, s.clock, 0, 0, s.clock)], clock := s.clock + 1)
    case End(c) => SetCall(s, c, s.calls[c].(ended := true))
    case Locate(c) =>
      var p := s.calls[c].player;
      var located := SetCall(s, c, s.calls[c].(client := Enqueueing));
      if p in s.queues then located
      else located.(queues := s.queues[p := []], workers := s.workers + [Worker(p, None)])
    case Send(c) =>
      var p := s.calls[c].player;
      SetCall(s, c, s.calls[c].(client := Awaiting, work := Queued, sentAt := s.clock))
        .(queues := s.queues[p := s.queues[p] + [c]])
    case CancelEnqueue(c) =>
      SetCall(s, c, s.calls[c].(client := Returned(EnqueueError), returnedAt := s.clock))
    case Take(w) =>
      var p := s.workers[w].player;
      var c := s.queues[p][0];
      SetCall(s, c, s.calls[c].(work := InService(w)))
        .(queues := s.queues[p := s.queues[p][1..]], workers := s.workers[w := Worker(p, Some(c))])
    case Repo(w, st) =>
      var c := s.workers[w].job.value;
      var call := if st.Commit? || st.CommitUnacknowledged? then s.calls[c].(appliedAt := s.clock) else s.calls[c];
      SetCall(s, c, call).(db := RL.Step(s.db, st))
    case Reply(w) =>
      var c := s.workers[w].job.value;
      SetCall(s, c, s.calls[c].(work := Replied, reply := Some(s.db.txs[c].phase.result)))
        .(workers := s.workers[w := s.workers[w].(job := None)])
    case Receive(c) =>
      SetCall(s, c, s.calls[c].(client := Returned(OutcomeOf(s.calls[c].reply.value)), reply := None,
                                returnedAt := s.clock))
    case CancelAwait(c) =>
      SetCall(s, c, s.calls[c].(client := Returned(AwaitError), returnedAt := s.clock))
  }

  predicate ValidRun(s: State, run: seq<Action>)
    decreases |run|
  {
    run == [] || (Enabled(s, run[0]) && ValidRun(Step(s, run[0]), run[1..]))
  }

  function Exec(s: State, run: seq<Action>): State
    requires ValidRun(s, run)
    decreases |run|
  {
    if run == [] then s else Exec(Step(s, run[0]), run[1..])
  }

  /** The states the program can be in, from a given table. */
  ghost predicate Reachable(s: State, start: map<Player, int>) {
    exists run :: ValidRun(Init(start, s.ctxAware), run) && Exec(Init(start, s.ctxAware), run) == s
  }
}
