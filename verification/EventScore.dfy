/**
 Concurrent AddScore calls: guard, upsert, read back and best-effort leaderboard increment are separate steps that
 interleave freely and may each fail. A failing write may or may not have been applied.
*/
module EventScore {
  import opened Sums

  const MAX_SCORE_DELTA := 1_000_000

  datatype Event = Event(startAt: int, endAt: int)

  datatype Status = Upcoming | Ongoing | Ended

  function StatusAt(e: Event, now: int): Status {
    if now < e.startAt then Upcoming else if now > e.endAt then Ended else Ongoing
  }

  predicate ValidDelta(delta: int) {
    0 < delta <= MAX_SCORE_DELTA
  }

  type Key = (string, string)

  datatype Outcome = Scored(points: int) | InvalidDelta | EventError | NotOngoing | UpsertError | ReadError

  datatype Phase = Started | Checked | Upserted | ReadBack(points: int) | Done(outcome: Outcome)

  /** One AddScore call; the last two fields record which of its two writes took effect. */
  datatype Call = Call(key: Key, delta: int, phase: Phase, upserted: bool, incremented: bool)

  datatype State = State(
    events: map<string, Event>, points: map<Key, int>, board: map<Key, int>, boardOn: bool, calls: seq<Call>)

  datatype Step =
    | Invoke(key: Key, delta: int)
    | Check(c: nat, now: int)
    | CheckFails(c: nat)
    | Upsert(c: nat)
    | UpsertFails(c: nat, applied: bool)
    | Read(c: nat)
    | ReadFails(c: nat)
    | Increment(c: nat)
    | IncrementFails(c: nat, applied: bool)
    | SkipBoard(c: nat)

  function At(m: map<Key, int>, k: Key): int {
    if k in m then m[k] else 0
  }

  function Plus(m: map<Key, int>, k: Key, d: int): map<Key, int> {
    m[k := At(m, k) + d]
  }

  predicate Enabled(s: State, a: Step) {
    match a
    case Invoke(_, _) => true
    case Check(c, _) => c < |s.calls| && s.calls[c].phase.Started?
    case CheckFails(c) => c < |s.calls| && s.calls[c].phase.Started?
    case Upsert(c) => c < |s.calls| && s.calls[c].phase.Checked?
    case UpsertFails(c, _) => c < |s.calls| && s.calls[c].phase.Checked?
    case Read(c) => c < |s.calls| && s.calls[c].phase.Upserted?
    case ReadFails(c) => c < |s.calls| && s.calls[c].phase.Upserted?
    case Increment(c) => c < |s.calls| && s.calls[c].phase.ReadBack? && s.boardOn
    case IncrementFails(c, _) => c < |s.calls| && s.calls[c].phase.ReadBack? && s.boardOn
    case SkipBoard(c) => c < |s.calls| && s.calls[c].phase.ReadBack? && !s.boardOn
  }

  function CheckOutcome(s: State, k: Key, now: int): Phase {
    if k.0 !in s.events then Done(EventError)
    else if StatusAt(s.events[k.0], now) != Ongoing then Done(NotOngoing)
    else Checked
  }

  function Next(s: State, a: Step): State
    requires Enabled(s, a)
  {
    match a
    case Invoke(k, d) =>
      s.(calls := s.calls + [Call(k, d, if ValidDelta(d) then Started else Done(InvalidDelta), false, false)])
    case Check(c, now) => SetCall(s, c, s.calls[c].(phase := CheckOutcome(s, s.calls[c].key, now)))
    case CheckFails(c) => SetCall(s, c, s.calls[c].(phase := Done(EventError)))
    case Upsert(c) =>
      SetCall(s, c, s.calls[c].(phase := Upserted, upserted := true))
        .(points := Plus(s.points, s.calls[c].key, s.calls[c].delta))
    case UpsertFails(c, applied) =>
      SetCall(s, c, s.calls[c].(phase := Done(UpsertError), upserted := applied))
        .(points := if applied then Plus(s.points, s.calls[c].key, s.calls[c].delta) else s.points)
    case Read(c) => SetCall(s, c, s.calls[c].(phase := ReadBack(At(s.points, s.calls[c].key))))
    case ReadFails(c) => SetCall(s, c, s.calls[c].(phase := Done(ReadError)))
    case Increment(c) =>
      SetCall(s, c, s.calls[c].(phase := Done(Scored(s.calls[c].phase.points)), incremented := true))
        .(board := Plus(s.board, s.calls[c].key, s.calls[c].delta))
    case IncrementFails(c, applied) =>
      SetCall(s, c, s.calls[c].(phase := Done(Scored(s.calls[c].phase.points)), incremented := applied))
        .(board := if applied then Plus(s.board, s.calls[c].key, s.calls[c].delta) else s.board)
    case SkipBoard(c) => SetCall(s, c, s.calls[c].(phase := Done(Scored(s.calls[c].phase.points))))
  }

  /** A call passes the check exactly while its event is on. */
  lemma CheckExactly(s: State, c: nat, now: int)
    requires Enabled(s, Check(c, now))
    ensures var k := s.calls[c].key;
      Next(s, Check(c, now)).calls[c].phase ==
      if k.0 !in s.events then Done(EventError)
      else if s.events[k.0].startAt <= now <= s.events[k.0].endAt then Checked
      else Done(NotOngoing)
  {
  }

  function SetCall(s: State, c: nat, call: Call): State
    requires c < |s.calls|
  {
    s.(calls := s.calls[c := call])
  }

  predicate ValidRun(s: State, run: seq<Step>)
    decreases |run|
  {
    run == [] || (Enabled(s, run[0]) && ValidRun(Next(s, run[0]), run[1..]))
  }

  function Exec(s: State, run: seq<Step>): State
    requires ValidRun(s, run)
    decreases |run|
  {
    if run == [] then s else Exec(Next(s, run[0]), run[1..])
  }

  // ---- Invariant ----

  /** Which writes a call in each phase has behind it. */
  predicate CallOk(call: Call) {
    && (call.incremented ==> call.upserted)
    && (call.upserted ==> ValidDelta(call.delta))
    && match call.phase
       case Started => !call.upserted && ValidDelta(call.delta)
       case Checked => !call.upserted && ValidDelta(call.delta)
       case Upserted => call.upserted && !call.incremented
       case ReadBack(_) => call.upserted && !call.incremented
       case Done(Scored(_)) => call.upserted
       case Done(ReadError) => call.upserted && !call.incremented
       case Done(UpsertError) => !call.incremented
       case Done(_) => !call.upserted
  }

  ghost function UpsertedTerm(s: State, k: Key): nat -> int {
    (c: nat) => if c < |s.calls| && s.calls[c].key == k && s.calls[c].upserted then s.calls[c].delta else 0
  }

  ghost function IncrementedTerm(s: State, k: Key): nat -> int {
    (c: nat) => if c < |s.calls| && s.calls[c].key == k && s.calls[c].incremented then s.calls[c].delta else 0
  }

  /** What a call has added to the points but not to the board. */
  ghost function OwedTerm(s: State, k: Key): nat -> int {
    (c: nat) => if c < |s.calls| && s.calls[c].key == k && s.calls[c].upserted && !s.calls[c].incremented
                then s.calls[c].delta else 0
  }

  ghost predicate KeyOk(s: State, start: State, k: Key) {
    && At(s.points, k) == At(start.points, k) + Sum(UpsertedTerm(s, k), |s.calls|)
    && At(s.board, k) == At(start.board, k) + Sum(IncrementedTerm(s, k), |s.calls|)
  }

  /** A read-back total contains the call's own points and is not in the future. */
  predicate ReadOk(s: State, start: State, call: Call) {
    (call.phase.ReadBack? ==> At(start.points, call.key) + call.delta <= call.phase.points <= At(s.points, call.key)) &&
    (call.phase.Done? && call.phase.outcome.Scored? ==>
       At(start.points, call.key) + call.delta <= call.phase.outcome.points <= At(s.points, call.key))
  }

  ghost predicate Inv(s: State, start: State) {
    && (forall c | 0 <= c < |s.calls| :: CallOk(s.calls[c]) && ReadOk(s, start, s.calls[c]))
    && (forall k: Key :: KeyOk(s, start, k))
  }

  lemma StepMovesPoints(s: State, a: Step, k: Key)
    requires Enabled(s, a) && (forall c | 0 <= c < |s.calls| :: CallOk(s.calls[c]))
    ensures At(Next(s, a).points, k) - At(s.points, k) ==
            Sum(UpsertedTerm(Next(s, a), k), |Next(s, a).calls|) - Sum(UpsertedTerm(s, k), |s.calls|)
  {
    var s' := Next(s, a);
    if a.Invoke? {
      SumAgrees(UpsertedTerm(s, k), UpsertedTerm(s', k), |s.calls|);
    } else {
      assert CallOk(s.calls[a.c]);
      SumChanges(UpsertedTerm(s, k), UpsertedTerm(s', k), |s.calls|, a.c);
    }
  }

  lemma StepMovesBoard(s: State, a: Step, k: Key)
    requires Enabled(s, a) && (forall c | 0 <= c < |s.calls| :: CallOk(s.calls[c]))
    ensures At(Next(s, a).board, k) - At(s.board, k) ==
            Sum(IncrementedTerm(Next(s, a), k), |Next(s, a).calls|) - Sum(IncrementedTerm(s, k), |s.calls|)
  {
    var s' := Next(s, a);
    if a.Invoke? {
      SumAgrees(IncrementedTerm(s, k), IncrementedTerm(s', k), |s.calls|);
    } else {
      assert CallOk(s.calls[a.c]);
      SumChanges(IncrementedTerm(s, k), IncrementedTerm(s', k), |s.calls|, a.c);
    }
  }

  lemma StepKeepsKey(s: State, start: State, a: Step, k: Key)
    requires Enabled(s, a) && (forall c | 0 <= c < |s.calls| :: CallOk(s.calls[c])) && KeyOk(s, start, k)
    ensures KeyOk(Next(s, a), start, k)
  {
    StepMovesPoints(s, a, k);
    StepMovesBoard(s, a, k);
  }

  lemma PointsGrow(s: State, a: Step, k: Key)
    requires Enabled(s, a) && (forall c | 0 <= c < |s.calls| :: CallOk(s.calls[c]))
    ensures At(s.points, k) <= At(Next(s, a).points, k)
  {
    assert !a.Invoke? ==> CallOk(s.calls[a.c]);
  }

  lemma ReadSeesOwnPoints(s: State, start: State, c: nat)
    requires Inv(s, start) && c < |s.calls| && s.calls[c].upserted
    ensures At(start.points, s.calls[c].key) + s.calls[c].delta <= At(s.points, s.calls[c].key)
  {
    var k := s.calls[c].key;
    assert KeyOk(s, start, k);
    forall i: nat | i < |s.calls| ensures 0 <= UpsertedTerm(s, k)(i) { assert CallOk(s.calls[i]); }
    SumAtLeastTerm(UpsertedTerm(s, k), |s.calls|, c);
  }

  lemma StepKeepsCallOk(s: State, a: Step, c: nat)
    requires Enabled(s, a) && c < |Next(s, a).calls| && (c < |s.calls| ==> CallOk(s.calls[c]))
    ensures CallOk(Next(s, a).calls[c])
  {
  }

  lemma StepKeepsReadOk(s: State, start: State, a: Step, c: nat)
    requires Enabled(s, a) && c < |s.calls| && CallOk(s.calls[c]) && ReadOk(s, start, s.calls[c])
    requires At(s.points, s.calls[c].key) <= At(Next(s, a).points, s.calls[c].key)
    requires a == Read(c) ==> At(start.points, s.calls[c].key) + s.calls[c].delta <= At(s.points, s.calls[c].key)
    ensures ReadOk(Next(s, a), start, Next(s, a).calls[c])
  {
  }

  lemma StepKeepsInv(s: State, start: State, a: Step)
    requires Inv(s, start) && Enabled(s, a)
    ensures Inv(Next(s, a), start)
  {
    var s' := Next(s, a);
    forall c | 0 <= c < |s'.calls| ensures CallOk(s'.calls[c]) && ReadOk(s', start, s'.calls[c]) {
      if c < |s.calls| {
        assert CallOk(s.calls[c]) && ReadOk(s, start, s.calls[c]);
        PointsGrow(s, a, s.calls[c].key);
        if a == Read(c) { ReadSeesOwnPoints(s, start, c); }
        StepKeepsReadOk(s, start, a, c);
      }
      StepKeepsCallOk(s, a, c);
    }
    forall k: Key ensures KeyOk(s', start, k) {
      assert KeyOk(s, start, k);
      StepKeepsKey(s, start, a, k);
    }
  }

  lemma {:induction false} RunKeepsInv(s: State, start: State, run: seq<Step>)
    requires Inv(s, start) && ValidRun(s, run)
    ensures Inv(Exec(s, run), start)
    decreases |run|
  {
    if run != [] {
      StepKeepsInv(s, start, run[0]);
      RunKeepsInv(Next(s, run[0]), start, run[1..]);
    }
  }

  lemma StartInv(start: State)
    requires start.calls == []
    ensures Inv(start, start)
  {
  }

  // ---- Main results ----

  /** A call that owes the board its delta: in flight, or finished with the second write missing. */
  predicate Owes(call: Call) {
    match call.phase
    case Upserted => true
    case ReadBack(_) => true
    case Done(ReadError) => true
    case Done(Scored(_)) => !call.incremented
    case Done(UpsertError) => call.upserted
    case _ => false
  }

  lemma {:induction false} SumOfDifference(s: State, k: Key, n: nat)
    requires n <= |s.calls| && (forall c | 0 <= c < |s.calls| :: CallOk(s.calls[c]))
    ensures Sum(OwedTerm(s, k), n) == Sum(UpsertedTerm(s, k), n) - Sum(IncrementedTerm(s, k), n)
  {
    if n > 0 {
      SumOfDifference(s, k, n - 1);
      assert CallOk(s.calls[n - 1]);
    }
  }

  /**
   Score conservation: in every reachable state and for every event and player, the points minus the leaderboard score
   have grown by exactly the deltas of the calls that owe the board: those in flight between the two writes, and those
   whose read-back or increment failed.
  */
  lemma ScoreConserved(start: State, run: seq<Step>, k: Key)
    requires start.calls == [] && ValidRun(start, run)
    ensures var s := Exec(start, run);
      && At(s.points, k) - At(s.board, k) == At(start.points, k) - At(start.board, k) + Sum(OwedTerm(s, k), |s.calls|)
      && (forall c: nat | c < |s.calls| && s.calls[c].key == k ::
            OwedTerm(s, k)(c) == if Owes(s.calls[c]) then s.calls[c].delta else 0)
  {
    StartInv(start);
    RunKeepsInv(start, start, run);
    var s := Exec(start, run);
    assert KeyOk(s, start, k);
    SumOfDifference(s, k, |s.calls|);
    forall c: nat | c < |s.calls| && s.calls[c].key == k
      ensures OwedTerm(s, k)(c) == if Owes(s.calls[c]) then s.calls[c].delta else 0
    {
      assert CallOk(s.calls[c]);
    }
  }

  /** The board never runs ahead of the points, and equals them exactly when nobody owes it anything. */
  lemma BoardNeverAhead(start: State, run: seq<Step>, k: Key)
    requires start.calls == [] && ValidRun(start, run) && At(start.points, k) == At(start.board, k)
    ensures var s := Exec(start, run);
      && At(s.board, k) <= At(s.points, k)
      && (At(s.board, k) == At(s.points, k)
         <==> forall c | 0 <= c < |s.calls| && s.calls[c].key == k :: !Owes(s.calls[c]))
  {
    ScoreConserved(start, run, k);
    StartInv(start);
    RunKeepsInv(start, start, run);
    var s := Exec(start, run);
    forall c: nat | c < |s.calls| ensures 0 <= OwedTerm(s, k)(c) { assert CallOk(s.calls[c]); }
    SumMonotone(_ => 0, OwedTerm(s, k), |s.calls|);
    SumOfZeros(|s.calls|);
    if c: nat :| c < |s.calls| && s.calls[c].key == k && Owes(s.calls[c]) {
      assert CallOk(s.calls[c]);
      SumAtLeastTerm(OwedTerm(s, k), |s.calls|, c);
    } else {
      SumAgrees(_ => 0, OwedTerm(s, k), |s.calls|);
    }
  }

  /** A successful response reports a total that contains the caller's own points and was true at some moment. */
  lemma ResponseContainsOwnDelta(start: State, run: seq<Step>, c: nat)
    requires start.calls == [] && ValidRun(start, run)
    requires c < |Exec(start, run).calls| && Exec(start, run).calls[c].phase.Done?
    requires Exec(start, run).calls[c].phase.outcome.Scored?
    ensures var s := Exec(start, run);
      At(start.points, s.calls[c].key) + s.calls[c].delta <= s.calls[c].phase.outcome.points
        <= At(s.points, s.calls[c].key)
  {
    StartInv(start);
    RunKeepsInv(start, start, run);
    assert ReadOk(Exec(start, run), start, Exec(start, run).calls[c]);
  }

  // ---- One call by itself ----

  lemma {:induction false} RunSnoc(s: State, run: seq<Step>, a: Step)
    requires ValidRun(s, run) && Enabled(Exec(s, run), a)
    ensures ValidRun(s, run + [a]) && Exec(s, run + [a]) == Next(Exec(s, run), a)
    decreases |run|
  {
    hide Enabled, Next;
    if run == [] {
      assert (run + [a])[1..] == [];
    } else {
      assert (run + [a])[1..] == run[1..] + [a];
      RunSnoc(Next(s, run[0]), run[1..], a);
    }
  }

  /** The next call's steps until its check, its upsert and its read. */
  function UntilCheck(s: State, k: Key, d: int, now: int): seq<Step> {
    [Invoke(k, d), Check(|s.calls|, now)]
  }

  function UntilUpsert(s: State, k: Key, d: int, now: int): seq<Step> {
    UntilCheck(s, k, d, now) + [Upsert(|s.calls|)]
  }

  function UntilRead(s: State, k: Key, d: int, now: int): seq<Step> {
    UntilUpsert(s, k, d, now) + [Read(|s.calls|)]
  }

  /** The state with a total for one key. */
  function WithTotal(s: State, k: Key, total: int): State {
    s.(points := s.points[k := total])
  }

  /** The state with one more call. */
  function WithCall(s: State, call: Call): State {
    s.(calls := s.calls + [call])
  }

  lemma CheckStep(s: State, k: Key, d: int, now: int)
    requires k.0 in s.events && s.events[k.0].startAt <= now <= s.events[k.0].endAt
    ensures var t, check := WithCall(s, Call(k, d, Started, false, false)), Check(|s.calls|, now);
      Enabled(t, check) && Next(t, check) == WithCall(s, Call(k, d, Checked, false, false))
  {
    var t, check := WithCall(s, Call(k, d, Started, false, false)), Check(|s.calls|, now);
    assert Next(t, check).calls == s.calls + [Call(k, d, Checked, false, false)];
  }

  lemma UpsertStep(s: State, k: Key, d: int)
    ensures var t, upsert := WithCall(s, Call(k, d, Checked, false, false)), Upsert(|s.calls|);
      var total := (if k in s.points then s.points[k] else 0) + d;
      Enabled(t, upsert) && Next(t, upsert) == WithCall(WithTotal(s, k, total), Call(k, d, Upserted, true, false))
  {
    var t, upsert := WithCall(s, Call(k, d, Checked, false, false)), Upsert(|s.calls|);
    assert Next(t, upsert).calls == s.calls + [Call(k, d, Upserted, true, false)];
  }

  lemma ReadStep(s: State, k: Key, d: int)
    requires k in s.points
    ensures var t, read := WithCall(s, Call(k, d, Upserted, true, false)), Read(|s.calls|);
      Enabled(t, read) && Next(t, read) == WithCall(s, Call(k, d, ReadBack(s.points[k]), true, false))
  {
    var t, read := WithCall(s, Call(k, d, Upserted, true, false)), Read(|s.calls|);
    assert Next(t, read).calls == s.calls + [Call(k, d, ReadBack(s.points[k]), true, false)];
  }

  /** Where the call stands after its check. */
  lemma AfterCheck(s: State, k: Key, d: int, now: int)
    requires 1 <= d <= 1_000_000 && k.0 in s.events && s.events[k.0].startAt <= now <= s.events[k.0].endAt
    ensures ValidRun(s, UntilCheck(s, k, d, now))
    ensures Exec(s, UntilCheck(s, k, d, now)) == WithCall(s, Call(k, d, Checked, false, false))
  {
    assert Next(s, Invoke(k, d)) == WithCall(s, Call(k, d, Started, false, false));
    CheckStep(s, k, d, now);
    RunSnoc(s, [], Invoke(k, d));
    assert [] + [Invoke(k, d)] == [Invoke(k, d)];
    hide ValidRun, Exec, Next;
    RunSnoc(s, [Invoke(k, d)], Check(|s.calls|, now));
    assert [Invoke(k, d)] + [Check(|s.calls|, now)] == UntilCheck(s, k, d, now);
  }

  /** Where it stands after its upsert. */
  lemma AfterUpsert(s: State, k: Key, d: int, now: int)
    requires 1 <= d <= 1_000_000 && k.0 in s.events && s.events[k.0].startAt <= now <= s.events[k.0].endAt
    ensures var total := (if k in s.points then s.points[k] else 0) + d;
      && ValidRun(s, UntilUpsert(s, k, d, now))
      && Exec(s, UntilUpsert(s, k, d, now)) == WithCall(WithTotal(s, k, total), Call(k, d, Upserted, true, false))
  {
    hide ValidRun, Exec, Next, Enabled, UntilCheck, WithCall, WithTotal;
    AfterCheck(s, k, d, now);
    UpsertStep(s, k, d);
    RunSnoc(s, UntilCheck(s, k, d, now), Upsert(|s.calls|));
  }

  /** Where it stands after reading its total back. */
  lemma AfterRead(s: State, k: Key, d: int, now: int)
    requires 1 <= d <= 1_000_000 && k.0 in s.events && s.events[k.0].startAt <= now <= s.events[k.0].endAt
    ensures var total := (if k in s.points then s.points[k] else 0) + d;
      && ValidRun(s, UntilRead(s, k, d, now))
      && Exec(s, UntilRead(s, k, d, now)) == WithCall(WithTotal(s, k, total), Call(k, d, ReadBack(total), true, false))
  {
    hide ValidRun, Exec, Next, Enabled, UntilUpsert, WithCall;
    AfterUpsert(s, k, d, now);
    ReadStep(WithTotal(s, k, (if k in s.points then s.points[k] else 0) + d), k, d);
    RunSnoc(s, UntilUpsert(s, k, d, now), Read(|s.calls|));
  }

  /** The state after reading back, and one step more. */
  function ReadState(s: State, k: Key, d: int): State {
    var total := (if k in s.points then s.points[k] else 0) + d;
    WithCall(WithTotal(s, k, total), Call(k, d, ReadBack(total), true, false))
  }

  lemma ReadThen(s: State, k: Key, d: int, now: int, a: Step)
    requires 1 <= d <= 1_000_000 && k.0 in s.events && s.events[k.0].startAt <= now <= s.events[k.0].endAt
    requires Enabled(ReadState(s, k, d), a)
    ensures ValidRun(s, UntilRead(s, k, d, now) + [a])
    ensures Exec(s, UntilRead(s, k, d, now) + [a]) == Next(ReadState(s, k, d), a)
  {
    hide ValidRun, Exec, Next, Enabled, UntilRead, WithCall, WithTotal;
    AfterRead(s, k, d, now);
    RunSnoc(s, UntilRead(s, k, d, now), a);
  }

  /** The state with a delta added to one key's place on the board. */
  function WithPlace(s: State, k: Key, d: int): State {
    s.(board := s.board[k := (if k in s.board then s.board[k] else 0) + d])
  }

  lemma IncrementSteps(s: State, k: Key, d: int, applied: bool)
    requires s.boardOn
    ensures var increment, fails := Increment(|s.calls|), IncrementFails(|s.calls|, applied);
      var total := (if k in s.points then s.points[k] else 0) + d;
      var scored, done := WithTotal(s, k, total), Done(Scored(total));
      && Enabled(ReadState(s, k, d), increment)
      && Next(ReadState(s, k, d), increment) == WithCall(WithPlace(scored, k, d), Call(k, d, done, true, true))
      && Enabled(ReadState(s, k, d), fails)
      && Next(ReadState(s, k, d), fails)
         == WithCall(if applied then WithPlace(scored, k, d) else scored, Call(k, d, done, true, applied))
  {
    var t := ReadState(s, k, d);
    var done := Done(Scored((if k in s.points then s.points[k] else 0) + d));
    assert Next(t, Increment(|s.calls|)).calls == s.calls + [Call(k, d, done, true, true)];
    assert Next(t, IncrementFails(|s.calls|, applied)).calls == s.calls + [Call(k, d, done, true, applied)];
  }

  lemma SkipStep(s: State, k: Key, d: int)
    requires !s.boardOn
    ensures var total := (if k in s.points then s.points[k] else 0) + d;
      && Enabled(ReadState(s, k, d), SkipBoard(|s.calls|))
      && Next(ReadState(s, k, d), SkipBoard(|s.calls|))
         == WithCall(WithTotal(s, k, total), Call(k, d, Done(Scored(total)), true, false))
  {
    var t, skip := ReadState(s, k, d), SkipBoard(|s.calls|);
    var done := Done(Scored((if k in s.points then s.points[k] else 0) + d));
    assert Next(t, skip).calls == s.calls + [Call(k, d, done, true, false)];
  }

  /**
   A call that nothing disturbs, from any state on: with a delta from 1 to a million and while its event is on it
   scores, adds its delta to its own points and, where there is a board, to its own place on it, and reports the total.
  */
  lemma UndisturbedCallScores(s: State, k: Key, d: int, now: int)
    requires 1 <= d <= 1_000_000 && k.0 in s.events && s.events[k.0].startAt <= now <= s.events[k.0].endAt
    ensures var run := UntilRead(s, k, d, now) + [if s.boardOn then Increment(|s.calls|) else SkipBoard(|s.calls|)];
      var total := (if k in s.points then s.points[k] else 0) + d;
      var scored := WithTotal(s, k, total);
      ValidRun(s, run) && Exec(s, run) == WithCall(if s.boardOn then WithPlace(scored, k, d) else scored,
                                                   Call(k, d, Done(Scored(total)), true, s.boardOn))
  {
    hide ValidRun, Exec, Next, Enabled, UntilRead, WithCall, WithPlace, WithTotal, ReadState;
    if s.boardOn {
      IncrementSteps(s, k, d, true);
      ReadThen(s, k, d, now, Increment(|s.calls|));
    } else {
      SkipStep(s, k, d);
      ReadThen(s, k, d, now, SkipBoard(|s.calls|));
    }
  }

  lemma FailedSteps(s: State, k: Key, d: int, applied: bool)
    ensures var t, fails := WithCall(s, Call(k, d, Checked, false, false)), UpsertFails(|s.calls|, applied);
      var total := (if k in s.points then s.points[k] else 0) + d;
      Enabled(t, fails) && Next(t, fails)
        == WithCall(if applied then WithTotal(s, k, total) else s, Call(k, d, Done(UpsertError), applied, false))
    ensures var t, fails := WithCall(s, Call(k, d, Upserted, true, false)), ReadFails(|s.calls|);
      Enabled(t, fails) && Next(t, fails) == WithCall(s, Call(k, d, Done(ReadError), true, false))
  {
    var c := |s.calls|;
    var t, u := WithCall(s, Call(k, d, Checked, false, false)), WithCall(s, Call(k, d, Upserted, true, false));
    assert Next(t, UpsertFails(c, applied)).calls == s.calls + [Call(k, d, Done(UpsertError), applied, false)];
    assert Next(u, ReadFails(c)).calls == s.calls + [Call(k, d, Done(ReadError), true, false)];
  }

  /**
   The same call with its one failing step: a failing upsert ends it there and counts the delta or not, a failing read
   ends it with the points in place.
  */
  lemma FailingStepDecides(s: State, k: Key, d: int, now: int, applied: bool)
    requires 1 <= d <= 1_000_000 && k.0 in s.events && s.events[k.0].startAt <= now <= s.events[k.0].endAt
    ensures var upsert := UntilCheck(s, k, d, now) + [UpsertFails(|s.calls|, applied)];
      var read := UntilUpsert(s, k, d, now) + [ReadFails(|s.calls|)];
      var scored := WithTotal(s, k, (if k in s.points then s.points[k] else 0) + d);
      && ValidRun(s, upsert)
      && Exec(s, upsert) == WithCall(if applied then scored else s, Call(k, d, Done(UpsertError), applied, false))
      && ValidRun(s, read) && Exec(s, read) == WithCall(scored, Call(k, d, Done(ReadError), true, false))
  {
    var scored := WithTotal(s, k, (if k in s.points then s.points[k] else 0) + d);
    hide ValidRun, Exec, Next, Enabled, UntilCheck, UntilUpsert, WithCall;
    AfterCheck(s, k, d, now);
    AfterUpsert(s, k, d, now);
    FailedSteps(s, k, d, applied);
    FailedSteps(scored, k, d, applied);
    RunSnoc(s, UntilCheck(s, k, d, now), UpsertFails(|s.calls|, applied));
    RunSnoc(s, UntilUpsert(s, k, d, now), ReadFails(|s.calls|));
  }

  /** And a failing increment still reports the total; the board has the delta or not. */
  lemma FailingIncrementScores(s: State, k: Key, d: int, now: int, applied: bool)
    requires 1 <= d <= 1_000_000 && k.0 in s.events && s.events[k.0].startAt <= now <= s.events[k.0].endAt
    requires s.boardOn
    ensures var run := UntilRead(s, k, d, now) + [IncrementFails(|s.calls|, applied)];
      var total := (if k in s.points then s.points[k] else 0) + d;
      var scored := WithTotal(s, k, total);
      ValidRun(s, run) && Exec(s, run) ==
        WithCall(if applied then WithPlace(scored, k, d) else scored, Call(k, d, Done(Scored(total)), true, applied))
  {
    hide ValidRun, Exec, Next, Enabled, UntilRead, WithCall, WithPlace, WithTotal, ReadState;
    IncrementSteps(s, k, d, applied);
    ReadThen(s, k, d, now, IncrementFails(|s.calls|, applied));
  }
}
