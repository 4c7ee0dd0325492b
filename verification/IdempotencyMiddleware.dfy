/** Concurrent requests through the Idempotency middleware: lookup, execute, store, under a shared clock. */
module IdempotencyMiddleware {
  import opened IdempotencyStore
  import opened Options
  import Keys

  datatype Phase =
    | Arrived
    | Replayed(replay: Entry)
    | Executing
    | Executed(response: Entry)
    | Finished(sent: Entry, stored: bool)

  /** One write request with an Idempotency-Key; the lookup fields are meaningful once it has looked up. */
  datatype Request = Request(key: string, phase: Phase, lookupStep: nat, lookupTime: int, lookupFailed: bool,
                             storedStep: nat, storedTime: int)

  /** A Set that took effect: by which request, at which step and check time, and until when it holds. */
  datatype Win = Win(key: string, author: nat, entry: Entry, step: nat, time: int, expiresAt: int)

  /** wins records the effective Sets, oldest first, and latest points at the newest one of each key. */
  datatype State = State(entries: Entries, ttl: int, requests: seq<Request>, wins: seq<Win>, latest: map<string, nat>,
                         now: int, steps: nat)

  datatype Step =
    | Arrive(key: string)
    | Tick(delay: nat)
    | Lookup(r: nat)
    | LookupFails(r: nat)
    | Respond(r: nat, response: Entry)
    | StoreResponse(r: nat, delay: nat)
    | StoreFails(r: nat)
    | Clean

  function Init(ttl: int, now: int): State {
    State(map[], ttl, [], [], map[], now, 0)
  }

  predicate Enabled(s: State, a: Step) {
    match a
    case Arrive(_) => true
    case Tick(_) => true
    case Lookup(r) => r < |s.requests| && s.requests[r].phase.Arrived?
    case LookupFails(r) => r < |s.requests| && s.requests[r].phase.Arrived?
    case Respond(r, _) => r < |s.requests| && s.requests[r].phase.Executing?
    case StoreResponse(r, _) => r < |s.requests| && s.requests[r].phase.Executed?
    case StoreFails(r) => r < |s.requests| && s.requests[r].phase.Executed?
    case Clean => true
  }

  function SetRequest(s: State, r: nat, q: Request): State
    requires r < |s.requests|
  {
    s.(requests := s.requests[r := q], steps := s.steps + 1)
  }

  function Next(s: State, a: Step): State
    requires Enabled(s, a)
  {
    match a
    case Arrive(key) =>
      s.(requests := s.requests + [Request(key, Arrived, 0, 0, false, 0, 0)], steps := s.steps + 1)
    case Tick(delay) => s.(now := s.now + delay, steps := s.steps + 1)
    case Lookup(r) =>
      var q := s.requests[r].(lookupStep := s.steps, lookupTime := s.now);
      var found := Found(s.entries, q.key, s.now);
      SetRequest(s, r, q.(phase := if found.Some? then Replayed(found.value) else Executing))
        .(entries := AfterGet(s.entries, q.key, s.now))
    case LookupFails(r) =>
      SetRequest(s, r, s.requests[r].(phase := Executing, lookupStep := s.steps, lookupTime := s.now,
        lookupFailed := true))
    case Respond(r, response) => SetRequest(s, r, s.requests[r].(phase := Executed(response)))
    case StoreResponse(r, delay) => Store(s, r, delay)
    case StoreFails(r) => SetRequest(s, r, s.requests[r].(phase := Finished(s.requests[r].phase.response, false)))
    case Clean => s.(entries := AfterSweep(s.entries, s.now), steps := s.steps + 1)
  }

  /** Whether a Set would find the key free or expired. */
  predicate Vacant(s: State, key: string) {
    key !in s.entries || s.now >= s.entries[key].expiresAt
  }

  function Store(s: State, r: nat, delay: nat): State
    requires r < |s.requests| && s.requests[r].phase.Executed?
  {
    var key := s.requests[r].key;
    var entry := s.requests[r].phase.response;
    var after := SetRequest(s, r,
      s.requests[r].(phase := Finished(entry, true), storedStep := s.steps, storedTime := s.now))
      .(entries := AfterSet(s.entries, s.ttl, key, entry, s.now, s.now + delay), now := s.now + delay);
    if Vacant(s, key) then
      after.(wins := s.wins + [Win(key, r, entry, s.steps, s.now, s.now + delay + s.ttl)],
             latest := s.latest[key := |s.wins|])
    else after
  }

  predicate ValidRun(s: State, run: seq<Step>)
    decreases |run|
  {
    run == [] || (Enabled(s, run[0]) && ValidRun(Next(s, run[0]), run[1..]))
  }

  function Exec(s: State, run: seq<Step>): State
    requires ValidRun(s, run)
    decreases |run|
  {
    if run == [] then s else Exec(Next(s, run[0]), run[1..])
  }

  // ---- Invariant ----

  /** The map holds the newest win of a key until it has expired. */
  ghost predicate MapOk(s: State) {
    && (forall k | k in s.latest :: s.latest[k] < |s.wins| && s.wins[s.latest[k]].key == k)
    && (forall k | k in s.entries ::
          k in s.latest && s.entries[k] == Stored(s.wins[s.latest[k]].entry, s.wins[s.latest[k]].expiresAt))
    && (forall k | k in s.latest && k !in s.entries :: s.now > s.wins[s.latest[k]].expiresAt)
  }

  /** Wins of one key do not overlap: the next one comes only when the previous has run out. */
  ghost predicate WinsOk(s: State) {
    && (forall i | 0 <= i < |s.wins| :: WinOk(s, i))
    && (forall i, j | 0 <= i < j < |s.wins| && s.wins[i].key == s.wins[j].key :: s.wins[i].expiresAt <= s.wins[j].time)
  }

  ghost predicate WinOk(s: State, i: nat)
    requires i < |s.wins|
  {
    var w := s.wins[i];
    && w.key in s.latest && i <= s.latest[w.key]
    && w.step < s.steps && w.time <= s.now && w.time < w.expiresAt
    && w.author < |s.requests| && s.requests[w.author].key == w.key
       && s.requests[w.author].phase == Finished(w.entry, true)
  }

  predicate LookedUp(q: Request) {
    !q.phase.Arrived?
  }

  /** A lookup that came after a win and before its expiry replays it. */
  ghost predicate Agrees(q: Request, w: Win) {
    q.key == w.key && LookedUp(q) && !q.lookupFailed && w.step < q.lookupStep && q.lookupTime < w.expiresAt ==>
      q.phase == Replayed(w.entry)
  }

  ghost predicate RequestOk(s: State, r: nat)
    requires r < |s.requests|
  {
    var q := s.requests[r];
    && (LookedUp(q) ==> q.lookupStep < s.steps && q.lookupTime <= s.now)
    && (forall i | 0 <= i < |s.wins| :: Agrees(q, s.wins[i]))
    && (q.phase.Replayed? ==> ReplaysSome(s, q))
    && (q.phase.Finished? && q.phase.stored ==> CoveredBySome(s, q))
  }

  /** A replay is the response of an earlier win of its key that had not run out. */
  ghost predicate ReplaysSome(s: State, q: Request)
    requires q.phase.Replayed?
  {
    exists i :: 0 <= i < |s.wins| && s.wins[i].key == q.key && s.wins[i].entry == q.phase.replay
                && s.wins[i].step < q.lookupStep && s.wins[i].time <= q.lookupTime <= s.wins[i].expiresAt
  }

  /** After a Set some win of the key is in force: its own or the one it found. */
  ghost predicate CoveredBySome(s: State, q: Request) {
    exists i :: 0 <= i < |s.wins| && s.wins[i].key == q.key
                && s.wins[i].step <= q.storedStep && s.wins[i].time <= q.storedTime < s.wins[i].expiresAt
  }

  ghost predicate Inv(s: State) {
    && s.ttl > 0
    && MapOk(s)
    && WinsOk(s)
    && (forall r: nat | r < |s.requests| :: RequestOk(s, r))
  }

  /** A win that has not run out is the newest of its key and is what the map holds. */
  lemma LiveWinIsHeld(s: State, i: nat)
    requires MapOk(s) && WinsOk(s) && i < |s.wins| && s.now < s.wins[i].expiresAt
    ensures s.wins[i].key in s.entries
    ensures s.entries[s.wins[i].key] == Stored(s.wins[i].entry, s.wins[i].expiresAt)
  {
    assert WinOk(s, i);
    var j := s.latest[s.wins[i].key];
    assert WinOk(s, j);
  }

  lemma LookupKeepsInv(s: State, r: nat)
    requires Inv(s) && Enabled(s, Lookup(r))
    ensures Inv(Next(s, Lookup(r)))
  {
    var s' := Next(s, Lookup(r));
    var key := s.requests[r].key;
    var found := Found(s.entries, key, s.now);
    forall i: nat | i < |s.wins| ensures WinOk(s', i) { assert WinOk(s, i); }
    forall q: nat | q < |s'.requests| ensures RequestOk(s', q) {
      assert RequestOk(s, q);
      if q == r {
        forall i | 0 <= i < |s.wins| ensures Agrees(s'.requests[r], s.wins[i]) {
          if s.wins[i].key == key && s.now < s.wins[i].expiresAt { LiveWinIsHeld(s, i); }
        }
        if found.Some? {
          var i := s.latest[key];
          assert WinOk(s, i);
          assert s.wins[i].key == key && s.wins[i].entry == found.value;
        }
      }
    }
  }

  lemma StoreKeepsMap(s: State, r: nat, delay: nat)
    requires Inv(s) && Enabled(s, StoreResponse(r, delay))
    ensures MapOk(Store(s, r, delay))
  {
    var s' := Store(s, r, delay);
    var key := s.requests[r].key;
    if Vacant(s, key) {
      assert s'.entries == s.entries[key := Stored(s.requests[r].phase.response, s.now + delay + s.ttl)];
    } else {
      assert s'.entries == s.entries && s'.latest == s.latest && s'.wins == s.wins;
    }
  }

  lemma StoreKeepsOldWin(s: State, r: nat, delay: nat, i: nat)
    requires Inv(s) && Enabled(s, StoreResponse(r, delay)) && i < |s.wins|
    ensures i < |Store(s, r, delay).wins| && Store(s, r, delay).wins[i] == s.wins[i] && WinOk(Store(s, r, delay), i)
    ensures Vacant(s, s.requests[r].key) && s.wins[i].key == s.requests[r].key ==> s.wins[i].expiresAt <= s.now
  {
    assert WinOk(s, i);
    if s.wins[i].key == s.requests[r].key && s.now < s.wins[i].expiresAt { LiveWinIsHeld(s, i); }
  }

  lemma StoreKeepsWins(s: State, r: nat, delay: nat)
    requires Inv(s) && Enabled(s, StoreResponse(r, delay))
    ensures WinsOk(Store(s, r, delay))
  {
    var s' := Store(s, r, delay);
    var n := |s.wins|;
    forall i: nat | i < |s'.wins| ensures WinOk(s', i) { if i < n { StoreKeepsOldWin(s, r, delay, i); } }
    forall i, j | 0 <= i < j < |s'.wins| && s'.wins[i].key == s'.wins[j].key
      ensures s'.wins[i].expiresAt <= s'.wins[j].time
    {
      StoreKeepsOldWin(s, r, delay, i);
      if j < n { StoreKeepsOldWin(s, r, delay, j); }
    }
  }

  /** A store only appends a win and only touches its own request. */
  lemma StoreFrame(s: State, r: nat, delay: nat)
    requires Enabled(s, StoreResponse(r, delay))
    ensures var s' := Store(s, r, delay);
      && |s.wins| <= |s'.wins| && s'.wins[..|s.wins|] == s.wins
      && |s'.requests| == |s.requests|
         && (forall q | 0 <= q < |s.requests| && q != r :: s'.requests[q] == s.requests[q])
      && s'.steps == s.steps + 1 && s.now <= s'.now
      && (forall i | |s.wins| <= i < |s'.wins| :: s'.wins[i].step == s.steps)
  {
  }

  lemma StoreKeepsReplay(s: State, r: nat, delay: nat, q: nat)
    requires Enabled(s, StoreResponse(r, delay)) && q < |s.requests| && q != r
    requires s.requests[q].phase.Replayed? && ReplaysSome(s, s.requests[q])
    ensures ReplaysSome(Store(s, r, delay), s.requests[q])
  {
    StoreFrame(s, r, delay);
    hide Store;
    var w := s.requests[q];
    var i :| 0 <= i < |s.wins| && s.wins[i].key == w.key && s.wins[i].entry == w.phase.replay
             && s.wins[i].step < w.lookupStep && s.wins[i].time <= w.lookupTime <= s.wins[i].expiresAt;
    assert Store(s, r, delay).wins[..|s.wins|][i] == s.wins[i];
  }

  lemma StoreKeepsCovered(s: State, r: nat, delay: nat, q: nat)
    requires Enabled(s, StoreResponse(r, delay)) && q < |s.requests| && CoveredBySome(s, s.requests[q])
    ensures CoveredBySome(Store(s, r, delay), s.requests[q])
  {
    StoreFrame(s, r, delay);
    hide Store;
    var w := s.requests[q];
    var i :| 0 <= i < |s.wins| && s.wins[i].key == w.key
             && s.wins[i].step <= w.storedStep && s.wins[i].time <= w.storedTime < s.wins[i].expiresAt;
    assert Store(s, r, delay).wins[..|s.wins|][i] == s.wins[i];
  }

  /** After its own store a request is covered: by its own win, or by the one that kept it from storing. */
  lemma StoreCovers(s: State, r: nat, delay: nat)
    requires Inv(s) && Enabled(s, StoreResponse(r, delay))
    ensures CoveredBySome(Store(s, r, delay), Store(s, r, delay).requests[r])
  {
    var s' := Store(s, r, delay);
    var i := if Vacant(s, s.requests[r].key) then |s.wins| else s.latest[s.requests[r].key];
    if i < |s.wins| { assert WinOk(s, i); }
    assert s'.wins[i].key == s.requests[r].key && s'.wins[i].step <= s.steps;
    assert s'.wins[i].time <= s.now < s'.wins[i].expiresAt;
  }

  /** Wins appended now come after every lookup so far. */
  lemma StoreKeepsAgrees(s: State, r: nat, delay: nat, q: nat, i: nat)
    requires Enabled(s, StoreResponse(r, delay)) && q < |s.requests| && i < |Store(s, r, delay).wins| && RequestOk(s, q)
    ensures Agrees(Store(s, r, delay).requests[q], Store(s, r, delay).wins[i])
  {
    StoreFrame(s, r, delay);
    var s' := Store(s, r, delay);
    if i < |s.wins| {
      assert s'.wins[..|s.wins|][i] == s.wins[i];
      assert Agrees(s.requests[q], s.wins[i]);
    }
  }

  lemma StoreKeepsRequests(s: State, r: nat, delay: nat, q: nat)
    requires Inv(s) && Enabled(s, StoreResponse(r, delay)) && q < |s.requests|
    ensures RequestOk(Store(s, r, delay), q)
  {
    var s' := Store(s, r, delay);
    assert RequestOk(s, q);
    StoreFrame(s, r, delay);
    if q == r {
      StoreCovers(s, r, delay);
    } else if s.requests[q].phase.Replayed? {
      StoreKeepsReplay(s, r, delay, q);
    } else if s.requests[q].phase.Finished? && s.requests[q].phase.stored {
      StoreKeepsCovered(s, r, delay, q);
    }
    hide Inv, ReplaysSome, CoveredBySome, Agrees;
    forall i: nat | i < |s'.wins| ensures Agrees(s'.requests[q], s'.wins[i]) {
      StoreKeepsAgrees(s, r, delay, q, i);
    }
  }

  lemma OtherKeepsInv(s: State, a: Step)
    requires Inv(s) && Enabled(s, a) && !a.Lookup? && !a.StoreResponse?
    ensures Inv(Next(s, a))
  {
    var s' := Next(s, a);
    forall i: nat | i < |s.wins| ensures WinOk(s', i) { assert WinOk(s, i); }
    forall q: nat | q < |s'.requests| ensures RequestOk(s', q) {
      if q < |s.requests| { assert RequestOk(s, q); }
    }
  }

  lemma StepKeepsInv(s: State, a: Step)
    requires Inv(s) && Enabled(s, a)
    ensures Inv(Next(s, a))
  {
    match a
    case Lookup(r) => LookupKeepsInv(s, r);
    case StoreResponse(r, delay) =>
      StoreKeepsMap(s, r, delay);
      StoreKeepsWins(s, r, delay);
      forall q: nat | q < |Next(s, a).requests| ensures RequestOk(Next(s, a), q) {
        StoreKeepsRequests(s, r, delay, q);
      }
    case _ => OtherKeepsInv(s, a);
  }

  lemma {:induction false} RunKeepsInv(s: State, run: seq<Step>)
    requires Inv(s) && ValidRun(s, run)
    ensures Inv(Exec(s, run))
    decreases |run|
  {
    if run != [] {
      StepKeepsInv(s, run[0]);
      RunKeepsInv(Next(s, run[0]), run[1..]);
    }
  }

  // ---- Main results ----

  /**
   Concurrent replays agree. However requests interleave: once a Set of a key took effect, every lookup of that key
   after it and strictly before its expiry replays exactly that response. Equivalently, a handler execution of the key
   in that window had looked up before the Set, or its lookup failed.
  */
  lemma ReplaysAgree(ttl: int, now: int, run: seq<Step>, i: nat, r: nat)
    requires 0 < ttl && ValidRun(Init(ttl, now), run)
    requires i < |Exec(Init(ttl, now), run).wins| && r < |Exec(Init(ttl, now), run).requests|
    ensures var s := Exec(Init(ttl, now), run);
      var w, q := s.wins[i], s.requests[r];
      && w.author < |s.requests| && w.key == s.requests[w.author].key
         && s.requests[w.author].phase == Finished(w.entry, true)
      && (q.key == w.key && LookedUp(q) && q.lookupTime < w.expiresAt ==>
            q.phase == Replayed(w.entry) || q.lookupStep <= w.step || q.lookupFailed)
  {
    RunKeepsInv(Init(ttl, now), run);
    var s := Exec(Init(ttl, now), run);
    assert WinOk(s, i) && RequestOk(s, r);
    assert Agrees(s.requests[r], s.wins[i]);
  }

  /** The replay is the response of the author of this win, stored before the lookup and not expired at it. */
  predicate Replays(s: State, q: Request, w: Win)
    requires q.phase.Replayed?
  {
    && w.author < |s.requests| && s.requests[w.author].key == w.key == q.key
    && s.requests[w.author].phase == Finished(q.phase.replay, true)
    && w.step < q.lookupStep && w.time <= q.lookupTime <= w.expiresAt
  }

  /** Every replay is the recorded response of one request of its key that stored it before and had not expired. */
  lemma ReplayIsGenuine(ttl: int, now: int, run: seq<Step>, r: nat)
    requires 0 < ttl && ValidRun(Init(ttl, now), run)
    requires r < |Exec(Init(ttl, now), run).requests| && Exec(Init(ttl, now), run).requests[r].phase.Replayed?
    ensures var s := Exec(Init(ttl, now), run);
      var q := s.requests[r];
      exists i: nat :: i < |s.wins| && Replays(s, q, s.wins[i])
  {
    RunKeepsInv(Init(ttl, now), run);
    var s := Exec(Init(ttl, now), run);
    var q := s.requests[r];
    assert RequestOk(s, r) && ReplaysSome(s, q);
    var i :| 0 <= i < |s.wins| && s.wins[i].key == q.key && s.wins[i].entry == q.phase.replay
             && s.wins[i].step < q.lookupStep && s.wins[i].time <= q.lookupTime <= s.wins[i].expiresAt;
    assert WinOk(s, i) && Replays(s, q, s.wins[i]);
  }

  /**
   Requests that do not overlap run the handler once: after a request has stored, there is a response of its key in
   force, and every later lookup before that response expires replays it instead of executing.
  */
  lemma NoSecondExecution(ttl: int, now: int, run: seq<Step>, first: nat) returns (i: nat)
    requires 0 < ttl && ValidRun(Init(ttl, now), run) && first < |Exec(Init(ttl, now), run).requests|
    requires Exec(Init(ttl, now), run).requests[first].phase.Finished?
    requires Exec(Init(ttl, now), run).requests[first].phase.stored
    ensures var s := Exec(Init(ttl, now), run);
      && i < |s.wins| && s.wins[i].key == s.requests[first].key && s.requests[first].storedTime < s.wins[i].expiresAt
      && (forall r: nat | r < |s.requests| ::
            var q := s.requests[r];
            (q.key == s.requests[first].key && LookedUp(q) && !q.lookupFailed
              && q.lookupStep > s.requests[first].storedStep
             && q.lookupTime < s.wins[i].expiresAt) ==> q.phase == Replayed(s.wins[i].entry))
  {
    RunKeepsInv(Init(ttl, now), run);
    var s := Exec(Init(ttl, now), run);
    assert RequestOk(s, first) && CoveredBySome(s, s.requests[first]);
    i :| 0 <= i < |s.wins| && s.wins[i].key == s.requests[first].key && s.wins[i].step <= s.requests[first].storedStep
         && s.wins[i].time <= s.requests[first].storedTime < s.wins[i].expiresAt;
    forall r: nat | r < |s.requests| ensures Agrees(s.requests[r], s.wins[i]) {
      assert RequestOk(s, r);
    }
  }

  // ---- Requests by themselves ----

  lemma {:induction false} RunAppend(s: State, run: seq<Step>, more: seq<Step>)
    requires ValidRun(s, run) && ValidRun(Exec(s, run), more)
    ensures ValidRun(s, run + more) && Exec(s, run + more) == Exec(Exec(s, run), more)
    decreases |run|
  {
    hide Enabled, Next;
    if run == [] {
      assert run + more == more;
    } else {
      assert (run + more)[1..] == run[1..] + more;
      RunAppend(Next(s, run[0]), run[1..], more);
    }
  }

  lemma OneStep(s: State, a: Step)
    requires Enabled(s, a)
    ensures ValidRun(s, [a]) && Exec(s, [a]) == Next(s, a)
  {
    hide Enabled, Next;
    assert [a][1..] == [];
  }

  /** A request that misses, or whose lookup fails, executes. */
  lemma MissExecutes(s: State, key: string, lookupFails: bool)
    requires lookupFails || Found(s.entries, key, s.now) == None
    ensures var r := |s.requests|;
      var run := [Arrive(key)] + [if lookupFails then LookupFails(r) else Lookup(r)];
      ValidRun(s, run) && var e := Exec(s, run);
      && |e.requests| == r + 1 && e.requests[..r] == s.requests
      && e.requests[r].key == key && e.requests[r].phase == Executing
      && e.now == s.now && e.ttl == s.ttl && (!lookupFails ==> key !in e.entries)
  {
    var r := |s.requests|;
    var a := if lookupFails then LookupFails(r) else Lookup(r);
    var mid := Next(s, Arrive(key));
    OneStep(s, Arrive(key));
    OneStep(mid, a);
    RunAppend(s, [Arrive(key)], [a]);
    hide ValidRun, Exec;
  }

  /** An executing request responds and stores, or fails to store. */
  lemma ExecutedIsStored(s: State, r: nat, response: Entry, delay: nat, storeFails: bool)
    requires r < |s.requests| && s.requests[r].phase == Executing && s.requests[r].key !in s.entries
    ensures var key := s.requests[r].key;
      var run := [Respond(r, response)] + [if storeFails then StoreFails(r) else StoreResponse(r, delay)];
      ValidRun(s, run) && var e := Exec(s, run);
      && |e.requests| == |s.requests| && e.requests[r].phase == Finished(response, !storeFails) && e.ttl == s.ttl
      && e.now == (if storeFails then s.now else s.now + delay)
      && e.entries == if storeFails then s.entries else s.entries[key := Stored(response, s.now + delay + s.ttl)]
  {
    var a := if storeFails then StoreFails(r) else StoreResponse(r, delay);
    var mid := Next(s, Respond(r, response));
    OneStep(s, Respond(r, response));
    OneStep(mid, a);
    RunAppend(s, [Respond(r, response)], [a]);
    hide ValidRun, Exec;
  }

  /** Time passes and the cleaner runs. */
  lemma CleanAfter(s: State, wait: nat)
    ensures var run := [Tick(wait)] + [Clean];
      ValidRun(s, run) && var e := Exec(s, run);
      && e.requests == s.requests && e.now == s.now + wait && e.ttl == s.ttl
      && e.entries == AfterSweep(s.entries, s.now + wait)
  {
    var mid := Next(s, Tick(wait));
    OneStep(s, Tick(wait));
    OneStep(mid, Clean);
    RunAppend(s, [Tick(wait)], [Clean]);
    hide ValidRun, Exec;
  }

  /** A request that hits is replayed. */
  lemma HitIsReplayed(s: State, key: string)
    requires Found(s.entries, key, s.now).Some?
    ensures var r := |s.requests|;
      var run := [Arrive(key)] + [Lookup(r)];
      ValidRun(s, run) && var e := Exec(s, run);
      && |e.requests| == r + 1 && e.requests[..r] == s.requests
      && e.requests[r].phase == Replayed(Found(s.entries, key, s.now).value)
  {
    var r := |s.requests|;
    var mid := Next(s, Arrive(key));
    OneStep(s, Arrive(key));
    OneStep(mid, Lookup(r));
    RunAppend(s, [Arrive(key)], [Lookup(r)]);
    hide ValidRun, Exec;
  }

  /** The steps of a first request, a wait with a cleaning, and a retry. */
  function RetrySteps(r: nat, key: string, response: Entry, delay: nat, storeFails: bool, wait: nat): seq<Step> {
    ([Arrive(key)] + [Lookup(r)])
    + ([Respond(r, response)] + [if storeFails then StoreFails(r) else StoreResponse(r, delay)])
    + ([Tick(wait)] + [Clean]) + ([Arrive(key)] + [Lookup(r + 1)])
  }

  /**
   A retry that nothing disturbs, from any state without the key: it is replayed with the first response exactly when
   that was stored and the retry comes within its lifetime, and executes otherwise.
  */
  lemma UndisturbedRetry(s: State, key: string, response: Entry, delay: nat, storeFails: bool, wait: nat)
    requires Found(s.entries, key, s.now) == None
    ensures var r := |s.requests|;
      var run := RetrySteps(r, key, response, delay, storeFails, wait);
      ValidRun(s, run) && var e := Exec(s, run);
      && |e.requests| == r + 2 && e.requests[r].phase == Finished(response, !storeFails)
      && e.requests[r + 1].phase == if !storeFails && wait <= s.ttl then Replayed(response) else Executing
  {
    var r := |s.requests|;
    var first := [Arrive(key)] + [Lookup(r)];
    var second := [Respond(r, response)] + [if storeFails then StoreFails(r) else StoreResponse(r, delay)];
    var third := [Tick(wait)] + [Clean];
    var fourth := [Arrive(key)] + [Lookup(r + 1)];
    MissExecutes(s, key, false);
    var s1 := Exec(s, first);
    ExecutedIsStored(s1, r, response, delay, storeFails);
    var s2 := Exec(s1, second);
    CleanAfter(s2, wait);
    var s3 := Exec(s2, third);
    if !storeFails && wait <= s.ttl { HitIsReplayed(s3, key); } else { MissExecutes(s3, key, false); }
    assert Exec(s3, fourth).requests[..r + 1][r] == s3.requests[r];
    hide ValidRun, Exec;
    RunAppend(s, first, second);
    RunAppend(s, first + second, third);
    RunAppend(s, first + second + third, fourth);
  }

  // ---- The scoped key ----

  function Scope(player: Option<string>): string {
    if player.Some? && player.value != "" then player.value else "anon"
  }

  function ScopedKey(player: Option<string>, key: string): string {
    Keys.JoinedBy(':', Scope(player), key)
  }

  /**
   Two callers can meet under one scoped key, with client keys of their choice, exactly when they have one scope or one
   scope continues the other after a colon. Nobody and the player "anon" have one scope.
  */
  lemma ScopesCollideExactly(a: Option<string>, b: Option<string>)
    ensures (exists s, t :: s != "" && t != "" && ScopedKey(a, s) == ScopedKey(b, t))
            <==> (Scope(a) == Scope(b) || Keys.Continues(':', Scope(b), Scope(a))
              || Keys.Continues(':', Scope(a), Scope(b)))
  {
    if Scope(a) == Scope(b) {
      assert ScopedKey(a, "x") == ScopedKey(b, "x");
    } else {
      Keys.KeysCollideExactly(':', Scope(a), Scope(b));
      if s, t :| s != "" && t != "" && Keys.JoinedBy(':', Scope(a), s) == Keys.JoinedBy(':', Scope(b), t) {
        assert ScopedKey(a, s) == ScopedKey(b, t);
      }
      if s, t :| s != "" && t != "" && ScopedKey(a, s) == ScopedKey(b, t) {
        assert Keys.JoinedBy(':', Scope(a), s) == Keys.JoinedBy(':', Scope(b), t);
      }
    }
  }

  /** Callers with colon-free scopes share a scoped key only under one scope and the same client key. */
  lemma ColonFreeScopesAreSeparate(a: Option<string>, s: string, b: Option<string>, t: string)
    requires ':' !in Scope(a) && ':' !in Scope(b)
    ensures ScopedKey(a, s) == ScopedKey(b, t) <==> Scope(a) == Scope(b) && s == t
  {
    Keys.SeparatorFreeKeysArePairs(':', Scope(a), s, Scope(b), t);
  }

  /** The same client key of two callers is one key exactly when they have one scope, "anon" standing for nobody. */
  lemma ScopesSeparateCallers(a: Option<string>, b: Option<string>, key: string)
    ensures ScopedKey(a, key) == ScopedKey(b, key) <==> Scope(a) == Scope(b)
  {
    if ScopedKey(a, key) == ScopedKey(b, key) {
      assert |ScopedKey(a, key)| == |Scope(a)| + 1 + |key|;
      assert ScopedKey(a, key)[..|Scope(a)|] == Scope(a);
      assert ScopedKey(b, key)[..|Scope(b)|] == Scope(b);
    }
  }
}
