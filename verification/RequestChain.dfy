/**
 The order in which a request meets the idempotency lookup and the token check. The server mounts the lookup on the
 outer group and the token check inside it; only the token check puts a player into the request's context.
*/
module RequestChain {
  import opened IdempotencyStore
  import opened Options
  import opened ResponseRecorder
  import opened IdempotencyHandler
  import IdempotencyMiddleware
  import Keys

  /** What the token check makes of the Authorization header. A token names a player of 1 to 64 characters. */
  datatype Caller = NoToken | BadToken | TokenOf(player: string)

  /** A route behind the token check or a public one; checking says that the server has a validator at all. */
  datatype Route = Route(guarded: bool, checking: bool)

  datatype Order = LookupFirst | CheckFirst

  const UNAUTHORIZED := 401

  predicate Refuses(route: Route, caller: Caller) {
    route.guarded && route.checking && !caller.TokenOf?
  }

  /** The player the lookup sees. */
  function PlayerAtLookup(order: Order, route: Route, caller: Caller): Option<string> {
    if order.CheckFirst? && route.guarded && route.checking && caller.TokenOf? then Some(caller.player) else None
  }

  function KeyAtLookup(order: Order, route: Route, caller: Caller, key: string): string {
    IdempotencyMiddleware.ScopedKey(PlayerAtLookup(order, route, caller), key)
  }

  function Refusal(message: Bytes): seq<HandlerOp> {
    [WriteHeader(UNAUTHORIZED), Write(message)]
  }

  lemma RefusalIs401(message: Bytes)
    ensures Entry(StatusOf(Refusal(message)), BodyOf(Refusal(message))) == Entry(401, message)
  {
    var ops := Refusal(message);
    assert ops[..1] == [ops[0]] && ops[..1][..0] == [];
    assert BodyOf(ops[..1]) == [];
    assert BodyOf(ops) == [] + message == message;
  }

  /** What a request without a stored answer is answered with. */
  function OwnAnswer(route: Route, caller: Caller, handler: seq<HandlerOp>, message: Bytes): Entry {
    var ops := if Refuses(route, caller) then Refusal(message) else handler;
    Entry(StatusOf(ops), BodyOf(ops))
  }

  datatype Request = Request(verb: string, key: string, caller: Caller, handler: seq<HandlerOp>, t: Times)

  /** What a write request with a key is answered with. */
  function Answer(order: Order, route: Route, m: Entries, q: Request, message: Bytes): Entry {
    var found := Found(m, KeyAtLookup(order, route, q.caller, q.key), q.t.lookup);
    if found.Some? && !(order.CheckFirst? && Refuses(route, q.caller)) then found.value
    else OwnAnswer(route, q.caller, q.handler, message)
  }

  /** The map after a write request with a key. */
  function AfterRequest(order: Order, route: Route, m: Entries, ttl: int, q: Request, message: Bytes): Entries {
    var k := KeyAtLookup(order, route, q.caller, q.key);
    if order.CheckFirst? && Refuses(route, q.caller) then m
    else if Found(m, k, q.t.lookup).Some? then AfterGet(m, k, q.t.lookup)
    else
      var own := OwnAnswer(route, q.caller, q.handler, message);
      AfterSet(AfterGet(m, k, q.t.lookup), ttl, k, own, q.t.check, q.t.expiry)
  }

  class Chain {
    const order: Order
    const middleware: Middleware

    constructor (order: Order, middleware: Middleware)
      ensures this.order == order && this.middleware == middleware
    {
      this.order, this.middleware := order, middleware;
    }

    /** One request through both, in the mounted order, over a store that answers. */
    method Serve(route: Route, q: Request, message: Bytes, w: ResponseWriter)
      requires middleware.store != null && w.status == None && w.body == [] && q.t.check <= q.t.expiry
      modifies w, middleware.store
      ensures PassesThrough(q.verb, q.key) ==> w.ClientSees() == OwnAnswer(route, q.caller, q.handler, message)
      ensures PassesThrough(q.verb, q.key) ==> middleware.store.entries == old(middleware.store.entries)
      ensures !PassesThrough(q.verb, q.key) ==>
        && w.ClientSees() == Answer(order, route, old(middleware.store.entries), q, message)
        && middleware.store.entries
           == AfterRequest(order, route, old(middleware.store.entries), middleware.store.ttl, q, message)
      ensures
        var refused := route.guarded && route.checking && (q.caller == NoToken || q.caller == BadToken);
        var own := if refused then Entry(401, message) else Entry(StatusOf(q.handler), BodyOf(q.handler));
        && (q.verb == "GET" || q.verb == "HEAD" || q.key == "" || (order.CheckFirst? && refused) ==>
              w.ClientSees() == own && middleware.store.entries == old(middleware.store.entries))
        && (order.LookupFirst? && "anon:" + q.key !in old(middleware.store.entries) ==> w.ClientSees() == own)
    {
      RefusalIs401(message);
      assert IdempotencyMiddleware.ScopedKey(None, q.key) == "anon:" + q.key;
      var inner := if Refuses(route, q.caller) then Refusal(message) else q.handler;
      if order.CheckFirst? && Refuses(route, q.caller) {
        Middleware.Run(inner, w);
        return;
      }
      var player := PlayerAtLookup(order, route, q.caller);
      var path := middleware.Handle(q.verb, q.key, player, inner, w, q.t, Faults(false, false));
    }
  }

  // ---- What the order decides ----

  /** Two requests on one route that are allowed through the lookup meet under one stored entry. */
  ghost predicate CanMeet(order: Order, route: Route, a: Caller, b: Caller) {
    exists s, t :: s != "" && t != "" && KeyAtLookup(order, route, a, s) == KeyAtLookup(order, route, b, t)
  }

  /**
   With the lookup first, or where nothing is checked, any two callers meet, and always under equal client keys. With
   the check first on a guarded route, two players meet exactly when they are the same or one id continues the other
   after a colon.
  */
  lemma CallersMeetExactly(order: Order, route: Route, p: string, q: string)
    requires p != "" && q != ""
    ensures CanMeet(order, route, TokenOf(p), TokenOf(q))
            <==> (order.LookupFirst? || !route.guarded || !route.checking
                  || p == q || Keys.Continues(':', q, p) || Keys.Continues(':', p, q))
  {
    var c, d := TokenOf(p), TokenOf(q);
    var a, b := PlayerAtLookup(order, route, c), PlayerAtLookup(order, route, d);
    IdempotencyMiddleware.ScopesCollideExactly(a, b);
    if s, t :| s != "" && t != "" && IdempotencyMiddleware.ScopedKey(a, s) == IdempotencyMiddleware.ScopedKey(b, t) {
      assert KeyAtLookup(order, route, c, s) == KeyAtLookup(order, route, d, t);
    }
    if s, t :| s != "" && t != "" && KeyAtLookup(order, route, c, s) == KeyAtLookup(order, route, d, t) {
      assert IdempotencyMiddleware.ScopedKey(a, s) == IdempotencyMiddleware.ScopedKey(b, t);
    }
  }

  /** A request whose token would be refused is answered with a stored response exactly when the lookup comes first. */
  lemma RefusedIsReplayedExactly(order: Order, route: Route, m: Entries, q: Request, message: Bytes, stored: Entry)
    requires Refuses(route, q.caller) && stored != OwnAnswer(route, q.caller, q.handler, message)
    requires Found(m, IdempotencyMiddleware.ScopedKey(None, q.key), q.t.lookup) == Some(stored)
    ensures Answer(order, route, m, q, message) == stored <==> order.LookupFirst?
  {
  }

  datatype Arrival = Arrival(route: Route, request: Request)

  /** The arrivals are served one after the other, from a time on and until another. */
  predicate Serial(from: int, run: seq<Arrival>, to: int)
    decreases |run|
  {
    if run == [] then from <= to
    else
      var t := run[0].request.t;
      from <= t.lookup <= t.check <= t.expiry && Serial(t.expiry, run[1..], to)
  }

  /** The map after a run of write requests with keys, from any callers on any routes. */
  function AfterRun(order: Order, m: Entries, ttl: int, run: seq<Arrival>, message: Bytes): Entries
    decreases |run|
  {
    if run == [] then m
    else AfterRun(order, AfterRequest(order, run[0].route, m, ttl, run[0].request, message), ttl, run[1..], message)
  }

  lemma {:induction false} SerialOrder(from: int, run: seq<Arrival>, to: int)
    requires Serial(from, run, to)
    ensures from <= to
    decreases |run|
  {
    if run != [] { SerialOrder(run[0].request.t.expiry, run[1..], to); }
  }

  /** With the lookup first, nothing replaces a stored answer before its lifetime is over. */
  lemma {:induction false} StoredAnswerStays(m: Entries, ttl: int, key: string, kept: Stored, from: int,
                                             run: seq<Arrival>, to: int, message: Bytes)
    requires var k := IdempotencyMiddleware.ScopedKey(None, key); k in m && m[k] == kept
    requires Serial(from, run, to) && to <= kept.expiresAt
    ensures var k := IdempotencyMiddleware.ScopedKey(None, key);
      var last := AfterRun(LookupFirst, m, ttl, run, message);
      k in last && last[k] == kept
    decreases |run|
  {
    if run != [] {
      var q := run[0].request;
      SerialOrder(q.t.expiry, run[1..], to);
      IdempotencyMiddleware.ColonFreeScopesAreSeparate(None, q.key, None, key);
      var next := AfterRequest(LookupFirst, run[0].route, m, ttl, q, message);
      StoredAnswerStays(next, ttl, key, kept, q.t.expiry, run[1..], to, message);
    }
  }

  /**
   With the lookup first, the first answer to a client key is everyone's: whatever requests come in between, with that
   key or others, until its lifetime is over every later write request with the key, from any caller and on any route,
   is answered with it. That includes a refusal, which a caller with a good token then gets instead of its own answer.
  */
  lemma FirstAnswerIsEveryones(m: Entries, ttl: int, first: Arrival, between: seq<Arrival>, later: Arrival,
                               message: Bytes)
    requires first.request.key == later.request.key
    requires Serial(first.request.t.lookup, [first] + between, later.request.t.lookup)
    requires Found(m, IdempotencyMiddleware.ScopedKey(None, first.request.key), first.request.t.lookup) == None
    requires later.request.t.lookup <= first.request.t.expiry + ttl
    ensures Answer(LookupFirst, later.route, AfterRun(LookupFirst, m, ttl, [first] + between, message), later.request,
      message)
            == OwnAnswer(first.route, first.request.caller, first.request.handler, message)
  {
    var q := first.request;
    var k := IdempotencyMiddleware.ScopedKey(None, q.key);
    var run := [first] + between;
    assert run[1..] == between && k !in AfterGet(m, k, q.t.lookup);
    var own := OwnAnswer(first.route, q.caller, q.handler, message);
    var next := AfterRequest(LookupFirst, first.route, m, ttl, q, message);
    assert next[k] == Stored(own, q.t.expiry + ttl);
    StoredAnswerStays(next, ttl, q.key, next[k], q.t.expiry, between, later.request.t.lookup, message);
  }

  /**
   With the check first, players whose ids hold no colon are separate on a guarded route: a request of one leaves every
   answer to the other as it was, whatever keys they choose.
  */
  lemma CheckFirstSeparates(m: Entries, ttl: int, mine: Request, yours: Request, route: Route, message: Bytes)
    requires route.guarded && route.checking && mine.caller.TokenOf? && yours.caller.TokenOf?
    requires mine.caller.player != "" && yours.caller.player != "" && mine.caller.player != yours.caller.player
    requires ':' !in mine.caller.player && ':' !in yours.caller.player
    ensures Answer(CheckFirst, route, AfterRequest(CheckFirst, route, m, ttl, mine, message), yours, message)
            == Answer(CheckFirst, route, m, yours, message)
  {
    IdempotencyMiddleware.ColonFreeScopesAreSeparate(
      Some(mine.caller.player), mine.key, Some(yours.caller.player), yours.key);
  }
}
