/** The middleware as one call over the in-memory store: pass through, replay, or execute, record and store. */
module IdempotencyHandler {
  import opened IdempotencyStore
  import opened Options
  import opened ResponseRecorder
  import IdempotencyMiddleware

  /** What one request does with the store: skip it, replay from it, or execute and store. */
  datatype Path = PassedThrough | ReplayedEntry | ExecutedHandler

  datatype Faults = Faults(lookup: bool, write: bool)

  /** When the store's lookup, its check and its expiry read the clock. */
  datatype Times = Times(lookup: int, check: int, expiry: int)

  predicate PassesThrough(verb: string, key: string) {
    key == "" || verb == "GET" || verb == "HEAD"
  }

  class Middleware {
    const store: InmemStore?

    constructor (store: InmemStore?)
      ensures this.store == store
    {
      this.store := store;
    }

    /**
     One request. Without a store or a key, or for a read, the client gets the handler's response and the store is not
     asked; a hit is replayed without the handler; otherwise the client gets the handler's response and the same
     response is offered to the store. A failing store never changes what the client sees of a miss.
    */
    method Handle(verb: string, key: string, player: Option<string>, handler: seq<HandlerOp>, w: ResponseWriter,
                  t: Times, faults: Faults) returns (path: Path)
      requires w.status == None && w.body == [] && t.check <= t.expiry
      modifies w
      modifies if store != null then {store} else {}
      ensures path.PassedThrough? <==> store == null || key == "" || verb == "GET" || verb == "HEAD"
      ensures path.PassedThrough? && store != null ==> store.entries == old(store.entries)
      ensures path.ReplayedEntry? && store != null ==>
        var k := (if player.Some? && player.value != "" then player.value else "anon") + ":" + key;
        Found(old(store.entries), k, t.lookup) == Some(w.ClientSees())
      ensures !path.ReplayedEntry? ==> w.ClientSees() == Entry(StatusOf(handler), BodyOf(handler))
      ensures store != null && !path.PassedThrough? ==>
        var k := (if player.Some? && player.value != "" then player.value else "anon") + ":" + key;
        var seen := if faults.lookup then old(store.entries) else AfterGet(old(store.entries), k, t.lookup);
        && (path.ReplayedEntry? <==> !faults.lookup && Found(old(store.entries), k, t.lookup).Some?)
        && store.entries == if path.ReplayedEntry? || faults.write then seen
                            else
                              var entry := Entry(StatusOf(handler), BodyOf(handler));
                              AfterSet(seen, store.ttl, k, entry, t.check, t.expiry)
    {
      if store == null || PassesThrough(verb, key) {
        Run(handler, w);
        return PassedThrough;
      }
      var scoped := IdempotencyMiddleware.ScopedKey(player, key);
      assert scoped == (if player.Some? && player.value != "" then player.value else "anon") + ":" + key;
      if !faults.lookup {
        var found := store.Get(scoped, t.lookup);
        if found.Some? {
          Replay(w, found.value);
          return ReplayedEntry;
        }
      }
      var rec := new RecordedWriter(w);
      var entry := rec.Serve(handler);
      if !faults.write {
        store.Set(scoped, entry, t.check, t.expiry);
      }
      return ExecutedHandler;
    }

    /** The handler on a bare writer. */
    static method Run(handler: seq<HandlerOp>, w: ResponseWriter)
      requires w.status == None && w.body == []
      modifies w
      ensures w.ClientSees() == Entry(StatusOf(handler), BodyOf(handler))
    {
      for k := 0 to |handler|
        invariant w.body == BodyOf(handler[..k])
        invariant w.status == if k == 0 then None else Some(StatusOf(handler[..k]))
      {
        assert handler[..k + 1][..k] == handler[..k];
        match handler[k]
        case WriteHeader(code) => w.WriteHeader(code);
        case Write(b) => w.Write(b);
      }
      assert handler[..|handler|] == handler;
    }

    /**
     Two writes with one key of one player, the second looked up after the first has stored and within its lifetime:
     both clients see the first response, and the second handler does not run. The first lookup may have failed.
    */
    method TwoWrites(verb: string, key: string, player: Option<string>, first: seq<HandlerOp>, second: seq<HandlerOp>,
                     w: ResponseWriter, v: ResponseWriter, t: Times, u: Times, lookupFails: bool, writeFails: bool)
      returns (again: Path)
      requires store != null && key != "" && (verb == "POST" || verb == "PUT" || verb == "PATCH" || verb == "DELETE")
      requires w != v && w.status == v.status == None && w.body == v.body == []
      requires t.lookup <= t.check <= t.expiry <= u.lookup <= u.check <= u.expiry
      requires Found(store.entries, IdempotencyMiddleware.ScopedKey(player, key), t.lookup) == None
      requires u.lookup <= t.expiry + store.ttl
      modifies w, v, store
      ensures again == ReplayedEntry
      ensures w.ClientSees() == v.ClientSees() == Entry(StatusOf(first), BodyOf(first))
    {
      var once := Handle(verb, key, player, first, w, t, Faults(lookupFails, false));
      again := Handle(verb, key, player, second, v, u, Faults(false, writeFails));
    }
  }

  /**
   A retry that looks up after the first request has stored is replayed with the first response exactly until the
   lifetime is over, also when a sweep or another lookup comes between.
  */
  lemma RetryIsReplayed(m: Entries, ttl: int, key: string, response: Entry, t: Times, between: int, retry: int)
    requires Found(m, key, t.lookup) == None && t.lookup <= t.check <= t.expiry <= between <= retry
    ensures var after := AfterSet(AfterGet(m, key, t.lookup), ttl, key, response, t.check, t.expiry);
      && (Found(AfterSweep(after, between), key, retry) == Some(response) <==> retry <= t.expiry + ttl)
      && (Found(AfterGet(after, key, between), key, retry) == Some(response) <==> retry <= t.expiry + ttl)
  {
    assert key !in AfterGet(m, key, t.lookup);
  }
}
