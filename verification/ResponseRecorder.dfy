/** recordedWriter: what the middleware stores is what the client was sent, and a replay sends it again. */
module ResponseRecorder {
  import opened IdempotencyStore
  import opened Options

  type Bytes = seq<bv8>

  datatype HandlerOp = WriteHeader(code: int) | Write(bytes: Bytes)

  /**
   The server's response writer: the first status counts, a body without one is a 200, and so is an empty response.
  */
  class ResponseWriter {
    var status: Option<int>
    var body: Bytes

    constructor ()
      ensures status == None && body == []
    {
      status, body := None, [];
    }

    function ClientSees(): Entry
      reads this
    {
      Entry(if status.Some? then status.value else 200, body)
    }

    method WriteHeader(code: int)
      modifies this
      ensures status == if old(status).Some? then old(status) else Some(code)
      ensures body == old(body)
    {
      if status.None? {
        status := Some(code);
      }
    }

    method Write(b: Bytes)
      modifies this
      ensures status == if old(status).Some? then old(status) else Some(200)
      ensures body == old(body) + b
    {
      if status.None? {
        status := Some(200);
      }
      body := body + b;
    }
  }

  /** The status of a handler's response: its first operation decides. */
  function StatusOf(ops: seq<HandlerOp>): int {
    if ops == [] then 200 else if ops[0].WriteHeader? then ops[0].code else 200
  }

  /** All written bytes, in order. */
  function BodyOf(ops: seq<HandlerOp>): Bytes {
    if ops == [] then []
    else
      var earlier := BodyOf(ops[..|ops| - 1]);
      match ops[|ops| - 1]
      case Write(b) => earlier + b
      case WriteHeader(_) => earlier
  }

  class RecordedWriter {
    const inner: ResponseWriter
    var body: Bytes
    var status: int
    var wrote: bool

    constructor (inner: ResponseWriter)
      requires inner.status == None && inner.body == []
      ensures this.inner == inner && Valid() && !wrote && body == []
    {
      this.inner := inner;
      this.body, this.status, this.wrote := [], 200, false;
    }

    /** The copy agrees with what was forwarded. */
    ghost predicate Valid()
      reads this, inner
    {
      && inner.body == body
      && (wrote <==> inner.status.Some?)
      && status == if wrote then inner.status.value else 200
    }

    method WriteHeader(code: int)
      requires Valid()
      modifies this, inner
      ensures Valid() && wrote && body == old(body)
      ensures status == if old(wrote) then old(status) else code
    {
      if wrote {
        return;
      }
      status := code;
      wrote := true;
      inner.WriteHeader(code);
    }

    method Write(b: Bytes)
      requires Valid()
      modifies this, inner
      ensures Valid() && wrote && body == old(body) + b
      ensures status == if old(wrote) then old(status) else 200
    {
      if !wrote {
        WriteHeader(200);
      }
      body := body + b;
      inner.Write(b);
    }

    /** Any handler: the recorded entry is its first status and all its bytes, and exactly what the client sees. */
    method Serve(ops: seq<HandlerOp>) returns (entry: Entry)
      requires Valid() && !wrote && body == []
      modifies this, inner
      ensures Valid() && entry == Entry(StatusOf(ops), BodyOf(ops)) == inner.ClientSees()
    {
      for k := 0 to |ops|
        invariant Valid() && body == BodyOf(ops[..k])
        invariant wrote <==> k > 0
        invariant status == StatusOf(ops[..k])
      {
        assert ops[..k + 1][..k] == ops[..k];
        match ops[k]
        case WriteHeader(code) => WriteHeader(code);
        case Write(b) => Write(b);
      }
      assert ops[..|ops|] == ops;
      return Entry(status, body);
    }
  }

  /** Replaying a stored entry into a fresh writer shows the client the original response. */
  method Replay(w: ResponseWriter, entry: Entry)
    requires w.status == None && w.body == []
    modifies w
    ensures w.ClientSees() == entry
  {
    w.WriteHeader(entry.status);
    w.Write(entry.body);
  }
}
