/** The pooled connection of src/basic/pool/conn.py, and the connection
    factory the pool calls. */
module Connection {
  import opened Wrappers

  /** The class attribute `Conn.count`, shared by every connection of the
      process, made an explicit object. */
  class IdCounter {
    var count: nat

    constructor ()
      ensures count == 0
    {
      count := 0;
    }
  }

  /** What the pool asks a connection's stream reader: `at_eof()`,
      `exception()` and `eof_received`. */
  datatype ReaderState = ReaderState(atEof: bool, exception: bool, eofReceived: bool)

  /** A reader that has seen neither end of stream nor an error. */
  const FreshReader := ReaderState(false, false, false)

  class Conn {
    /** Assigned once from the shared counter. */
    const id: nat
    var closed: bool

    // Session state the pool inspects. It belongs to the database
    // connection the pool was written for; the environment may change it.
    var reader: ReaderState
    var lastUsage: int
    var inTransaction: bool

    /** `Conn.create()`: increments the shared counter and takes its new
        value as the id; the connection starts open. */
    constructor (counter: IdCounter)
      modifies counter
      ensures counter.count == old(counter.count) + 1
      ensures id == counter.count
      ensures !closed && reader == FreshReader && lastUsage == 0 && !inTransaction
    {
      counter.count := counter.count + 1;
      id := counter.count;
      closed := false;
      reader := FreshReader;
      lastUsage := 0;
      inTransaction := false;
    }

    /** `info()` reports the connection's id. */
    function Info(): (r: nat)
      ensures r == id
    {
      id
    }

    /** Marks the connection closed; calling it again changes nothing. */
    method Close()
      modifies this`closed
      ensures closed
    {
      closed := true;
    }

    /** Sends the quit command, waits for the peer, then closes. The wait is
        not modelled; what remains is that the connection ends closed. */
    method EnsureClosed()
      modifies this`closed
      ensures closed
    {
      Close();
    }

    /** `async with conn:` exit: closes at once when the block raised,
        otherwise closes gracefully. Either way the connection ends closed. */
    method AExit(raised: bool)
      modifies this`closed
      ensures closed
    {
      if raised {
        Close();
      } else {
        EnsureClosed();
      }
    }
  }

  /** The connection factory the pool calls (`connect`): it either yields a
      new open connection or raises. `accepts` is how many more connections
      the server side will let it open; the environment may set it. */
  class Connector {
    const ids: IdCounter
    var accepts: nat

    constructor (ids: IdCounter, accepts: nat)
      ensures this.ids == ids && this.accepts == accepts
    {
      this.ids := ids;
      this.accepts := accepts;
    }

    /** One connection attempt at time `now`. */
    method Connect(now: int) returns (r: Option<Conn>)
      modifies this`accepts, ids
      ensures r.Some? <==> old(accepts) > 0
      ensures r.Some? ==> fresh(r.value) && accepts == old(accepts) - 1
      ensures r.Some? ==> ids.count == old(ids.count) + 1 && r.value.id == ids.count
      ensures r.Some? ==> Opened(r.value, now)
      ensures r.None? ==> accepts == old(accepts) && ids.count == old(ids.count)
    {
      if accepts == 0 {
        return None;
      }
      var c := new Conn(ids);
      c.lastUsage := now;
      accepts := accepts - 1;
      r := Some(c);
    }
  }

  /** The state of a connection just opened at time `now`. */
  ghost predicate Opened(c: Conn, now: int)
    reads c
  {
    !c.closed && c.reader == FreshReader && c.lastUsage == now && !c.inTransaction
  }
}
