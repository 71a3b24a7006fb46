/** The scoped guards of src/basic/pool/utils.py. Each wraps either a
    coroutine that is still to be awaited or a connection already held,
    and gives the connection back (or closes it) when the block ends. */
module Guards {
  import opened Wrappers
  import opened Sequences
  import opened Connection
  import opened ConnectionPool

  /** Where the wrapped coroutine stands: not yet awaited, waiting on the
      pool's condition variable, or run to its end (returned or raised). */
  datatype Coro = Ready | Suspended | Finished

  /** `_PoolAcquireContextManager`, what `pool.acquire()` returns: it wraps
      the pool's `_acquire()` coroutine and the pool itself. */
  class PoolAcquireContext {
    /** The pool the wrapped `_acquire()` coroutine was made from. */
    const owner: Pool
    var coro: Coro
    var pool: Pool?
    var conn: Conn?

    /** The guard's pool field is the coroutine's pool until it is reset. */
    predicate Valid()
      reads this
    {
      pool == null || pool == owner
    }

    /** `pool.acquire()`: nothing runs yet. */
    constructor (pool: Pool)
      ensures Valid() && owner == pool && this.pool == pool
      ensures coro == Ready && conn == null
    {
      owner := pool;
      this.pool := pool;
      coro := Ready;
      conn := null;
    }

    /** `__aenter__`: awaits the coroutine and keeps the connection it
        returns; the same connection is handed to the block. A wait on the
        pool suspends the coroutine; a coroutine already awaited cannot run
        again. */
    method AEnter(connector: Connector, now: int) returns (r: Step<Conn>)
      requires owner.Valid()
      modifies this`coro, this`conn, owner`free, owner`used, owner`acquiring, Elems(owner.free)`closed
      modifies connector`accepts, connector.ids
      ensures owner.Valid() && owner.acquiring == old(owner.acquiring)
      ensures old(coro) != Ready ==> r == Raised(CoroutineAwaited) && coro == old(coro) && conn == old(conn)
      ensures old(coro) != Ready || old(owner.closing)
              ==> owner.free == old(owner.free) && owner.used == old(owner.used)
                  && connector.accepts == old(connector.accepts) && connector.ids.count == old(connector.ids.count)
      ensures old(coro) == Ready ==> coro == (if r.Blocked? then Suspended else Finished)
      ensures old(coro) == Ready && old(owner.closing) ==> r == Raised(AcquireAfterClose)
      ensures old(coro) == Ready && !old(owner.closing) ==> owner.Stepped(connector, now, r)
      ensures old(coro) == Ready && !old(owner.closing)
              ==> forall c | c in old(owner.free) :: c.closed <==> c in old(owner.Doomed(now))
      ensures r.Done? ==> conn == r.value && r.value in owner.used && r.value !in old(owner.used)
      ensures r.Done? ==> !r.value.closed && r.value !in owner.free
      ensures !r.Done? ==> conn == old(conn)
    {
      if coro != Ready {
        return Raised(CoroutineAwaited);
      }
      r := owner.Acquire(connector, now);
      Settle(r);
    }

    /** The suspended coroutine resumes after a wake-up: another pass of
        the acquire loop, with the same outcome handling. */
    method Resume(connector: Connector, now: int) returns (r: Step<Conn>)
      requires owner.Valid() && coro == Suspended
      modifies this`coro, this`conn, owner`free, owner`used, owner`acquiring, Elems(owner.free)`closed
      modifies connector`accepts, connector.ids
      ensures owner.Valid() && owner.Stepped(connector, now, r)
      ensures forall c | c in old(owner.free) :: c.closed <==> c in old(owner.Doomed(now))
      ensures coro == (if r.Blocked? then Suspended else Finished)
      ensures r.Done? ==> conn == r.value && r.value in owner.used && r.value !in old(owner.used)
      ensures r.Done? ==> !r.value.closed && r.value !in owner.free
      ensures !r.Done? ==> conn == old(conn)
    {
      r := owner.AcquireStep(connector, now);
      Settle(r);
    }

    /** Records the outcome of one pass of the coroutine. */
    method Settle(r: Step<Conn>)
      modifies this`coro, this`conn
      ensures coro == (if r.Blocked? then Suspended else Finished)
      ensures conn == (if r.Done? then r.value else old(conn))
    {
      coro := if r.Blocked? then Suspended else Finished;
      if r.Done? {
        conn := r.value;
      }
    }

    /** The held connection, as a set: empty when none is held. */
    function Held(): set<Conn>
      reads this
    {
      if conn == null then {} else {conn}
    }

    /** `__aexit__`: releases the held connection to the pool once, then
        resets both fields whether or not the release raised. */
    method AExit() returns (r: Result<Future, PoolError>)
      requires Valid() && owner.Valid()
      modifies this`pool, this`conn, owner`free, owner`used, owner`terminated, Held()`closed
      ensures Valid() && owner.Valid() && pool == null && conn == null
      ensures old(pool) == null ==> r == Err(NoneHasNoAttribute) && unchanged(old(Held()))
      ensures old(pool) != null && old(conn) == null ==> r == Err(AssertionFailed)
      ensures old(pool) == null || old(conn) == null ==> owner.free == old(owner.free) && owner.used == old(owner.used)
      ensures old(pool) == null || old(conn) == null ==> owner.terminated == old(owner.terminated)
      ensures old(pool) != null && old(conn) != null ==> owner.Released(old(conn), r)
    {
      if pool == null {
        r := Err(NoneHasNoAttribute);
      } else if conn == null {
        // `release(None)`: None is in neither set.
        r := Err(AssertionFailed);
      } else {
        r := pool.Release(conn);
      }
      pool := null;
      conn := null;
    }
  }

  /** `_PoolConnectionContextManager`: holds a pool and, normally, a
      connection already taken from it. */
  class PoolConnectionContext {
    var pool: Pool?
    var conn: Conn?

    constructor (pool: Pool?, conn: Conn?)
      ensures this.pool == pool && this.conn == conn
    {
      this.pool := pool;
      this.conn := conn;
    }

    /** The pool referred to, as a set: empty once the field is reset. */
    function Pools(): set<Pool>
      reads this
    {
      if pool == null then {} else {pool}
    }

    /** The held connection, as a set: empty when none is held. */
    function Held(): set<Conn>
      reads this
    {
      if conn == null then {} else {conn}
    }

    /** `__enter__`: a connection must be held, and it is the result. */
    function Enter(): (r: Result<Conn, PoolError>)
      reads this
      ensures r.Ok? <==> conn != null
      ensures r.Ok? ==> r.value == conn
      ensures r.Err? ==> r.error == AssertionFailed
    {
      if conn == null then Err(AssertionFailed) else Ok(conn)
    }

    /** `__exit__`: releases the held connection to the pool, then resets
        both fields whether or not the release raised. */
    method Exit() returns (r: Result<Future, PoolError>)
      requires pool != null ==> pool.Valid()
      modifies this`pool, this`conn, Pools()`free, Pools()`used, Pools()`terminated, Held()`closed
      ensures pool == null && conn == null
      ensures old(pool) == null ==> r == Err(NoneHasNoAttribute) && unchanged(old(Held()))
      ensures old(pool) != null ==> old(pool).Valid() && old(pool).acquiring == old(pool.acquiring)
      ensures old(pool) != null ==> old(pool).closing == old(pool.closing) && old(pool).closed == old(pool.closed)
      ensures old(pool) != null && old(conn) == null ==> r == Err(AssertionFailed)
      ensures old(pool) != null && old(conn) == null ==> unchanged(old(pool))
      ensures old(pool) != null && old(conn) != null ==> old(pool).Released(old(conn), r)
    {
      if pool == null {
        r := Err(NoneHasNoAttribute);
      } else if conn == null {
        r := Err(AssertionFailed);
      } else {
        r := pool.Release(conn);
      }
      pool := null;
      conn := null;
    }

    /** `__aexit__`: the same release, with the returned future awaited. */
    method AExit() returns (r: Result<Future, PoolError>)
      requires pool != null ==> pool.Valid()
      modifies this`pool, this`conn, Pools()`free, Pools()`used, Pools()`terminated, Held()`closed
      ensures pool == null && conn == null
      ensures old(pool) == null ==> r == Err(NoneHasNoAttribute) && unchanged(old(Held()))
      ensures old(pool) != null ==> old(pool).Valid() && old(pool).acquiring == old(pool.acquiring)
      ensures old(pool) != null ==> old(pool).closing == old(pool.closing) && old(pool).closed == old(pool.closed)
      ensures old(pool) != null && old(conn) == null ==> r == Err(AssertionFailed)
      ensures old(pool) != null && old(conn) == null ==> unchanged(old(pool))
      ensures old(pool) != null && old(conn) != null ==> old(pool).Released(old(conn), r)
    {
      r := Exit();
    }

    /** `__aenter__`: no connection may be held yet; acquires one from the
        pool and keeps it. A wait on the pool suspends the caller. */
    method AEnter(connector: Connector, now: int) returns (r: Step<Conn>)
      requires pool != null ==> pool.Valid()
      modifies this`conn, Pools()`free, Pools()`used, Pools()`acquiring
      modifies (if pool == null then {} else Elems(pool.free))`closed
      modifies connector`accepts, connector.ids
      ensures pool == old(pool) && (pool != null ==> pool.Valid())
      ensures pool != null ==> pool.acquiring == old(pool.acquiring) && pool.terminated == old(pool.terminated)
      ensures pool != null ==> pool.closing == old(pool.closing) && pool.closed == old(pool.closed)
      ensures old(conn) != null ==> r == Raised(AssertionFailed) && conn == old(conn)
      ensures old(conn) == null && pool == null ==> r == Raised(NoneHasNoAttribute) && conn == null
      ensures old(conn) != null || pool == null || old(pool.closing)
              ==> connector.accepts == old(connector.accepts) && connector.ids.count == old(connector.ids.count)
                  && (pool != null ==> pool.free == old(pool.free) && pool.used == old(pool.used))
      ensures old(conn) == null && pool != null && old(pool.closing) ==> r == Raised(AcquireAfterClose)
      ensures old(conn) == null && pool != null && !old(pool.closing) ==> pool.Stepped(connector, now, r)
      ensures old(conn) == null && pool != null && !old(pool.closing)
              ==> forall c | c in old(pool.free) :: c.closed <==> c in old(pool.Doomed(now))
      ensures old(conn) == null && pool != null && r.Done? ==> conn == r.value && r.value in pool.used && r.value !in old(pool.used)
      ensures r.Done? ==> !r.value.closed && pool != null && r.value !in pool.free
      ensures !r.Done? ==> conn == old(conn)
    {
      if conn != null {
        return Raised(AssertionFailed);
      }
      if pool == null {
        return Raised(NoneHasNoAttribute);
      }
      r := pool.Acquire(connector, now);
      if r.Done? {
        conn := r.value;
      }
    }

    /** The suspended `__aenter__` resumes after a wake-up: another pass of
        the acquire loop. */
    method ResumeAEnter(connector: Connector, now: int) returns (r: Step<Conn>)
      requires pool != null && pool.Valid()
      modifies this`conn, pool`free, pool`used, pool`acquiring, Elems(pool.free)`closed
      modifies connector`accepts, connector.ids
      ensures pool.Valid() && pool.Stepped(connector, now, r)
      ensures forall c | c in old(pool.free) :: c.closed <==> c in old(pool.Doomed(now))
      ensures r.Done? ==> conn == r.value && r.value in pool.used && r.value !in old(pool.used)
      ensures r.Done? ==> !r.value.closed && r.value !in pool.free
      ensures !r.Done? ==> conn == old(conn)
    {
      r := pool.AcquireStep(connector, now);
      if r.Done? {
        conn := r.value;
      }
    }
  }

  /** `_ConnectionContextManager`, what `connect()` returns: it wraps the
      `_connect()` coroutine, which creates a connection from the shared id
      counter. Entering is inherited from `_ContextManager`. */
  class ConnectionContext {
    /** `Conn.count`, which the wrapped coroutine advances. */
    const ids: IdCounter
    var coro: Coro
    var obj: Conn?

    constructor (ids: IdCounter)
      ensures this.ids == ids && coro == Ready && obj == null
    {
      this.ids := ids;
      coro := Ready;
      obj := null;
    }

    /** The connection kept, as a set: empty before entering and after
        leaving. */
    function Kept(): set<Conn>
      reads this
    {
      if obj == null then {} else {obj}
    }

    /** `_ContextManager.__aenter__`: awaits the coroutine, keeps the new
        connection in `obj` and returns that same connection. */
    method AEnter() returns (r: Result<Conn, PoolError>)
      modifies this`coro, this`obj, ids
      ensures old(coro) != Ready ==> r == Err(CoroutineAwaited) && obj == old(obj)
      ensures old(coro) != Ready ==> coro == old(coro) && ids.count == old(ids.count)
      ensures old(coro) == Ready ==> r.Ok? && fresh(r.value) && obj == r.value && coro == Finished
      ensures old(coro) == Ready ==> !r.value.closed && r.value.id == ids.count == old(ids.count) + 1
    {
      if coro != Ready {
        return Err(CoroutineAwaited);
      }
      var c := new Conn(ids);
      obj := c;
      coro := Finished;
      r := Ok(c);
    }

    /** `__aexit__`: closes the connection, at once when the block raised
        and gracefully otherwise, then resets `obj`. */
    method AExit(raised: bool) returns (r: Result<(), PoolError>)
      modifies this`obj, Kept()`closed
      ensures obj == null
      ensures r.Err? <==> old(obj) == null
      ensures r.Err? ==> r.error == NoneHasNoAttribute
      ensures r.Ok? ==> old(obj).closed
    {
      if obj == null {
        return Err(NoneHasNoAttribute);
      }
      if raised {
        obj.Close();
      } else {
        obj.EnsureClosed();
      }
      obj := null;
      r := Ok(());
    }

    /** `_ContextManager.__aexit__` as written, which this class overrides:
        `close()` returns None, and awaiting None raises, so `obj` is never
        reset although the connection is closed. */
    method BaseAExitAsWritten() returns (r: Result<(), PoolError>)
      modifies this`obj, Kept()`closed
      ensures old(obj) == null ==> r == Err(NoneHasNoAttribute)
      ensures old(obj) != null ==> r == Err(NotAwaitable) && old(obj).closed
      ensures obj == old(obj)
    {
      if obj == null {
        return Err(NoneHasNoAttribute);
      }
      obj.Close();
      r := Err(NotAwaitable);
    }

    /** `_ContextManager.__aexit__` as intended: closes the connection
        without awaiting the plain result, then resets `obj`. */
    method BaseAExit() returns (r: Result<(), PoolError>)
      modifies this`obj, Kept()`closed
      ensures obj == null
      ensures r.Err? <==> old(obj) == null
      ensures r.Err? ==> r.error == NoneHasNoAttribute
      ensures r.Ok? ==> old(obj).closed
    {
      if obj == null {
        return Err(NoneHasNoAttribute);
      }
      obj.Close();
      obj := null;
      r := Ok(());
    }
  }
}
