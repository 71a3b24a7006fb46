/** The asyncio connection pool of src/basic/pool/pool.py as a sequential
    state machine. Every `await self._cond.wait()` becomes a step that
    reports `Blocked`; the waiter resuming later is a call of the matching
    `...Step` method, which, like the source's loop, does not repeat the
    checks made before the wait. */
module ConnectionPool {
  import opened Wrappers
  import opened Sequences
  import opened Connection

  /** The exceptions the pool and its guards raise. */
  datatype PoolError =
    | MinsizeNegative        // ValueError("minsize should be zero or greater")
    | MaxsizeBelowMinsize    // ValueError("maxsize should be not less than minsize")
    | AcquireAfterClose      // RuntimeError from _acquire on a closing pool
    | WaitClosedBeforeClose  // RuntimeError from wait_closed before close
    | CreationFailed         // whatever the connection factory raised
    | YieldFromRequired      // RuntimeError from the plain `with pool:`
    | AssertionFailed        // a failed `assert`
    | NoneHasNoAttribute     // AttributeError on a field already reset to None
    | NotAwaitable           // TypeError from awaiting a plain value
    | CoroutineAwaited       // RuntimeError from awaiting a coroutine already awaited

  /** A step that may have to wait on the pool's condition variable. */
  datatype Step<T> = Done(value: T) | Blocked | Raised(error: PoolError)

  /** The future `release` returns: already resolved, or the task that
      notifies one waiter. */
  datatype Future = Resolved | Wakeup

  /** The constructor's argument check; `None` when the sizes are accepted. */
  function SizeError(minsize: int, maxsize: int): (r: Option<PoolError>)
    ensures r.None? <==> 0 <= minsize && (maxsize == 0 || minsize <= maxsize)
    ensures r == Some(MinsizeNegative) <==> minsize < 0
    ensures r == Some(MaxsizeBelowMinsize) <==> 0 <= minsize && maxsize != 0 && maxsize < minsize
  {
    if minsize < 0 then Some(MinsizeNegative)
    else if maxsize < minsize && maxsize != 0 then Some(MaxsizeBelowMinsize)
    else None
  }

  /** `deque.append` on a deque whose capacity is `maxlen`: when full it
      drops elements from the left, keeping the newest `maxlen`. */
  function DequeAppend<T>(d: seq<T>, x: T, maxlen: Option<nat>): (r: seq<T>)
    ensures maxlen.None? || |d| < maxlen.value ==> r == d + [x]
    ensures maxlen.Some? && |d| >= maxlen.value ==> |r| == maxlen.value
    ensures exists k :: 0 <= k <= |d| + 1 && r == (d + [x])[k..]
  {
    if maxlen.Some? && |d| + 1 > maxlen.value then
      var r := (d + [x])[|d| + 1 - maxlen.value..];
      assert r == (d + [x])[|d| + 1 - maxlen.value..];
      r
    else
      assert d + [x] == (d + [x])[0..];
      d + [x]
  }

  /** The eviction test of `_fill_free_pool` for one idle connection: its
      reader is at end of stream or holds an error, the server's end of
      stream was received, or it has been idle longer than `recycle`
      seconds (`recycle == -1` disables the age test). */
  predicate ShouldEvict(reader: ReaderState, lastUsage: int, recycle: int, now: int): (r: bool)
    ensures !r ==> !reader.atEof && !reader.exception && !reader.eofReceived
    ensures recycle <= -1 || now - lastUsage <= recycle ==> (r <==> reader.atEof || reader.exception || reader.eofReceived)
    ensures recycle > -1 && now - lastUsage > recycle ==> r
  {
    reader.atEof || reader.exception || reader.eofReceived
    || (recycle > -1 && now - lastUsage > recycle)
  }

  function Min(a: nat, b: nat): nat {
    if a < b then a else b
  }

  /** How many connections `_fill_free_pool` sets out to create once the
      eviction pass has left `kept` idle connections while `others` are in
      use or being created: enough to reach `minsize`, or, when that leaves
      nothing idle and `overrideMin` is set, one more if the bound allows. */
  function Wanted(kept: nat, others: nat, minsize: int, maxlen: Option<nat>, overrideMin: bool): (n: nat)
    ensures kept + others + n >= minsize
    ensures kept + others < minsize ==> kept + others + n == minsize
    ensures maxlen.Some? && minsize <= maxlen.value && kept + others <= maxlen.value
            ==> kept + others + n <= maxlen.value
    ensures overrideMin && (maxlen.None? || kept + others < maxlen.value) ==> kept + n > 0
    ensures n > 0 && kept + others >= minsize ==> kept == 0 && n == 1 && overrideMin
  {
    var replenish := if kept + others < minsize then minsize - (kept + others) else 0;
    if kept + replenish > 0 then replenish
    else if overrideMin && (maxlen.None? || others < maxlen.value) then 1
    else 0
  }

  /** The connections at positions `from..` of `s` are open, were opened at
      time `now`, and carry consecutive ids after `base`. */
  ghost predicate OpenedFrom(s: seq<Conn>, from: nat, base: nat, now: int)
    reads Elems(s)
  {
    forall i | from <= i < |s| :: Opened(s[i], now) && s[i].id == base + (i - from) + 1
  }

  class Pool {
    const minsize: int
    /** The capacity of the idle deque: `maxsize or None`. */
    const maxlen: Option<nat>
    /** Maximum idle age in seconds; -1 disables recycling. */
    const recycle: int

    /** Idle connections; connections are taken from the left and
        returned on the right. */
    var free: seq<Conn>
    /** Connections handed out and not yet released. */
    var used: set<Conn>
    /** Connections force-closed by `terminate` and not yet released. */
    var terminated: set<Conn>
    /** Connections being created right now. */
    var acquiring: nat
    var closing: bool
    var closed: bool

    /** The pool's object invariant. */
    ghost predicate Valid()
      reads this, Elems(free), terminated
    {
      && 0 <= minsize
      && (maxlen.Some? ==> 0 < maxlen.value && minsize <= maxlen.value && Size() <= maxlen.value)
      && Distinct(free)
      && Elems(free) !! used && Elems(free) !! terminated && used !! terminated
      && (forall c | c in free :: !c.closed)
      && (forall c | c in terminated :: c.closed)
      && (closed ==> closing)
    }

    /** `freesize`: the number of idle connections. */
    function FreeSize(): (r: nat)
      reads this
      ensures r == 0 <==> free == []
    {
      |free|
    }

    /** Every connection the pool accounts for: idle, in use or being created. */
    function Size(): (r: nat)
      reads this
      ensures FreeSize() <= r
      ensures r == FreeSize() <==> used == {} && acquiring == 0
    {
      FreeSize() + |used| + acquiring
    }

    /** The `maxsize` property: the deque's capacity, `None` when unbounded.
        A bounded pool never accounts for more connections than that. */
    function MaxSize(): (r: Option<nat>)
      reads this, Elems(free), terminated
      requires Valid()
      ensures r.Some? ==> minsize <= r.value && FreeSize() <= Size() <= r.value
    {
      maxlen
    }

    /** The connections the next eviction pass at time `now` closes. */
    ghost function Doomed(now: int): set<Conn>
      reads this, Elems(free)
    {
      set c | c in free && ShouldEvict(c.reader, c.lastUsage, recycle, now)
    }

    /** The idle connections that survive an eviction pass at time `now`. */
    ghost function Survivors(now: int): seq<Conn>
      reads this, Elems(free)
    {
      Without(free, Doomed(now))
    }

    /** `__init__` once the sizes passed the check: an empty, open pool. */
    constructor (minsize: int, maxsize: int, recycle: int)
      requires SizeError(minsize, maxsize).None?
      ensures Valid()
      ensures this.minsize == minsize && this.recycle == recycle
      ensures maxlen == if maxsize == 0 then None else Some(maxsize)
      ensures free == [] && used == {} && terminated == {} && acquiring == 0
      ensures !closing && !closed
    {
      this.minsize := minsize;
      maxlen := if maxsize == 0 then None else Some(maxsize);
      this.recycle := recycle;
      free := [];
      used := {};
      terminated := {};
      acquiring := 0;
      closing := false;
      closed := false;
    }

    /** `Pool(minsize, maxsize, ...)`: raises on bad sizes, otherwise an
        empty, open pool. */
    static method Create(minsize: int, maxsize: int, recycle: int) returns (r: Result<Pool, PoolError>)
      ensures r.Err? <==> SizeError(minsize, maxsize).Some?
      ensures r.Err? ==> r.error == SizeError(minsize, maxsize).value
      ensures r.Ok? ==> fresh(r.value) && r.value.Valid() && r.value.Size() == 0
      ensures r.Ok? ==> r.value.minsize == minsize && r.value.recycle == recycle
      ensures r.Ok? ==> r.value.maxlen == if maxsize == 0 then None else Some(maxsize)
      ensures r.Ok? ==> r.value.free == [] && r.value.used == {} && r.value.terminated == {}
      ensures r.Ok? ==> !r.value.closing && !r.value.closed
    {
      var err := SizeError(minsize, maxsize);
      if err.Some? {
        return Err(err.value);
      }
      var p := new Pool(minsize, maxsize, recycle);
      r := Ok(p);
    }

    /** Pops every idle connection from the left and closes it. */
    method DrainFree(graceful: bool)
      requires Valid()
      modifies this`free, Elems(free)`closed
      ensures Valid() && free == []
      ensures forall c | c in old(free) :: c.closed
    {
      ghost var drained := free;
      ghost var d := 0;
      while |free| > 0
        invariant 0 <= d <= |drained| && free == drained[d..]
        invariant forall j | 0 <= j < d :: drained[j].closed
      {
        var conn := free[0];
        free := free[1..];
        if graceful {
          conn.EnsureClosed();
        } else {
          conn.Close();
        }
        d := d + 1;
      }
    }

    /** `clear`: closes and removes every idle connection, leaving the
        connections in use alone. */
    method Clear()
      requires Valid()
      modifies this`free, Elems(free)`closed
      ensures Valid() && free == []
      ensures forall c | c in old(free) :: c.closed
    {
      DrainFree(true);
    }

    /** `close`: marks the pool closing unless it is already closed; it
        closes no connection itself. */
    method Close()
      requires Valid()
      modifies this`closing
      ensures Valid()
      ensures closing == (old(closing) || !closed)
    {
      if closed {
        return;
      }
      closing := true;
    }

    /** The loop of `terminate`: closes every connection in use and adds
        it to the terminated set. */
    method TerminateUsed()
      requires forall c | c in terminated :: c.closed
      modifies this`terminated, used`closed
      ensures terminated == old(terminated) + used
      ensures forall c | c in terminated :: c.closed
    {
      var rest := used;
      while rest != {}
        invariant rest <= used
        invariant terminated == old(terminated) + (used - rest)
        invariant forall c | c in terminated :: c.closed
        decreases rest
      {
        var conn :| conn in rest;
        conn.Close();
        terminated := terminated + {conn};
        rest := rest - {conn};
      }
    }

    /** `terminate`: closes the pool and force-closes every connection in
        use, moving it to the terminated set; idle connections stay. */
    method Terminate()
      requires Valid()
      modifies this`closing, this`used, this`terminated, used`closed
      ensures Valid() && closing
      ensures used == {} && terminated == old(terminated) + old(used)
      ensures forall c | c in old(used) :: c.closed
    {
      Close();
      TerminateUsed();
      assert forall c | c in free :: !c.closed;
      used := {};
    }

    /** `wait_closed`: nothing to do on a closed pool, an error on a pool
        that is not closing; otherwise closes every idle connection and
        then waits until no connection is in use or being created. */
    method WaitClosed() returns (r: Step<()>)
      requires Valid()
      modifies this`free, this`closed, Elems(free)`closed
      ensures Valid()
      ensures old(closed) ==> r == Done(()) && free == old(free) && closed
      ensures !old(closed) && !closing ==> r == Raised(WaitClosedBeforeClose)
      ensures !old(closed) && !closing ==> free == old(free) && !closed
      ensures !old(closed) && closing ==> free == [] && forall c | c in old(free) :: c.closed
      ensures !old(closed) && closing ==> r == (if |used| + acquiring > 0 then Blocked else Done(()))
      ensures !old(closed) && closing ==> closed == r.Done?
    {
      if closed {
        return Done(());
      }
      if !closing {
        return Raised(WaitClosedBeforeClose);
      }
      DrainFree(false);
      r := WaitClosedStep();
    }

    /** One pass of the wait in `wait_closed`: the pool becomes closed once
        its size equals its free size. */
    method WaitClosedStep() returns (r: Step<()>)
      requires Valid() && closing
      modifies this`closed
      ensures Valid()
      ensures r == if Size() > FreeSize() then Blocked else Done(())
      ensures closed == (old(closed) || r.Done?)
    {
      if Size() > FreeSize() {
        return Blocked;
      }
      closed := true;
      r := Done(());
    }

    /** `async with pool:` exit: close, then wait for the pool to close. */
    method AExit() returns (r: Step<()>)
      requires Valid()
      modifies this`closing, this`free, this`closed, Elems(free)`closed
      ensures Valid() && closing
      ensures old(closed) ==> r == Done(()) && free == old(free)
      ensures !old(closed) ==> free == [] && forall c | c in old(free) :: c.closed
      ensures !old(closed) ==> r == (if |used| + acquiring > 0 then Blocked else Done(()))
      ensures closed == r.Done?
    {
      Close();
      r := WaitClosed();
    }

    /** The eviction pass of `_fill_free_pool`: looks at the rightmost idle
        connection once per idle connection, popping and closing it when it
        should be evicted and rotating it to the left otherwise. */
    method EvictIdle(now: int)
      requires Valid()
      modifies this`free, Elems(free)`closed
      ensures Valid()
      ensures free == old(Survivors(now))
      ensures forall c | c in old(free) :: c.closed <==> c in old(Doomed(now))
      ensures forall c | c in old(free) :: c.reader == old(c.reader) && c.lastUsage == old(c.lastUsage)
    {
      ghost var orig := free;
      ghost var doomed := Doomed(now);
      RotateAndPop(now);
      forall c | c in free ensures c in orig && c !in doomed {
        WithoutMembers(orig, doomed, c);
      }
      WithoutDistinct(orig, doomed);
      WithoutLength(orig, doomed);
    }

    /** The loop of the eviction pass. */
    method RotateAndPop(now: int)
      requires forall c | c in free :: !c.closed
      modifies this`free, Elems(free)`closed
      ensures free == old(Survivors(now))
      ensures forall c | c in old(free) :: c.closed <==> c in old(Doomed(now))
      ensures forall c | c in old(free) :: c.reader == old(c.reader) && c.lastUsage == old(c.lastUsage)
    {
      ghost var orig := free;
      ghost var doomed := Doomed(now);
      var freeSize := |free|;
      var n := 0;
      while n < freeSize
        invariant 0 <= n <= freeSize == |orig|
        invariant free == RotatePass(orig, doomed, n)
        invariant forall c | c in orig :: c.reader == old(c.reader) && c.lastUsage == old(c.lastUsage)
        invariant forall c | c in orig :: c.closed <==> c in doomed && c in orig[freeSize - n..]
      {
        ghost var conn := orig[freeSize - n - 1];
        assert conn in doomed <==> ShouldEvict(conn.reader, conn.lastUsage, recycle, now);
        EvictStep(now, orig, doomed, n, conn);
        n := n + 1;
      }
      RotatePassComplete(orig, doomed);
      assert orig[0..] == orig;
    }

    /** One turn of the eviction loop over the idle connections `orig`,
        `n` of which have been looked at: the rightmost idle connection,
        `conn`, is popped and closed when it should be evicted, and
        otherwise rotated to the left end. Afterwards the closed
        connections are still the evicted ones among those looked at. */
    method EvictStep(now: int, ghost orig: seq<Conn>, ghost doomed: set<Conn>, ghost n: nat, ghost conn: Conn)
      requires n < |orig| && conn == orig[|orig| - n - 1]
      requires conn in doomed <==> ShouldEvict(conn.reader, conn.lastUsage, recycle, now)
      requires free == RotatePass(orig, doomed, n)
      requires forall c | c in orig :: c.closed <==> c in doomed && c in orig[|orig| - n..]
      modifies this`free, conn`closed
      ensures var rest := old(free[..|free| - 1]);
              if conn in doomed then free == rest && conn.closed else free == [conn] + rest
      ensures free == RotatePass(orig, doomed, n + 1)
      ensures forall c | c in orig :: c.closed <==> c in doomed && c in orig[|orig| - (n + 1)..]
    {
      RotatePassStep(orig, doomed, n);
      ghost var k := |orig| - n - 1;
      assert orig[k..] == [conn] + orig[k + 1..];
      var last := free[|free| - 1];
      if ShouldEvict(last.reader, last.lastUsage, recycle, now) {
        free := free[..|free| - 1];
        last.Close();
      } else {
        free := [last] + free[..|free| - 1];
      }
    }

    /** `self._free.append(conn)` for a connection the pool does not hold:
        the deque never overflows, because the pool accounts for fewer
        connections than its bound. */
    method PushFree(conn: Conn)
      requires Valid() && !conn.closed
      requires conn !in free && conn !in used && conn !in terminated
      requires maxlen.Some? ==> Size() < maxlen.value
      modifies this`free
      ensures Valid() && free == old(free) + [conn]
    {
      free := DequeAppend(free, conn, maxlen);
      assert Distinct(free) by {
        forall i, j | 0 <= i < j < |free| ensures free[i] != free[j] {
          if j < |old(free)| { assert free[i] == old(free)[i] && free[j] == old(free)[j]; }
        }
      }
    }

    /** Opens one connection, counting it in `acquiring` while the factory
        runs, and appends it to the idle deque. */
    method AddConnection(connector: Connector, now: int) returns (ok: bool)
      requires Valid()
      requires maxlen.Some? ==> Size() < maxlen.value
      modifies this`free, this`acquiring, connector`accepts, connector.ids
      ensures Valid() && acquiring == old(acquiring)
      ensures ok <==> old(connector.accepts) > 0
      ensures ok ==> connector.accepts == old(connector.accepts) - 1
      ensures ok ==> connector.ids.count == old(connector.ids.count) + 1
      ensures ok ==> |free| == |old(free)| + 1 && free[..|old(free)|] == old(free)
      ensures ok ==> fresh(free[|free| - 1]) && Opened(free[|free| - 1], now)
      ensures ok ==> free[|free| - 1].id == connector.ids.count
      ensures !ok ==> free == old(free) && connector.accepts == old(connector.accepts)
      ensures !ok ==> connector.ids.count == old(connector.ids.count)
    {
      acquiring := acquiring + 1;
      var c := connector.Connect(now);
      acquiring := acquiring - 1;
      assert Valid();
      if c.None? {
        return false;
      }
      assert c.value !in free && c.value !in used && c.value !in terminated;
      PushFree(c.value);
      assert free[..|old(free)|] == old(free);
      ok := true;
    }

    /** The replenishing loop of `_fill_free_pool`: opens connections while
        the pool is below `minsize`, stopping at the first that fails. */
    method Replenish(connector: Connector, now: int) returns (r: Result<(), PoolError>)
      requires Valid()
      modifies this`free, this`acquiring, connector`accepts, connector.ids
      ensures Valid() && acquiring == old(acquiring)
      ensures var need := if old(Size()) < minsize then minsize - old(Size()) else 0;
              && |free| == |old(free)| + Min(need, old(connector.accepts))
              && (r.Ok? <==> need <= old(connector.accepts))
      ensures r.Err? ==> r.error == CreationFailed
      ensures free[..|old(free)|] == old(free)
      ensures forall i | |old(free)| <= i < |free| :: fresh(free[i])
      ensures OpenedFrom(free, |old(free)|, old(connector.ids.count), now)
      ensures connector.accepts == old(connector.accepts) - (|free| - |old(free)|)
      ensures connector.ids.count == old(connector.ids.count) + (|free| - |old(free)|)
    {
      ghost var start := free;
      ghost var base := connector.ids.count;
      while Size() < minsize
        invariant Valid() && acquiring == old(acquiring)
        invariant |free| >= |start| && free[..|start|] == start
        invariant Size() <= minsize || |free| == |start|
        invariant |free| - |start| + connector.accepts == old(connector.accepts)
        invariant connector.ids.count == base + (|free| - |start|)
        invariant forall i | |start| <= i < |free| :: fresh(free[i])
        invariant OpenedFrom(free, |start|, base, now)
        decreases minsize - Size()
      {
        ghost var before := free;
        var ok := AddConnection(connector, now);
        if !ok {
          return Err(CreationFailed);
        }
        assert free[..|start|] == before[..|start|];
      }
      r := Ok(());
    }

    /** The creating half of `_fill_free_pool`, once eviction is done:
        tops the pool up to `minsize`, and, when nothing is idle afterwards
        and `overrideMin` is set, opens one more connection if the bound
        allows. */
    method TopUp(overrideMin: bool, connector: Connector, now: int) returns (r: Result<(), PoolError>)
      requires Valid()
      modifies this`free, this`acquiring, connector`accepts, connector.ids
      ensures Valid() && acquiring == old(acquiring)
      ensures var n := Wanted(|old(free)|, |used| + acquiring, minsize, maxlen, overrideMin);
              && |free| == |old(free)| + Min(n, old(connector.accepts))
              && (r.Ok? <==> n <= old(connector.accepts))
      ensures free[..|old(free)|] == old(free)
      ensures r.Err? ==> r.error == CreationFailed
      ensures forall i | |old(free)| <= i < |free| :: fresh(free[i])
      ensures OpenedFrom(free, |old(free)|, old(connector.ids.count), now)
      ensures connector.accepts == old(connector.accepts) - (|free| - |old(free)|)
      ensures connector.ids.count == old(connector.ids.count) + (|free| - |old(free)|)
    {
      ghost var base := connector.ids.count;
      ghost var n := Wanted(|free|, |used| + acquiring, minsize, maxlen, overrideMin);
      r := Replenish(connector, now);
      if r.Err? || |free| > 0 {
        return;
      }
      assert old(free) == [] && connector.accepts == old(connector.accepts);
      if overrideMin && (maxlen.None? || Size() < maxlen.value) {
        assert n == 1;
        var ok := AddConnection(connector, now);
        if !ok {
          return Err(CreationFailed);
        }
        assert |free| == 1 && free[0].id == base + 1;
      } else {
        assert n == 0;
      }
    }

    /** `_fill_free_pool`: evicts dead or stale idle connections, then
        creates what the pool lacks. The factory may raise; `acquiring` is
        restored either way. */
    method FillFreePool(overrideMin: bool, connector: Connector, now: int) returns (r: Result<(), PoolError>)
      requires Valid()
      modifies this`free, this`acquiring, Elems(free)`closed, connector`accepts, connector.ids
      ensures Valid() && acquiring == old(acquiring)
      ensures forall c | c in old(free) :: c.closed <==> c in old(Doomed(now))
      ensures var kept := old(Survivors(now));
              var n := Wanted(|kept|, |used| + acquiring, minsize, maxlen, overrideMin);
              && |free| == |kept| + Min(n, old(connector.accepts))
              && free[..|kept|] == kept
              && (r.Ok? <==> n <= old(connector.accepts))
      ensures r.Err? ==> r.error == CreationFailed
      ensures forall i | |old(Survivors(now))| <= i < |free| :: fresh(free[i])
      ensures OpenedFrom(free, |old(Survivors(now))|, old(connector.ids.count), now)
      ensures connector.accepts == old(connector.accepts) - (|free| - |old(Survivors(now))|)
      ensures connector.ids.count == old(connector.ids.count) + (|free| - |old(Survivors(now))|)
    {
      EvictIdle(now);
      r := TopUp(overrideMin, connector, now);
    }

    /** One pass of the loop in `_acquire`: fill the pool, then hand out the
        leftmost idle connection, or report that the caller must wait. */
    method AcquireStep(connector: Connector, now: int) returns (r: Step<Conn>)
      requires Valid()
      modifies this`free, this`used, this`acquiring, Elems(free)`closed, connector`accepts, connector.ids
      ensures Valid() && acquiring == old(acquiring) && Stepped(connector, now, r)
      ensures forall c | c in old(free) :: c.closed <==> c in old(Doomed(now))
      ensures r.Raised? <==> old(connector.accepts) < Wanted(|old(Survivors(now))|, |old(used)| + acquiring, minsize, maxlen, true)
      ensures r.Raised? ==> r.error == CreationFailed && used == old(used)
      ensures r.Blocked? ==> free == [] && used == old(used)
      ensures r.Blocked? ==> maxlen.Some? && Size() == maxlen.value
      ensures r.Done? ==> r.value !in old(used) && used == old(used) + {r.value}
      ensures r.Done? ==> !r.value.closed && r.value !in free
      ensures r.Done? && |old(Survivors(now))| > 0 ==> r.value == old(Survivors(now))[0]
      ensures r.Done? && |old(Survivors(now))| == 0 ==> fresh(r.value)
    {
      var filled := FillFreePool(true, connector, now);
      if filled.Err? {
        return Raised(filled.error);
      }
      if |free| > 0 {
        ghost var filledFree := free;
        var conn := PopLeft();
        assert [conn] + free == filledFree;
        return Done(conn);
      }
      r := Blocked;
    }

    /** `self._free.popleft()` followed by `self._used.add(conn)`: the
        connection taken is open and was not in use, as the two asserts of
        `_acquire` require. */
    method PopLeft() returns (conn: Conn)
      requires Valid() && |free| > 0
      modifies this`free, this`used
      ensures Valid()
      ensures conn == old(free[0]) && free == old(free[1..])
      ensures !conn.closed && conn !in old(used) && conn !in free
      ensures used == old(used) + {conn}
    {
      ghost var before := free;
      conn := free[0];
      free := free[1..];
      assert !conn.closed;
      assert conn !in used;
      assert conn !in free by {
        assert forall k | 0 <= k < |free| :: free[k] == before[k + 1];
      }
      used := used + {conn};
    }

    /** `_acquire`: raises on a closing pool, otherwise takes a first pass
        of the acquire loop. */
    method Acquire(connector: Connector, now: int) returns (r: Step<Conn>)
      requires Valid()
      modifies this`free, this`used, this`acquiring, Elems(free)`closed, connector`accepts, connector.ids
      ensures Valid() && acquiring == old(acquiring)
      ensures old(closing) ==> r == Raised(AcquireAfterClose) && free == old(free) && used == old(used)
                               && connector.accepts == old(connector.accepts) && connector.ids.count == old(connector.ids.count)
      ensures !old(closing) ==> Stepped(connector, now, r)
      ensures !old(closing) ==> forall c | c in old(free) :: c.closed <==> c in old(Doomed(now))
      ensures !old(closing) ==> (r.Raised? <==> old(connector.accepts) < Wanted(|old(Survivors(now))|, |old(used)| + acquiring, minsize, maxlen, true))
      ensures r.Raised? && !old(closing) ==> r.error == CreationFailed && used == old(used)
      ensures r.Blocked? ==> free == [] && used == old(used) && maxlen.Some? && Size() == maxlen.value
      ensures r.Done? ==> r.value !in old(used) && used == old(used) + {r.value}
      ensures r.Done? ==> !r.value.closed && r.value !in free
      ensures r.Done? && |old(Survivors(now))| > 0 ==> r.value == old(Survivors(now))[0]
      ensures r.Done? && |old(Survivors(now))| == 0 ==> fresh(r.value)
    {
      if closing {
        return Raised(AcquireAfterClose);
      }
      r := AcquireStep(connector, now);
    }

    /** What one pass of the acquire loop at time `now` did to the pool,
        given its answer: the eviction pass kept `Survivors(now)` in order,
        fresh connections opened at `now` followed them (as many of the
        `Wanted` ones as the connector accepted), and a connection handed
        out is the leftmost of that deque, so `free` is the rest of it. */
    twostate predicate Stepped(connector: Connector, now: int, new r: Step<Conn>)
      reads this, Elems(free), connector, connector.ids, if r.Done? then {r.value} else {}
    {
      var kept := old(Survivors(now));
      var filled := if r.Done? then [r.value] + free else free;
      var wanted := Wanted(|kept|, |old(used)| + old(acquiring), minsize, maxlen, true);
      && acquiring == old(acquiring)
      && |filled| == |kept| + Min(wanted, old(connector.accepts))
      && filled[..|kept|] == kept
      && (forall i | |kept| <= i < |filled| :: fresh(filled[i]))
      && OpenedFrom(filled, |kept|, old(connector.ids.count), now)
      && connector.accepts == old(connector.accepts) - (|filled| - |kept|)
      && connector.ids.count == old(connector.ids.count) + (|filled| - |kept|)
      && (r.Raised? <==> old(connector.accepts) < wanted)
      && (r.Raised? ==> r.error == CreationFailed && used == old(used))
      && (r.Blocked? ==> free == [] && used == old(used) && maxlen.Some? && Size() == maxlen.value)
      && (r.Done? ==> r.value !in old(used) && used == old(used) + {r.value}
                      && !r.value.closed && r.value !in free)
    }

    /** What `release(conn)` does to the pool, given its answer. */
    twostate predicate Released(conn: Conn, new r: Result<Future, PoolError>)
      reads this, conn
    {
      if conn in old(terminated) then
        // A terminated connection is only forgotten.
        && r == Ok(Resolved) && terminated == old(terminated) - {conn}
        && used == old(used) && free == old(free) && conn.closed
      else if conn !in old(used) then
        // The `assert conn in self._used` fails.
        && r == Err(AssertionFailed) && terminated == old(terminated)
        && used == old(used) && free == old(free) && conn.closed == old(conn.closed)
      else
        && used == old(used) - {conn} && terminated == old(terminated)
        && if old(conn.closed) then
             r == Ok(Resolved) && free == old(free) && conn.closed
           else if old(conn.inTransaction) then
             r == Ok(Resolved) && free == old(free) && conn.closed
           else if closing then
             r == Ok(Wakeup) && free == old(free) && conn.closed
           else
             r == Ok(Wakeup) && free == old(free) + [conn] && !conn.closed
    }

    /** `release`: gives a connection back. A terminated one is dropped from
        the terminated set; otherwise it must be in use. A closed connection
        is forgotten, one inside a transaction or released while the pool is
        closing is closed, and any other goes back to the right of the idle
        deque. */
    method Release(conn: Conn) returns (r: Result<Future, PoolError>)
      requires Valid()
      modifies this`free, this`used, this`terminated, conn`closed
      ensures Valid() && Released(conn, r)
    {
      if conn in terminated {
        assert conn.closed;
        terminated := terminated - {conn};
        return Ok(Resolved);
      }
      if conn !in used {
        return Err(AssertionFailed);
      }
      used := used - {conn};
      r := Ok(Resolved);
      if !conn.closed {
        if conn.inTransaction {
          conn.Close();
          return;
        }
        if closing {
          conn.Close();
        } else {
          PushFree(conn);
        }
        r := Ok(Wakeup);
      }
    }

    /** The plain `with pool:` always raises. */
    function Enter(): (r: Result<(), PoolError>)
      ensures r.Err?
    {
      Err(YieldFromRequired)
    }
  }
}
