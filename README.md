# Connection pool and small utilities, modelled in Dafny

This project models the asyncio connection pool in `src/basic/pool`.
- `Pool` keeps idle connections in a deque. That deque is bounded by `maxsize`, where 0 means unbounded.
- `Pool` also tracks connections in use, connections force-closed by `terminate`, and how many connections are being created.
- It evicts dead or stale idle connections, tops the pool up to `minsize`, and hands connections out and takes them back.
- The project also models the pooled `Conn` and the scoped guards that acquire and release connections.

It also models three small self-contained functions elsewhere in the repository:
- the lowest-unused-number search;
- the `countdown` and `fibonacci` generators;
- the `match` dispatches that fail through `assert_never`.

Layout:

- `wrappers.dfy`: `Option` and `Result`.
- `sequences.dfy` (module `Sequences`): order-preserving filtering. It also contains the rotate-or-pop pass that the pool's eviction loop performs on its deque, with the lemma that the pass filters in place.
- `conn.dfy` (module `Connection`):
  - `Conn`, a class with a constant `id` and a mutable `closed` flag.
  - The shared counter `Conn.count`, as an explicit `IdCounter` object.
  - The connection factory, as a `Connector` that opens connections until its `accepts` budget runs out.
- `pool.dfy` (module `ConnectionPool`):
  - The pool, as a class with the source's fields and an object invariant `Valid()`.
  - Every condition-variable wait becomes a `Blocked` step result. The waiter resuming later is a call of `AcquireStep` or `WaitClosedStep`. Like the source's loops, these do not repeat the checks made before the wait.
- `guards.dfy` (module `Guards`): `_PoolAcquireContextManager`, `_PoolConnectionContextManager` and `_ConnectionContextManager`, each as a class with the source's fields.
- `mark_unreachable.dfy` (module `HouseNumbers`), `generator.dfy` (module `Generators`) and `exhaustiveness.dfy` (module `Exhaustiveness`).

Behaviour of the pool's code that the model keeps:
- Acquisition takes the leftmost idle connection (`popleft`), and release appends on the right, so idle connections are reused oldest first.
- `release` neither checks a connection's health nor records its last-use time. A connection coming back is closed only when it is in a transaction or the pool is closing.
- `_acquire` refuses only when `_closing` is set.
- `wait_closed` closes the idle connections first, and only then waits for the connections in use.
- The constructor creates no connections. They are created on the first acquire.

## Model

| member | source | states |
|---|---|---|
| `ConnectionPool.SizeError` | src/basic/pool/pool.py:18-21 | The sizes are rejected exactly when `minsize < 0`, or when `maxsize` is nonzero and below `minsize`. A negative `minsize` is the error reported first. The `maxsize` error is reported exactly when `minsize` is accepted and a nonzero `maxsize` is below it. |
| `ConnectionPool.DequeAppend` | src/basic/pool/pool.py:27 | Appending below capacity, or with no capacity, adds the element on the right. At capacity the result has exactly `maxlen` elements. The result is always a suffix of the old deque plus the new element. |
| `ConnectionPool.ShouldEvict` | src/basic/pool/pool.py:151-166 | A connection that is kept has a reader that is not at end of stream, holds no error and has not received the server's end of stream. When recycling is off (`recycle <= -1`), or the connection has been idle at most `recycle` seconds, those three reader tests decide alone, so a healthy connection is kept. With `recycle > -1` a connection idle longer than `recycle` is always evicted. |
| `ConnectionPool.Wanted` | src/basic/pool/pool.py:172-194 | The number of connections filling sets out to create brings the size to at least `minsize`, and to exactly `minsize` when the pool was below it. It never takes a bounded pool above `maxsize`. It leaves an idle connection when `override_min` is set and the bound allows one. An extra connection beyond `minsize` is only ever the single overflow one, made when nothing is idle. |
| `ConnectionPool.Pool.MaxSize` | src/basic/pool/pool.py:52-62 | `maxsize` is the deque's capacity. A bounded pool's size, meaning idle plus in use plus being created, never exceeds it, and `minsize` never exceeds it either. |
| `ConnectionPool.Pool.FreeSize` | src/basic/pool/pool.py:60-62 | `freesize` is zero exactly when the idle deque is empty. |
| `ConnectionPool.Pool.Size` | src/basic/pool/pool.py:56-58 | `size` is at least `freesize`. It equals `freesize` exactly when no connection is in use and none is being created, which is the condition `wait_closed` waits for. |
| `ConnectionPool.Pool.constructor` | src/basic/pool/pool.py:17-42 | Accepted sizes give an empty pool that is open and satisfies the invariant. `maxsize == 0` becomes an unbounded deque. |
| `ConnectionPool.Pool.Create` | src/basic/pool/pool.py:17-42 | Bad sizes raise the matching `ValueError`. Otherwise the result is a fresh pool of size 0: every collection empty, both flags false, and `maxlen` `None` exactly when `maxsize == 0`. |
| `ConnectionPool.Pool.DrainFree` | src/basic/pool/pool.py:110-112 | Pops every idle connection from the left and closes it. Afterwards nothing is idle, every formerly idle connection is closed, and the invariant holds. |
| `ConnectionPool.Pool.Clear` | src/basic/pool/pool.py:64-71 | Empties the idle deque and closes every connection that was in it. The connections in use are untouched, because they lie outside the frame. |
| `ConnectionPool.Pool.Close` | src/basic/pool/pool.py:78-86 | Afterwards the pool is closing unless it was already closed. It touches nothing else, so calling it again changes nothing. |
| `ConnectionPool.Pool.TerminateUsed` | src/basic/pool/pool.py:94-96 | Every connection in use ends closed and is added to the terminated set. |
| `ConnectionPool.Pool.Terminate` | src/basic/pool/pool.py:88-99 | The pool is closing. Every formerly used connection is closed and moved to the terminated set, and the used set is empty. The idle deque is untouched. |
| `ConnectionPool.Pool.WaitClosed` | src/basic/pool/pool.py:101-118 | On a closed pool it is a no-op. On a pool that is not closing it raises `RuntimeError`. Otherwise it empties the idle deque, closing each connection. It then completes, marking the pool closed, exactly when nothing is in use or being created, and blocks otherwise. |
| `ConnectionPool.Pool.WaitClosedStep` | src/basic/pool/pool.py:114-118 | The wait ends, and the pool becomes closed, exactly when `size == freesize`. |
| `ConnectionPool.Pool.AExit` | src/basic/pool/pool.py:265-267 | Leaving `async with pool` closes the pool and then waits for it to close. The idle connections are closed, and the pool becomes closed exactly when the wait completes. |
| `ConnectionPool.Pool.EvictIdle` | src/basic/pool/pool.py:145-170 | The eviction pass leaves in the deque exactly the idle connections that should not be evicted, in their original order. It closes exactly the evicted ones and keeps the invariant. |
| `ConnectionPool.Pool.RotateAndPop` | src/basic/pool/pool.py:147-170 | Running the rotate/pop loop once per idle connection filters the deque in place. Each connection is closed exactly when it is at end of stream, errored, has `eof_received`, or has been idle longer than `recycle` (when `recycle > -1`). |
| `ConnectionPool.Pool.EvictStep` | src/basic/pool/pool.py:150-169 | One turn of the loop either pops and closes the rightmost connection, when it should be evicted, or rotates it to the left end. Either way the pass advances by exactly one element. |
| `ConnectionPool.Pool.PushFree` | src/basic/pool/pool.py:178 | Appending a connection the pool does not hold puts it on the right. It never drops anything, because the pool accounts for fewer connections than its bound. |
| `ConnectionPool.Pool.AddConnection` | src/basic/pool/pool.py:186-194 | Counts the connection in `_acquiring` while the factory runs, and restores the counter afterwards. On success it appends a fresh open connection carrying the next id. On failure it changes nothing. |
| `ConnectionPool.Pool.Replenish` | src/basic/pool/pool.py:172-181 | Creates connections while `size < minsize`, stopping at the first failure. It adds `min(needed, possible)` fresh connections with consecutive ids and keeps the idle prefix. It fails exactly when the factory runs out first. |
| `ConnectionPool.Pool.TopUp` | src/basic/pool/pool.py:172-194 | Creates exactly `min(Wanted, possible)` connections after the idle ones. It fails exactly when the factory cannot supply all of them, and keeps the invariant, including the bound. The shared id counter advances by exactly the number created. |
| `ConnectionPool.Pool.FillFreePool` | src/basic/pool/pool.py:145-194 | The survivors of eviction come first, in order, followed by the fresh connections opened now. Exactly the evicted connections are closed, and `_acquiring` ends where it started. The shared id counter advances by exactly the number created. |
| `ConnectionPool.Pool.Stepped` | src/basic/pool/pool.py:133-194 | What one pass of the acquire loop leaves behind. The deque after filling holds the survivors of eviction, in order, then `min(Wanted, possible)` fresh connections opened now with consecutive ids. A connection handed out is that deque's leftmost element, and `_free` is the rest of it. The factory's budget drops by the number created, and the shared id counter advances by that number, so ids stay distinct across passes. On a raise or a block, `_used` is unchanged. |
| `ConnectionPool.Pool.AcquireStep` | src/basic/pool/pool.py:133-143 | One pass of the acquire loop, with the whole new `_free`, `_used` and factory state given by `Stepped`. Exactly the evicted idle connections are closed. It raises exactly when the factory cannot supply what filling wants. It blocks only when nothing is idle and the bounded pool is full. Otherwise it hands out the first survivor, or a fresh connection when no survivor is left. That connection is open, was not in use, is added to `_used`, and is no longer idle. |
| `ConnectionPool.Pool.PopLeft` | src/basic/pool/pool.py:136-141 | The leftmost idle connection is open and not in use, so the two asserts of `_acquire` hold. It leaves the deque and joins `_used`. |
| `ConnectionPool.Pool.Acquire` | src/basic/pool/pool.py:126-143 | Raises `RuntimeError` once the pool is closing, leaving `_free`, `_used`, the factory and the id counter unchanged. Otherwise it has exactly the effect of one pass of the acquire loop, as `Stepped` states, and closes exactly the evicted idle connections. |
| `ConnectionPool.Pool.Release` | src/basic/pool/pool.py:200-224 | A terminated connection is closed and only dropped from the terminated set. A connection not in use fails the assert and changes nothing. Otherwise it leaves `_used`. Then: a closed connection is dropped; one in a transaction, or released while closing, is closed; any other goes to the right of the deque. A wake-up is scheduled exactly when an open connection outside a transaction comes back. |
| `ConnectionPool.Pool.Released` | src/basic/pool/pool.py:208-224 | The effect of `release(conn)` for each answer. A terminated connection leaves only the terminated set. A connection not in use fails the assert and changes nothing. Otherwise it leaves `_used`. If it was closed, it is dropped. If it was in a transaction, it is closed and the future is resolved. If the pool is closing, it is closed and a wake-up is scheduled. Any other connection is appended on the right of the deque and a wake-up is scheduled. |
| `ConnectionPool.Pool.Enter` | src/basic/pool/pool.py:226-228 | The plain `with pool:` always raises. |
| `Connection.Conn.constructor` | src/basic/pool/conn.py:10-20 | The shared counter goes up by one and the new connection takes its new value as `id`, so ids are 1, 2, 3, …. The connection starts open. |
| `Connection.Conn.Info` | src/basic/pool/conn.py:22-23 | Returns the connection's id. |
| `Connection.Conn.Close` | src/basic/pool/conn.py:25-28 | The connection ends closed, and nothing else about it changes. |
| `Connection.Conn.EnsureClosed` | src/basic/pool/conn.py:30-34 | The connection ends closed. |
| `Connection.Conn.AExit` | src/basic/pool/conn.py:39-44 | Whether or not the block raised, the connection ends closed. |
| `Connection.Connector.Connect` | src/basic/pool/conn.py:47-55 | Succeeds exactly when the factory can still open a connection. It then yields a fresh open connection whose id is the advanced counter. On failure nothing changes. |
| `Guards.PoolAcquireContext.constructor` | src/basic/pool/utils.py:81-84 | The guard holds the pool and no connection, and its coroutine has not run. |
| `Guards.PoolAcquireContext.AEnter` | src/basic/pool/utils.py:86-88 | Awaiting the acquire coroutine has the pool's full effect of `_acquire`: the `Stepped` state after a pass, or no change to `_free`, `_used`, the factory or the id counter when the pool is closing. It stores the connection returned in `_conn` and hands that same connection to the block. Raising leaves `_conn` unchanged. A coroutine that already ran cannot be awaited again, and the attempt leaves the pool, the factory and the id counter unchanged. |
| `Guards.PoolAcquireContext.Resume` | src/basic/pool/utils.py:86-88 | A suspended `__aenter__` resumes with another pass of the acquire loop, with the pool's full `Stepped` effect, including the id counter, and stores the connection on success. |
| `Guards.PoolAcquireContext.AExit` | src/basic/pool/utils.py:90-95 | Calls `release` once with the stored connection and has the pool's effect of that call. With the pool field already None it raises before touching the connection. Both fields end reset, even when `release` raises. |
| `Guards.PoolConnectionContext.constructor` | src/basic/pool/utils.py:115-117 | Stores the pool and the connection. |
| `Guards.PoolConnectionContext.Enter` | src/basic/pool/utils.py:119-121 | Succeeds exactly when a connection is held, and then returns that connection. Otherwise the assert fails. |
| `Guards.PoolConnectionContext.Exit` | src/basic/pool/utils.py:123-128 | Releases the held connection to the pool, with `release`'s effect. With no pool it raises and leaves the connection untouched. Both fields end reset whether or not the release raised. |
| `Guards.PoolConnectionContext.AExit` | src/basic/pool/utils.py:135-140 | The same release and reset as `__exit__`, with the returned future awaited. |
| `Guards.PoolConnectionContext.AEnter` | src/basic/pool/utils.py:130-133 | Fails the assert when a connection is already held, and raises on a missing pool. Both leave the pool, the factory and the id counter unchanged. Otherwise it acquires from the pool, with the pool's full effect of `_acquire` as `Stepped` states, and stores the connection. |
| `Guards.PoolConnectionContext.ResumeAEnter` | src/basic/pool/utils.py:130-133 | A suspended `__aenter__` resumes with another pass of the acquire loop, with the pool's full `Stepped` effect, including the id counter, and stores the connection on success. |
| `Guards.ConnectionContext.constructor` | src/basic/pool/utils.py:16-19 | The wrapped coroutine has not run, and `_obj` is None. |
| `Guards.ConnectionContext.AEnter` | src/basic/pool/utils.py:62-65 | Awaiting the connect coroutine creates a fresh open connection with the next id. It stores it in `_obj` and returns that same connection. A second await fails. |
| `Guards.ConnectionContext.AExit` | src/basic/pool/utils.py:143-149 | Closes the held connection, immediately or gracefully, and then resets `_obj`. It fails only when nothing is held. |
| `Guards.ConnectionContext.BaseAExitAsWritten` | src/basic/pool/utils.py:67-70 | The inherited `__aexit__` as written closes the connection, then raises from awaiting `None`, and leaves `_obj` set. |
| `Guards.ConnectionContext.BaseAExit` | src/basic/pool/utils.py:67-70 | The inherited `__aexit__` as intended closes the connection and resets `_obj`. |
| `Sequences.WithoutMembers` | src/basic/pool/pool.py:147-170 | A connection survives the eviction filter exactly when it was idle and is not evicted. |
| `Sequences.WithoutLength` | src/basic/pool/pool.py:147-170 | The filter never lengthens the deque, and it keeps its length exactly when nothing is evicted. |
| `Sequences.WithoutFrom` | src/basic/pool/pool.py:150-169 | Filtering from position `k` looks at element `k` first. |
| `Sequences.RotatePassStep` | src/basic/pool/pool.py:150-169 | After `n` turns the deque's last element is the original `n`-th from the right. The next turn drops it when evicted, and otherwise moves it to the left end. |
| `Sequences.RotatePassComplete` | src/basic/pool/pool.py:147-170 | After one turn per element, the deque is the order-preserving filter of the original. |
| `Sequences.WithoutDistinct` | src/basic/pool/pool.py:147-170 | Filtering keeps the idle connections distinct. |
| `HouseNumbers.IsUsed` | src/basic/mark_unreachable.py:9-11 | A number is taken exactly when the street is "Main St" and the number is 1 to 3 or 10 to 12. |
| `HouseNumbers.LowestUnused` | src/basic/mark_unreachable.py:14-22 | Returns a number `>= 1` that is not used, and every smaller positive number is used. The scan always ends, so the trailing `assert False` is unreachable. |
| `HouseNumbers.LowestUnusedValue` | src/basic/mark_unreachable.py:9-18 | The lowest unused number is 4 on "Main St" and 1 on any other street. |
| `Generators.Countdown` | src/basic/generator.py:33-38 | Yields exactly the values n, -n, n-1, -(n-1), …, 1, -1. |
| `Generators.CountdownLength` | src/basic/generator.py:33-41 | `countdown(n)` yields `2n` values when `n > 0`, and none otherwise. |
| `Generators.CountdownPairs` | src/basic/generator.py:33-38 | Value `2k` is `n-k`, and value `2k+1` is `-(n-k)`. |
| `Generators.CountdownFive` | src/basic/generator.py:41-51 | `countdown(5)` yields 5, -5, 4, -4, 3, -3, 2, -2, 1, -1. |
| `Generators.Fibonacci` | src/basic/generator.py:56-66 | Yields `n+1` values when `n >= 0` and none otherwise. Value `k` is the `k`-th Fibonacci number. |
| `Generators.FibonacciTen` | src/basic/generator.py:56-69 | `fibonacci(10)` yields 0, 1, 1, 2, 3, 5, 8, 13, 21, 34, 55. |
| `Exhaustiveness.Calculate` | src/basic/exhaustiveness_checking.py:16-23 | Fails through `assert_never` exactly for `MULTIPLY`. |
| `Exhaustiveness.AddSubtractInverse` | src/basic/exhaustiveness_checking.py:18-21 | `ADD` and `SUBTRACT` succeed, and each undoes the other. |
| `Exhaustiveness.CalculateExamples` | src/basic/exhaustiveness_checking.py:26-28 | (5, ADD, 3) gives 8, (5, SUBTRACT, 3) gives 2, and (5, MULTIPLY, 3) fails. |
| `Exhaustiveness.Process` | src/basic/exhaustiveness_checking.py:32-39 | Integers, including booleans, take the integer case. Strings take the string case. Every other value, such as a float, fails through `assert_never`. |

## Left out

- The condition variable is not modelled, and neither is the lock in `Conn.__init__`. This covers lock, `wait`, `notify` and the `_wakeup` task. A wait becomes a `Blocked` step result. The task `release` schedules becomes the `Wakeup` future value.
- Coroutine plumbing in `_ContextManager` is left out: `send`, `throw`, `close`, `gi_*`, `__next__`, `__iter__` and `__await__`. A coroutine is reduced to its state: not run, suspended, or finished.
- `Pool.__iter__` and `__exit__` are trivial plumbing, and the property getters `echo`, `minsize` and `closed` are plain field reads; none of these is modelled.
- `Pool.__aenter__` is not modelled either; it returns the pool.
- The connection factory is abstract. `pool.py` calls a `connect` it never imports, and `conn.py`'s `connect` takes no arguments. The factory is the `Connector`, which succeeds while its `accepts` budget lasts. The keyword arguments, `echo` and `loop` are dropped.
- The stream reader's `at_eof()`, `exception()` and `eof_received`, `last_usage`, and `get_transaction_status()` are not part of the `Conn` shown. They are fields of `Conn` that the environment sets.
- `loop.time()` is a float clock. It becomes an integer `now` parameter. The source reads the clock again for each idle connection in the eviction loop. The model reads it once per acquire pass, and uses that `now` both for the whole eviction pass and for the connections created in the pass.
- Printing and the one-second sleep in `ensure_closed` are not modelled.
- `src/basic/pool/test_pool.py` is a concurrent driver, and its constructor call does not match `Pool.__init__`.
- Concurrent interleavings of pool operations are not modelled. Each operation runs atomically up to its first wait.
- Generators are not lazy in the model. `Countdown` and `Fibonacci` return everything the generator yields, in order.
- `echo`, `gen_none` and the module-level driver code of `generator.py` are not modelled.
- `process` prints a line for each accepted value. The model returns which case handled the value, not the printed text. A float is carried without its value.
- Cancellation of a waiting acquirer is not modelled.

## Findings

| source | as written | input that shows it | evidently intended | confidence | as-written member | corrected member |
|---|---|---|---|---|---|---|
| src/basic/pool/utils.py:67-70 | `_ContextManager.__aexit__` does `await self._obj.close()`, but `Conn.close()` is a plain method returning `None` | any `_ContextManager` holding a `Conn`, exited normally: `close()` runs, then `await None` raises `TypeError`, and `self._obj = None` is never reached | close the connection without awaiting, then reset `_obj` | not executed; the subclasses in the repository override this method, so it is reached only through the base class directly | `Guards.ConnectionContext.BaseAExitAsWritten` | `Guards.ConnectionContext.BaseAExit` |
