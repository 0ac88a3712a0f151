# async-defer: a Dafny model of the deferred-call scheduling loop

async-defer lets producers schedule calls to a callback that runs against one
piece of lock-protected state `T`. Each call comes with the instant at which it
should run. A `Dispatcher` holds the lock. Each registered callback gets a
listener task and a `Caller`. The `Caller` sends `(instant, arguments)` tuples
into an unbounded channel. The listener loop keeps the received tuples in a
`pending` vector. On each pass it runs the earliest entry once that entry is
overdue, taking the lock only for that one invocation. Otherwise it sleeps
until the earliest entry is due, unless another entry arrives first. It stops
when the channel closes.

The model has these modules:

- `Schedule` (schedule.dfy): the pending-set logic that src/defer_mut.rs and
  src/defer.rs share. It has the `min_by` scan (`EarliestIndex`, the function,
  and `FindEarliest`, the loop), the run-or-sleep decision (`Decide`),
  `Vec::remove` (`RemoveAt`), and lemmas about execution order and
  conservation.
- `DeferMut` (defer_mut.dfy): `MutListener`, the exclusive-access loop. Its
  callback returns a new state, which replaces the locked value.
- `DeferRef` (defer.dfy): `RefListener`, the shared-access loop. Its callback
  only reads the state, so the locked value never changes.
- `Callers` (callers.dfy): `Caller` and the channel it sends into.
- `Dispatch` (dispatch.dfy): `Dispatcher` and its combined task, `Task`.
- `Locks` (locks.dfy): the lock. It models only the protected value and
  whether a guard is held. `Options` (options.dfy) defines `Option`.

Time is a `nat`. `Instant::now()` is a parameter of each pass. `Duration` is
either `Finite(n)` or `Max`. The race between the sleep and the receive is an
input event: `Timer`, `Arrived(entry)` or `Closed`. The callback is a function
value stored in the listener. A ghost trace records every executed entry and
every received entry. The one generic argument type `A` replaces the
per-arity macro copies.

Two behaviours of the code are easy to misstate, and the model follows the code:

- Due check. An entry runs only when `instant < now` (src/defer_mut.rs:29,
  src/defer.rs:30), not when `instant <= now`. An entry due exactly now waits
  one more pass with a sleep of zero.
- Tie-break. `Iterator::min_by` returns the first of several equal minima, not
  the last. Since `push` appends, the earliest-pushed of several entries with
  equal instants runs first (first in, first out). `IsEarliest` states this,
  and `DrainInOrder` proves that equal instants run in push order.

## Model

| member | source | states |
|---|---|---|
| Schedule.EarliestIndex | src/defer_mut.rs:17-21 | None exactly when nothing is pending; otherwise an index whose instant is minimal and strictly below every earlier entry's, so the first of equal minima is chosen |
| Schedule.FindEarliest | src/defer.rs:18-22 | the scan picks the same index: no index when empty, else the minimal instant with the lowest index among ties, equal to `EarliestIndex` |
| Schedule.EarliestUnique | src/defer_mut.rs:17-21 | the "first minimal index" property determines the index uniquely |
| Schedule.Decide | src/defer_mut.rs:23-41 | execute exactly when some entry is strictly overdue, and then the earliest entry; an entry at `now` is not run; otherwise sleep `Max` exactly when nothing is pending, else the gap to an instant that is pending and no later than any pending instant |
| Schedule.RemoveAt | src/defer_mut.rs:32 | removing index i shortens the pending set by one, keeps the entries before and after i in order, and keeps every other entry's count |
| Schedule.ExecutionConserves | src/defer_mut.rs:32-34 | moving the selected entry from pending to the executed trace keeps received = executed + pending as multisets |
| Schedule.PushKeepsEarliestOnTie | src/defer_mut.rs:54 | given the first minimal entry k, pushing an entry that is not strictly earlier keeps k as the first minimum and as `min_by`'s choice; a strictly earlier push becomes both; so an equal instant pushed later never overtakes |
| Schedule.DrainInOrder | src/defer.rs:18-37 | two executions in a row without an arrival run in non-decreasing instant order, and with equal instants the second one was pushed after the first |
| Schedule.DrainConserves | src/defer_mut.rs:29-36 | the passes that follow one another through `continue` at one instant run each entry they take exactly once and keep the rest: run + left = pending as multisets |
| Schedule.DrainRunsOverdue | src/defer.rs:30-41 | those passes run only strictly overdue entries and stop only when no entry is overdue, so every overdue entry runs before the next wait |
| Schedule.DrainSorted | src/defer_mut.rs:17-36 | those passes run entries in non-decreasing instant order |
| DeferMut.MutListener.constructor | src/defer_mut.rs:13-14 | the loop starts running with nothing pending, received or executed |
| DeferMut.MutListener.Step | src/defer_mut.rs:16-57 | one pass: an overdue earliest entry is removed, run once under one lock acquisition with its new state stored, and the loop goes on whatever the callback returns, without receiving; otherwise a timer changes nothing, an arrival is appended, and a close stops the loop with the pending entries left unexecuted; received = executed + pending is kept and the lock is free afterwards |
| DeferMut.MutListener.RunEntry | src/defer_mut.rs:32-36 | the execute branch: exactly entry i leaves pending and joins the trace, the lock is taken once and free afterwards, the callback's new state is stored and its result reported, and the loop keeps running |
| DeferMut.MutListener.Await | src/defer_mut.rs:44-57 | the wait branch: a timer changes nothing, an arrival is appended to pending and to the received trace, a close stops the loop leaving pending unexecuted; the invariant is kept |
| DeferMut.MutListener.Run | src/defer_mut.rs:15-58 | the loop runs one pass per observation until the channel closes (the last observation consumed is `Closed`) or the observations run out, the conservation invariant holds throughout, and the traces only grow |
| DeferRef.RefListener.constructor | src/defer.rs:13-14 | the loop starts running with nothing pending, received or executed |
| DeferRef.RefListener.Step | src/defer.rs:17-58 | the same pass as the exclusive loop, except that the protected value is unchanged in every case; only the trace and the logged result record the invocation |
| DeferRef.RefListener.RunEntry | src/defer.rs:33-37 | the execute branch under a shared guard: exactly entry i leaves pending and joins the trace, one acquisition, the protected value unchanged, the result reported, the loop keeps running |
| DeferRef.RefListener.Await | src/defer.rs:45-58 | the same wait branch as the exclusive loop |
| DeferRef.RefListener.Run | src/defer.rs:16-59 | the shared-access loop: stops only on `Closed`, keeps the invariant and leaves the protected value unchanged |
| Locks.Lock.constructor | src/dispatcher.rs:26-29 | a new lock holds the given value, no guard held |
| Locks.Lock.Acquire | src/defer_mut.rs:33 | taking the guard marks the lock held and counts one acquisition, value unchanged |
| Locks.Lock.Release | src/defer.rs:34-37 | dropping the guard at the end of the invocation frees the lock, value unchanged |
| Callers.Channel.constructor | src/defer_mut.rs:10 | a new unbounded channel is empty and open |
| Callers.Channel.Send | src/caller.rs:41 | a send on an open channel appends the message at the end; on a closed one it fails and changes nothing |
| Callers.Caller.Default | src/caller.rs:25-27 | a default Caller has no sender |
| Callers.Caller.Attached | src/defer_mut.rs:66-68 | a registered Caller holds the sender of the listener's channel |
| Callers.Caller.Clone | src/caller.rs:25-27 | a clone holds the same sender |
| Callers.Caller.CallLater | src/caller.rs:39-44 | on an attached Caller, sends exactly `(when, args)`: the buffer grows by that one tuple at the end, or the send fails if the receiver is gone; an unattached Caller is excluded because it panics |
| Callers.Caller.Call | src/caller.rs:34-36 | behaves exactly as `CallLater` with the current instant |
| Callers.ClonesShareChannel | src/caller.rs:25-27 | calls through a Caller and its clone land in one buffer, in call order |
| Dispatch.Finished | src/dispatcher.rs:42-44 | a zipped task is complete exactly when every listener it combines is complete |
| Dispatch.Dispatcher.constructor | src/dispatcher.rs:32-34 | a new Dispatcher holds the given lock and no task |
| Dispatch.Dispatcher.GetLock | src/dispatcher.rs:36-38 | returns the same lock every time and changes nothing |
| Dispatch.Dispatcher.Spawn | src/dispatcher.rs:40-48 | the first listener becomes the task, a later one is zipped after the previous task, and the spawned listeners grow by exactly the new one |
| Dispatch.Dispatcher.Poll | src/dispatcher.rs:53-58 | ready exactly when every spawned listener has finished, and at once when none was spawned |

## Left out

- The `async`/`await` machinery: `futures_lite::or`, `zip`, `Box::pin`, `Context` and polling. The race is an input event. A listener's progress is its id in the `done` set that `Poll` receives.
- Real clocks and timers (`sleep` and `async_io::Timer` in src/lib.rs). `now` is a parameter of each pass. The model does not forbid a `Timer` event after a `Max` sleep, which a real timer would never deliver.
- Time passing during a pass. Each pass reads one `now`, as the source reads `Instant::now()` once per pass.
- Schedule.Drain: the drain lemmas `DrainConserves`, `DrainRunsOverdue` and `DrainSorted` freeze the clock at one `now` for all consecutive `continue` passes. The source reads the clock again on every pass, and callbacks take time, so an entry that falls due during a drain runs before the next wait there, while `Drain` leaves it pending. Per pass, `Step` takes its own `now` and has no such restriction.
- DeferMut.MutListener.Run: the loop in the source never ends on its own. Run follows it for a finite list of observations. Its contract relates the whole run only through the invariant and growing traces; the per-pass effect is stated in `Step`.
- DeferRef.RefListener.Run: the same bound as `MutListener.Run`.
- The lock primitives of src/locks.rs (`RwLock`, `Mutex`, `Arc` forwarding). A guard is only a `held` flag plus a ghost count of acquisitions. Waiting on a contended lock is not modelled, so `Step` requires the lock to be free.
- The registration methods `listen_mut_N` and `listen_ref_N` (`defer_impl!`, `listen_impl!` at src/defer_mut.rs:9-12 and 63-69). The model has their parts: `Channel`, the listener constructors, `Dispatcher.Spawn` and `Caller.Attached`. It does not compose them into one method, and a listener's events are not drawn from its `Channel`.
- `async_channel` internals. A channel is a buffer plus a `closed` flag. Sends resolve immediately with their outcome. A receive that fails is the `Closed` event.
- `ReturnType`, `ret.log()` and `log::error!`. The callback result is a `Ret` value that is returned and otherwise ignored. The exit message is not modelled.
- The per-arity copies (`listen_*_0..7`, `caller_impl!`, `defer_impl!`). One generic argument type `A` stands for the tuple.
- src/summoner.rs, src/async_fn.rs and the re-exports in src/lib.rs are not part of this model. They add no scheduling logic.
