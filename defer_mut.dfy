/**
 * The listener loop of src/defer_mut.rs: the callback gets exclusive access to
 * the shared state and may replace it.
 */
module DeferMut {
  import opened Options
  import opened Schedule
  import opened Locks

  class MutListener<T, A> {
    /** The lock shared with the Dispatcher and every other listener on it. */
    const lock: Lock<T>
    /** The registered callback: new state, and a result that is only logged. */
    const callback: (T, A) -> (T, Ret)
    /** The `pending` vector of the loop. */
    var pending: seq<Entry<A>>
    /** False once the loop has left through `break`. */
    var running: bool
    /** Every entry received from the channel, in arrival order. */
    ghost var received: seq<Entry<A>>
    /** Every entry handed to the callback, in execution order. */
    ghost var executed: seq<Entry<A>>

    /** Each received entry is either still pending or was executed, and only once. */
    ghost predicate Valid()
      reads this
    {
      multiset(received) == multiset(executed) + multiset(pending)
    }

    /** The state when the spawned task first runs: nothing pending yet. */
    constructor (lock: Lock<T>, callback: (T, A) -> (T, Ret))
      ensures Valid() && this.lock == lock && this.callback == callback
      ensures pending == [] && running && received == [] && executed == []
    {
      this.lock := lock;
      this.callback := callback;
      pending := [];
      running := true;
      received := [];
      executed := [];
    }

    /**
     * One pass of the loop body. `now` is what `Instant::now()` reads on this
     * pass; `ev` is how the race between sleeping and receiving ends, and is
     * used only when the pass does not execute an entry.
     */
    method Step(now: Instant, ev: Event<A>) returns (turn: Turn<A>)
      requires Valid() && running && !lock.held
      modifies this, lock
      ensures Valid() && !lock.held
      ensures match Decide(old(pending), now)
        case Execute(i) =>
          && turn == Executed(old(pending)[i], callback(old(lock.value), old(pending)[i].1).1)
          && pending == RemoveAt(old(pending), i)
          && executed == old(executed) + [old(pending)[i]]
          && received == old(received) && running
          && lock.value == callback(old(lock.value), old(pending)[i].1).0
          && lock.acquisitions == old(lock.acquisitions) + 1
        case Wait(sleep) =>
          && executed == old(executed)
          && lock.value == old(lock.value) && lock.acquisitions == old(lock.acquisitions)
          && match ev
             case Timer =>
               turn == Woke(sleep) && pending == old(pending) && received == old(received) && running
             case Arrived(e) =>
               && turn == Received(sleep, e)
               && pending == old(pending) + [e] && received == old(received) + [e] && running
             case Closed =>
               turn == Exited(sleep) && pending == old(pending) && received == old(received) && !running
    {
      var next := FindEarliest(pending);
      var sleep := Max;
      if next.Some? {
        var i := next.value;
        if pending[i].0 < now {
          assert Decide(pending, now) == Execute(i);
          turn := RunEntry(i);
          return;
        }
        sleep := Finite(pending[i].0 - now);
      }
      assert Decide(pending, now) == Wait(sleep);
      turn := Await(sleep, ev);
    }

    /**
     * The execute branch of a pass: entry `i` leaves `pending`, the lock is
     * taken, the callback runs once, its result is only reported, and the
     * guard is dropped before the `continue`.
     */
    method RunEntry(i: nat) returns (turn: Turn<A>)
      requires Valid() && running && !lock.held && i < |pending|
      modifies this, lock
      ensures Valid() && !lock.held && running
      ensures turn == Executed(old(pending)[i], callback(old(lock.value), old(pending)[i].1).1)
      ensures lock.value == callback(old(lock.value), old(pending)[i].1).0
      ensures pending == RemoveAt(old(pending), i)
      ensures executed == old(executed) + [old(pending)[i]] && received == old(received)
      ensures lock.acquisitions == old(lock.acquisitions) + 1
    {
      var entry := pending[i];
      ExecutionConserves(received, executed, pending, i);
      pending := RemoveAt(pending, i);
      executed := executed + [entry];
      lock.Acquire();
      var (state, ret) := callback(lock.value, entry.1);
      lock.value := state;
      lock.Release();
      turn := Executed(entry, ret);
    }

    /**
     * The wait branch of a pass: after sleeping `sleep` or receiving, a timer
     * changes nothing, an arrival is pushed, and a close leaves the loop.
     */
    method Await(sleep: Duration, ev: Event<A>) returns (turn: Turn<A>)
      requires Valid() && running
      modifies this
      ensures Valid() && executed == old(executed)
      ensures match ev
        case Timer =>
      turn == Woke(sleep) && pending == old(pending) && received == old(received) && running
        case Arrived(e) =>
      && turn == Received(sleep, e)
      && pending == old(pending) + [e] && received == old(received) + [e] && running
        case Closed =>
      turn == Exited(sleep) && pending == old(pending) && received == old(received) && !running
    {
      match ev
      case Timer =>
        turn := Woke(sleep);
      case Arrived(e) =>
        pending := pending + [e];
        received := received + [e];
        turn := Received(sleep, e);
      case Closed =>
        running := false;
        turn := Exited(sleep);
    }

    /**
     * The loop itself, fed one `(now, event)` observation per pass, until the
     * channel closes or the observations run out.
     */
    method Run(ticks: seq<(Instant, Event<A>)>) returns (consumed: nat)
      requires Valid() && running && !lock.held
      modifies this, lock
      ensures Valid() && !lock.held
      ensures consumed <= |ticks|
      ensures running ==> consumed == |ticks|
      ensures !running ==> 0 < consumed && ticks[consumed - 1].1.Closed?
      ensures old(executed) <= executed && old(received) <= received
    {
      consumed := 0;
      while consumed < |ticks| && running
        invariant Valid() && !lock.held
        invariant consumed <= |ticks|
        invariant !running ==> 0 < consumed && ticks[consumed - 1].1.Closed?
        invariant old(executed) <= executed && old(received) <= received
      {
        var (now, ev) := ticks[consumed];
        var turn := Step(now, ev);
        consumed := consumed + 1;
      }
    }
  }
}
