/**
 * The producer side (src/caller.rs): a `Caller` holds an optional sending half
 * of an unbounded channel, and every scheduling call sends one
 * `(instant, arguments)` tuple into it.
 */
module Callers {
  import opened Options
  import opened Schedule

  /**
   * An unbounded channel seen from its senders: the queued messages, and
   * whether the receiving side is gone, in which case a send fails.
   */
  class Channel<M> {
    var buffer: seq<M>
    var closed: bool

    constructor ()
      ensures buffer == [] && !closed
    {
      buffer := [];
      closed := false;
    }

    /** A send appends at the end, or reports failure once the receiver is gone. */
    method Send(m: M) returns (ok: bool)
      modifies this
      ensures ok == !old(closed) && closed == old(closed)
      ensures buffer == if ok then old(buffer) + [m] else old(buffer)
    {
      ok := !closed;
      if ok {
        buffer := buffer + [m];
      }
    }
  }

  class Caller<A> {
    /** The sending half; `None` for a `Caller` that was never attached. */
    const inner: Option<Channel<Entry<A>>>

    /** `Caller::default()`: no channel attached. */
    constructor Default()
      ensures inner == None
    {
      inner := None;
    }

    /** `Caller { inner: Some(tx) }`, as a listener registration returns it. */
    constructor Attached(tx: Channel<Entry<A>>)
      ensures inner == Some(tx)
    {
      inner := Some(tx);
    }

    /** The derived `Clone`: the copy holds a clone of the same sender. */
    method Clone() returns (c: Caller<A>)
      ensures fresh(c) && c.inner == inner
    {
      if inner.Some? {
        c := new Caller.Attached(inner.value);
      } else {
        c := new Caller.Default();
      }
    }

    /**
     * Sends exactly `(when, args)`; `ok` is the send's outcome. An unattached
     * Caller panics, so being attached is the caller's obligation.
     */
    method CallLater(when: Instant, args: A) returns (ok: bool)
      requires inner.Some?
      modifies inner.value
      ensures ok == !old(inner.value.closed) && inner.value.closed == old(inner.value.closed)
      ensures inner.value.buffer ==
                if ok then old(inner.value.buffer) + [(when, args)] else old(inner.value.buffer)
    {
      ok := inner.value.Send((when, args));
    }

    /** `call` is `call_later` at the current instant, which is passed in. */
    method Call(now: Instant, args: A) returns (ok: bool)
      requires inner.Some?
      modifies inner.value
      ensures ok == !old(inner.value.closed) && inner.value.closed == old(inner.value.closed)
      ensures inner.value.buffer ==
                if ok then old(inner.value.buffer) + [(now, args)] else old(inner.value.buffer)
    {
      ok := CallLater(now, args);
    }
  }

  /**
   * A Caller and its clone feed one channel: calls made through both appear
   * in that channel's buffer in the order they were made.
   */
  method ClonesShareChannel<A>(c: Caller<A>, t1: Instant, a1: A, t2: Instant, a2: A)
      returns (d: Caller<A>)
    requires c.inner.Some? && !c.inner.value.closed
    modifies c.inner.value
    ensures d.inner == c.inner
    ensures c.inner.value.buffer == old(c.inner.value.buffer) + [(t1, a1), (t2, a2)]
  {
    d := c.Clone();
    var ok1 := c.CallLater(t1, a1);
    var ok2 := d.CallLater(t2, a2);
  }
}
