/**
 * The lock that guards the shared state `T`. Only what the loop relies on is
 * modelled: the protected value, whether a guard is currently held, and (as
 * ghost bookkeeping) how many guards have been taken so far.
 */
module Locks {
  class Lock<T> {
    var value: T
    var held: bool
    ghost var acquisitions: nat

    constructor (value: T)
      ensures this.value == value && !held && acquisitions == 0
    {
      this.value := value;
      held := false;
      acquisitions := 0;
    }

    /** Taking a guard (`lock_ref().await` or `lock_mut().await`). */
    method Acquire()
      requires !held
      modifies this
      ensures held && value == old(value) && acquisitions == old(acquisitions) + 1
    {
      held := true;
      acquisitions := acquisitions + 1;
    }

    /** Dropping the guard at the end of the invocation's scope. */
    method Release()
      requires held
      modifies this
      ensures !held && value == old(value) && acquisitions == old(acquisitions)
    {
      held := false;
    }
  }
}
