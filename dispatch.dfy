/**
 * The Dispatcher (src/dispatcher.rs): it holds the shared lock and one task
 * that combines every spawned listener; the task is ready once all of them
 * have finished, and at once when none was spawned.
 */
module Dispatch {
  import opened Options
  import opened Locks

  /** A spawned task: one listener, or the `zip` of an earlier task with a new one. */
  datatype Task = Listener(id: nat) | Zip(first: Task, second: Task)

  /** The listeners a task is made of, in the order they were spawned. */
  function Members(t: Task): seq<nat>
  {
    match t
    case Listener(id) => [id]
    case Zip(a, b) => Members(a) + Members(b)
  }

  /** `zip` completes when both halves do; `done` holds the listeners whose loop ended. */
  function Finished(t: Task, done: set<nat>): (r: bool)
    ensures r <==> forall x :: x in Members(t) ==> x in done
  {
    match t
    case Listener(id) => id in done
    case Zip(a, b) => Finished(a, done) && Finished(b, done)
  }

  class Dispatcher<T> {
    const lock: Lock<T>
    var task: Option<Task>

    /** The listeners spawned so far, in spawn order. */
    function Spawned(): seq<nat>
      reads this
    {
      match task
      case None => []
      case Some(t) => Members(t)
    }

    /** `Dispatcher::new`: the given lock, and no task yet. */
    constructor (lock: Lock<T>)
      ensures this.lock == lock && task == None && Spawned() == []
    {
      this.lock := lock;
      task := None;
    }

    /** `get_lock`: a handle to the same lock, every time, changing nothing. */
    method GetLock() returns (l: Lock<T>)
      ensures l == lock
    {
      l := lock;
    }

    /**
     * `spawn`: the first listener becomes the task; a later one is zipped
     * with the task taken out of the field.
     */
    method Spawn(listener: nat)
      modifies this
      ensures task == Some(match old(task)
                           case None => Listener(listener)
                           case Some(prev) => Zip(prev, Listener(listener)))
      ensures Spawned() == old(Spawned()) + [listener]
    {
      var next := Listener(listener);
      var prev := task;
      task := None;
      if prev.Some? {
        next := Zip(prev.value, next);
        assert Members(next) == Members(prev.value) + [listener];
      }
      task := Some(next);
    }

    /**
     * `poll`, with the set of listeners whose loops have ended standing in for
     * the futures' progress: ready exactly when every spawned listener is done.
     */
    method Poll(done: set<nat>) returns (ready: bool)
      ensures ready <==> forall x :: x in Spawned() ==> x in done
      ensures task.None? ==> ready
    {
      match task
      case Some(t) =>
        assert Spawned() == Members(t);
        ready := Finished(t, done);
      case None => ready := true;
    }
  }
}
