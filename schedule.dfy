/**
 * The pending-call logic shared by the exclusive-access loop (src/defer_mut.rs)
 * and the shared-access loop (src/defer.rs): choosing the earliest entry,
 * deciding whether to run it or to sleep, and removing the entry that runs.
 *
 * Time is a natural number: an `Instant` is a point on the clock, and a
 * `Duration` is either a finite gap or `Max`, Rust's `Duration::MAX`.
 */
module Schedule {
  import opened Options

  type Instant = nat

  /** A pending call: its due instant and the argument tuple it will be run with. */
  type Entry<A> = (Instant, A)

  datatype Duration = Finite(nanos: nat) | Max

  /**
   * How the race between the sleep timer and the channel receive ends:
   * the timer fires, an entry arrives, or the channel reports that it is closed.
   */
  datatype Event<A> = Timer | Arrived(entry: Entry<A>) | Closed

  /** What one pass of the loop decides: run the entry at `index`, or wait for `sleep`. */
  datatype Decision = Execute(index: nat) | Wait(sleep: Duration)

  /**
   * What one pass of the loop did: ran an overdue entry (and logged what the
   * callback returned), or waited `sleep` and then woke on the timer,
   * received an entry, or saw the channel close and left the loop.
   */
  datatype Turn<A> =
    | Executed(entry: Entry<A>, ret: Ret)
    | Woke(sleep: Duration)
    | Received(sleep: Duration, entry: Entry<A>)
    | Exited(sleep: Duration)

  /** The value a callback hands back (`Result<(), String>`); it is only logged. */
  datatype Ret = Success | Failure(message: string)

  /**
   * `i` is the index `min_by` picks: its instant is minimal, and every entry
   * before it is strictly later, so among equal instants the first one wins.
   */
  ghost predicate IsEarliest<A>(p: seq<Entry<A>>, i: int)
  {
    && 0 <= i < |p|
    && (forall j :: 0 <= j < |p| ==> p[i].0 <= p[j].0)
    && (forall j :: 0 <= j < i ==> p[i].0 < p[j].0)
  }

  lemma EarliestUnique<A>(p: seq<Entry<A>>, i: int, k: int)
    requires IsEarliest(p, i) && IsEarliest(p, k)
    ensures i == k
  {
    // both instants are minimal, so they are equal and neither index precedes the other
    assert p[i].0 == p[k].0;
  }

  /**
   * The index `pending.iter().enumerate().min_by(..)` yields: a left fold that
   * replaces the running minimum only by a strictly smaller instant.
   */
  function EarliestIndex<A>(p: seq<Entry<A>>): (r: Option<nat>)
    ensures r.None? <==> |p| == 0
    ensures r.Some? ==> IsEarliest(p, r.value)
  {
    if |p| == 0 then None
    else
      var last := |p| - 1;
      match EarliestIndex(p[..last])
      case None => Some(last)
      case Some(i) => if p[last].0 < p[i].0 then Some(last) else Some(i)
  }

  /** The scan of the loop, written as the fold it is. */
  method FindEarliest<A>(p: seq<Entry<A>>) returns (r: Option<nat>)
    ensures r.None? <==> |p| == 0
    ensures r.Some? ==> IsEarliest(p, r.value)
    ensures r == EarliestIndex(p)
  {
    r := None;
    var k := 0;
    while k < |p|
      invariant 0 <= k <= |p|
      invariant r.None? <==> k == 0
      invariant r.Some? ==> IsEarliest(p[..k], r.value)
    {
      if r.None? || p[k].0 < p[r.value].0 {
        r := Some(k);
      }
      k := k + 1;
    }
    assert p[..k] == p;
    if r.Some? {
      EarliestUnique(p, r.value, EarliestIndex(p).value);
    }
  }

  /**
   * One pass's choice: run the earliest entry when it is strictly overdue,
   * otherwise sleep until it is due, or for `Duration::MAX` when nothing is pending.
   */
  function Decide<A>(p: seq<Entry<A>>, now: Instant): (d: Decision)
    ensures d.Execute? ==> IsEarliest(p, d.index) && p[d.index].0 < now
    ensures d.Execute? <==> exists j :: 0 <= j < |p| && p[j].0 < now
    ensures d == Wait(Max) <==> |p| == 0
    ensures d.Wait? && |p| > 0 ==>
              && d.sleep.Finite?
              && (exists j :: 0 <= j < |p| && p[j].0 == now + d.sleep.nanos)
              && (forall j :: 0 <= j < |p| ==> now + d.sleep.nanos <= p[j].0)
  {
    match EarliestIndex(p)
    case None => Wait(Max)
    case Some(i) => if p[i].0 < now then Execute(i) else Wait(Finite(p[i].0 - now))
  }

  /** `Vec::remove(i)`: drops entry `i` and keeps the others in their order. */
  function RemoveAt<A>(p: seq<Entry<A>>, i: nat): (r: seq<Entry<A>>)
    requires i < |p|
    ensures |r| == |p| - 1
    ensures forall j :: 0 <= j < i ==> r[j] == p[j]
    ensures forall j :: i <= j < |r| ==> r[j] == p[j + 1]
    ensures multiset(r) + multiset{p[i]} == multiset(p)
  {
    assert p == p[..i] + [p[i]] + p[i + 1..];
    p[..i] + p[i + 1..]
  }

  /** Moving entry `i` from the pending set to the executed trace keeps the count of every entry. */
  lemma ExecutionConserves<A>(received: seq<Entry<A>>, executed: seq<Entry<A>>, p: seq<Entry<A>>, i: nat)
    requires i < |p|
    requires multiset(received) == multiset(executed) + multiset(p)
    ensures multiset(received) == multiset(executed + [p[i]]) + multiset(RemoveAt(p, i))
  {
    assert multiset(executed + [p[i]]) == multiset(executed) + multiset{p[i]};
  }

  /**
   * Pushing an entry keeps the earlier selection unless the new entry is
   * strictly earlier: an entry pushed later never overtakes an equal instant.
   * Stated through the first-minimum property, independently of the scan.
   */
  lemma PushKeepsEarliestOnTie<A>(p: seq<Entry<A>>, e: Entry<A>, k: nat)
    requires IsEarliest(p, k)
    ensures p[k].0 <= e.0 ==> IsEarliest(p + [e], k) && EarliestIndex(p + [e]) == Some(k)
    ensures e.0 < p[k].0 ==> IsEarliest(p + [e], |p|) && EarliestIndex(p + [e]) == Some(|p|)
  {
    var q := p + [e];
    assert forall j :: 0 <= j < |p| ==> q[j] == p[j];
    assert q[|p|] == e;
    if p[k].0 <= e.0 {
      assert IsEarliest(q, k);
      EarliestUnique(q, k, EarliestIndex(q).value);
    } else {
      assert IsEarliest(q, |p|);
      EarliestUnique(q, |p|, EarliestIndex(q).value);
    }
  }

  /**
   * Two executions in a row, with no arrival in between, run in non-decreasing
   * order of their instants; among equal instants the second one was pushed
   * after the first (its index in the original pending set is larger).
   */
  lemma DrainInOrder<A>(p: seq<Entry<A>>, now: Instant, later: Instant)
    requires Decide(p, now).Execute?
    requires Decide(RemoveAt(p, Decide(p, now).index), later).Execute?
    ensures var i := Decide(p, now).index;
            var q := RemoveAt(p, i);
            var k := Decide(q, later).index;
            && p[i].0 <= q[k].0
            && (p[i].0 == q[k].0 ==> k >= i && q[k] == p[k + 1])
  {
    var i := Decide(p, now).index;
    var q := RemoveAt(p, i);
    var k := Decide(q, later).index;
    if k < i {
      assert q[k] == p[k];
    } else {
      assert q[k] == p[k + 1];
    }
  }

  /**
   * The passes that follow one another through `continue` at one instant:
   * the entries they run, in order, and what is left when the loop next waits.
   */
  function Drain<A>(p: seq<Entry<A>>, now: Instant): (seq<Entry<A>>, seq<Entry<A>>)
    decreases |p|
  {
    match Decide(p, now)
    case Execute(i) =>
      var (ran, rest) := Drain(RemoveAt(p, i), now);
      ([p[i]] + ran, rest)
    case Wait(_) => ([], p)
  }

  /** Draining runs each entry it takes exactly once and keeps the rest: nothing is lost or duplicated. */
  lemma {:induction false} DrainConserves<A>(p: seq<Entry<A>>, now: Instant)
    ensures multiset(Drain(p, now).0) + multiset(Drain(p, now).1) == multiset(p)
    decreases |p|
  {
    match Decide(p, now)
    case Execute(i) =>
      DrainConserves(RemoveAt(p, i), now);
      assert multiset([p[i]] + Drain(RemoveAt(p, i), now).0)
          == multiset{p[i]} + multiset(Drain(RemoveAt(p, i), now).0);
    case Wait(_) =>
  }

  /** Draining runs only overdue entries, and stops only when none is left overdue. */
  lemma {:induction false} DrainRunsOverdue<A>(p: seq<Entry<A>>, now: Instant)
    ensures forall k :: 0 <= k < |Drain(p, now).0| ==> Drain(p, now).0[k].0 < now
    ensures forall j :: 0 <= j < |Drain(p, now).1| ==> now <= Drain(p, now).1[j].0
    decreases |p|
  {
    match Decide(p, now)
    case Execute(i) =>
      var q := RemoveAt(p, i);
      DrainRunsOverdue(q, now);
      var r := [p[i]] + Drain(q, now).0;
      assert Drain(p, now).0 == r;
      assert forall k :: 0 < k < |r| ==> r[k] == Drain(q, now).0[k - 1];
    case Wait(_) =>
  }

  /** Draining runs the entries in non-decreasing order of their instants. */
  lemma {:induction false} DrainSorted<A>(p: seq<Entry<A>>, now: Instant)
    ensures forall k :: 0 < k < |Drain(p, now).0| ==> Drain(p, now).0[k - 1].0 <= Drain(p, now).0[k].0
    decreases |p|
  {
    match Decide(p, now)
    case Execute(i) =>
      var q := RemoveAt(p, i);
      DrainSorted(q, now);
      var ran := Drain(q, now).0;
      var r := [p[i]] + ran;
      assert Drain(p, now).0 == r;
      if |ran| > 0 {
        DrainConserves(q, now);
        assert ran[0] in multiset(q) by {
          assert ran[0] in multiset(ran);
        }
        var m :| 0 <= m < |q| && q[m] == ran[0];
        assert p[i].0 <= q[m].0 by {
          if m < i { assert q[m] == p[m]; } else { assert q[m] == p[m + 1]; }
        }
      }
      assert forall k :: 0 < k < |r| ==> r[k] == ran[k - 1];
    case Wait(_) =>
  }
}
