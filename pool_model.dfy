/**
 * The worker pool of workers.go as a sequential state machine over its counters.
 *
 * Goroutines, channels and mutexes are abstracted away. Every step is atomic; most
 * stand for one lock-guarded update or one channel handoff taken by an idle worker,
 * and a few stand for several of them taken together (see DeliverStop,
 * BeginScaleDown and ScaleUp).
 * Besides the three real counters (size, busy, closing) the state records two
 * quantities the code only implies: the number of live worker loops and the number
 * of stop signals requested by shrinks but not yet received by a worker.
 */
module PoolModel {

  /** The `error` result of the scaling methods: nil, or an error with a message. */
  datatype Outcome = Ok | Err(msg: string)

  datatype Option<T> = None | Some(value: T)

  /** Messages of the errors the scaling methods return. */
  const ErrEqualSize := "newSize must not be equal to the current size"
  const ErrScaleUp := "the new size must be greater than the current size"
  const ErrScaleDown := "the new size must be between zero and the current size"

  /**
   * size, busy, closing: the fields of WorkerPool.
   * live: worker loops that have been spawned and have not yet exited.
   * pending: stop signals of shrinks in progress that no worker has received yet.
   */
  datatype PoolState = PoolState(size: int, busy: int, closing: int, live: int, pending: int)

  /** The state of a pool together with the error a call returned. */
  datatype Transition = Transition(next: PoolState, out: Outcome)

  /** The pool invariant: every counter is consistent with the live workers. */
  predicate Inv(p: PoolState)
  {
    && 0 <= p.size
    && 0 <= p.busy <= p.live
    && 0 <= p.pending
    && p.closing == p.pending
    && p.live == p.size + p.pending
  }

  /** No shrink is in progress: the state between two completed operations. */
  predicate Quiescent(p: PoolState)
  {
    p.pending == 0
  }

  /** Workers that are parked in the select loop, able to take a job or a stop signal. */
  function Idle(p: PoolState): (n: int)
  {
    p.live - p.busy
  }

  /** What Size() - Busy() reads. */
  function Waiting(p: PoolState): (w: int)
    ensures Inv(p) && Quiescent(p) ==> 0 <= w <= p.size
  {
    p.size - p.busy
  }

  /** ScaleDown's argument check, which rejects without changing anything. */
  predicate ShrinkRejected(p: PoolState, newSize: int)
  {
    newSize < 0 || newSize >= p.size
  }

  /**
   * A blocking shrink to `newSize` can run to completion in this sequential model:
   * either its argument check fails, or there are enough idle workers to receive all
   * of its stop signals (only a worker parked in the select can receive one).
   */
  predicate ShrinkFeasible(p: PoolState, newSize: int)
  {
    ShrinkRejected(p, newSize) || Idle(p) >= p.size - newSize
  }

  // ---------------------------------------------------------------- construction

  /** The state right after createWorkers has spawned `count` workers (none if count <= 0). */
  function SpawnWorkers(p: PoolState, count: int): (q: PoolState)
    ensures q.live - p.live == (if count > 0 then count else 0)
    ensures q.size == p.size && q.busy == p.busy && q.closing == p.closing && q.pending == p.pending
    decreases count
  {
    if count <= 0 then p else SpawnWorkers(p.(live := p.live + 1), count - 1)
  }

  /** NewPool / NewBufferedPool: None stands for the panic on a negative size. */
  function New(size: int): (r: Option<PoolState>)
    ensures r.None? <==> size < 0
    ensures r.Some? ==> Inv(r.value) && Quiescent(r.value)
    ensures r.Some? ==> r.value.size == size && r.value.busy == 0 && r.value.closing == 0
    ensures r.Some? ==> r.value.live == size
  {
    if size < 0 then None else Some(SpawnWorkers(PoolState(size, 0, 0, 0, 0), size))
  }

  // ---------------------------------------------------------------- worker steps

  /** An idle worker receives a job from `jobs` and marks itself busy (incBusy). */
  function StartJob(p: PoolState): (q: PoolState)
    requires Idle(p) > 0
    ensures q.busy == p.busy + 1 && Idle(q) == Idle(p) - 1
    ensures q.size == p.size && q.closing == p.closing && q.live == p.live && q.pending == p.pending
    ensures Inv(p) ==> Inv(q)
  {
    p.(busy := p.busy + 1)
  }

  /** The handler of a busy worker returns and the worker marks itself idle (decBusy). */
  function FinishJob(p: PoolState): (q: PoolState)
    requires p.busy > 0
    ensures q.busy == p.busy - 1 && Idle(q) == Idle(p) + 1
    ensures q.size == p.size && q.closing == p.closing && q.live == p.live && q.pending == p.pending
    ensures Inv(p) ==> Inv(q)
  {
    p.(busy := p.busy - 1)
  }

  /**
   * One send on `stop` completes: an idle worker receives it and exits, then the
   * shrinking caller decrements `closing` (modClose(-1)).
   */
  function DeliverStop(p: PoolState): (q: PoolState)
    requires p.pending > 0 && Idle(p) > 0
    ensures q.live == p.live - 1 && q.pending == p.pending - 1 && q.closing == p.closing - 1
    ensures q.size == p.size && q.busy == p.busy
    ensures Inv(p) ==> Inv(q)
  {
    p.(live := p.live - 1, pending := p.pending - 1, closing := p.closing - 1)
  }

  /** The sends of ScaleDown's loop, `k` of them, one after the other. */
  function DeliverStops(p: PoolState, k: nat): (q: PoolState)
    requires p.pending >= k && Idle(p) >= k
    ensures q.live == p.live - k && q.pending == p.pending - k && q.closing == p.closing - k
    ensures q.size == p.size && q.busy == p.busy
    decreases k
  {
    if k == 0 then p else DeliverStops(DeliverStop(p), k - 1)
  }

  // ---------------------------------------------------------------- scaling

  /** ScaleUp: strictly larger sizes only; spawns the difference. */
  function ScaleUp(p: PoolState, newSize: int): (t: Transition)
    ensures t.out.Ok? <==> newSize > p.size
    ensures t.out.Err? ==> t.out.msg == ErrScaleUp && t.next == p
    ensures t.out.Ok? ==> t.next.size == newSize && t.next.live == p.live + (newSize - p.size)
    ensures t.next.busy == p.busy && t.next.closing == p.closing && t.next.pending == p.pending
    ensures Inv(p) ==> Inv(t.next)
  {
    if newSize <= p.size then Transition(p, Err(ErrScaleUp))
    else
      var delta := newSize - p.size;
      Transition(SpawnWorkers(p.(size := newSize), delta), Ok)
  }

  /**
   * The first half of ScaleDown: the argument check, the size update and
   * modClose(delta), which makes `delta` stop signals pending.
   */
  function BeginScaleDown(p: PoolState, newSize: int): (t: Transition)
    ensures t.out.Ok? <==> 0 <= newSize < p.size
    ensures t.out.Err? ==> t.out.msg == ErrScaleDown && t.next == p
    ensures t.out.Ok? ==> t.next.size == newSize
    ensures t.out.Ok? ==> t.next.pending - p.pending == p.size - newSize == t.next.closing - p.closing
    ensures t.next.busy == p.busy && t.next.live == p.live
    ensures Inv(p) ==> Inv(t.next)
  {
    if ShrinkRejected(p, newSize) then Transition(p, Err(ErrScaleDown))
    else
      var delta := p.size - newSize;
      Transition(p.(size := newSize, closing := p.closing + delta, pending := p.pending + delta), Ok)
  }

  /**
   * ScaleDown as the caller sees it: it returns once all of its `delta` stop signals
   * have been received, so exactly `delta` workers have exited and `closing` and the
   * pending signals are back where they started.
   */
  function ScaleDown(p: PoolState, newSize: int): (t: Transition)
    requires Inv(p) && ShrinkFeasible(p, newSize)
    ensures t.out.Ok? <==> 0 <= newSize < p.size
    ensures t.out.Err? ==> t.out.msg == ErrScaleDown && t.next == p
    ensures t.out.Ok? ==> t.next.size == newSize && t.next.live == p.live - (p.size - newSize)
    ensures t.next.busy == p.busy && t.next.closing == p.closing && t.next.pending == p.pending
    ensures Inv(t.next)
  {
    var begun := BeginScaleDown(p, newSize);
    if begun.out.Err? then begun
    else Transition(DeliverStops(begun.next, p.size - newSize), Ok)
  }

  /** ScaleTo: shrinks, grows, or rejects a request for the current size. */
  function ScaleTo(p: PoolState, newSize: int): (t: Transition)
    requires Inv(p) && ShrinkFeasible(p, newSize)
    ensures t.out.Ok? <==> 0 <= newSize && newSize != p.size
    ensures t.out.Err? ==> t.next == p
    ensures t.out.Err? ==> t.out.msg == (if newSize == p.size then ErrEqualSize else ErrScaleDown)
    ensures t.out.Ok? ==> t.next.size == newSize
    ensures t.next.busy == p.busy && t.next.closing == p.closing && t.next.pending == p.pending
    ensures Inv(t.next)
  {
    if newSize < p.size then ScaleDown(p, newSize)
    else if newSize > p.size then ScaleUp(p, newSize)
    else Transition(p, Err(ErrEqualSize))
  }

  /**
   * StopAndCount's effect on the counters: ScaleDown(0) with its error discarded
   * (the closing of the channels changes no counter). It runs to completion when
   * `size` workers are idle, which under the invariant means that no more workers
   * are busy than other shrinks are still to retire: none at all when quiescent.
   */
  function StopAndCount(p: PoolState): (q: PoolState)
    requires Inv(p) && p.busy <= p.pending
    ensures q.size == 0 && q.busy == p.busy && q.closing == p.closing && q.pending == p.pending
    ensures Inv(q) && q.live == p.pending
    ensures Quiescent(p) ==> q.live == 0 && q.closing == 0
  {
    ScaleDown(p, 0).next
  }

  // ---------------------------------------------------------------- interleavings

  /**
   * One atomic step of the pool. BeginScaleDownStep and DeliverStopStep are the two
   * halves of a ScaleDown running in the background; the other scaling steps are
   * calls that run to completion.
   */
  datatype Step =
    | StartJobStep
    | FinishJobStep
    | ScaleUpStep(n: int)
    | ScaleDownStep(n: int)
    | ScaleToStep(n: int)
    | StopAndCountStep
    | BeginScaleDownStep(n: int)
    | DeliverStopStep

  /** Whether `s` can be taken in `p` (a blocked channel operation cannot). */
  predicate Enabled(p: PoolState, s: Step)
  {
    match s
    case StartJobStep => Idle(p) > 0
    case FinishJobStep => p.busy > 0
    case ScaleUpStep(_) => true
    case ScaleDownStep(n) => Inv(p) && ShrinkFeasible(p, n)
    case ScaleToStep(n) => Inv(p) && ShrinkFeasible(p, n)
    case StopAndCountStep => Inv(p) && p.busy <= p.pending
    case BeginScaleDownStep(_) => true
    case DeliverStopStep => p.pending > 0 && Idle(p) > 0
  }

  function Apply(p: PoolState, s: Step): (q: PoolState)
    requires Enabled(p, s)
    ensures Inv(p) ==> Inv(q)
  {
    match s
    case StartJobStep => StartJob(p)
    case FinishJobStep => FinishJob(p)
    case ScaleUpStep(n) => ScaleUp(p, n).next
    case ScaleDownStep(n) => ScaleDown(p, n).next
    case ScaleToStep(n) => ScaleTo(p, n).next
    case StopAndCountStep => StopAndCount(p)
    case BeginScaleDownStep(n) => BeginScaleDown(p, n).next
    case DeliverStopStep => DeliverStop(p)
  }

  /** Runs the steps in order; None when one of them is not enabled. */
  function Exec(p: PoolState, steps: seq<Step>): (r: Option<PoolState>)
    decreases |steps|
  {
    if steps == [] then Some(p)
    else if !Enabled(p, steps[0]) then None
    else Exec(Apply(p, steps[0]), steps[1..])
  }

  /** Every run of enabled steps keeps the pool invariant. */
  lemma {:induction false} ExecPreservesInv(p: PoolState, steps: seq<Step>)
    requires Inv(p)
    ensures Exec(p, steps).Some? ==> Inv(Exec(p, steps).value)
    decreases |steps|
  {
    if steps != [] && Enabled(p, steps[0]) {
      ExecPreservesInv(Apply(p, steps[0]), steps[1..]);
    }
  }

  /**
   * In every state a pool can reach, at most the live workers are busy; whenever no
   * shrink is in progress the live workers are exactly `size`, so Busy() <= Size()
   * and 0 <= Waiting() <= Size(), and Excess() is 0.
   */
  lemma {:induction false} ReachableBounds(size: int, steps: seq<Step>, q: PoolState)
    requires New(size).Some? && Exec(New(size).value, steps) == Some(q)
    ensures 0 <= q.busy <= q.live && q.closing == q.pending >= 0
    ensures Quiescent(q) ==> q.live == q.size && q.busy <= q.size && 0 <= Waiting(q) <= q.size
  {
    var p0 := New(size).value;
    ExecPreservesInv(p0, steps);
    assert Inv(q);
  }

  /**
   * ScaleTo undoes itself: resizing to m and then back to the original size succeeds
   * both times and restores every counter, the live workers included.
   */
  lemma ScaleToRoundTrip(p: PoolState, m: int)
    requires Inv(p) && 0 <= m && m != p.size && ShrinkFeasible(p, m)
    ensures ScaleTo(p, m).out == Ok && ShrinkFeasible(ScaleTo(p, m).next, p.size)
    ensures ScaleTo(ScaleTo(p, m).next, p.size) == Transition(p, Ok)
  {
  }

  /** `k` copies of one step. */
  function Repeat(s: Step, k: nat): (r: seq<Step>)
    ensures |r| == k
    ensures forall i :: 0 <= i < k ==> r[i] == s
  {
    if k == 0 then [] else [s] + Repeat(s, k - 1)
  }

  /** Running two runs back to back is running the first, then the second from where it ended. */
  lemma {:induction false} ExecAppend(p: PoolState, a: seq<Step>, b: seq<Step>)
    ensures Exec(p, a + b) == match Exec(p, a) case None => None case Some(q) => Exec(q, b)
    decreases |a|
  {
    if a == [] {
      assert a + b == b;
    } else {
      assert (a + b)[0] == a[0];
      assert (a + b)[1..] == a[1..] + b;
      if Enabled(p, a[0]) {
        ExecAppend(Apply(p, a[0]), a[1..], b);
      }
    }
  }

  /** `k` handlers returning one after the other lower busy by exactly `k`. */
  lemma {:induction false} FinishJobsExec(p: PoolState, k: nat)
    requires k <= p.busy
    ensures Exec(p, Repeat(FinishJobStep, k)) == Some(p.(busy := p.busy - k))
    decreases k
  {
    if k > 0 {
      var r := Repeat(FinishJobStep, k);
      assert r[0] == FinishJobStep && r[1..] == Repeat(FinishJobStep, k - 1);
      FinishJobsExec(FinishJob(p), k - 1);
      assert FinishJob(p).(busy := FinishJob(p).busy - (k - 1)) == p.(busy := p.busy - k);
    }
  }

  /** `k` stop signals received one after the other, as steps, are DeliverStops(p, k). */
  lemma {:induction false} DeliverStopsExec(p: PoolState, k: nat)
    requires p.pending >= k && Idle(p) >= k
    ensures Exec(p, Repeat(DeliverStopStep, k)) == Some(DeliverStops(p, k))
    decreases k
  {
    if k > 0 {
      var r := Repeat(DeliverStopStep, k);
      assert r[0] == DeliverStopStep && r[1..] == Repeat(DeliverStopStep, k - 1);
      DeliverStopsExec(DeliverStop(p), k - 1);
    }
  }

  /**
   * A ScaleDown(newSize) running in the background while jobs are running: after the
   * size update and modClose(delta), `f` handlers return, just enough to leave `delta`
   * workers idle, and then each of the `delta` sends on `stop` is received. Every step
   * of that run is enabled, and it ends with size newSize, `delta` fewer live workers,
   * and closing and the pending signals back where they started.
   */
  lemma BackgroundShrinkCompletes(p: PoolState, newSize: int)
    requires Inv(p) && 0 <= newSize < p.size
    ensures var delta := p.size - newSize;
      var f := if Idle(p) >= delta then 0 else delta - Idle(p);
      && 0 <= f <= p.busy
      && Exec(p, [BeginScaleDownStep(newSize)] + Repeat(FinishJobStep, f) + Repeat(DeliverStopStep, delta))
         == Some(p.(size := newSize, busy := p.busy - f, live := p.live - delta))
  {
    var delta := p.size - newSize;
    var f := if Idle(p) >= delta then 0 else delta - Idle(p);
    var begin, finishes, stops := [BeginScaleDownStep(newSize)], Repeat(FinishJobStep, f), Repeat(DeliverStopStep, delta);
    var b := BeginScaleDown(p, newSize).next;
    assert b == p.(size := newSize, closing := p.closing + delta, pending := p.pending + delta);
    assert begin[1..] == [];
    assert Exec(p, begin) == Some(b);
    ExecAppend(p, begin, finishes);
    FinishJobsExec(b, f);
    var c := b.(busy := b.busy - f);
    assert Exec(p, begin + finishes) == Some(c);
    assert c.pending >= delta && Idle(c) >= delta;
    ExecAppend(p, begin + finishes, stops);
    DeliverStopsExec(c, delta);
    var e := DeliverStops(c, delta);
    assert Exec(p, begin + finishes + stops) == Some(e);
    assert e == p.(size := newSize, busy := p.busy - f, live := p.live - delta);
  }

  /**
   * When enough workers are idle, a background shrink run as steps, its begin step
   * followed by its `delta` deliveries, ends where the blocking ScaleDown ends.
   */
  lemma BackgroundShrinkMatchesScaleDown(p: PoolState, newSize: int)
    requires Inv(p) && 0 <= newSize < p.size && ShrinkFeasible(p, newSize)
    ensures Exec(p, [BeginScaleDownStep(newSize)] + Repeat(DeliverStopStep, p.size - newSize))
      == Some(ScaleDown(p, newSize).next)
  {
    BackgroundShrinkCompletes(p, newSize);
    assert Repeat(FinishJobStep, 0) == [];
    assert [BeginScaleDownStep(newSize)] + Repeat(FinishJobStep, 0) == [BeginScaleDownStep(newSize)];
  }
}
