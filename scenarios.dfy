/**
 * The behaviour exercised by workers_test.go, stated on the pool model: runs of
 * steps from a fresh pool, and what the counters read afterwards.
 */
module PoolScenarios {
  import opened PoolModel
  import Workers

  /**
   * Submitting `k` jobs to a pool whose handler never returns: they all start exactly
   * when at least `k` workers are idle, and then `k` more workers are busy.
   */
  lemma {:induction false} StartJobsExec(p: PoolState, k: nat)
    requires Inv(p)
    ensures Exec(p, Repeat(StartJobStep, k)) == if Idle(p) >= k then Some(p.(busy := p.busy + k)) else None
    decreases k
  {
    if k > 0 {
      var r := Repeat(StartJobStep, k);
      assert r != [] && r[0] == StartJobStep && r[1..] == Repeat(StartJobStep, k - 1);
      if Idle(p) > 0 {
        assert Enabled(p, StartJobStep);
        assert Exec(p, r) == Exec(StartJob(p), r[1..]);
        StartJobsExec(StartJob(p), k - 1);
        assert StartJob(p).(busy := StartJob(p).busy + (k - 1)) == p.(busy := p.busy + k);
      } else {
        assert !Enabled(p, StartJobStep);
      }
    }
  }

  /** From a fresh pool of `size` workers, `k` blocking jobs can all start iff k <= size. */
  lemma BusyCappedAtSize(size: nat, k: nat)
    ensures New(size).Some?
    ensures Exec(New(size).value, Repeat(StartJobStep, k)).Some? <==> k <= size
    ensures k <= size ==> Exec(New(size).value, Repeat(StartJobStep, k)) == Some(New(size).value.(busy := k))
  {
    StartJobsExec(New(size).value, k);
  }

  /**
   * TestWorkerPool_Busy and TestWorkerPool_Waiting, for a pool of any size: `k` blocking
   * jobs out of at most `size` make Busy() k and Waiting() size - k; with all workers
   * busy, one more job cannot start.
   */
  lemma {:induction false} BusyAndWaitingOfBlockingJobs(size: nat, k: nat)
    requires k <= size
    ensures var q := Exec(New(size).value, Repeat(StartJobStep, k));
      q.Some? && q.value.busy == k && Waiting(q.value) == size - k
      && (k == size <==> !Enabled(q.value, StartJobStep))
  {
    BusyCappedAtSize(size, k);
  }

  /**
   * TestWorkerPool_ScaleUp, TestWorkerPool_ScaleDown and TestWorkerPool_ScaleTo, for a
   * fresh pool of any size n: a grow to a larger m followed by a shrink to a smaller d
   * ends with Size() == d, exactly d workers live and Excess() == 0; a second request
   * for the same size fails.
   */
  lemma {:induction false} GrowThenShrink(n: nat, m: int, d: int)
    requires n < m && 0 <= d < m
    ensures var up := ScaleTo(New(n).value, m);
      up.out == Ok && up.next.size == m && up.next.live == m
      && ScaleTo(up.next, m) == Transition(up.next, Err(ErrEqualSize))
      && ShrinkFeasible(up.next, d)
      && var down := ScaleTo(up.next, d);
      down.out == Ok && down.next.size == d && down.next.live == d && down.next.closing == 0
  {
  }

  /** TestWorkerPool_StopAndCount, for a fresh pool of any size: Excess() reads 0 and no worker is live. */
  lemma StopAndCountOfFreshPool(n: nat)
    ensures New(n).value.busy <= New(n).value.pending
    ensures StopAndCount(New(n).value).closing == 0 && StopAndCount(New(n).value).live == 0
  {
  }

  /**
   * While a shrink waits for busy workers, Size() has already dropped: with all n
   * workers running blocking jobs, a background ScaleDown(d) leaves Waiting() at
   * d - n < 0, Busy() above Size(), and no idle worker to receive a stop signal.
   * A concurrent ScaleUp back to n spawns idle workers, which can then take the
   * pending signals while every job is still running. The bounds on Waiting() hold
   * only between operations.
   */
  lemma {:induction false} WaitingNegativeDuringShrink(n: nat, d: int)
    requires 0 <= d < n
    ensures var q := Exec(New(n).value, Repeat(StartJobStep, n) + [BeginScaleDownStep(d)]);
      q.Some? && q.value.size == d && q.value.busy == n && Waiting(q.value) == d - n < 0
      && !Enabled(q.value, DeliverStopStep)
      && Enabled(q.value, ScaleUpStep(n))
      && Apply(q.value, ScaleUpStep(n)).busy == n && Enabled(Apply(q.value, ScaleUpStep(n)), DeliverStopStep)
  {
    var p := New(n).value;
    BusyCappedAtSize(n, n);
    ExecAppend(p, Repeat(StartJobStep, n), [BeginScaleDownStep(d)]);
    var q := Exec(p, Repeat(StartJobStep, n)).value;
    assert [BeginScaleDownStep(d)][1..] == [];
    assert Exec(q, [BeginScaleDownStep(d)]) == Some(BeginScaleDown(q, d).next);
  }

  /**
   * A client of the class, as in the scale tests: grow a fresh pool to m, then shrink
   * it to d. Both calls succeed, and afterwards Size() is d and Excess() is 0.
   */
  method GrowThenShrinkPool(n: nat, m: int, d: int) returns (up: Outcome, down: Outcome, size: int, excess: int)
    requires n < m && 0 <= d < m
    ensures up == Ok && down == Ok && size == d && excess == 0
  {
    var pool := Workers.WorkerPool.NewPool(n);
    up := pool.ScaleUp(m);
    down := pool.ScaleDown(d);
    size := pool.Size();
    excess := pool.Excess();
  }

  /** A client of the class, as in the StopAndCount test: afterwards Size() and Excess() read 0. */
  method StopAndCountPool(n: nat) returns (size: int, excess: int)
    ensures size == 0 && excess == 0
  {
    var pool := Workers.WorkerPool.NewPool(n);
    pool.StopAndCount();
    excess := pool.Excess();
    size := pool.size;
  }
}
