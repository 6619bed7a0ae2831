/**
 * The WorkerPool object of workers.go. The three counters are the real fields; the
 * live worker loops and the stop signals in flight are ghost fields, since the code
 * only implies them. Every state-changing pool operation is proved to move the
 * object exactly as the matching function of PoolModel moves a PoolState.
 */
module Workers {
  import opened PoolModel

  class WorkerPool {
    /** The intended number of workers. */
    var size: int
    /** Workers currently running the handler. */
    var busy: int
    /** Stop signals a shrink has announced but not yet seen received. */
    var closing: int
    /** Capacity of the jobs channel (0 for an unbuffered pool); no counter depends on it. */
    const bufSize: int

    /** Worker loops spawned by createWorkers that have not exited yet. */
    ghost var live: int
    /** Stop signals of running shrinks that no worker has received yet. */
    ghost var pending: int

    ghost function State(): PoolState
      reads this
    {
      PoolState(size, busy, closing, live, pending)
    }

    ghost predicate Valid()
      reads this
    {
      Inv(State())
    }

    /** The body shared by NewPool and NewBufferedPool once the size check has passed. */
    constructor (size: nat, bufSize: int)
      ensures Valid() && Quiescent(State())
      ensures Some(State()) == New(size) && this.bufSize == bufSize
    {
      this.size := size;
      busy := 0;
      closing := 0;
      this.bufSize := bufSize;
      live := 0;
      pending := 0;
      new;
      CreateWorkers(size);
    }

    /** NewPool: null stands for the panic on a negative size. */
    static method NewPool(size: int) returns (pool: WorkerPool?)
      ensures pool == null <==> New(size).None?
      ensures pool != null ==> fresh(pool) && pool.Valid() && Some(pool.State()) == New(size)
      ensures pool != null ==> pool.bufSize == 0
    {
      if size < 0 {
        return null;
      }
      pool := new WorkerPool(size, 0);
    }

    /** NewBufferedPool: as NewPool, with a jobs channel of capacity bufSize. */
    static method NewBufferedPool(size: int, bufSize: int) returns (pool: WorkerPool?)
      ensures pool == null <==> New(size).None?
      ensures pool != null ==> fresh(pool) && pool.Valid() && Some(pool.State()) == New(size)
      ensures pool != null ==> pool.bufSize == bufSize
    {
      if size < 0 {
        return null;
      }
      pool := new WorkerPool(size, bufSize);
    }

    /** createWorkers: one worker loop per iteration, none for a count <= 0. */
    method CreateWorkers(count: int)
      modifies `live
      ensures State() == SpawnWorkers(old(State()), count)
    {
      var i := 0;
      while i < count
        invariant count <= 0 ==> i == 0
        invariant count > 0 ==> 0 <= i <= count
        invariant live == old(live) + i
      {
        live := live + 1;
        i := i + 1;
      }
    }

    method ModClose(change: int)
      modifies `closing
      ensures closing == old(closing) + change
    {
      closing := closing + change;
    }

    method IncBusy()
      modifies `busy
      ensures busy == old(busy) + 1
    {
      busy := busy + 1;
    }

    method DecBusy()
      modifies `busy
      ensures busy == old(busy) - 1
    {
      busy := busy - 1;
    }

    /** A job handed over by Run is received by an idle worker, which calls incBusy. */
    method StartJob()
      requires Valid() && Idle(State()) > 0
      modifies this
      ensures Valid() && State() == PoolModel.StartJob(old(State()))
    {
      IncBusy();
    }

    /** The handler of a busy worker returns and the worker calls decBusy. */
    method FinishJob()
      requires Valid() && busy > 0
      modifies this
      ensures Valid() && State() == PoolModel.FinishJob(old(State()))
    {
      DecBusy();
    }

    method ScaleUp(newSize: int) returns (err: Outcome)
      requires Valid()
      modifies this
      ensures Valid()
      ensures Transition(State(), err) == PoolModel.ScaleUp(old(State()), newSize)
    {
      if newSize <= size {
        return Err(ErrScaleUp);
      }
      var delta := newSize - size;
      size := newSize;
      CreateWorkers(delta);
      return Ok;
    }

    /**
     * ScaleDown blocks until each of its `delta` stop signals has been received by an
     * idle worker; a caller must leave enough workers idle for that to happen.
     */
    method ScaleDown(newSize: int) returns (err: Outcome)
      requires Valid() && ShrinkFeasible(State(), newSize)
      modifies this
      ensures Valid()
      ensures Transition(State(), err) == PoolModel.ScaleDown(old(State()), newSize)
    {
      if newSize < 0 || newSize >= size {
        return Err(ErrScaleDown);
      }
      var delta := size - newSize;
      size := newSize;
      ModClose(delta);
      pending := pending + delta;
      var i := 0;
      while i < delta
        invariant 0 <= i <= delta
        invariant size == newSize && busy == old(busy)
        invariant live == old(live) - i && live - busy >= delta - i
        invariant pending == old(pending) + delta - i
        invariant closing == old(closing) + delta - i
      {
        // the send on `stop` completes: an idle worker has received the signal and exits
        live, pending := live - 1, pending - 1;
        ModClose(-1);
        i := i + 1;
      }
      return Ok;
    }

    method ScaleTo(newSize: int) returns (err: Outcome)
      requires Valid() && ShrinkFeasible(State(), newSize)
      modifies this
      ensures Valid()
      ensures Transition(State(), err) == PoolModel.ScaleTo(old(State()), newSize)
    {
      if newSize < size {
        err := ScaleDown(newSize);
        return;
      }
      if newSize > size {
        err := ScaleUp(newSize);
        return;
      }
      return Err(ErrEqualSize);
    }

    /**
     * ScaleDown(0) with its error discarded; closing the channels changes no counter.
     * It runs to completion once `size` workers are idle: no more are busy than
     * other shrinks are still to retire.
     */
    method StopAndCount()
      requires Valid() && busy <= pending
      modifies this
      ensures Valid()
      ensures State() == PoolModel.StopAndCount(old(State()))
    {
      var _ := ScaleDown(0);
    }

    method Size() returns (r: int)
      requires Valid()
      ensures r == size && r >= 0 && r == live - pending
    {
      return size;
    }

    method Busy() returns (r: int)
      requires Valid()
      ensures r == busy && 0 <= r <= live
      ensures Quiescent(State()) ==> r <= size
    {
      return busy;
    }

    method Waiting() returns (r: int)
      requires Valid()
      ensures r == PoolModel.Waiting(State())
      ensures Quiescent(State()) ==> 0 <= r <= size
    {
      var s := Size();
      var b := Busy();
      return s - b;
    }

    method Excess() returns (r: int)
      requires Valid()
      ensures r == closing && r == pending && r >= 0
    {
      return closing;
    }
  }
}
