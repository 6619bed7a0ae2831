# go-workers: the resizable worker pool as a verified counter machine

`WorkerPool` (workers.go) runs a handler on submitted jobs with a set of worker
goroutines. The pool can grow (`ScaleUp`), shrink (`ScaleDown`), resize in either
direction (`ScaleTo`) and wind down (`StopAndCount`). It reports four counters:
`Size`, `Busy`, `Waiting` and `Excess`. This project models the pool as a sequential
state machine over those counters. It then proves the counting properties the code
and its tests rely on.

The state has the three real fields plus two quantities the code only implies:

- `size`: the intended number of workers.
- `busy`: workers currently running the handler.
- `closing`: stop signals announced by running shrinks.
- `live` (ghost): worker loops spawned by `createWorkers` that have not exited.
- `pending` (ghost): stop signals of running shrinks that no worker has received yet.

Every step of the model is atomic. Only `FinishJob` (the handler returning, then
`decBusy`) is a single locked update. `StartJob` merges a job handoff with `incBusy`,
`DeliverStop` merges a stop handoff with the sender's `modClose(-1)`, and
`BeginScaleDown` and `ScaleUp` each merge their size update with what follows it
(listed under "Left out"). The blocking `ScaleDown`, `ScaleTo` and `StopAndCount`
steps are whole calls. So the invariant below holds between model steps, not at
every instant of the code. A stop signal can be received only by an idle worker, one parked in
the `select` of the worker loop: a worker that is running the handler cannot receive it.

The project has three modules:

- `PoolModel` (pool_model.dfy) is the pure state machine. `PoolState` holds the five
  counters. `Inv` is the pool invariant:
  - `0 <= busy <= live`;
  - `closing == pending >= 0`;
  - `live == size + pending`.

  So `live == size` whenever no shrink is in progress (`Quiescent`). Every operation
  is a function that returns the next state and the error. `ScaleDown` is split into
  `BeginScaleDown` (argument check, size update, `modClose(delta)`) and
  `DeliverStop` (one send on `stop` received by an idle worker, then
  `modClose(-1)`). Used this way, a shrink running in the background can interleave
  with other steps. `Step`, `Apply` and `Exec` run any sequence of enabled steps, and
  `ExecPreservesInv` proves that the invariant holds after every one of them.
- `Workers` (workers.dfy) is the class `WorkerPool`. Its fields are `size`, `busy`
  and `closing`, with `live` and `pending` as ghost fields. `createWorkers` and
  `ScaleDown` keep their counting loops. Every state-changing pool operation is proved
  to move the object exactly as the matching `PoolModel` function moves a
  `PoolState`. The lock helpers `modClose`, `incBusy` and `decBusy` are proved to
  change only their own counter, and the four views to read the counters without
  changing them.
- `PoolScenarios` (scenarios.dfy) restates the behaviour checked by workers_test.go as
  lemmas over pools of any size, plus two client methods of the class.

A blocking `ScaleDown` (and so `ScaleTo` below the current size, and `StopAndCount`)
can finish only when enough workers are idle to receive its signals. `ScaleDown` and
`ScaleTo` therefore require `ShrinkFeasible`: either the argument check fails, or at
least `size - newSize` workers are idle. `StopAndCount` requires the same for
`newSize = 0`. Under the invariant this reads `busy <= pending`: no more workers are
busy than other shrinks are still to retire, so with no other shrink running, no job
may be running. The background form (`BeginScaleDown` followed by
`DeliverStop` steps) has no such requirement: a `DeliverStop` step is simply not
enabled until a worker is idle.

The `size < 0` panic of `NewPool`/`NewBufferedPool` is modelled as a `None` result for
`New`, and as a `null` result for the class's static `NewPool`/`NewBufferedPool`.

Two properties one would expect of the counters hold only in part, and the model
states what the code does.

- One might expect `Waiting()` to stay between 0 and `Size()` at all times, even under
  concurrent activity. In the code, `ScaleDown` lowers `size` before any worker has
  exited. While it waits for busy workers, `Busy()` exceeds `Size()` and `Waiting()` is
  negative. `PoolScenarios.WaitingNegativeDuringShrink` exhibits this state. The
  bounds on `Waiting()` are proved only for states with no shrink in progress.
- One might expect `Excess()` to read 0 after every `StopAndCount()`. In the code this
  holds only when no other shrink is in progress. `StopAndCount` sends only
  `size` signals, so it leaves `closing` and the workers retiring for other shrinks as
  they were. This matches the code's own comment (workers.go:138-139). The contract of
  `PoolModel.StopAndCount` states both cases.

## Model

| member | source | states |
|---|---|---|
| PoolModel.New | workers.go:36-50 | Construction fails exactly when size < 0. Otherwise the pool has the given size, busy 0, closing 0 and exactly size live workers, satisfies the invariant, and has no shrink in progress. |
| PoolModel.SpawnWorkers | workers.go:174-192 | createWorkers starts exactly count worker loops, none when count <= 0, and changes no other counter. |
| PoolModel.StartJob | workers.go:178-183 | An idle worker taking a job raises busy by one and lowers the idle count by one; no other counter changes; the invariant is preserved. |
| PoolModel.FinishJob | workers.go:183-185 | A handler returning lowers busy by one and makes one more worker idle; the invariant is preserved. |
| PoolModel.DeliverStop | workers.go:122-125 | One received stop signal retires one live worker and lowers pending and closing by one; busy and size are untouched; the invariant is preserved. |
| PoolModel.DeliverStops | workers.go:122-125 | The k sends of the shrink loop retire exactly k workers and lower closing and pending by exactly k. |
| PoolModel.ScaleUp | workers.go:93-105 | Succeeds iff newSize > size. On error the state is unchanged and the message is the ScaleUp one. On success size becomes newSize and exactly newSize - size workers are added. busy, closing and pending are kept, and so is the invariant (so live == size again when quiescent). |
| PoolModel.BeginScaleDown | workers.go:111-121 | The argument check accepts iff 0 <= newSize < size. On error nothing changes. On success size becomes newSize and closing and pending both rise by delta = size - newSize. The invariant is preserved. |
| PoolModel.ScaleDown | workers.go:111-127 | Succeeds iff 0 <= newSize < size, and on error changes nothing. On success size becomes newSize and exactly delta workers have exited. closing and pending end where they started, and the invariant holds after. |
| PoolModel.ScaleTo | workers.go:80-88 | Succeeds iff newSize >= 0 and newSize != size. It fails with the equal-size message when newSize == size and with the ScaleDown message when newSize < 0, changing nothing. On success the size becomes newSize and the invariant holds. |
| PoolModel.ScaleToRoundTrip | workers.go:80-127 | Resizing with ScaleTo to any other valid size m and then back to the original size succeeds both times and restores every counter, the live workers included; the way back is always feasible. |
| PoolModel.StopAndCount | workers.go:140-144 | Afterwards size is 0, busy is kept and closing is where it was. The only live workers left are those still to be retired by other shrinks. With no other shrink in progress, no worker is live and Excess() is 0. |
| PoolModel.BackgroundShrinkCompletes | workers.go:111-127 | A ScaleDown(newSize) run as steps of the pool, its begin step, then just enough handlers returning to leave delta workers idle, then its delta deliveries, is enabled throughout whatever the number of busy workers. It ends with size newSize, delta fewer live workers, those handlers finished, and closing and the pending signals back where they started. |
| PoolModel.BackgroundShrinkMatchesScaleDown | workers.go:111-127 | When enough workers are idle, the begin step followed by the delta delivery steps, run by Exec, ends in exactly the state of the blocking ScaleDown. |
| PoolModel.Waiting | workers.go:160-165 | Under the invariant and with no shrink in progress, Size() - Busy() is between 0 and Size(). |
| PoolModel.Apply | workers.go:174-210 | Every enabled step of the pool (job start and finish, every scaling call, both halves of a background shrink) preserves the invariant. |
| PoolModel.ExecPreservesInv | workers.go:174-210 | Any sequence of enabled steps from a state satisfying the invariant ends in a state satisfying it. |
| PoolModel.ReachableBounds | workers.go:147-172 | In every reachable state Busy() <= live workers and Excess() equals the pending signals. With no shrink in progress, live == Size(), Busy() <= Size() and 0 <= Waiting() <= Size(). |
| Workers.WorkerPool.constructor | workers.go:40-48 | The pool literal with busy and closing 0, followed by createWorkers(size): the object is valid, has no shrink in progress, is in exactly the state PoolModel.New gives, and records the buffer size. |
| Workers.WorkerPool.NewPool | workers.go:36-50 | Returns null (the panic) iff size < 0. Otherwise it returns a fresh valid pool in exactly the state PoolModel.New gives, with an unbuffered jobs channel. |
| Workers.WorkerPool.NewBufferedPool | workers.go:58-72 | As NewPool, recording the given buffer size. |
| Workers.WorkerPool.CreateWorkers | workers.go:174-192 | The loop spawns exactly count workers (none for count <= 0), as PoolModel.SpawnWorkers says, and touches only live. |
| Workers.WorkerPool.ModClose | workers.go:194-198 | closing changes by exactly change and nothing else changes. |
| Workers.WorkerPool.IncBusy | workers.go:200-204 | busy rises by one and nothing else changes. |
| Workers.WorkerPool.DecBusy | workers.go:206-210 | busy falls by one and nothing else changes. |
| Workers.WorkerPool.StartJob | workers.go:178-183 | With an idle worker, the object moves as PoolModel.StartJob and stays valid. |
| Workers.WorkerPool.FinishJob | workers.go:183-185 | With a busy worker, the object moves as PoolModel.FinishJob and stays valid. |
| Workers.WorkerPool.ScaleUp | workers.go:93-105 | The new object state and the returned error are exactly those of PoolModel.ScaleUp; the object stays valid. |
| Workers.WorkerPool.ScaleDown | workers.go:111-127 | The loop sends exactly delta signals, each retiring one idle worker and undoing one unit of modClose(delta). The new state and the error are exactly those of PoolModel.ScaleDown, and the object stays valid. |
| Workers.WorkerPool.ScaleTo | workers.go:80-88 | The new state and the error are exactly those of PoolModel.ScaleTo. |
| Workers.WorkerPool.StopAndCount | workers.go:140-144 | The new state is exactly that of PoolModel.StopAndCount. |
| Workers.WorkerPool.Size | workers.go:147-151 | Returns size, which is non-negative and equals the live workers minus the signals still pending. |
| Workers.WorkerPool.Busy | workers.go:154-158 | Returns busy, which is between 0 and the live workers, and at most Size() when no shrink is in progress. |
| Workers.WorkerPool.Waiting | workers.go:160-165 | Returns Size() - Busy(), which is between 0 and Size() when no shrink is in progress. |
| Workers.WorkerPool.Excess | workers.go:168-172 | Returns closing, which equals the stop signals not yet received and is non-negative. |
| PoolScenarios.StartJobsExec | workers.go:75-77 | k submissions in a row all start iff at least k workers are idle, and then exactly k more are busy. |
| PoolScenarios.BusyCappedAtSize | workers_test.go:90-111 | From a fresh pool of size n, k blocking jobs can all start iff k <= n, and then Busy() == k. |
| PoolScenarios.BusyAndWaitingOfBlockingJobs | workers_test.go:113-134 | With k <= n blocking jobs in a fresh pool of n, Busy() == k and Waiting() == n - k. A further job cannot start iff k == n. |
| PoolScenarios.GrowThenShrink | workers_test.go:31-88 | From any fresh pool, a grow to a larger m succeeds with m live workers, and a repeat of the same size fails. A following shrink to d succeeds with d live workers and Excess() == 0. |
| PoolScenarios.StopAndCountOfFreshPool | workers_test.go:22-29 | StopAndCount on a fresh pool of any size leaves Excess() == 0 and no live worker. |
| PoolScenarios.GrowThenShrinkPool | workers_test.go:31-63 | On the class: a fresh pool of n grown to a larger m and then shrunk to d returns no error from either call, and Size() then reads d and Excess() 0. |
| PoolScenarios.StopAndCountPool | workers_test.go:22-29 | On the class: StopAndCount on a fresh pool of any size leaves size 0 and Excess() reading 0. |
| PoolScenarios.WaitingNegativeDuringShrink | workers.go:111-125 | With all n workers busy, a background ScaleDown(d) leaves Size() == d, Busy() == n and Waiting() == d - n < 0. In that state no stop signal can be received, because no worker is idle. A concurrent ScaleUp back to n keeps busy at n and makes a stop signal deliverable, since its new workers are idle. |

## Left out

- Goroutines, channels and the three mutexes. Each channel handoff and each locked
  update is one atomic step of the model, and the Go scheduler is not modelled.
  The unlocked reads of `size` in the argument checks (workers.go:81, 84, 94, 112) are
  taken to be atomic with the update they guard. So the race in which concurrent
  `ScaleTo` calls end in an order-dependent size (the random scaling test) is not
  modelled.
- The handler (`RunFunc`) and the job payload. A job is a step that makes a worker
  busy, and the handler returning is a step that makes it idle again. The worker loop
  (workers.go:176-190) has no `recover`, so a handler that panics crashes the whole
  process. Only a handler that recovers by itself or calls `runtime.Goexit` would
  remove just one worker, leaving `size` unadjusted. Neither case is modelled.
- Three model steps merge actions the code takes under separate locks, or with no lock
  between them. `DeliverStop` merges a worker's receipt of a stop signal
  (workers.go:186-187) with the sender's later `modClose(-1)` (workers.go:124).
  `BeginScaleDown` merges the `sizeMutex` section (workers.go:116-119) with
  `modClose(delta)` (workers.go:121). `ScaleUp` merges the size update
  (workers.go:98-101) with the whole `createWorkers(delta)` loop. So `closing ==
  pending` and `live == size + pending` are proved only between model steps. In the
  code, between a receipt and its `modClose(-1)`, `Excess()` reads one more than the
  signals not yet received. Between the size update of `ScaleUp` and the spawning of
  its workers, `live` is below `size`.
- The receipt of a job and the following `incBusy` are one atomic step. In the code, a
  worker is briefly neither idle nor counted as busy between the two.
- `Stop()`, and the closing of both channels in `StopAndCount`. No counter changes
  there; workers leaving on a closed channel, jobs discarded from the buffer, and the
  panics of later sends are outside the model.
- `Run` with a buffered jobs channel. A job is modelled only as received by an idle
  worker, so queueing in the buffer is not modelled. `NewBufferedPool` records
  `bufSize` but nothing depends on it, and `make`'s panic for a negative `bufSize` is
  not modelled.
- Workers.WorkerPool.ScaleDown, Workers.WorkerPool.ScaleTo and
  Workers.WorkerPool.StopAndCount (and their `PoolModel` functions): these require
  enough idle workers for every stop signal (`ShrinkFeasible`, or `busy <= pending`). In the code the call instead blocks until jobs
  finish. That case is covered by `PoolModel.BackgroundShrinkCompletes`, which runs the
  shrink as steps and lets handlers return before the stop signals are received.
- Integer width: Go's `int` is 64-bit, and the model uses unbounded integers. Under
  the invariant, `busy`, `closing` and `size` all lie between 0 and `live`, the number
  of worker goroutines actually spawned and not yet exited. That number cannot come
  anywhere near 2^63, so no counter can wrap around. Repeated shrinks and growths can
  push `closing` above every size ever requested, but never above `live`. A size
  passed to `ScaleUp` or `NewPool` near 2^63 is not modelled: `createWorkers` could not
  spawn that many goroutines.
- Timing (`time.After` in the tests) and the example program (example/main.go).
