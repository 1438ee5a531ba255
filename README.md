# ParallelEvaluator.evaluate, modelled in Dafny

`neat/parallel.py` scores a NEAT population in parallel. `ParallelEvaluator.evaluate`:

1. checks that every pool worker is alive;
2. cuts the `(genome_id, genome)` list into batches of `len(genomes) // num_workers` genomes;
3. submits one pool job per batch, in order;
4. waits for the jobs in submission order and writes the i-th fitness a job returned onto the i-th genome of its batch.

This project models that call and proves what it leaves behind: which genomes carry which fitness, and whether the call returns `True` or raises.

The model has four modules:

- `Wrappers` (`wrappers.dfy`) holds the `Option` type.
- `Batching` (`batching.dfy`) holds the batch-size arithmetic and the slicing comprehension, as pure functions with lemmas. The lemmas cover coverage, order, batch sizes, and the position `i * c + j` of genome `j` of batch `i`.
- `Reconciliation` (`reconciliation.dfy`) is the reference semantics of the write-back loop.
  - It works over genome positions: the first position whose result cannot be written stops the call.
  - The genomes before that position hold their new fitness. That position and the ones after it keep the fitness they had.
  - `Evaluation` is the whole call as a function of the old fitness vector, the worker count, the liveness probe and the job outcomes.
- `Parallel` (`parallel.dfy`) is the imperative model.
  - `Genome` objects carry a mutable `fitness` field.
  - `ParallelEvaluator.Evaluate` builds the batches and submits them in a loop.
  - `WriteBack` (one pass per job) and `WriteJob` (one genome at a time) assign the fitnesses in place.
  - `WriteJob`'s new state is stated directly: the fitnesses before the call and the job's returned list.
  - `CollectJob` and `WriteBack` are proved to reach the state and outcome of `Reconcile`, and `Evaluate` those of `Evaluation`.

The model follows the code exactly, including some behaviour a reader might not expect of a batch scheduler:

- **An extra short batch instead of a padded last one.** Slicing at every multiple of `c = N // W` gives `ceil(N / c)` batches. That can be more than `W`: 10 genomes on 3 workers give batches of 3, 3, 3 and 1 (`TenGenomesThreeWorkers`).
- **Fewer genomes than workers is an error.** When `N < W`, including `N == 0`, `c` is 0 and `range(0, N, 0)` raises `ValueError`. The model calls this `ZeroStep`. It happens before any job is submitted and before any fitness is written.
- **What a job may return.**
  - A job that returns fewer fitnesses than its batch holds makes `fitnesses[j]` raise `IndexError` (`IndexOutOfRange`). Extra fitnesses are ignored.
  - A `None` fitness stops the call (`NoneFitness`). The code then means to raise `RuntimeError`, but the `_rlock.release()` just before it can raise `ValueError` first (see "## Left out"). The model tells this stop apart from a dead worker (`WorkerDied`), although the code raises the same message for both.
- **Partial writes persist.** A stop at slot `(i, j)` leaves the genomes of the earlier batches, and the first `j` genomes of batch `i`, with their new fitness.
- **`return False` is never reached**, because the statement before it always raises.

## Model

| member | source | states |
|---|---|---|
| `Batching.BatchSize` | neat/parallel.py:42 | The batch size is at most the number of genomes, and is zero exactly when there are fewer genomes than workers. |
| `Batching.BatchSizeIsQuotient` | neat/parallel.py:42 | `//` truncates: `c * w <= n < (c + 1) * w`. |
| `Batching.BatchCount` | neat/parallel.py:43 | `range(0, n, c)` yields the least `k` with `n <= k * c`, and none when `n == 0`. |
| `Batching.BatchCountUnique` | neat/parallel.py:43 | Those two bounds determine the number of offsets. |
| `Batching.Partition` | neat/parallel.py:43 | The comprehension `[genomes[i:i+c] for i in range(0, len(genomes), c)]`. There are no batches exactly when the list is empty, and every batch holds between 1 and `c` genomes. |
| `Batching.FlattenPartition` | neat/parallel.py:43 | Concatenating the batches in order gives back the genome list: nothing is dropped, duplicated or reordered. |
| `Batching.PartitionSizes` | neat/parallel.py:43 | There are `ceil(n / c)` batches. Every batch but the last holds exactly `c` genomes; the last holds 1 to `c`. |
| `Batching.PartitionAt` | neat/parallel.py:43 | Genome `j` of batch `i` is genome `i * c + j` of the list, and `j < c`. |
| `Batching.PartitionBatchLength` | neat/parallel.py:43 | Batch `i` starts inside the list and holds `min(c, n - i * c)` genomes, as the clamped slice `genomes[i*c : i*c+c]` does. |
| `Batching.PartitionCovers` | neat/parallel.py:43 | Every multiple of `c` inside the list starts a batch. |
| `Batching.LocateInPartition` | neat/parallel.py:43 | Genome `p` lies in batch `p / c` at position `p % c`. |
| `Batching.TenGenomesThreeWorkers` | neat/parallel.py:42-43 | 10 genomes on 3 workers give four batches of sizes 3, 3, 3, 1. |
| `Batching.PartitionOffset` | neat/parallel.py:43 | Batch `i` starts at genome `i * c`. |
| `Batching.PartitionShape` | neat/parallel.py:43 | The batch sizes depend only on the length of the list. |
| `Reconciliation.FaultAtSlot` | neat/parallel.py:59-66 | The nested stop rule and the flat one agree. Write-back stops at slot `(i, j)` (`StopsAt`: `job.get` raised, `j` is past the returned list, or the value is `None`) exactly when genome `Offset(i) + j` faults. The error it raises (`StopError`, checked in that order) is that genome's `FaultError`. When it does not stop, the value written is `fitnesses[j]`. |
| `Reconciliation.FirstFault` | neat/parallel.py:58-68 | The first genome position whose result cannot be written. No position before it faults, and it faults unless it is the end of the list. |
| `Reconciliation.FirstFaultIs` | neat/parallel.py:58-68 | That least-fault characterisation determines the first fault uniquely. |
| `Reconciliation.Reconcile` | neat/parallel.py:57-69 | The write-back over a batch list keeps the number of genomes. Its meaning is stated by the lemmas below. |
| `Reconciliation.WrittenBatch` | neat/parallel.py:63-68 | Writing the first `k` fitnesses of job `i` changes exactly the genomes at positions `Offset(i) .. Offset(i) + k - 1`, which take those fitnesses in order. |
| `Reconciliation.ReconcileSucceeds` | neat/parallel.py:57-69 | The write-back returns `True` if and only if every job returned a non-`None` fitness for every genome of its batch. |
| `Reconciliation.ReconcileWritesBack` | neat/parallel.py:63-68 | After success, slot `(i, j)` holds the `j`-th fitness job `i` returned, which is not `None`. |
| `Reconciliation.ReconcileFirstStop` | neat/parallel.py:58-68 | The first slot that cannot be written raises its `StopError`. Every earlier slot holds its new fitness; that slot and every later genome keep their old fitness. |
| `Reconciliation.ReconcileShape` | neat/parallel.py:57-68 | The write-back depends only on the batch sizes, so it is the same over the batches of genomes as over the batches of their fitnesses. |
| `Reconciliation.ReconcileRoundTrip` | neat/parallel.py:57-69 | When each job returns `F(key)` for every genome of its batch, the write-back succeeds and genome `p` ends with `F(key p)`. |
| `Reconciliation.JobCount` | neat/parallel.py:42-51 | No job is submitted exactly when there are fewer genomes than workers. |
| `Reconciliation.JobCountIsBatchCount` | neat/parallel.py:43-51 | One job is submitted per batch. |
| `Reconciliation.Evaluation` | neat/parallel.py:32-69 | evaluate never adds or drops genomes. |
| `Reconciliation.EvaluationIsReconcile` | neat/parallel.py:42-69 | With live workers and at least one genome per worker, evaluate is the write-back over the partition into batches of `N // W`. |
| `Reconciliation.EvaluationFailsEarly` | neat/parallel.py:33-43 | A dead worker raises `WorkerDied`, and fewer genomes than workers raise `ZeroStep`. Either way, no fitness changes. |
| `Reconciliation.EvaluationSucceeds` | neat/parallel.py:32-69 | evaluate returns `True` if and only if all workers are alive, `N >= W`, and every job returned a fitness for every genome of its batch. |
| `Reconciliation.EvaluationWritesBack` | neat/parallel.py:58-68 | After success, genome `i * c + j` carries the `j`-th fitness of job `i`. |
| `Reconciliation.FirstStopAborts` | neat/parallel.py:58-68 | The first unwritable slot `(i, j)` makes evaluate raise its error. Genomes before it are updated; genomes from it on keep their old fitness. The frontier `Offset(b, i) + j` is list position `i * c + j`. |
| `Reconciliation.EvaluationRoundTrip` | neat/parallel.py:42-69 | When each job returns `F(key)` for each genome of its batch, evaluate succeeds and every genome ends with `F` of its own key. |
| `Parallel.Genome.constructor` | neat/parallel.py:68 | A genome object carries the fitness it is created with; line 68 assigns this field. |
| `Parallel.WriteJob` | neat/parallel.py:63-68 | The inner loop writes the job's fitnesses onto batch `i` in order. It stops at the first `j` where `StopsAt` holds (a missing index or `None`), with `StopError`'s error. Exactly the genomes of batch `i` before the stop change. |
| `Parallel.CollectJob` | neat/parallel.py:58-68 | One pass of the outer loop. It moves the genome list from the state after `i` jobs to the state after `i + 1` jobs, or, when job `i` stops the loop, to the final state and outcome of `Reconcile`. |
| `Parallel.WriteBack` | neat/parallel.py:57-69 | The write-back loop leaves every genome with the fitness that `Reconcile` gives and returns its outcome. |
| `Parallel.ParallelEvaluator.constructor` | neat/parallel.py:12-21 | Stores the worker count and the timeout. |
| `Parallel.ParallelEvaluator.Evaluate` | neat/parallel.py:32-69 | Submits exactly the list of batches `Partition(genomes, N // W)`, or nothing when a worker died or `N < W`. The genomes' new fitnesses and the outcome are `Evaluation` of their old fitnesses. |

## Left out

- The process pool is not modelled.
  - `apply_async`, the worker processes and `job.get(timeout=...)` are replaced by one `JobOutcome` per submitted job, supplied by the caller in submission order.
  - `Failed` stands for every way `job.get` can raise: `eval_function` raised, the timeout expired, `eval_function` itself (a lambda or a nested function, say) or the batch or `config` could not be pickled for the worker, or the returned list could not be pickled back (`MaybeEncodingError`).
  - `Failed` also stands for a result that is not a list, such as a bare float or `None`. Indexing it with `fitnesses[0]` raises `TypeError` before any genome of that batch is written, which has the same effect as a failed job.
  - The timeout is kept as a field but has no effect in the model.
  - A job whose worker dies while running it never resolves. With the default `timeout=None`, `evaluate` then blocks forever in `job.get`. Every job in the model has an outcome, so the model does not represent this non-termination.
- The liveness probe (`p.is_alive()` over `self.processes`) is a boolean parameter of `Evaluate`.
  - `self.processes` is taken once, at construction. After the pool recycles a worker (`maxtasksperchild`), the probe sees the retired process as dead, and every later call raises on a healthy pool. `workersAlive == false` covers this case too.
- `self.pool._inqueue._rlock.release()` (lines 34 and 65) is left out, because the model has no pool.
  - `_rlock` is a `multiprocessing.Lock`, whose semaphore has a maximum value of 1. A worker holds it only while it waits for a task.
  - When every worker is busy, releasing it raises `ValueError("semaphore or lock released too many times")`, and the `RuntimeError` on the next line is never reached. Example: 10 genomes on 3 workers give 4 batches, and job 0 returns `None` while its worker runs batch 3.
  - The fitness state and the stop point are the same either way. So `WorkerDied` and `NoneFitness` name where the call stopped, not which exception class escapes.
- The `KeyboardInterrupt` handler, `global_lock`, `__del__` and `end` are left out. They terminate and join the pool, and there is no signal delivery to model.
- The `print` calls are left out, as output with no effect on the result.
- `eval_function` and `config` are not modelled; what the function computes arrives through the job outcomes.
- `maxtasksperchild`, which configures worker recycling in the pool, is not modelled. Its effect on the liveness probe is covered by `workersAlive`, as noted above.
- Fitness values are an opaque type `V`. Floating-point arithmetic is never performed on them.
- `Parallel.ParallelEvaluator.Evaluate`: requires the genome objects of the list to be distinct. With the same object listed twice, the later write would win. The model does not describe that aliasing.
- `Parallel.ParallelEvaluator.Evaluate`: requires exactly one job outcome per submitted job when the workers are alive. In the code, each job has exactly one result.
- `Parallel.ParallelEvaluator.constructor`: requires at least one worker instead of modelling the `ValueError` that creating a pool of zero processes raises.
