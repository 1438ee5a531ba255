/**
 * The ParallelEvaluator class of neat/parallel.py. The process pool is not modelled:
 * the liveness probe of its workers is a boolean, and what each submitted job
 * yields when `job.get` is called is a JobOutcome supplied by the caller, one per
 * job in submission order. Genomes are objects whose `fitness` field evaluate
 * assigns in place.
 */
module Parallel {
  import opened Wrappers
  import opened Batching
  import opened Reconciliation

  /** A NEAT genome as far as evaluate sees it: the fitness it carries. */
  class Genome<V> {
    var fitness: Option<V>

    constructor (fitness: Option<V>)
      ensures this.fitness == fitness
    {
      this.fitness := fitness;
    }
  }

  /** The fitness of every genome of a `(genome_id, genome)` list, in list order. */
  ghost function Fitnesses<K, V>(gs: seq<(K, Genome<V>)>): (f: seq<Option<V>>)
    reads set e | e in gs :: e.1
    ensures |f| == |gs|
    ensures forall p :: 0 <= p < |gs| ==> f[p] == gs[p].1.fitness
  {
    if gs == [] then [] else [gs[0].1.fitness] + Fitnesses(gs[1..])
  }

  /** The genome objects of the list are pairwise distinct. */
  predicate DistinctGenomes<K, V>(gs: seq<(K, Genome<V>)>)
  {
    forall p, q :: 0 <= p < q < |gs| ==> gs[p].1 != gs[q].1
  }

  /**
   * The inner write-back loop of evaluate for job i: assign fitness j of the list
   * the job returned to genome j of batch i, in order, until the list runs out
   * (IndexError) or holds None. `stop` is the position where it stopped, or the
   * batch length when every genome was written. Seen in the whole genome list,
   * exactly the genomes of batch i below `stop` change.
   */
  method WriteJob<K, V>(tasks: seq<seq<(K, Genome<V>)>>, i: nat, fitnesses: seq<Option<V>>,
                        ghost before: seq<Option<V>>)
    returns (outcome: Outcome, ghost stop: nat)
    requires i < |tasks|
    requires DistinctGenomes(Flatten(tasks))
    requires |before| == |Flatten(tasks)|
    requires forall p :: 0 <= p < |before| ==> Flatten(tasks)[p].1.fitness == before[p]
    modifies set e | e in tasks[i] :: e.1
    ensures stop <= |tasks[i]| && stop <= |fitnesses|
    ensures forall k :: 0 <= k < stop ==> fitnesses[k].Some?
    ensures Offset(tasks, i) + stop <= |Flatten(tasks)|
    ensures forall p :: 0 <= p < |Flatten(tasks)| ==>
      Flatten(tasks)[p].1.fitness ==
        if Offset(tasks, i) <= p < Offset(tasks, i) + stop then fitnesses[p - Offset(tasks, i)]
        else before[p]
    ensures stop == |tasks[i]| ==> outcome == Success
    ensures stop < |tasks[i]| ==>
      StopsAt(Resolved(fitnesses), stop) && outcome == Raised(StopError(Resolved(fitnesses), i, stop))
  {
    ghost var genomes := Flatten(tasks);
    ghost var base := Offset(tasks, i);
    OffsetMonotone(tasks, i, |tasks|);
    FlattenLength(tasks);
    var batch := tasks[i];
    var j := 0;
    while j < |batch|
      invariant j <= |batch| && j <= |fitnesses|
      invariant forall k :: 0 <= k < j ==> fitnesses[k].Some?
      invariant forall p :: 0 <= p < |genomes| ==>
        genomes[p].1.fitness == if base <= p < base + j then fitnesses[p - base] else before[p]
    {
      if j >= |fitnesses| {
        return Raised(IndexOutOfRange(i, j)), j;
      }
      if fitnesses[j] == None {
        return Raised(NoneFitness(i, j)), j;
      }
      FlattenAt(tasks, i, j);
      forall p | 0 <= p < |genomes| && p != base + j
        ensures genomes[p].1 != batch[j].1
      {
      }
      batch[j].1.fitness := fitnesses[j];
      j := j + 1;
    }
    return Success, j;
  }

  /**
   * One round of the write-back loop of evaluate: wait for job i, then write its
   * fitnesses into batch i (WriteJob). Beforehand the genomes hold what the first i
   * jobs wrote (Written up to the offset of batch i, with no fault so far);
   * afterwards they hold what the first i + 1 jobs wrote, or, when job i stops the
   * loop, the final state of Reconcile together with its outcome.
   */
  method CollectJob<K, V>(tasks: seq<seq<(K, Genome<V>)>>, results: seq<JobOutcome<V>>, i: nat,
                          ghost fits0: seq<Option<V>>)
    returns (outcome: Outcome)
    requires |results| == |tasks| && i < |tasks| && |tasks[i]| > 0
    requires DistinctGenomes(Flatten(tasks))
    requires |fits0| == |Flatten(tasks)| && Offset(tasks, i) <= |fits0|
    requires forall q :: 0 <= q < Offset(tasks, i) ==> !FaultAt(tasks, results, q)
    requires forall p :: 0 <= p < |fits0| ==>
      Flatten(tasks)[p].1.fitness == Written(fits0, tasks, results, Offset(tasks, i))[p]
    modifies set e | e in tasks[i] :: e.1
    ensures outcome.Success? ==>
      Offset(tasks, i + 1) <= |fits0| &&
      (forall q :: 0 <= q < Offset(tasks, i + 1) ==> !FaultAt(tasks, results, q)) &&
      forall p :: 0 <= p < |fits0| ==>
        Flatten(tasks)[p].1.fitness == Written(fits0, tasks, results, Offset(tasks, i + 1))[p]
    ensures outcome.Raised? ==>
      outcome == Reconcile(fits0, tasks, results).1 &&
      forall p :: 0 <= p < |fits0| ==> Flatten(tasks)[p].1.fitness == Reconcile(fits0, tasks, results).0[p]
  {
    ghost var genomes := Flatten(tasks);
    ghost var base := Offset(tasks, i);
    if results[i].Failed? {
      FaultAtSlot(tasks, results, i, 0);
      ReconcileStopsAtSlot(fits0, tasks, results, i, 0);
      assert StopError(results[i], i, 0) == JobFailed(i);
      return Raised(JobFailed(i));
    }
    var fitnesses := results[i].fitnesses;
    ghost var stop: nat;
    outcome, stop := WriteJob(tasks, i, fitnesses, Written(fits0, tasks, results, base));
    WrittenBatch(fits0, tasks, results, i, stop, base + stop);
    ghost var now := Written(fits0, tasks, results, base + stop);
    forall p | 0 <= p < |fits0|
      ensures genomes[p].1.fitness == now[p]
    {
      if base <= p < base + stop {
        assert now[p] == fitnesses[p - base];
      } else {
        assert now[p] == Written(fits0, tasks, results, base)[p];
      }
    }
    if outcome.Raised? {
      FaultAtSlot(tasks, results, i, stop);
      ReconcileStopsAtSlot(fits0, tasks, results, i, stop);
    } else {
      OffsetNext(tasks, i);
    }
  }

  /**
   * The write-back loop of evaluate: for each job in submission order, wait for its
   * result, then assign the fitness at position j of that result to genome j of the
   * job's batch; stop with an exception at the first job that raised, the first
   * position the result does not reach, or the first None.
   */
  method WriteBack<K, V>(tasks: seq<seq<(K, Genome<V>)>>, results: seq<JobOutcome<V>>, ghost fits0: seq<Option<V>>)
    returns (outcome: Outcome)
    requires |results| == |tasks|
    requires forall k :: 0 <= k < |tasks| ==> |tasks[k]| > 0
    requires DistinctGenomes(Flatten(tasks))
    requires |fits0| == |Flatten(tasks)|
    requires forall p :: 0 <= p < |fits0| ==> Flatten(tasks)[p].1.fitness == fits0[p]
    modifies set e | e in Flatten(tasks) :: e.1
    ensures outcome == Reconcile(fits0, tasks, results).1
    ensures forall p :: 0 <= p < |fits0| ==> Flatten(tasks)[p].1.fitness == Reconcile(fits0, tasks, results).0[p]
  {
    assert Written(fits0, tasks, results, 0) == fits0;
    var i := 0;
    while i < |tasks|
      invariant i <= |tasks|
      invariant Offset(tasks, i) <= |fits0|
      invariant forall q :: 0 <= q < Offset(tasks, i) ==> !FaultAt(tasks, results, q)
      invariant forall p :: 0 <= p < |fits0| ==>
        Flatten(tasks)[p].1.fitness == Written(fits0, tasks, results, Offset(tasks, i))[p]
    {
      forall e | e in tasks[i]
        ensures e in Flatten(tasks)
      {
        var k :| 0 <= k < |tasks[i]| && tasks[i][k] == e;
        FlattenAt(tasks, i, k);
      }
      outcome := CollectJob(tasks, results, i, fits0);
      if outcome.Raised? {
        return;
      }
      i := i + 1;
    }
    FlattenLength(tasks);
    ReconcileAt(fits0, tasks, results, |fits0|);
    return Success;
  }

  class ParallelEvaluator {
    /** The number of pool processes, which is also the number of batches aimed for. */
    const numWorkers: nat
    /** The `timeout` handed to every `job.get`; an expiry is a Failed job outcome. */
    const timeout: Option<real>

    constructor (numWorkers: nat, timeout: Option<real>)
      requires numWorkers >= 1
      ensures this.numWorkers == numWorkers && this.timeout == timeout
    {
      this.numWorkers := numWorkers;
      this.timeout := timeout;
    }

    /**
     * evaluate(genomes, config): splits the genome list into batches of
     * `len(genomes) // num_workers`, submits one job per batch in order, then
     * writes back what the jobs returned (WriteBack). `submitted` is the list of
     * batches handed to the pool; `outcome` is `return True` or the exception raised.
     */
    method Evaluate<K, V>(genomes: seq<(K, Genome<V>)>, workersAlive: bool, results: seq<JobOutcome<V>>)
      returns (submitted: seq<seq<(K, Genome<V>)>>, outcome: Outcome)
      requires numWorkers >= 1
      requires DistinctGenomes(genomes)
      requires workersAlive ==> |results| == JobCount(|genomes|, numWorkers)
      modifies set e | e in genomes :: e.1
      ensures submitted == if workersAlive && BatchSize(|genomes|, numWorkers) > 0
                           then Partition(genomes, BatchSize(|genomes|, numWorkers)) else []
      ensures (Fitnesses(genomes), outcome) == Evaluation(old(Fitnesses(genomes)), numWorkers, workersAlive, results)
    {
      ghost var fits0 := Fitnesses(genomes);
      submitted := [];
      if !workersAlive {
        return submitted, Raised(WorkerDied);
      }
      var c := BatchSize(|genomes|, numWorkers);
      if c == 0 {
        return submitted, Raised(ZeroStep);
      }
      var tasks := Partition(genomes, c);
      var i := 0;
      while i < |tasks|
        invariant i <= |tasks|
        invariant submitted == tasks[..i]
      {
        submitted := submitted + [tasks[i]];
        i := i + 1;
      }
      assert tasks[..i] == tasks;

      FlattenPartition(genomes, c);
      JobCountIsBatchCount(genomes, numWorkers);
      outcome := WriteBack(tasks, results, fits0);
      PartitionShape(genomes, fits0, c);
      ReconcileShape(fits0, tasks, Partition(fits0, c), results);
      EvaluationIsReconcile(fits0, numWorkers, results);
      ghost var r := Reconcile(fits0, tasks, results);
      assert r == Evaluation(fits0, numWorkers, true, results);
      assert Fitnesses(genomes) == r.0;
    }
  }
}
