/**
 * What ParallelEvaluator.evaluate leaves behind, stated over the positions of the
 * genome list. Results are consumed job by job and position by position; the
 * first position whose result cannot be written stops the call. Every genome
 * before that frontier carries its new fitness, and every genome from it on keeps
 * the fitness it had.
 */
module Reconciliation {
  import opened Wrappers
  import opened Batching

  /** What `job.get(timeout=...)` yields for one submitted batch. */
  datatype JobOutcome<V> =
    | Resolved(fitnesses: seq<Option<V>>)  // the list eval_function returned
    | Failed                               // job.get raised: eval_function raised, the timeout expired, or pickling the task or result failed

  /** Why evaluate raised. */
  datatype EvalError =
    | WorkerDied                            // a pool worker was found dead before submission
    | ZeroStep                              // range(0, n, 0): fewer genomes than workers
    | JobFailed(job: nat)                   // job.get raised for this job
    | IndexOutOfRange(job: nat, pos: nat)   // the job returned fewer fitnesses than its batch has
    | NoneFitness(job: nat, pos: nat)       // the job returned None for this position

  /** How evaluate ends: `return True`, or an exception. */
  datatype Outcome = Success | Raised(error: EvalError)

  /** Write-back of a job's result cannot proceed at position j. */
  predicate StopsAt<V>(r: JobOutcome<V>, j: nat): (stop: bool)
    ensures !stop ==> r.Resolved? && j < |r.fitnesses| && r.fitnesses[j] != None
  {
    r.Failed? || j >= |r.fitnesses| || r.fitnesses[j].None?
  }

  /** The exception raised when write-back stops at position j of job i. */
  function StopError<V>(r: JobOutcome<V>, i: nat, j: nat): (e: EvalError)
    requires StopsAt(r, j)
    ensures e == JobFailed(i) || e == IndexOutOfRange(i, j) || e == NoneFitness(i, j)
    ensures e.JobFailed? <==> r.Failed?
    ensures e.IndexOutOfRange? ==> e == IndexOutOfRange(i, j) && j >= |r.fitnesses|
    ensures e.NoneFitness? ==> e == NoneFitness(i, j) && r.Resolved? && j < |r.fitnesses| && r.fitnesses[j] == None
  {
    if r.Failed? then JobFailed(i)
    else if j >= |r.fitnesses| then IndexOutOfRange(i, j)
    else NoneFitness(i, j)
  }

  /** Genome p of the batched list cannot receive its fitness; a missing job counts as failed. */
  predicate FaultAt<T, V>(b: seq<seq<T>>, results: seq<JobOutcome<V>>, p: nat)
    requires p < |Flatten(b)|
  {
    var ij := Locate(b, p);
    ij.0 >= |results| || StopsAt(results[ij.0], ij.1)
  }

  /** The exception raised when genome p is the first that cannot receive its fitness. */
  function FaultError<T, V>(b: seq<seq<T>>, results: seq<JobOutcome<V>>, p: nat): (e: EvalError)
    requires p < |Flatten(b)| && FaultAt(b, results, p)
  {
    var ij := Locate(b, p);
    if ij.0 < |results| then StopError(results[ij.0], ij.0, ij.1) else JobFailed(ij.0)
  }

  /** The fitness written onto genome p. */
  function WrittenValue<T, V>(b: seq<seq<T>>, results: seq<JobOutcome<V>>, p: nat): (v: V)
    requires p < |Flatten(b)| && !FaultAt(b, results, p)
  {
    var ij := Locate(b, p);
    results[ij.0].fitnesses[ij.1].value
  }

  /** The first genome position at or after p that cannot receive its fitness (|Flatten(b)| if none). */
  function FirstFault<T, V>(b: seq<seq<T>>, results: seq<JobOutcome<V>>, p: nat): (f: nat)
    requires p <= |Flatten(b)|
    ensures p <= f <= |Flatten(b)|
    ensures forall q :: p <= q < f ==> !FaultAt(b, results, q)
    ensures f < |Flatten(b)| ==> FaultAt(b, results, f)
    decreases |Flatten(b)| - p
  {
    if p == |Flatten(b)| then p
    else if FaultAt(b, results, p) then p
    else FirstFault(b, results, p + 1)
  }

  /** The least-fault characterisation determines FirstFault. */
  lemma FirstFaultIs<T, V>(b: seq<seq<T>>, results: seq<JobOutcome<V>>, p: nat, f: nat)
    requires p <= f <= |Flatten(b)|
    requires forall q :: p <= q < f ==> !FaultAt(b, results, q)
    requires f < |Flatten(b)| ==> FaultAt(b, results, f)
    ensures FirstFault(b, results, p) == f
  {
  }

  /** The fitness vector after writing the values of positions 0 .. f - 1. */
  function Written<T, V>(fits: seq<Option<V>>, b: seq<seq<T>>, results: seq<JobOutcome<V>>, f: nat)
    : (s: seq<Option<V>>)
    requires |fits| == |Flatten(b)| && f <= |fits|
    requires forall q :: 0 <= q < f ==> !FaultAt(b, results, q)
  {
    seq(|fits|, p requires 0 <= p < |fits| => if p < f then Some(WrittenValue(b, results, p)) else fits[p])
  }

  /**
   * The write-back loop over batches b of the genome list: the fitness vector and
   * outcome after consuming the job results in order.
   */
  function Reconcile<T, V>(fits: seq<Option<V>>, b: seq<seq<T>>, results: seq<JobOutcome<V>>)
    : (r: (seq<Option<V>>, Outcome))
    requires |fits| == |Flatten(b)|
    ensures |r.0| == |fits|
  {
    var f := FirstFault(b, results, 0);
    (Written(fits, b, results, f),
     if f == |fits| then Success else Raised(FaultError(b, results, f)))
  }

  /** Reconciliation when f is the first position that faults, or f is past the end and none does. */
  lemma ReconcileAt<T, V>(fits: seq<Option<V>>, b: seq<seq<T>>, results: seq<JobOutcome<V>>, f: nat)
    requires |fits| == |Flatten(b)| && f <= |fits|
    requires forall q :: 0 <= q < f ==> !FaultAt(b, results, q)
    requires f < |fits| ==> FaultAt(b, results, f)
    ensures Reconcile(fits, b, results).0 == Written(fits, b, results, f)
    ensures Reconcile(fits, b, results).1 == if f == |fits| then Success else Raised(FaultError(b, results, f))
  {
    FirstFaultIs(b, results, 0, f);
  }

  /** Reconciliation when slot (i, j) is the first that cannot be written. */
  lemma ReconcileStopsAtSlot<T, V>(fits: seq<Option<V>>, b: seq<seq<T>>, results: seq<JobOutcome<V>>, i: nat, j: nat)
    requires |fits| == |Flatten(b)| && i < |b| && j < |b[i]| && i < |results| && Offset(b, i) + j < |fits|
    requires forall q :: 0 <= q < Offset(b, i) + j ==> !FaultAt(b, results, q)
    requires StopsAt(results[i], j)
    ensures Reconcile(fits, b, results) ==
      (Written(fits, b, results, Offset(b, i) + j), Raised(StopError(results[i], i, j)))
  {
    FaultAtSlot(b, results, i, j);
    ReconcileAt(fits, b, results, Offset(b, i) + j);
  }

  /**
   * Every slot that write-back visits before batch i, position j, had a fitness to
   * write. ScoredBefore(b, results, |b|, 0) says every job returned a fitness for
   * every genome of its batch.
   */
  ghost predicate ScoredBefore<T, V>(b: seq<seq<T>>, results: seq<JobOutcome<V>>, i: nat, j: nat)
  {
    forall i', j' :: 0 <= i' < |b| && 0 <= j' < |b[i']| && Before(i', j', i, j) ==>
      i' < |results| && !StopsAt(results[i'], j')
  }

  /** Slot (i, j) is genome Offset(b, i) + j. */
  lemma FaultAtSlot<T, V>(b: seq<seq<T>>, results: seq<JobOutcome<V>>, i: nat, j: nat)
    requires i < |b| && j < |b[i]| && i < |results|
    ensures Offset(b, i) + j < |Flatten(b)|
    ensures FaultAt(b, results, Offset(b, i) + j) == StopsAt(results[i], j)
    ensures !StopsAt(results[i], j) ==>
      Some(WrittenValue(b, results, Offset(b, i) + j)) == results[i].fitnesses[j]
    ensures StopsAt(results[i], j) ==> FaultError(b, results, Offset(b, i) + j) == StopError(results[i], i, j)
  {
    LocateOffset(b, i, j);
  }

  /** ScoredBefore in slot terms is "no fault below genome Offset(b, i) + j". */
  lemma ScoredBeforeFlat<T, V>(b: seq<seq<T>>, results: seq<JobOutcome<V>>, i: nat, j: nat)
    requires |results| == |b|
    requires (i < |b| && j < |b[i]|) || (i == |b| && j == 0)
    ensures Offset(b, i) + j <= |Flatten(b)|
    ensures ScoredBefore(b, results, i, j) <==> forall p :: 0 <= p < Offset(b, i) + j ==> !FaultAt(b, results, p)
  {
    var P := Offset(b, i) + j;
    if i < |b| {
      FlattenAt(b, i, j);
    } else {
      FlattenLength(b);
    }
    if ScoredBefore(b, results, i, j) {
      forall p | 0 <= p < P
        ensures !FaultAt(b, results, p)
      {
        var ij := Locate(b, p);
        LocateSlot(b, p);
        SlotOrder(b, ij.0, ij.1, i, j);
      }
    }
    if forall p :: 0 <= p < P ==> !FaultAt(b, results, p) {
      forall i', j' | 0 <= i' < |b| && 0 <= j' < |b[i']| && Before(i', j', i, j)
        ensures i' < |results| && !StopsAt(results[i'], j')
      {
        SlotOrder(b, i', j', i, j);
        FaultAtSlot(b, results, i', j');
      }
    }
  }

  /**
   * Writing positions 0 .. k - 1 of batch i moves the frontier from the start of
   * batch i to slot (i, k): exactly those genomes take the fitnesses job i returned.
   */
  lemma WrittenBatch<T, V>(fits: seq<Option<V>>, b: seq<seq<T>>, results: seq<JobOutcome<V>>, i: nat, k: nat, f: nat)
    requires |fits| == |Flatten(b)| && i < |b| && i < |results| && k <= |b[i]| && Offset(b, i) <= |fits|
    requires f == Offset(b, i) + k
    requires forall q :: 0 <= q < Offset(b, i) ==> !FaultAt(b, results, q)
    requires k == 0 || (results[i].Resolved? && k <= |results[i].fitnesses| &&
                        forall j :: 0 <= j < k ==> results[i].fitnesses[j].Some?)
    ensures f <= |fits|
    ensures forall q :: 0 <= q < f ==> !FaultAt(b, results, q)
    ensures forall p :: 0 <= p < |fits| ==>
      Written(fits, b, results, f)[p] ==
        if Offset(b, i) <= p < f then results[i].fitnesses[p - Offset(b, i)]
        else Written(fits, b, results, Offset(b, i))[p]
  {
    var o := Offset(b, i);
    OffsetMonotone(b, i, |b|);
    FlattenLength(b);
    forall q | o <= q < f
      ensures !FaultAt(b, results, q)
      ensures Some(WrittenValue(b, results, q)) == results[i].fitnesses[q - o]
    {
      FaultAtSlot(b, results, i, q - o);
    }
    var before, after := Written(fits, b, results, o), Written(fits, b, results, f);
    forall p | 0 <= p < |fits|
      ensures after[p] == if o <= p < f then results[i].fitnesses[p - o] else before[p]
    {
    }
  }

  /** A slot below the frontier f carries the fitness its job returned for it. */
  lemma WrittenAtSlot<T, V>(fits: seq<Option<V>>, b: seq<seq<T>>, results: seq<JobOutcome<V>>, f: nat, i: nat, j: nat)
    requires |fits| == |Flatten(b)| && f <= |fits| && |results| == |b|
    requires forall q :: 0 <= q < f ==> !FaultAt(b, results, q)
    requires i < |b| && j < |b[i]| && Offset(b, i) + j < f
    ensures results[i].Resolved? && j < |results[i].fitnesses|
    ensures Written(fits, b, results, f)[Offset(b, i) + j] == results[i].fitnesses[j] != None
  {
    FaultAtSlot(b, results, i, j);
  }

  /** When every slot before (i, j) had a fitness, writing up to that slot gives each its value. */
  lemma WrittenBefore<T, V>(fits: seq<Option<V>>, b: seq<seq<T>>, results: seq<JobOutcome<V>>, i: nat, j: nat)
    requires |fits| == |Flatten(b)| && |results| == |b|
    requires i < |b| && j < |b[i]| && ScoredBefore(b, results, i, j)
    ensures Offset(b, i) + j < |fits|
    ensures forall q :: 0 <= q < Offset(b, i) + j ==> !FaultAt(b, results, q)
    ensures forall i', j' :: 0 <= i' < |b| && 0 <= j' < |b[i']| && Before(i', j', i, j) ==>
      Offset(b, i') + j' < |fits| && results[i'].Resolved? && j' < |results[i'].fitnesses| &&
      Written(fits, b, results, Offset(b, i) + j)[Offset(b, i') + j'] == results[i'].fitnesses[j'] != None
  {
    FlattenAt(b, i, j);
    ScoredBeforeFlat(b, results, i, j);
    forall i', j' | 0 <= i' < |b| && 0 <= j' < |b[i']| && Before(i', j', i, j)
      ensures Offset(b, i') + j' < |fits| && results[i'].Resolved? && j' < |results[i'].fitnesses|
      ensures Written(fits, b, results, Offset(b, i) + j)[Offset(b, i') + j'] == results[i'].fitnesses[j'] != None
    {
      SlotOrder(b, i', j', i, j);
      WrittenAtSlot(fits, b, results, Offset(b, i) + j, i', j');
    }
  }

  /** Reconciliation keeps the number of genomes, and succeeds exactly when every slot had a fitness. */
  lemma ReconcileSucceeds<T, V>(fits: seq<Option<V>>, b: seq<seq<T>>, results: seq<JobOutcome<V>>)
    requires |fits| == |Flatten(b)| && |results| == |b|
    ensures |Reconcile(fits, b, results).0| == |fits|
    ensures Reconcile(fits, b, results).1 == Success <==> ScoredBefore(b, results, |b|, 0)
  {
    FlattenLength(b);
    ScoredBeforeFlat(b, results, |b|, 0);
    if ScoredBefore(b, results, |b|, 0) {
      FirstFaultIs(b, results, 0, |fits|);
    }
  }

  /** After a successful reconciliation, slot (i, j) holds the j-th fitness job i returned. */
  lemma ReconcileWritesBack<T, V>(fits: seq<Option<V>>, b: seq<seq<T>>, results: seq<JobOutcome<V>>, i: nat, j: nat)
    requires |fits| == |Flatten(b)| && |results| == |b|
    requires Reconcile(fits, b, results).1 == Success
    requires i < |b| && j < |b[i]|
    ensures Offset(b, i) + j < |fits| && results[i].Resolved? && j < |results[i].fitnesses|
    ensures Reconcile(fits, b, results).0[Offset(b, i) + j] == results[i].fitnesses[j] != None
  {
    FaultAtSlot(b, results, i, j);
  }

  /**
   * The first slot (i, j) that cannot be written stops reconciliation with the
   * matching exception: the slots before it hold their new fitness, it and the
   * later ones keep their old fitness.
   */
  lemma ReconcileFirstStop<T, V>(fits: seq<Option<V>>, b: seq<seq<T>>, results: seq<JobOutcome<V>>, i: nat, j: nat)
    requires |fits| == |Flatten(b)| && |results| == |b|
    requires i < |b| && j < |b[i]| && ScoredBefore(b, results, i, j) && StopsAt(results[i], j)
    ensures Offset(b, i) + j < |fits|
    ensures Reconcile(fits, b, results).1 == Raised(StopError(results[i], i, j))
    ensures |Reconcile(fits, b, results).0| == |fits|
    ensures forall i', j' :: 0 <= i' < |b| && 0 <= j' < |b[i']| && Before(i', j', i, j) ==>
      Offset(b, i') + j' < |fits| && results[i'].Resolved? && j' < |results[i'].fitnesses| &&
      Reconcile(fits, b, results).0[Offset(b, i') + j'] == results[i'].fitnesses[j'] != None
    ensures forall p :: Offset(b, i) + j <= p < |fits| ==> Reconcile(fits, b, results).0[p] == fits[p]
  {
    WrittenBefore(fits, b, results, i, j);
    FaultAtSlot(b, results, i, j);
    FirstFaultIs(b, results, 0, Offset(b, i) + j);
  }

  /** Reconciliation depends only on the sizes of the batches, not on what they hold. */
  lemma ReconcileShape<S, T, V>(fits: seq<Option<V>>, a: seq<seq<S>>, b: seq<seq<T>>, results: seq<JobOutcome<V>>)
    requires |a| == |b|
    requires forall k :: 0 <= k < |a| ==> |a[k]| == |b[k]|
    requires |fits| == |Flatten(a)|
    ensures |fits| == |Flatten(b)|
    ensures Reconcile(fits, a, results) == Reconcile(fits, b, results)
  {
    FlattenLength(a);
    FlattenLength(b);
    OffsetShape(a, b, |a|);
    forall p | 0 <= p < |fits|
      ensures Locate(a, p) == Locate(b, p) && FaultAt(a, results, p) == FaultAt(b, results, p)
      ensures FaultAt(a, results, p) ==> FaultError(a, results, p) == FaultError(b, results, p)
      ensures !FaultAt(a, results, p) ==> WrittenValue(a, results, p) == WrittenValue(b, results, p)
    {
      LocateShape(a, b, p);
    }
    var f := FirstFault(a, results, 0);
    FirstFaultIs(b, results, 0, f);
    assert Written(fits, a, results, f) == Written(fits, b, results, f);
  }

  /** The number of jobs evaluate submits for n genomes on w workers (when no worker is dead). */
  function JobCount(n: nat, w: nat): (k: nat)
    requires w >= 1
    ensures k == 0 <==> n < w
  {
    var c := BatchSize(n, w);
    if c == 0 then 0 else BatchCount(n, c)
  }

  /**
   * The fitness vector and outcome evaluate leaves, given the fitnesses before the
   * call, the worker count, the liveness probe and the outcome of each job.
   */
  function Evaluation<V>(fits: seq<Option<V>>, w: nat, alive: bool, results: seq<JobOutcome<V>>)
    : (r: (seq<Option<V>>, Outcome))
    requires w >= 1
    ensures |r.0| == |fits|
  {
    var c := BatchSize(|fits|, w);
    if !alive then (fits, Raised(WorkerDied))
    else if c == 0 then (fits, Raised(ZeroStep))
    else
      FlattenPartition(fits, c);
      Reconcile(fits, Partition(fits, c), results)
  }

  /** With live workers and at least one genome per worker, evaluate is reconciliation over the partition. */
  lemma EvaluationIsReconcile<V>(fits: seq<Option<V>>, w: nat, results: seq<JobOutcome<V>>)
    requires w >= 1 && w <= |fits|
    ensures BatchSize(|fits|, w) > 0 && |Flatten(Partition(fits, BatchSize(|fits|, w)))| == |fits|
    ensures Evaluation(fits, w, true, results) == Reconcile(fits, Partition(fits, BatchSize(|fits|, w)), results)
  {
    FlattenPartition(fits, BatchSize(|fits|, w));
  }

  /** With at least one genome per worker, one job is submitted per batch. */
  lemma JobCountIsBatchCount<V>(fits: seq<V>, w: nat)
    requires w >= 1 && w <= |fits|
    ensures JobCount(|fits|, w) == |Partition(fits, BatchSize(|fits|, w))|
  {
    PartitionSizes(fits, BatchSize(|fits|, w));
  }

  /**
   * A dead worker, or fewer genomes than workers (so a zero range step), makes
   * evaluate raise before any job is submitted, with no fitness written.
   */
  lemma EvaluationFailsEarly<V>(fits: seq<Option<V>>, w: nat, alive: bool, results: seq<JobOutcome<V>>)
    requires w >= 1
    ensures !alive ==> Evaluation(fits, w, alive, results) == (fits, Raised(WorkerDied))
    ensures alive && |fits| < w ==> Evaluation(fits, w, alive, results) == (fits, Raised(ZeroStep))
  {
  }

  /**
   * Evaluate keeps the number of genomes, and returns True exactly when every worker
   * is alive, there are at least as many genomes as workers, and every job returned
   * a fitness for each genome of its batch.
   */
  lemma EvaluationSucceeds<V>(fits: seq<Option<V>>, w: nat, alive: bool, results: seq<JobOutcome<V>>)
    requires w >= 1 && (alive ==> |results| == JobCount(|fits|, w))
    ensures |Evaluation(fits, w, alive, results).0| == |fits|
    ensures Evaluation(fits, w, alive, results).1 == Success <==>
      alive && w <= |fits| && ScoredBefore(Partition(fits, BatchSize(|fits|, w)), results, JobCount(|fits|, w), 0)
  {
    var c := BatchSize(|fits|, w);
    if alive && c > 0 {
      PartitionSizes(fits, c);
      FlattenPartition(fits, c);
      ReconcileSucceeds(fits, Partition(fits, c), results);
    }
  }

  /**
   * On success, genome j of batch i, which is genome i * c + j of the list, carries
   * the j-th fitness job i returned.
   */
  lemma EvaluationWritesBack<V>(fits: seq<Option<V>>, w: nat, alive: bool, results: seq<JobOutcome<V>>,
                                b: seq<seq<Option<V>>>, i: nat, j: nat)
    requires w >= 1 && w <= |fits| && b == Partition(fits, BatchSize(|fits|, w))
    requires |results| == JobCount(|fits|, w)
    requires Evaluation(fits, w, alive, results).1 == Success
    requires i < |b| && j < |b[i]|
    ensures var c := BatchSize(|fits|, w);
      i * c + j < |fits| && i < |results| && results[i].Resolved? && j < |results[i].fitnesses| &&
      Evaluation(fits, w, alive, results).0[i * c + j] == results[i].fitnesses[j] != None
  {
    EvaluationIsReconcile(fits, w, results);
    JobCountIsBatchCount(fits, w);
    ReconcileWritesBack(fits, b, results, i, j);
    PartitionOffset(fits, BatchSize(|fits|, w), i);
  }


  /**
   * The first slot (i, j), in submission order, whose result cannot be written makes
   * evaluate raise: job i failed, returned too few fitnesses, or returned None at j.
   * Every genome visited before it holds its new fitness; genome Offset(b, i) + j,
   * which is genome i * c + j of the list, and every genome after it keep their old
   * fitness. The last ensures places that frontier at list position i * c + j.
   */
  lemma FirstStopAborts<V>(fits: seq<Option<V>>, w: nat, results: seq<JobOutcome<V>>, b: seq<seq<Option<V>>>, i: nat, j: nat)
    requires w >= 1 && w <= |fits| && b == Partition(fits, BatchSize(|fits|, w))
    requires |results| == JobCount(|fits|, w)
    requires i < |b| && j < |b[i]| && i < |results|
    requires ScoredBefore(b, results, i, j) && StopsAt(results[i], j)
    ensures var r := Evaluation(fits, w, true, results);
      r.1 == Raised(StopError(results[i], i, j)) && |r.0| == |fits| &&
      (forall i', j' :: 0 <= i' < |b| && 0 <= j' < |b[i']| && Before(i', j', i, j) ==>
         Offset(b, i') + j' < |fits| && results[i'].Resolved? && j' < |results[i'].fitnesses| &&
         r.0[Offset(b, i') + j'] == results[i'].fitnesses[j'] != None) &&
      (forall p :: Offset(b, i) + j <= p < |fits| ==> r.0[p] == fits[p])
    ensures Offset(b, i) == i * BatchSize(|fits|, w)
  {
    EvaluationIsReconcile(fits, w, results);
    JobCountIsBatchCount(fits, w);
    ReconcileFirstStop(fits, b, results, i, j);
    PartitionOffset(fits, BatchSize(|fits|, w), i);
  }


  /** Round trip over batches: results that give each slot F of its key write F(key) onto every genome. */
  lemma ReconcileRoundTrip<K, V>(keys: seq<K>, fits: seq<Option<V>>, bk: seq<seq<K>>, b: seq<seq<Option<V>>>,
                                 results: seq<JobOutcome<V>>, F: K -> V)
    requires Flatten(bk) == keys && Flatten(b) == fits && |keys| == |fits| && |bk| == |b| == |results|
    requires forall i :: 0 <= i < |b| ==> |bk[i]| == |b[i]|
    requires forall i :: 0 <= i < |results| ==>
      results[i] == Resolved(seq(|bk[i]|, j requires 0 <= j < |bk[i]| => Some(F(bk[i][j]))))
    ensures Reconcile(fits, b, results).1 == Success
    ensures |Reconcile(fits, b, results).0| == |fits|
    ensures forall p :: 0 <= p < |fits| ==> Reconcile(fits, b, results).0[p] == Some(F(keys[p]))
  {
    assert ScoredBefore(b, results, |b|, 0);
    ReconcileSucceeds(fits, b, results);
    forall p | 0 <= p < |fits|
      ensures Reconcile(fits, b, results).0[p] == Some(F(keys[p]))
    {
      var ij := Locate(b, p);
      LocateSlot(b, p);
      ReconcileWritesBack(fits, b, results, ij.0, ij.1);
      OffsetShape(bk, b, ij.0);
      FlattenAt(bk, ij.0, ij.1);
    }
  }

  /**
   * Round trip: when every job returns F of each genome's key in its batch, evaluate
   * succeeds and every genome ends with fitness F(its own key).
   */
  lemma EvaluationRoundTrip<K, V>(keys: seq<K>, fits: seq<Option<V>>, w: nat, results: seq<JobOutcome<V>>, F: K -> V,
                                  bk: seq<seq<K>>)
    requires w >= 1 && |keys| == |fits| && w <= |keys|
    requires bk == Partition(keys, BatchSize(|keys|, w)) && |results| == |bk|
    requires forall i :: 0 <= i < |results| ==>
      results[i] == Resolved(seq(|bk[i]|, j requires 0 <= j < |bk[i]| => Some(F(bk[i][j]))))
    ensures Evaluation(fits, w, true, results).1 == Success
    ensures forall p :: 0 <= p < |fits| ==> Evaluation(fits, w, true, results).0[p] == Some(F(keys[p]))
  {
    var c := BatchSize(|keys|, w);
    EvaluationIsReconcile(fits, w, results);
    PartitionShape(keys, fits, c);
    FlattenPartition(keys, c);
    FlattenPartition(fits, c);
    ReconcileRoundTrip(keys, fits, bk, Partition(fits, c), results, F);
  }
}
