/**
 * How ParallelEvaluator.evaluate cuts the genome list into batches, one batch per
 * pool job: the batch size is the truncating quotient of the population size by
 * the worker count, and the list is sliced at every multiple of that size, as the
 * comprehension over `range(0, len(genomes), cars_per_process)` does.
 */
module Batching {

  function Min(a: int, b: int): (m: int)
  {
    if a <= b then a else b
  }

  /** `len(genomes) // num_workers`; it is zero exactly when there are fewer genomes than workers. */
  function BatchSize(n: nat, w: nat): (c: nat)
    requires w >= 1
    ensures c <= n
    ensures c == 0 <==> n < w
  {
    n / w
  }

  /** The batch size is the largest c with c * w <= n: truncating division. */
  lemma BatchSizeIsQuotient(n: nat, w: nat)
    requires w >= 1
    ensures BatchSize(n, w) * w <= n < (BatchSize(n, w) + 1) * w
  {
  }

  /** The number of start offsets `range(0, n, c)` yields: the ceiling of n / c. */
  function BatchCount(n: nat, c: nat): (k: nat)
    requires c > 0
    ensures n <= k * c
    ensures k == 0 || (k - 1) * c < n
    ensures k == 0 <==> n == 0
  {
    (n + c - 1) / c
  }

  lemma MulMonotone(a: nat, b: nat, c: nat)
    requires a <= b
    ensures a * c <= b * c
  {
  }

  /** a * c < (b + 1) * c forces a <= b. */
  lemma MulLess(a: nat, b: nat, c: nat)
    requires a * c < (b + 1) * c
    ensures a <= b
  {
    if a > b {
      MulMonotone(b + 1, a, c);
    }
  }

  /** The two bounds in BatchCount's contract determine it. */
  lemma BatchCountUnique(n: nat, c: nat, k: nat)
    requires c > 0
    requires n <= k * c
    requires k == 0 || (k - 1) * c < n
    ensures k == BatchCount(n, c)
  {
    var k' := BatchCount(n, c);
    if k > 0 && k' > 0 {
      assert (k - 1 + 1) * c == k * c && (k' - 1 + 1) * c == k' * c;
      MulLess(k - 1, k' - 1, c);
      MulLess(k' - 1, k - 1, c);
    }
  }

  /**
   * The list of batches `[s[i : i + c] for i in range(0, len(s), c)]`: the first
   * batch is the slice of the first c items (clamped to the end of the list, as
   * Python slicing is), followed by the batches of the remaining items.
   */
  function Partition<T>(s: seq<T>, c: nat): (b: seq<seq<T>>)
    requires c > 0
    ensures |b| == 0 <==> |s| == 0
    ensures forall i :: 0 <= i < |b| ==> 0 < |b[i]| <= c
    decreases |s|
  {
    if |s| == 0 then []
    else
      var m := Min(c, |s|);
      [s[..m]] + Partition(s[m..], c)
  }

  /** Concatenation of a list of batches, in order. */
  function Flatten<T>(b: seq<seq<T>>): (s: seq<T>)
  {
    if b == [] then [] else b[0] + Flatten(b[1..])
  }

  /** Concatenating the batches in order gives back the input: no drop, duplicate or reordering. */
  lemma {:induction false} FlattenPartition<T>(s: seq<T>, c: nat)
    requires c > 0
    ensures Flatten(Partition(s, c)) == s
    decreases |s|
  {
    if |s| > 0 {
      var m := Min(c, |s|);
      FlattenPartition(s[m..], c);
      assert s[..m] + s[m..] == s;
    }
  }

  /**
   * Shape of the partition: ceil(n / c) batches, every batch but the last of size
   * exactly c, the last of size 1..c.
   */
  lemma {:induction false} PartitionSizes<T>(s: seq<T>, c: nat)
    requires c > 0
    ensures |Partition(s, c)| == BatchCount(|s|, c)
    ensures forall i :: 0 <= i < |Partition(s, c)| - 1 ==> |Partition(s, c)[i]| == c
    ensures |s| > 0 ==> 1 <= |Partition(s, c)[|Partition(s, c)| - 1]| <= c
    decreases |s|
  {
    if |s| > 0 {
      var m := Min(c, |s|);
      var rest := s[m..];
      PartitionSizes(rest, c);
      var k' := BatchCount(|rest|, c);
      assert (k' + 1) * c == k' * c + c;
      assert k' * c == (k' - 1) * c + c;
      BatchCountUnique(|s|, c, k' + 1);
    }
  }

  /** i * c computed by repeated addition, so that the inductions below stay linear. */
  function Stride(i: nat, c: nat): (o: nat)
  {
    if i == 0 then 0 else Stride(i - 1, c) + c
  }

  lemma {:induction false} StrideIsProduct(i: nat, c: nat)
    ensures Stride(i, c) == i * c
  {
    if i > 0 {
      StrideIsProduct(i - 1, c);
    }
  }

  /** Batch i starts at Stride(i, c), holds the next c items or the rest, and item j of it is s[Stride(i, c) + j]. */
  lemma {:induction false} PartitionAtStride<T>(s: seq<T>, c: nat, i: nat)
    requires c > 0 && i < |Partition(s, c)|
    ensures Stride(i, c) < |s| && |Partition(s, c)[i]| == Min(c, |s| - Stride(i, c))
    ensures forall j :: 0 <= j < |Partition(s, c)[i]| ==> Partition(s, c)[i][j] == s[Stride(i, c) + j]
    decreases |s|
  {
    var m := Min(c, |s|);
    var rest := s[m..];
    assert Partition(s, c) == [s[..m]] + Partition(rest, c);
    if i > 0 {
      assert Partition(s, c)[i] == Partition(rest, c)[i - 1];
      assert m == c;
      PartitionAtStride(rest, c, i - 1);
    }
  }

  /** Every offset Stride(i, c) inside the list starts a batch. */
  lemma {:induction false} PartitionCoversStride<T>(s: seq<T>, c: nat, i: nat)
    requires c > 0 && Stride(i, c) < |s|
    ensures i < |Partition(s, c)|
    decreases |s|
  {
    var m := Min(c, |s|);
    assert Partition(s, c) == [s[..m]] + Partition(s[m..], c);
    if i > 0 {
      assert Stride(i, c) == Stride(i - 1, c) + c;
      PartitionCoversStride(s[m..], c, i - 1);
    }
  }

  /** Positional correspondence: batch i, position j holds genome i * c + j. */
  lemma PartitionAt<T>(s: seq<T>, c: nat, i: nat, j: nat)
    requires c > 0 && i < |Partition(s, c)| && j < |Partition(s, c)[i]|
    ensures i * c + j < |s| && j < c
    ensures Partition(s, c)[i][j] == s[i * c + j]
  {
    PartitionAtStride(s, c, i);
    StrideIsProduct(i, c);
  }

  /** Batch i starts at offset i * c and holds the next c genomes, or fewer at the end of the list. */
  lemma PartitionBatchLength<T>(s: seq<T>, c: nat, i: nat)
    requires c > 0 && i < |Partition(s, c)|
    ensures i * c < |s| && |Partition(s, c)[i]| == Min(c, |s| - i * c)
  {
    PartitionAtStride(s, c, i);
    StrideIsProduct(i, c);
  }

  /** Every offset i * c inside the list starts a batch. */
  lemma PartitionCovers<T>(s: seq<T>, c: nat, i: nat)
    requires c > 0 && i * c < |s|
    ensures i < |Partition(s, c)|
  {
    StrideIsProduct(i, c);
    PartitionCoversStride(s, c, i);
  }

  /** Every genome p lies in batch p / c at position p % c. */
  lemma LocateInPartition<T>(s: seq<T>, c: nat, p: nat)
    requires c > 0 && p < |s|
    ensures p / c < |Partition(s, c)| && p % c < |Partition(s, c)[p / c]|
    ensures Partition(s, c)[p / c][p % c] == s[p]
  {
    var i, j := p / c, p % c;
    assert i * c + j == p;
    PartitionCovers(s, c, i);
    PartitionBatchLength(s, c, i);
    PartitionAt(s, c, i, j);
  }

  /** 10 genomes on 3 workers: batches of 3, 3, 3 and 1, one more batch than there are workers. */
  lemma TenGenomesThreeWorkers<T>(s: seq<T>)
    requires |s| == 10
    ensures BatchSize(|s|, 3) == 3
    ensures |Partition(s, 3)| == 4
    ensures |Partition(s, 3)[0]| == 3 && |Partition(s, 3)[1]| == 3
    ensures |Partition(s, 3)[2]| == 3 && |Partition(s, 3)[3]| == 1
  {
    PartitionSizes(s, 3);
    PartitionBatchLength(s, 3, 3);
  }

  /** Where batch i starts in the concatenation: the total size of the batches before it. */
  function Offset<T>(b: seq<seq<T>>, i: nat): (o: nat)
    requires i <= |b|
  {
    if i == 0 then 0 else |b[0]| + Offset(b[1..], i - 1)
  }

  /** Adding batch i to the batches before it moves the offset by its size. */
  lemma {:induction false} OffsetNext<T>(b: seq<seq<T>>, i: nat)
    requires i < |b|
    ensures Offset(b, i + 1) == Offset(b, i) + |b[i]|
  {
    if i > 0 {
      OffsetNext(b[1..], i - 1);
    }
  }

  /** All batches together have Offset(b, |b|) items. */
  lemma {:induction false} FlattenLength<T>(b: seq<seq<T>>)
    ensures |Flatten(b)| == Offset(b, |b|)
  {
    if b != [] {
      FlattenLength(b[1..]);
    }
  }

  /** Item j of batch i sits at position Offset(b, i) + j of the concatenation. */
  lemma {:induction false} FlattenAt<T>(b: seq<seq<T>>, i: nat, j: nat)
    requires i < |b| && j < |b[i]|
    ensures Offset(b, i) + j < |Flatten(b)|
    ensures Flatten(b)[Offset(b, i) + j] == b[i][j]
  {
    if i > 0 {
      FlattenAt(b[1..], i - 1, j);
    }
  }

  /** A slot (i', j') comes before (i, j) in batch order. */
  predicate Before(i': nat, j': nat, i: nat, j: nat)
  {
    i' < i || (i' == i && j' < j)
  }

  /** Batch i' ends no later than batch i starts when i' < i. */
  lemma {:induction false} OffsetMonotone<T>(b: seq<seq<T>>, i': nat, i: nat)
    requires i' < i <= |b|
    ensures Offset(b, i') + |b[i']| <= Offset(b, i)
    decreases i - i'
  {
    OffsetNext(b, i');
    if i' + 1 < i {
      OffsetMonotone(b, i' + 1, i);
    }
  }

  /**
   * Batch order is the order of concatenated positions; (i, j) may also be the end
   * marker (|b|, 0).
   */
  lemma SlotOrder<T>(b: seq<seq<T>>, i': nat, j': nat, i: nat, j: nat)
    requires i' < |b| && j' < |b[i']|
    requires (i < |b| && j < |b[i]|) || (i == |b| && j == 0)
    ensures Offset(b, i') + j' < Offset(b, i) + j <==> Before(i', j', i, j)
  {
    if i' < i {
      OffsetMonotone(b, i', i);
    } else if i < i' {
      OffsetMonotone(b, i, i');
    }
  }

  /** The batch and the position within it of concatenated position p. */
  function Locate<T>(b: seq<seq<T>>, p: nat): (ij: (nat, nat))
    requires p < |Flatten(b)|
  {
    if p < |b[0]| then (0, p)
    else
      var ij := Locate(b[1..], p - |b[0]|);
      (ij.0 + 1, ij.1)
  }

  /** Locate finds a slot of b whose concatenated position is p. */
  lemma {:induction false} LocateSlot<T>(b: seq<seq<T>>, p: nat)
    requires p < |Flatten(b)|
    ensures Locate(b, p).0 < |b| && Locate(b, p).1 < |b[Locate(b, p).0]|
    ensures Offset(b, Locate(b, p).0) + Locate(b, p).1 == p
  {
    if p >= |b[0]| {
      LocateSlot(b[1..], p - |b[0]|);
    }
  }

  /** Locate inverts (i, j) |-> Offset(b, i) + j. */
  lemma {:induction false} LocateOffset<T>(b: seq<seq<T>>, i: nat, j: nat)
    requires i < |b| && j < |b[i]|
    ensures Offset(b, i) + j < |Flatten(b)|
    ensures Locate(b, Offset(b, i) + j) == (i, j)
  {
    FlattenAt(b, i, j);
    if i > 0 {
      LocateOffset(b[1..], i - 1, j);
    }
  }

  /** Batch lists of the same shape concatenate to lists of the same length and locate positions alike. */
  lemma LocateShape<S, T>(a: seq<seq<S>>, b: seq<seq<T>>, p: nat)
    requires |a| == |b|
    requires forall k :: 0 <= k < |a| ==> |a[k]| == |b[k]|
    requires p < |Flatten(a)|
    ensures |Flatten(a)| == |Flatten(b)|
    ensures Locate(a, p) == Locate(b, p)
  {
    FlattenLength(a);
    FlattenLength(b);
    OffsetShape(a, b, |a|);
    LocateSlot(a, p);
    var ij := Locate(a, p);
    OffsetShape(a, b, ij.0);
    LocateOffset(b, ij.0, ij.1);
  }

  /** Batch i starts at Stride(i, c) in the concatenation. */
  lemma {:induction false} PartitionOffsetStride<T>(s: seq<T>, c: nat, i: nat)
    requires c > 0 && i < |Partition(s, c)|
    ensures Offset(Partition(s, c), i) == Stride(i, c)
    decreases |s|
  {
    if i > 0 {
      var m := Min(c, |s|);
      var rest := s[m..];
      var b := Partition(s, c);
      assert b == [s[..m]] + Partition(rest, c);
      assert b[1..] == Partition(rest, c);
      assert |rest| > 0;
      PartitionOffsetStride(rest, c, i - 1);
    }
  }

  /** In the batches evaluate builds, batch i starts at genome i * c. */
  lemma PartitionOffset<T>(s: seq<T>, c: nat, i: nat)
    requires c > 0 && i < |Partition(s, c)|
    ensures Offset(Partition(s, c), i) == i * c
  {
    PartitionOffsetStride(s, c, i);
    StrideIsProduct(i, c);
  }

  /** Two lists of the same length are cut into batches of the same sizes. */
  lemma PartitionShape<S, T>(s: seq<S>, t: seq<T>, c: nat)
    requires c > 0 && |s| == |t|
    ensures |Partition(s, c)| == |Partition(t, c)|
    ensures forall i :: 0 <= i < |Partition(s, c)| ==> |Partition(s, c)[i]| == |Partition(t, c)[i]|
  {
    PartitionSizes(s, c);
    PartitionSizes(t, c);
    forall i | 0 <= i < |Partition(s, c)|
      ensures |Partition(s, c)[i]| == |Partition(t, c)[i]|
    {
      PartitionBatchLength(s, c, i);
      PartitionBatchLength(t, c, i);
    }
  }

  /** Batch lists of the same shape have the same offsets. */
  lemma {:induction false} OffsetShape<S, T>(a: seq<seq<S>>, b: seq<seq<T>>, i: nat)
    requires |a| == |b| && i <= |a|
    requires forall k :: 0 <= k < |a| ==> |a[k]| == |b[k]|
    ensures Offset(a, i) == Offset(b, i)
  {
    if i > 0 {
      assert |a[0]| == |b[0]|;
      OffsetShape(a[1..], b[1..], i - 1);
    }
  }
}
