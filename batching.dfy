/** The batch loop of launchScrappingWorkers (main.go:160-187): grid indices are dispatched
    in consecutive groups [i, min(i + maxWorkers, n)), i stepping by maxWorkers, one task per
    index, and a group finishes before the next one starts. */
module Batching {
  import opened Basics
  import opened Places

  /** Number of tasks run at once (main.go:25). */
  const MaxWorkers: int := 4

  /** Radius, in kilometres, of the sub-search dispatched for every grid point. */
  const SubRadiusKm: real := 1.0

  /** Ceiling of n / d on integers: math.Ceil(float64(n) / float64(d)) for the sizes in use. */
  function CeilDiv(n: nat, d: nat): (q: nat)
    requires d >= 1
  {
    (n + d - 1) / d
  }

  /** k is the ceiling of n / d exactly when k groups of d are enough for n and k - 1 are not. */
  lemma CeilDivUnique(n: nat, d: nat, k: int)
    requires d >= 1
    ensures k == CeilDiv(n, d) <==> (k - 1) * d < n <= k * d
  {
    var q, r := (n + d - 1) / d, (n + d - 1) % d;
    assert n + d - 1 == q * d + r && 0 <= r < d;
    if k <= q - 1 {
      MulMonotone(k, q - 1, d);
      assert k * d <= q * d - d;
    }
    if k >= q + 1 {
      MulMonotone(q + 1, k, d);
      assert (k - 1) * d >= q * d;
    }
    if k == q {
      assert (k - 1) * d == q * d - d;
    }
  }

  /** The task dispatched for one grid point: centred on the point, with the parent query and
      a sub-radius of 1 km. */
  function TaskFor(point: Coordinates, query: string): (task: SearchParams)
  {
    SearchParams(point.lat, point.lon, query, SubRadiusKm)
  }

  /** The tasks for grid indices lo .. hi - 1, in index order. */
  function TasksIn(points: seq<Coordinates>, query: string, lo: int, hi: int): (tasks: seq<SearchParams>)
    requires 0 <= lo <= hi <= |points|
  {
    seq(hi - lo, t requires 0 <= t < hi - lo => TaskFor(points[lo + t], query))
  }

  lemma TasksInSplit(points: seq<Coordinates>, query: string, lo: int, mid: int, hi: int)
    requires 0 <= lo <= mid <= hi <= |points|
    ensures TasksIn(points, query, lo, mid) + TasksIn(points, query, mid, hi) == TasksIn(points, query, lo, hi)
  {
    var a, b, c := TasksIn(points, query, lo, mid), TasksIn(points, query, mid, hi), TasksIn(points, query, lo, hi);
    assert |a + b| == |c|;
    forall t | 0 <= t < |c|
      ensures (a + b)[t] == c[t]
    {
      if t < |a| {
        assert (a + b)[t] == a[t];
      } else {
        assert (a + b)[t] == b[t - |a|];
      }
    }
  }

  /** First grid index of batch k. */
  function BatchStart(k: nat, maxWorkers: nat): (start: nat)
  {
    k * maxWorkers
  }

  /** One past the last grid index of batch k: the start of the next batch, clamped to n. */
  function BatchEnd(n: nat, k: nat, maxWorkers: nat): (end: int)
  {
    Min(BatchStart(k, maxWorkers) + maxWorkers, n)
  }

  /** Each of the given batches holds the tasks of its range, and that range is not empty. */
  predicate BatchesMatchRanges(batches: seq<seq<SearchParams>>, points: seq<Coordinates>, query: string, maxWorkers: nat)
  {
    forall k :: 0 <= k < |batches| ==>
      BatchStart(k, maxWorkers) < BatchEnd(|points|, k, maxWorkers) &&
      batches[k] == TasksIn(points, query, BatchStart(k, maxWorkers), BatchEnd(|points|, k, maxWorkers))
  }

  lemma BatchesMatchRangesSnoc(batches: seq<seq<SearchParams>>, batch: seq<SearchParams>,
                               points: seq<Coordinates>, query: string, maxWorkers: nat)
    requires BatchesMatchRanges(batches, points, query, maxWorkers)
    requires BatchStart(|batches|, maxWorkers) < BatchEnd(|points|, |batches|, maxWorkers)
    requires batch == TasksIn(points, query, BatchStart(|batches|, maxWorkers), BatchEnd(|points|, |batches|, maxWorkers))
    ensures BatchesMatchRanges(batches + [batch], points, query, maxWorkers)
  {
    var bs := batches + [batch];
    forall k | 0 <= k < |bs|
      ensures BatchStart(k, maxWorkers) < BatchEnd(|points|, k, maxWorkers)
      ensures bs[k] == TasksIn(points, query, BatchStart(k, maxWorkers), BatchEnd(|points|, k, maxWorkers))
    {
      if k < |batches| {
        assert bs[k] == batches[k];
      }
    }
  }

  /** Runs the batch loop and returns the tasks of each batch in dispatch order. Batch k holds
      the indices [k * maxWorkers, min(k * maxWorkers + maxWorkers, n)); together the batches
      dispatch every grid point exactly once, in order. */
  method LaunchBatches(gridPoints: seq<Coordinates>, query: string, maxWorkers: int)
    returns (batches: seq<seq<SearchParams>>)
    requires maxWorkers >= 1
    ensures |batches| == CeilDiv(|gridPoints|, maxWorkers)
    ensures BatchesMatchRanges(batches, gridPoints, query, maxWorkers)
    ensures forall k :: 0 <= k < |batches| ==> 1 <= |batches[k]| <= maxWorkers
    ensures Flatten(batches) == TasksIn(gridPoints, query, 0, |gridPoints|)
  {
    var n := |gridPoints|;
    batches := [];
    var i := 0;
    while i < n
      invariant 0 <= i < n + maxWorkers
      invariant i == BatchStart(|batches|, maxWorkers)
      invariant BatchesMatchRanges(batches, gridPoints, query, maxWorkers)
      invariant forall k :: 0 <= k < |batches| ==> 1 <= |batches[k]| <= maxWorkers
      invariant Flatten(batches) == TasksIn(gridPoints, query, 0, Min(i, n))
    {
      var end := i + maxWorkers;
      if end > n {
        end := n;
      }
      var batch := [];
      for j := i to end
        invariant batch == TasksIn(gridPoints, query, i, j)
      {
        TasksInSplit(gridPoints, query, i, j, j + 1);
        batch := batch + [TaskFor(gridPoints[j], query)];
      }
      FlattenSnoc(batches, batch);
      TasksInSplit(gridPoints, query, 0, i, end);
      BatchesMatchRangesSnoc(batches, batch, gridPoints, query, maxWorkers);
      assert BatchStart(|batches| + 1, maxWorkers) == i + maxWorkers;
      batches := batches + [batch];
      i := i + maxWorkers;
    }
    CeilDivUnique(n, maxWorkers, |batches|);
  }

  /** The batch ranges are disjoint and cover the grid: index j lies in the range of batch
      j / maxWorkers and in the range of no other batch. */
  lemma BatchOfIndex(n: nat, maxWorkers: nat, j: nat, k: nat)
    requires maxWorkers >= 1 && j < n && k < CeilDiv(n, maxWorkers)
    ensures j / maxWorkers < CeilDiv(n, maxWorkers)
    ensures k * maxWorkers <= j < Min(k * maxWorkers + maxWorkers, n) <==> k == j / maxWorkers
  {
    var w := maxWorkers;
    var q, r := j / w, j % w;
    var c := CeilDiv(n, w);
    assert j == q * w + r && 0 <= r < w;
    CeilDivUnique(n, w, c);
    assert n <= c * w;
    if q >= c {
      MulMonotone(c, q, w);
      assert false;
    }
    if k < q {
      MulMonotone(k + 1, q, w);
      assert (k + 1) * w == k * w + w;
      assert k * w + w <= j;
    }
    if k > q {
      MulMonotone(q + 1, k, w);
      assert (q + 1) * w == q * w + w;
      assert j < k * w;
    }
  }
}
