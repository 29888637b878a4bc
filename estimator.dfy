/** estimateJobTime (main.go:204-223): the advisory run-time estimate shown before the
    batches start. Durations are whole nanoseconds, as Go's time.Duration. */
module Estimator {
  import opened Basics
  import opened Batching

  const Second: int := 1_000_000_000

  /** Time budgeted for one task (main.go:26). */
  const TaskDuration: int := 45 * Second

  /** The estimate is one task duration per batch the scheduler will run: zero for no tasks,
      one duration for a single batch, ceil(numTasks / maxWorkers) durations otherwise. */
  function EstimateJobTime(numTasks: int, maxWorkers: int): (estimate: int)
    requires maxWorkers >= 1
    ensures estimate == CeilDiv(if numTasks <= 0 then 0 else numTasks, maxWorkers) * TaskDuration
  {
    if numTasks <= 0 then
      CeilDivUnique(0, maxWorkers, 0);
      0
    else if numTasks <= maxWorkers then
      CeilDivUnique(numTasks, maxWorkers, 1);
      TaskDuration
    else
      CeilDiv(numTasks, maxWorkers) * TaskDuration
  }

  /** More tasks never make the estimate shorter. */
  lemma EstimateMonotone(numTasks: int, moreTasks: int, maxWorkers: int)
    requires maxWorkers >= 1 && numTasks <= moreTasks
    ensures EstimateJobTime(numTasks, maxWorkers) <= EstimateJobTime(moreTasks, maxWorkers)
  {
    var n: nat := if numTasks <= 0 then 0 else numTasks;
    var m: nat := if moreTasks <= 0 then 0 else moreTasks;
    var a, b := CeilDiv(n, maxWorkers), CeilDiv(m, maxWorkers);
    CeilDivUnique(n, maxWorkers, a);
    CeilDivUnique(m, maxWorkers, b);
    if a > b {
      MulMonotone(b, a - 1, maxWorkers);
    }
  }

  /** The estimate for the usual four workers at a few sizes. */
  lemma EstimateExamples()
    ensures EstimateJobTime(10, MaxWorkers) == 3 * TaskDuration
    ensures EstimateJobTime(3, MaxWorkers) == TaskDuration
    ensures EstimateJobTime(0, MaxWorkers) == 0
  {
    CeilDivUnique(10, MaxWorkers, 3);
  }
}
