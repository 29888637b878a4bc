/** launchScrappingWorkers (main.go:149-202) run sequentially: dispatch the grid in batches,
    let every task's worker report its outcome, then merge what arrived on the channel. */
module Scraper {
  import opened Basics
  import opened Places
  import opened Merge
  import opened Batching
  import opened Workers

  /** The outcome of each task of the list, in order. */
  function OutcomesOf(fetch: SearchParams -> Outcome, tasks: seq<SearchParams>): (os: seq<Outcome>)
  {
    seq(|tasks|, i requires 0 <= i < |tasks| => fetch(tasks[i]))
  }

  /** Running the next task of a batch adds what its worker sends to the channel. */
  lemma CollectOutcomesStep(fetch: SearchParams -> Outcome, prefix: seq<SearchParams>, batch: seq<SearchParams>, t: nat)
    requires t < |batch|
    ensures Collect(OutcomesOf(fetch, prefix + batch[..t + 1]))
         == Collect(OutcomesOf(fetch, prefix + batch[..t])) + Sent(fetch(batch[t]))
  {
    var done := prefix + batch[..t];
    assert prefix + batch[..t + 1] == done + [batch[t]];
    assert OutcomesOf(fetch, done + [batch[t]]) == OutcomesOf(fetch, done) + [fetch(batch[t])];
    CollectSnoc(OutcomesOf(fetch, done), fetch(batch[t]));
  }

  /** Runs the batches one after the other; each task's worker reports its outcome, given by
      `fetch`, and the channel receives what the workers send, in dispatch order. */
  method RunBatches(batches: seq<seq<SearchParams>>, fetch: SearchParams -> Outcome)
    returns (results: seq<seq<Place>>)
    ensures results == Collect(OutcomesOf(fetch, Flatten(batches)))
  {
    results := [];
    for b := 0 to |batches|
      invariant results == Collect(OutcomesOf(fetch, Flatten(batches[..b])))
    {
      var batch := batches[b];
      ghost var prefix := Flatten(batches[..b]);
      assert prefix + batch[..0] == prefix;
      for t := 0 to |batch|
        invariant results == Collect(OutcomesOf(fetch, prefix + batch[..t]))
      {
        CollectOutcomesStep(fetch, prefix, batch, t);
        results := results + Sent(fetch(batch[t]));
      }
      assert batch[..|batch|] == batch;
      FlattenPrefixStep(batches, b);
    }
    assert batches[..|batches|] == batches;
  }

  /** `fetch` stands for the scrape plus the deadline: it says how the task for each sub-search
      ends. Every batch runs whatever the earlier ones did, and the run returns the merge of
      the places delivered by all tasks, one task per grid point, in dispatch order. */
  method LaunchScrappingWorkers(gridPoints: seq<Coordinates>, query: string, fetch: SearchParams -> Outcome)
    returns (allPlaces: seq<Place>)
    ensures allPlaces == RunResult(OutcomesOf(fetch, TasksIn(gridPoints, query, 0, |gridPoints|)))
    ensures NoDuplicateKeys(allPlaces)
    ensures Keys(allPlaces) == DeliveredKeys(OutcomesOf(fetch, TasksIn(gridPoints, query, 0, |gridPoints|)))
  {
    var batches := LaunchBatches(gridPoints, query, MaxWorkers);
    var results := RunBatches(batches, fetch);
    allPlaces := MergeResults(results);
    RunResultKeys(OutcomesOf(fetch, TasksIn(gridPoints, query, 0, |gridPoints|)));
  }

  /** With a scrape that returns the same place for every sub-search, a non-empty grid yields
      exactly that one place. */
  lemma SamePlaceEverywhere(gridPoints: seq<Coordinates>, query: string, p: Place)
    requires |gridPoints| >= 1
    ensures RunResult(OutcomesOf((t: SearchParams) => Done([p], None), TasksIn(gridPoints, query, 0, |gridPoints|))) == [p]
  {
    var os := OutcomesOf((t: SearchParams) => Done([p], None), TasksIn(gridPoints, query, 0, |gridPoints|));
    var results := Collect(os);
    var flat := Flatten(results);
    forall i | 0 <= i < |flat|
      ensures flat[i] == p
    {
      FlattenMembership(results, flat[i]);
      var b :| b in results && flat[i] in b;
      CollectExactlyDelivered(os, b);
    }
    assert os[0] in os;
    CollectExactlyDelivered(os, [p]);
    FlattenMembership(results, p);
    DedupOfCopies(flat, p);
  }
}
