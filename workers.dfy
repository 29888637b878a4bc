/** What one searchWorker contributes (main.go:225-258) and what the run returns once every
    worker has reported: the sequential meaning of the select between the scrape finishing
    and the 45-second deadline. */
module Workers {
  import opened Basics
  import opened Places
  import opened Merge

  /** How one task ended: the scrape returned (with its places and its error, nil being None)
      before the deadline, or the deadline fired first. */
  datatype Outcome = Done(places: seq<Place>, err: Option<string>) | TimedOut

  /** The worker puts something on the results channel only for a scrape that finished in time
      without an error. */
  predicate Delivers(o: Outcome)
  {
    o.Done? && o.err.None?
  }

  /** The slices the worker sends on the results channel: at most one, and only the places of a
      scrape that finished in time without an error. */
  function Sent(o: Outcome): (r: seq<seq<Place>>)
    ensures |r| <= 1
    ensures r != [] <==> Delivers(o)
    ensures forall b :: b in r ==> o.Done? && b == o.places
  {
    match o
    case Done(places, None) => [places]
    case Done(_, Some(_)) => []
    case TimedOut => []
  }

  /** The contents of the results channel once every task has ended, given the outcomes in
      completion order. */
  function Collect(outcomes: seq<Outcome>): (results: seq<seq<Place>>)
  {
    if outcomes == [] then []
    else Collect(outcomes[..|outcomes| - 1]) + Sent(outcomes[|outcomes| - 1])
  }

  lemma CollectSnoc(outcomes: seq<Outcome>, o: Outcome)
    ensures Collect(outcomes + [o]) == Collect(outcomes) + Sent(o)
  {
    assert (outcomes + [o])[..|outcomes|] == outcomes;
  }

  /** Tasks are isolated: what later tasks deliver does not depend on how earlier ones ended,
      so a failure never aborts the rest of the run. */
  lemma {:induction false} CollectAppend(a: seq<Outcome>, b: seq<Outcome>)
    ensures Collect(a + b) == Collect(a) + Collect(b)
  {
    if b == [] {
      assert a + b == a;
    } else {
      var n := |b| - 1;
      var init, last := b[..n], b[n];
      assert b == init + [last];
      assert a + b == (a + init) + [last];
      CollectSnoc(a + init, last);
      CollectAppend(a, init);
      CollectSnoc(init, last);
    }
  }

  /** Every slice on the channel is the places of a task that delivered, and every task that
      delivered has its places on the channel. */
  lemma {:induction false} CollectExactlyDelivered(outcomes: seq<Outcome>, places: seq<Place>)
    ensures places in Collect(outcomes) <==> exists o :: o in outcomes && Delivers(o) && o.places == places
  {
    if outcomes != [] {
      var n := |outcomes| - 1;
      CollectExactlyDelivered(outcomes[..n], places);
      assert outcomes == outcomes[..n] + [outcomes[n]];
      if exists o :: o in outcomes && Delivers(o) && o.places == places {
        var o :| o in outcomes && Delivers(o) && o.places == places;
        if o != outcomes[n] {
          assert o in outcomes[..n];
        }
      }
    }
  }

  /** The places the run returns: the merge of everything the workers delivered. */
  function RunResult(outcomes: seq<Outcome>): (r: seq<Place>)
  {
    Dedup(Flatten(Collect(outcomes)))
  }

  /** The keys found by the tasks that delivered. */
  function DeliveredKeys(outcomes: seq<Outcome>): (keys: set<Key>)
  {
    set o, p | o in outcomes && Delivers(o) && p in o.places :: KeyOf(p)
  }

  /** The run returns one place per key found by a task that delivered, and no other key. */
  lemma RunResultKeys(outcomes: seq<Outcome>)
    ensures NoDuplicateKeys(RunResult(outcomes))
    ensures Keys(RunResult(outcomes)) == DeliveredKeys(outcomes)
  {
    var results := Collect(outcomes);
    var flat := Flatten(results);
    forall key
      ensures key in Keys(flat) <==> key in DeliveredKeys(outcomes)
    {
      if key in Keys(flat) {
        var i :| 0 <= i < |flat| && KeyOf(flat[i]) == key;
        FlattenMembership(results, flat[i]);
        var b :| b in results && flat[i] in b;
        CollectExactlyDelivered(outcomes, b);
      }
      if key in DeliveredKeys(outcomes) {
        var o, p :| o in outcomes && Delivers(o) && p in o.places && KeyOf(p) == key;
        CollectExactlyDelivered(outcomes, o.places);
        FlattenMembership(results, p);
        var i :| 0 <= i < |flat| && flat[i] == p;
      }
    }
  }

  /** A task that errored or timed out leaves the run's result exactly as if it had not run. */
  lemma FailedTaskContributesNothing(before: seq<Outcome>, o: Outcome, after: seq<Outcome>)
    requires !Delivers(o)
    ensures RunResult(before + [o] + after) == RunResult(before + after)
  {
    CollectAppend(before + [o], after);
    CollectAppend(before, [o]);
    CollectAppend(before, after);
    assert Collect([o]) == [] by {
      assert [o] == [] + [o];
      CollectSnoc([], o);
    }
    assert Collect(before) + [] == Collect(before);
  }

  /** The order in which the tasks complete decides which of two duplicates is kept, but not
      which keys the run returns. */
  lemma CompletionOrderKeepsKeys(outcomes: seq<Outcome>, reordered: seq<Outcome>)
    requires multiset(outcomes) == multiset(reordered)
    ensures Keys(RunResult(outcomes)) == Keys(RunResult(reordered))
  {
    RunResultKeys(outcomes);
    RunResultKeys(reordered);
    assert forall o :: o in outcomes <==> o in reordered by {
      forall o
        ensures o in outcomes <==> o in reordered
      {
        assert o in outcomes <==> o in multiset(outcomes);
        assert o in reordered <==> o in multiset(reordered);
      }
    }
  }
}
