/** The merge loop of launchScrappingWorkers (main.go:189-201): the result batches are walked
    in the order the channel delivers them and each place is appended to allPlaces unless a
    place with the same (name, address) key is already there. */
module Merge {
  import opened Basics
  import opened Places

  /** No two places of the list share a (name, address) key. */
  predicate NoDuplicateKeys(s: seq<Place>)
  {
    forall i, j :: 0 <= i < j < |s| ==> KeyOf(s[i]) != KeyOf(s[j])
  }

  /** What allPlaces holds after the merge has seen the places s, in order. */
  function Dedup(s: seq<Place>): (r: seq<Place>)
    ensures NoDuplicateKeys(r)
    ensures Keys(r) == Keys(s)
  {
    if s == [] then []
    else
      var n := |s| - 1;
      var prev := Dedup(s[..n]);
      assert Keys(s) == Keys(s[..n]) + {KeyOf(s[n])} by {
        assert forall i :: 0 <= i < n ==> s[..n][i] == s[i];
      }
      if KeyOf(s[n]) in Keys(prev) then prev
      else
        assert forall i :: 0 <= i < |prev| ==> KeyOf(prev[i]) in Keys(prev);
        assert Keys(prev + [s[n]]) == Keys(prev) + {KeyOf(s[n])} by {
          assert forall i :: 0 <= i < |prev| ==> (prev + [s[n]])[i] == prev[i];
          assert (prev + [s[n]])[|prev|] == s[n];
        }
        prev + [s[n]]
  }

  /** Position i of s holds the earliest place of s with its key. */
  predicate IsFirstOccurrence(s: seq<Place>, i: int)
    requires 0 <= i < |s|
  {
    forall j :: 0 <= j < i ==> KeyOf(s[j]) != KeyOf(s[i])
  }

  /** The positions of s that hold the earliest place with their key, in increasing order. */
  function FirstPositions(s: seq<Place>): (idx: seq<nat>)
    ensures forall k :: 0 <= k < |idx| ==> idx[k] < |s| && IsFirstOccurrence(s, idx[k])
    ensures forall k, l :: 0 <= k < l < |idx| ==> idx[k] < idx[l]
    ensures forall i :: 0 <= i < |s| && IsFirstOccurrence(s, i) ==> i in idx
  {
    if s == [] then []
    else
      var n := |s| - 1;
      var prev := FirstPositions(s[..n]);
      assert forall i :: 0 <= i < n ==> (IsFirstOccurrence(s[..n], i) <==> IsFirstOccurrence(s, i)) by {
        assert forall j :: 0 <= j < n ==> s[..n][j] == s[j];
      }
      prev + (if IsFirstOccurrence(s, n) then [n] else [])
  }

  /** The last place of s is the earliest with its key exactly when no earlier place has it. */
  lemma LastIsFirstOccurrence(s: seq<Place>)
    requires s != []
    ensures KeyOf(s[|s| - 1]) !in Keys(s[..|s| - 1]) <==> IsFirstOccurrence(s, |s| - 1)
  {
    var n := |s| - 1;
    if KeyOf(s[n]) in Keys(s[..n]) {
      var j :| 0 <= j < n && KeyOf(s[..n][j]) == KeyOf(s[n]);
      assert KeyOf(s[j]) == KeyOf(s[n]);
    }
    if !IsFirstOccurrence(s, n) {
      var j :| 0 <= j < n && KeyOf(s[j]) == KeyOf(s[n]);
      assert KeyOf(s[..n][j]) == KeyOf(s[n]);
    }
  }

  /** First-seen wins: the merge result is exactly the earliest place of each key, in input
      order, so it is an order-preserving subsequence of the input. */
  lemma {:induction false} DedupKeepsFirstOccurrences(s: seq<Place>)
    ensures |Dedup(s)| == |FirstPositions(s)|
    ensures forall k :: 0 <= k < |Dedup(s)| ==> Dedup(s)[k] == s[FirstPositions(s)[k]]
  {
    if s != [] {
      var n := |s| - 1;
      var init := s[..n];
      DedupKeepsFirstOccurrences(init);
      var prev, idx := Dedup(init), FirstPositions(init);
      LastIsFirstOccurrence(s);
      var d, f := Dedup(s), FirstPositions(s);
      if IsFirstOccurrence(s, n) {
        assert d == prev + [s[n]] && f == idx + [n];
      } else {
        assert d == prev && f == idx;
      }
      forall k | 0 <= k < |d|
        ensures d[k] == s[f[k]]
      {
        if k < |prev| {
          assert d[k] == prev[k] && f[k] == idx[k];
          assert init[idx[k]] == s[idx[k]];
        }
      }
    }
  }

  /** A list that already has distinct keys is left unchanged by the merge. */
  lemma {:induction false} DedupOfDistinct(s: seq<Place>)
    requires NoDuplicateKeys(s)
    ensures Dedup(s) == s
  {
    if s != [] {
      var n := |s| - 1;
      assert NoDuplicateKeys(s[..n]);
      DedupOfDistinct(s[..n]);
      assert KeyOf(s[n]) !in Keys(s[..n]);
      assert s[..n] + [s[n]] == s;
    }
  }

  /** Merging the merge result again returns it unchanged. */
  lemma {:induction false} DedupIdempotent(s: seq<Place>)
    ensures Dedup(Dedup(s)) == Dedup(s)
  {
    DedupOfDistinct(Dedup(s));
  }

  /** Many copies of one place merge into a single one. */
  lemma {:induction false} DedupOfCopies(s: seq<Place>, p: Place)
    requires p in s
    requires forall i :: 0 <= i < |s| ==> s[i] == p
    ensures Dedup(s) == [p]
  {
    var n := |s| - 1;
    if n == 0 {
      assert s[..n] == [];
    } else {
      assert s[n - 1] in s[..n];
      DedupOfCopies(s[..n], p);
      assert KeyOf(p) in Keys([p]);
    }
  }

  /** One step of the merge loop: the next candidate is appended exactly when its key is new. */
  lemma MergeStep(seen: seq<Place>, places: seq<Place>, j: nat)
    requires j < |places|
    ensures var d := Dedup(seen + places[..j]);
      Dedup(seen + places[..j + 1]) == if KeyOf(places[j]) in Keys(d) then d else d + [places[j]]
  {
    var s := seen + places[..j + 1];
    assert s[..|s| - 1] == seen + places[..j];
  }

  /** The merge loop itself: allPlaces starts empty and grows by appends, with containsPlace
      deciding each candidate. */
  method MergeResults(results: seq<seq<Place>>) returns (allPlaces: seq<Place>)
    ensures allPlaces == Dedup(Flatten(results))
    ensures NoDuplicateKeys(allPlaces)
    ensures Keys(allPlaces) == Keys(Flatten(results))
  {
    allPlaces := [];
    for b := 0 to |results|
      invariant allPlaces == Dedup(Flatten(results[..b]))
    {
      var places := results[b];
      ghost var seen := Flatten(results[..b]);
      assert seen + places[..0] == seen;
      for j := 0 to |places|
        invariant allPlaces == Dedup(seen + places[..j])
      {
        var place := places[j];
        MergeStep(seen, places, j);
        var found := ContainsPlace(allPlaces, place);
        if !found {
          allPlaces := allPlaces + [place];
        }
      }
      assert places[..|places|] == places;
      FlattenPrefixStep(results, b);
    }
    assert results[..|results|] == results;
  }
}
