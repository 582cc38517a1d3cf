/**
 The linearizer (maroon/src/linearizer.rs): turns the increments of an epoch into a run of
 identifiers appended to the log.
 */
module Linearizer {
  import opened RangeKey
  import opened Epochs
  import opened Sorting

  /** The derived order of intervals: by left border, then by right border. */
  predicate IntervalLeq(a: Interval, b: Interval) {
    a.left < b.left || (a.left == b.left && a.right <= b.right)
  }

  function SortIntervals(intervals: seq<Interval>): seq<Interval> {
    Sort(intervals, IntervalLeq)
  }

  lemma IntervalOrder()
    ensures TotalPreorder(IntervalLeq) && Antisymmetric(IntervalLeq)
  {
  }

  /** The identifiers of the intervals, interval after interval. */
  function Expand(intervals: seq<Interval>): seq<nat> {
    if intervals == [] then
      []
    else
      var n := |intervals| - 1;
      Expand(intervals[..n]) + Ids(intervals[n].left, intervals[n].right)
  }

  function Appended(log: seq<nat>, increments: seq<Interval>): seq<nat> {
    log + Expand(SortIntervals(increments))
  }

  ghost predicate Proper(intervals: seq<Interval>) {
    forall i | 0 <= i < |intervals| :: intervals[i].left <= intervals[i].right < U64_MAX
  }

  /** The log has been extended by the ascending enumeration of the union of the intervals. */
  ghost predicate ExtendedBy(log: seq<nat>, intervals: seq<Interval>, longer: seq<nat>) {
    && log <= longer && |longer| == |log| + TotalCount(intervals)
    && Ascending(longer[|log|..]) && forall id :: id in longer[|log|..] <==> Covers(intervals, id)
  }

  class LogLinearizer {
    var sequence: seq<nat>

    constructor ()
      ensures sequence == []
    {
      sequence := [];
    }

    method NewEpoch(epoch: Epoch)
      requires Proper(epoch.increments)
      modifies this
      ensures sequence == Appended(old(sequence), epoch.increments)
      ensures Pairwise(epoch.increments, Apart) ==> ExtendedBy(old(sequence), epoch.increments, sequence)
    {
      var increments := SortIntervals(epoch.increments);
      SameElements(increments, epoch.increments);
      forall i | 0 <= i < |increments| ensures increments[i].left <= increments[i].right < U64_MAX {
        assert increments[i] in epoch.increments;
      }
      PushIntervals(increments);
      if Pairwise(epoch.increments, Apart) {
        AppendedCanonical(old(sequence), epoch.increments);
      }
    }

    /** The loop over the sorted increments. */
    method PushIntervals(increments: seq<Interval>)
      requires Proper(increments)
      modifies this
      ensures sequence == old(sequence) + Expand(increments)
    {
      for i := 0 to |increments|
        invariant sequence == old(sequence) + Expand(increments[..i])
      {
        PushAll(increments[i]);
        assert increments[..i + 1][..i] == increments[..i];
      }
      assert increments[..|increments|] == increments;
    }

    /** The inner loop of `new_epoch`. */
    method PushAll(interval: Interval)
      requires interval.left <= interval.right < U64_MAX
      modifies this
      ensures sequence == old(sequence) + Ids(interval.left, interval.right)
    {
      ghost var target := sequence + Ids(interval.left, interval.right);
      var iter := new IdIterator(interval);
      var id := iter.Next();
      while id.Some?
        invariant iter.right == interval.right
        invariant target == sequence + (if id.Some? then [id.value] + iter.Remaining() else [])
        decreases |iter.Remaining()| + if id.Some? then 1 else 0
      {
        sequence := sequence + [id.value];
        ghost var rest := iter.Remaining();
        id := iter.Next();
        assert rest != [] ==> rest == [rest[0]] + rest[1..];
      }
    }
  }

  // ---------- what is appended ----------

  function Count(interval: Interval): nat {
    |Ids(interval.left, interval.right)|
  }

  function TotalCount(intervals: seq<Interval>): nat {
    if intervals == [] then 0 else Count(intervals[0]) + TotalCount(intervals[1..])
  }

  lemma {:induction false} TotalCountLast(intervals: seq<Interval>, last: Interval)
    ensures TotalCount(intervals + [last]) == TotalCount(intervals) + Count(last)
  {
    if intervals == [] {
      assert [] + [last] == [last];
    } else {
      TotalCountLast(intervals[1..], last);
      assert (intervals + [last])[1..] == intervals[1..] + [last];
    }
  }

  lemma {:induction false} TotalCountInsert(x: Interval, s: seq<Interval>)
    ensures TotalCount(Insert(x, s, IntervalLeq)) == Count(x) + TotalCount(s)
  {
    if s == [] || IntervalLeq(x, s[0]) {
      assert ([x] + s)[1..] == s;
    } else {
      TotalCountInsert(x, s[1..]);
      var tail := Insert(x, s[1..], IntervalLeq);
      assert ([s[0]] + tail)[1..] == tail;
    }
  }

  lemma {:induction false} TotalCountSort(s: seq<Interval>)
    ensures TotalCount(SortIntervals(s)) == TotalCount(s)
  {
    if s != [] {
      TotalCountSort(s[1..]);
      TotalCountInsert(s[0], SortIntervals(s[1..]));
    }
  }

  lemma {:induction false} ExpandMembers(intervals: seq<Interval>)
    ensures forall id :: id in Expand(intervals) <==> Covers(intervals, id)
  {
    if intervals != [] {
      var n := |intervals| - 1;
      ExpandMembers(intervals[..n]);
      forall id ensures id in Expand(intervals) <==> Covers(intervals, id) {
        if id >= 0 {
          CoversLast(intervals, id);
        }
      }
    }
  }

  lemma {:induction false} ExpandLength(intervals: seq<Interval>)
    ensures |Expand(intervals)| == TotalCount(intervals)
  {
    if intervals != [] {
      var n := |intervals| - 1;
      ExpandLength(intervals[..n]);
      TotalCountLast(intervals[..n], intervals[n]);
      assert intervals[..n] + [intervals[n]] == intervals;
    }
  }

  lemma {:induction false} ExpandAscending(intervals: seq<Interval>)
    requires Proper(intervals) && Sorted(intervals, IntervalLeq) && Pairwise(intervals, Apart)
    ensures Ascending(Expand(intervals))
  {
    if intervals != [] {
      var n := |intervals| - 1;
      var front := intervals[..n];
      ExpandAscending(front);
      ExpandMembers(front);
      var a, b := Expand(front), Ids(intervals[n].left, intervals[n].right);
      forall i | 0 <= i < |a| ensures a[i] < intervals[n].left {
        assert Covers(front, a[i]);
        var k :| 0 <= k < |front| && front[k].Contains(a[i]);
        assert Apart(intervals[k], intervals[n]) && IntervalLeq(intervals[k], intervals[n]);
      }
      assert forall i | 0 <= i < |b| :: b[i] >= intervals[n].left;
    }
  }

  lemma SortedProperties(increments: seq<Interval>)
    requires Proper(increments) && Pairwise(increments, Apart)
    ensures Ascending(Expand(SortIntervals(increments)))
    ensures forall id :: id in Expand(SortIntervals(increments)) <==> Covers(increments, id)
    ensures |Expand(SortIntervals(increments))| == TotalCount(increments)
  {
    var sorted := SortIntervals(increments);
    IntervalOrder();
    SortSorted(increments, IntervalLeq);
    SortPairwise(increments, IntervalLeq, Apart);
    SameElements(sorted, increments);
    forall i | 0 <= i < |sorted| ensures sorted[i].left <= sorted[i].right < U64_MAX {
      assert sorted[i] in increments;
    }
    ExpandAscending(sorted);
    ExpandMembers(sorted);
    ExpandLength(sorted);
    TotalCountSort(increments);
    forall id ensures Covers(sorted, id) <==> Covers(increments, id) {
      if Covers(sorted, id) {
        var i :| 0 <= i < |sorted| && sorted[i].Contains(id);
        assert sorted[i] in increments;
      }
      if Covers(increments, id) {
        var i :| 0 <= i < |increments| && increments[i].Contains(id);
        assert increments[i] in sorted;
      }
    }
  }

  /** For increments that do not overlap, in any order: the old log stays in front of the new one,
      and what follows is the ascending enumeration of the union of the increments. */
  lemma AppendedCanonical(log: seq<nat>, increments: seq<Interval>)
    requires Proper(increments) && Pairwise(increments, Apart)
    ensures ExtendedBy(log, increments, Appended(log, increments))
  {
    SortedProperties(increments);
    assert Appended(log, increments)[|log|..] == Expand(SortIntervals(increments));
  }

  /** The log depends on nothing but the identifiers the increments cover: neither the order in which
      a hash map yields them nor how they are cut into intervals can change it. */
  lemma AppendedOrderIndependent(log: seq<nat>, a: seq<Interval>, b: seq<Interval>)
    requires Proper(a) && Pairwise(a, Apart) && Proper(b) && Pairwise(b, Apart)
    ensures Appended(log, a) == Appended(log, b) <==> forall id :: Covers(a, id) <==> Covers(b, id)
  {
    SortedProperties(a);
    SortedProperties(b);
    var x, y := Expand(SortIntervals(a)), Expand(SortIntervals(b));
    if forall id :: Covers(a, id) <==> Covers(b, id) {
      AscendingUnique(x, y);
    }
    if Appended(log, a) == Appended(log, b) {
      assert x == Appended(log, a)[|log|..] && y == Appended(log, b)[|log|..];
    }
  }
}
