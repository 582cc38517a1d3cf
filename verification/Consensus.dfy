/**
 The consensus offset of a range (`consensus_maximum` in maroon/src/app/app.rs): the greatest offset
 that at least `n` peers have reached.
 */
module Consensus {
  import opened Wrappers
  import opened Sorting

  type PeerId = nat

  /** `NonZeroUsize` */
  type NonZero = n: int | n >= 1 witness 1

  function AtLeast(offsets: map<PeerId, nat>, v: nat): set<PeerId> {
    set p | p in offsets && offsets[p] >= v
  }

  function Above(offsets: map<PeerId, nat>, v: nat): set<PeerId> {
    set p | p in offsets && offsets[p] > v
  }

  /** The order statistic: `v` occurs, `n` peers are at `v` or beyond, fewer than `n` are beyond. */
  ghost predicate IsQuorumOffset(offsets: map<PeerId, nat>, n: nat, v: nat) {
    && (exists p :: p in offsets && offsets[p] == v)
    && |AtLeast(offsets, v)| >= n
    && |Above(offsets, v)| < n
  }

  ghost function ConsensusMaximum(offsets: map<PeerId, nat>, n: NonZero): Option<nat> {
    if |offsets| < n then None
    else
      QuorumOffsetExists(offsets, n);
      Some(var v :| IsQuorumOffset(offsets, n, v); v)
  }

  lemma SubsetSize<T>(a: set<T>, b: set<T>)
    requires a <= b
    ensures |a| <= |b|
  {
    assert b == a + (b - a);
  }

  lemma {:induction false} GreatestPeer(offsets: map<PeerId, nat>) returns (p: PeerId)
    requires |offsets| > 0
    ensures p in offsets && forall q :: q in offsets ==> offsets[q] <= offsets[p]
    decreases |offsets|
  {
    p :| p in offsets;
    var rest := offsets - {p};
    assert rest.Keys == offsets.Keys - {p};
    assert forall q :: q in offsets ==> q == p || (q in rest && rest[q] == offsets[q]);
    if |rest| > 0 {
      var best := GreatestPeer(rest);
      if offsets[best] > offsets[p] {
        p := best;
      }
    }
  }

  lemma {:induction false} QuorumOffsetExists(offsets: map<PeerId, nat>, n: nat)
    requires 1 <= n <= |offsets|
    ensures exists v :: IsQuorumOffset(offsets, n, v)
    decreases n
  {
    var p := GreatestPeer(offsets);
    if n == 1 {
      assert p in AtLeast(offsets, offsets[p]);
      assert Above(offsets, offsets[p]) == {};
      assert IsQuorumOffset(offsets, n, offsets[p]);
    } else {
      var rest := offsets - {p};
      assert rest.Keys == offsets.Keys - {p};
      QuorumOffsetExists(rest, n - 1);
      var v :| IsQuorumOffset(rest, n - 1, v);
      var q :| q in rest && rest[q] == v;
      assert AtLeast(offsets, v) == AtLeast(rest, v) + {p};
      SubsetSize(Above(offsets, v), Above(rest, v) + {p});
      assert q in offsets && IsQuorumOffset(offsets, n, v);
    }
  }

  /** The result is the order statistic and nothing else; there is none iff fewer than `n` peers are known. */
  lemma ConsensusMaximumExact(offsets: map<PeerId, nat>, n: NonZero, v: nat)
    ensures ConsensusMaximum(offsets, n) == Some(v) <==> IsQuorumOffset(offsets, n, v)
    ensures ConsensusMaximum(offsets, n) == None <==> |offsets| < n
  {
    if IsQuorumOffset(offsets, n, v) {
      SubsetSize(AtLeast(offsets, v), offsets.Keys);
      var w := ConsensusMaximum(offsets, n).value;
      if v < w {
        SubsetSize(AtLeast(offsets, w), Above(offsets, v));
      } else if w < v {
        SubsetSize(AtLeast(offsets, v), Above(offsets, w));
      }
    }
  }

  /** Raising an entry or adding a peer never lowers the consensus offset. */
  lemma ConsensusMaximumMonotone(a: map<PeerId, nat>, b: map<PeerId, nat>, n: NonZero)
    requires forall p :: p in a ==> p in b && a[p] <= b[p]
    requires ConsensusMaximum(a, n).Some?
    ensures ConsensusMaximum(b, n).Some?
    ensures ConsensusMaximum(a, n).value <= ConsensusMaximum(b, n).value
  {
    SubsetSize(a.Keys, b.Keys);
    var v, w := ConsensusMaximum(a, n).value, ConsensusMaximum(b, n).value;
    if w < v {
      SubsetSize(AtLeast(a, v), Above(b, w));
    }
  }

  lemma MaximumReaches(offsets: map<PeerId, nat>, n: NonZero, w: nat)
    requires |offsets| >= n
    ensures ConsensusMaximum(offsets, n).value >= w <==> |AtLeast(offsets, w)| >= n
  {
    var v := ConsensusMaximum(offsets, n).value;
    ConsensusMaximumExact(offsets, n, v);
    if v >= w {
      SubsetSize(AtLeast(offsets, v), AtLeast(offsets, w));
    } else {
      SubsetSize(AtLeast(offsets, w), Above(offsets, v));
    }
  }

  lemma MovedAtLeast(offsets: map<PeerId, nat>, peer: PeerId, v: nat, w: nat)
    ensures AtLeast(offsets[peer := v], w) == (AtLeast(offsets, w) - {peer}) + if v >= w then {peer} else {}
  {
  }

  /** A new report of a peer lowers the consensus offset if and only if that peer had been at it or
      beyond, now reports less, and just `n` peers had been there. */
  lemma ReportLowersExactly(offsets: map<PeerId, nat>, n: NonZero, peer: PeerId, v: nat)
    requires |offsets| >= n
    ensures |offsets[peer := v]| >= n
    ensures var w := ConsensusMaximum(offsets, n).value;
            ConsensusMaximum(offsets[peer := v], n).value < w
            <==> peer in offsets && v < w <= offsets[peer] && |AtLeast(offsets, w)| == n
  {
    var w, moved := ConsensusMaximum(offsets, n).value, offsets[peer := v];
    SubsetSize(offsets.Keys, moved.Keys);
    MaximumReaches(offsets, n, w);
    MaximumReaches(moved, n, w);
    MovedAtLeast(offsets, peer, v, w);
    if peer in offsets && offsets[peer] >= w {
      assert peer in AtLeast(offsets, w);
    } else {
      SubsetSize(AtLeast(offsets, w), AtLeast(moved, w));
    }
  }

  // ---------- the computation ----------

  /** An entry of the map; sorting compares offsets, greatest first. */
  datatype Entry = Entry(peer: PeerId, offset: nat)

  predicate Descending(a: Entry, b: Entry) {
    a.offset >= b.offset
  }

  function PeersOf(entries: seq<Entry>): set<PeerId> {
    set i | 0 <= i < |entries| :: entries[i].peer
  }

  predicate Distinct(a: Entry, b: Entry) {
    a.peer != b.peer
  }

  lemma {:induction false} PeersSize(entries: seq<Entry>)
    requires Pairwise(entries, Distinct)
    ensures |PeersOf(entries)| == |entries|
  {
    if entries != [] {
      var n := |entries| - 1;
      var front := entries[..n];
      assert Pairwise(front, Distinct);
      PeersSize(front);
      assert entries[n].peer !in PeersOf(front) by {
        assert forall i | 0 <= i < n :: Distinct(entries[i], entries[n]);
      }
      assert PeersOf(entries) == PeersOf(front) + {entries[n].peer} by {
        assert forall i | 0 <= i < n :: front[i] == entries[i];
        forall p | p in PeersOf(entries) ensures p in PeersOf(front) + {entries[n].peer} {
          var i :| 0 <= i < |entries| && entries[i].peer == p;
          assert i < n ==> front[i].peer == p;
        }
        forall p | p in PeersOf(front) ensures p in PeersOf(entries) {
          var i :| 0 <= i < n && front[i].peer == p;
          assert entries[i].peer == p;
        }
      }
    }
  }

  /** In a list of all entries, greatest offset first, position `n - 1` holds the order statistic. */
  lemma SortedSelects(entries: seq<Entry>, offsets: map<PeerId, nat>, n: nat)
    requires Pairwise(entries, Distinct) && Sorted(entries, Descending)
    requires forall p :: p in offsets ==> Entry(p, offsets[p]) in entries
    requires forall i | 0 <= i < |entries| :: entries[i].peer in offsets && offsets[entries[i].peer] == entries[i].offset
    requires 1 <= n <= |entries|
    ensures IsQuorumOffset(offsets, n, entries[n - 1].offset)
  {
    var v := entries[n - 1].offset;
    var first, before := entries[..n], entries[..n - 1];
    assert Pairwise(first, Distinct) && Pairwise(before, Distinct);
    PeersSize(first);
    PeersSize(before);
    forall p | p in PeersOf(first) ensures p in AtLeast(offsets, v) {
      var i :| 0 <= i < n && first[i].peer == p;
      assert entries[i].offset >= v;
    }
    SubsetSize(PeersOf(first), AtLeast(offsets, v));
    forall p | p in Above(offsets, v) ensures p in PeersOf(before) {
      var i :| 0 <= i < |entries| && entries[i] == Entry(p, offsets[p]);
      assert i < n - 1;
      assert before[i].peer == p;
    }
    SubsetSize(Above(offsets, v), PeersOf(before));
    assert offsets[entries[n - 1].peer] == v;
  }

  /** `consensus_maximum`: collect the entries, sort them, take the n-th. */
  method SelectConsensusMaximum(offsets: map<PeerId, nat>, n: NonZero) returns (result: Option<nat>)
    ensures result == ConsensusMaximum(offsets, n)
  {
    if |offsets| < n {
      return None;
    }
    var refs: seq<Entry> := [];
    var remaining := offsets.Keys;
    while remaining != {}
      invariant remaining <= offsets.Keys
      invariant |refs| + |remaining| == |offsets|
      invariant Pairwise(refs, Distinct)
      invariant forall p :: p in offsets && p !in remaining ==> Entry(p, offsets[p]) in refs
      invariant forall i | 0 <= i < |refs| ::
          refs[i].peer in offsets && refs[i].peer !in remaining && offsets[refs[i].peer] == refs[i].offset
      decreases remaining
    {
      var peer :| peer in remaining;
      remaining := remaining - {peer};
      refs := refs + [Entry(peer, offsets[peer])];
    }
    var sorted := Sort(refs, Descending);
    SortSorted(refs, Descending);
    SortPairwise(refs, Descending, Distinct);
    SameElements(sorted, refs);
    forall i | 0 <= i < |sorted|
      ensures sorted[i].peer in offsets && offsets[sorted[i].peer] == sorted[i].offset
    {
      assert sorted[i] in refs;
    }
    SortedSelects(sorted, offsets, n);
    ConsensusMaximumExact(offsets, n, sorted[n - 1].offset);
    result := Some(sorted[n - 1].offset);
  }
}
