/**
 What a node lacks compared with its peers (`self_delays` in maroon/src/app/app.rs).
 */
module Delays {
  import opened Wrappers
  import opened Iteration
  import opened Sorting
  import opened RangeKey
  import opened Consensus
  import opened Indexing

  type Offsets = map<nat, map<PeerId, nat>>

  // ---------- missing runs ----------

  /** A stretch of `lo..hi-1` that is missing and cannot be extended. */
  ghost predicate MaximalRun(ids: set<nat>, lo: nat, hi: nat, run: Interval) {
    && lo <= run.left <= run.right < hi
    && (forall k: nat | run.left <= k <= run.right :: k !in ids)
    && (run.left == lo || run.left - 1 in ids)
    && (run.right + 1 == hi || run.right + 1 in ids)
  }

  /** The missing identifiers of `lo..hi-1` as ascending maximal runs. */
  ghost predicate MissingRuns(ids: set<nat>, lo: nat, hi: nat, runs: seq<Interval>) {
    && (forall i | 0 <= i < |runs| :: MaximalRun(ids, lo, hi, runs[i]))
    && (forall i, j | 0 <= i < j < |runs| :: runs[i].right < runs[j].left)
    && (forall k: nat | lo <= k < hi && k !in ids :: Covers(runs, k))
  }

  /** The runs cover the missing identifiers and nothing else. */
  lemma RunsExact(ids: set<nat>, lo: nat, hi: nat, runs: seq<Interval>, k: nat)
    requires MissingRuns(ids, lo, hi, runs)
    ensures Covers(runs, k) <==> lo <= k < hi && k !in ids
  {
    if Covers(runs, k) {
      var i :| 0 <= i < |runs| && runs[i].Contains(k);
      assert MaximalRun(ids, lo, hi, runs[i]);
    }
  }

  lemma SameRun(ids: set<nat>, lo: nat, hi: nat, a: Interval, b: Interval, k: nat)
    requires MaximalRun(ids, lo, hi, a) && MaximalRun(ids, lo, hi, b)
    requires a.Contains(k) && b.Contains(k)
    ensures a == b
  {
  }

  function Lefts(runs: seq<Interval>): seq<nat> {
    seq(|runs|, i requires 0 <= i < |runs| => runs[i].left)
  }

  lemma RunsIncluded(ids: set<nat>, lo: nat, hi: nat, a: seq<Interval>, b: seq<Interval>)
    requires MissingRuns(ids, lo, hi, a) && MissingRuns(ids, lo, hi, b)
    ensures forall i | 0 <= i < |a| :: a[i] in b && a[i].left in Lefts(b)
  {
    forall i | 0 <= i < |a| ensures a[i] in b && a[i].left in Lefts(b) {
      assert MaximalRun(ids, lo, hi, a[i]) && a[i].Contains(a[i].left);
      assert Covers(b, a[i].left);
      var j :| 0 <= j < |b| && b[j].Contains(a[i].left);
      SameRun(ids, lo, hi, a[i], b[j], a[i].left);
      assert Lefts(b)[j] == a[i].left;
    }
  }

  /** There is only one way to write the missing identifiers as maximal runs. */
  lemma RunsUnique(ids: set<nat>, lo: nat, hi: nat, a: seq<Interval>, b: seq<Interval>)
    requires MissingRuns(ids, lo, hi, a) && MissingRuns(ids, lo, hi, b)
    ensures a == b
  {
    RunsIncluded(ids, lo, hi, a, b);
    RunsIncluded(ids, lo, hi, b, a);
    LeftsAscending(ids, lo, hi, a);
    LeftsAscending(ids, lo, hi, b);
    AscendingUnique(Lefts(a), Lefts(b));
    forall i | 0 <= i < |a| ensures a[i] == b[i] {
      assert Lefts(a)[i] == Lefts(b)[i];
      SameRun(ids, lo, hi, a[i], b[i], a[i].left);
    }
  }

  lemma LeftsAscending(ids: set<nat>, lo: nat, hi: nat, runs: seq<Interval>)
    requires MissingRuns(ids, lo, hi, runs)
    ensures Ascending(Lefts(runs))
  {
    forall i, j | 0 <= i < j < |runs| ensures runs[i].left < runs[j].left {
      assert MaximalRun(ids, lo, hi, runs[i]);
    }
  }

  lemma RunsSkipHeld(ids: set<nat>, lo: nat, hi: nat, runs: seq<Interval>)
    requires lo <= hi && MissingRuns(ids, lo, hi, runs) && hi in ids && (hi == lo || hi - 1 in ids)
    ensures MissingRuns(ids, lo, hi + 1, runs)
  {
    forall i | 0 <= i < |runs| ensures MaximalRun(ids, lo, hi + 1, runs[i]) {
      assert MaximalRun(ids, lo, hi, runs[i]);
    }
  }

  lemma RunsPush(ids: set<nat>, lo: nat, left: nat, pointer: nat, hi: nat, runs: seq<Interval>)
    requires lo <= left < pointer && MissingRuns(ids, lo, left, runs) && (left == lo || left - 1 in ids)
    requires forall k: nat | left <= k < pointer :: k !in ids
    requires hi == pointer || (hi == pointer + 1 && pointer in ids)
    ensures MissingRuns(ids, lo, hi, runs + [Interval(left, pointer - 1)])
  {
    var longer := runs + [Interval(left, pointer - 1)];
    assert MaximalRun(ids, lo, hi, longer[|runs|]);
    forall i | 0 <= i < |runs| ensures MaximalRun(ids, lo, hi, runs[i]) {
      assert MaximalRun(ids, lo, left, runs[i]);
      assert runs[i].right !in ids;
    }
    forall k: nat | lo <= k < hi && k !in ids ensures Covers(longer, k) {
      if k < left {
        var i :| 0 <= i < |runs| && runs[i].Contains(k);
        assert longer[i].Contains(k);
      } else {
        assert longer[|runs|].Contains(k);
      }
    }
  }

  /** Everything below `left` has been turned into runs, and `left..pointer-1` is missing. */
  ghost predicate Scanned(ids: set<nat>, lo: nat, left: nat, pointer: nat, runs: seq<Interval>) {
    && lo <= left <= pointer
    && MissingRuns(ids, lo, left, runs)
    && (left == lo || left - 1 in ids)
    && forall k: nat | left <= k < pointer :: k !in ids
  }

  lemma ScanPush(ids: set<nat>, lo: nat, left: nat, pointer: nat, runs: seq<Interval>, run: Interval)
    requires Scanned(ids, lo, left, pointer, runs) && pointer in ids && left < pointer && run == Interval(left, pointer - 1)
    ensures Scanned(ids, lo, pointer + 1, pointer + 1, runs + [run])
  {
    RunsPush(ids, lo, left, pointer, pointer + 1, runs);
  }

  lemma ScanSkip(ids: set<nat>, lo: nat, pointer: nat, runs: seq<Interval>)
    requires Scanned(ids, lo, pointer, pointer, runs) && pointer in ids
    ensures Scanned(ids, lo, pointer + 1, pointer + 1, runs)
  {
    RunsSkipHeld(ids, lo, pointer, runs);
  }

  lemma ScanMissing(ids: set<nat>, lo: nat, left: nat, pointer: nat, runs: seq<Interval>)
    requires Scanned(ids, lo, left, pointer, runs) && pointer !in ids
    ensures Scanned(ids, lo, left, pointer + 1, runs)
  {
  }

  /** The scan of one range: the pointer walks from the left to the right border. */
  method MissingIntervals(transactions: map<nat, Transaction>, range: u64, left: u64, right: u64)
    returns (newIntervals: seq<Interval>)
    requires left <= right < SINGLE_BLOB_SIZE && UniqueBlobId(range, right) <= MAX_ID
    ensures MissingRuns(transactions.Keys, UniqueBlobId(range, left), UniqueBlobId(range, right) + 1, newIntervals)
  {
    newIntervals := [];
    var leftBorder: u64 := left;
    var pointer: u64 := left;
    ghost var ids, lo := transactions.Keys, UniqueBlobId(range, left);
    ghost var from, to := lo, lo;
    while pointer <= right
      invariant left <= leftBorder <= pointer <= right + 1
      invariant from == UniqueBlobId(range, leftBorder) && to == UniqueBlobId(range, pointer)
      invariant Scanned(ids, lo, from, to, newIntervals)
    {
      var id: u64 := UniqueBlobId(range, pointer);
      if id in transactions {
        if leftBorder < pointer {
          var run := Interval(UniqueBlobId(range, leftBorder), UniqueBlobId(range, pointer - 1));
          ScanPush(ids, lo, from, to, newIntervals, run);
          newIntervals := newIntervals + [run];
        } else {
          ScanSkip(ids, lo, to, newIntervals);
        }
        pointer := pointer + 1;
        leftBorder := pointer;
        from, to := to + 1, to + 1;
      } else {
        ScanMissing(ids, lo, from, to, newIntervals);
        pointer := pointer + 1;
        to := to + 1;
      }
    }
    assert pointer == right + 1 && to == UniqueBlobId(range, right) + 1;
    if pointer != leftBorder {
      var run := Interval(UniqueBlobId(range, leftBorder), UniqueBlobId(range, pointer - 1));
      RunsPush(ids, lo, from, to, to, newIntervals);
      assert run == Interval(from, to - 1);
      newIntervals := newIntervals + [run];
    }
  }

  // ---------- whom to ask for what ----------

  ghost predicate IsGreatest(nodes: map<PeerId, nat>, peer: PeerId) {
    peer in nodes && forall q :: q in nodes ==> nodes[q] <= nodes[peer]
  }

  /** Some peer has reported more of the range than this node holds. */
  ghost predicate Behind(selfOffsets: map<nat, nat>, offsets: Offsets, range: nat) {
    && range in offsets
    && exists p :: p in offsets[range] && (range in selfOffsets ==> selfOffsets[range] < offsets[range][p])
  }

  ghost function BehindRanges(selfOffsets: map<nat, nat>, offsets: Offsets): set<nat> {
    set range | range in offsets && Behind(selfOffsets, offsets, range)
  }

  /** The node does not hold the identifier, which is beyond its own offset and within what a peer has reported. */
  ghost predicate Lacks(ids: set<nat>, selfOffsets: map<nat, nat>, offsets: Offsets, id: nat) {
    && id !in ids && RangeOf(id) in offsets && NextOffset(selfOffsets, RangeOf(id)) <= OffsetOf(id)
    && exists p :: p in offsets[RangeOf(id)] && OffsetOf(id) <= offsets[RangeOf(id)][p]
  }

  ghost predicate Asked(requests: map<PeerId, seq<Interval>>, peer: PeerId, id: nat) {
    peer in requests && Covers(requests[peer], id)
  }

  ghost predicate Furthest(offsets: Offsets, peer: PeerId, id: nat) {
    RangeOf(id) in offsets && IsGreatest(offsets[RangeOf(id)], peer)
  }

  /** One outcome of the computation: the order in which the lagging ranges were visited, the peer
      chosen for each (any of those that are furthest) and the runs requested from it. */
  datatype Plan = Plan(order: seq<nat>, pick: map<nat, PeerId>, runs: map<nat, seq<Interval>>)

  ghost predicate RangePlanned(ids: set<nat>, selfOffsets: map<nat, nat>, offsets: Offsets,
                               range: nat, peer: PeerId, runs: seq<Interval>)
  {
    && range in offsets
    && IsGreatest(offsets[range], peer)
    && MissingRuns(ids, UniqueBlobId(range, NextOffset(selfOffsets, range)),
                   UniqueBlobId(range, offsets[range][peer]) + 1, runs)
  }

  ghost predicate AllPlanned(ids: set<nat>, selfOffsets: map<nat, nat>, offsets: Offsets, plan: Plan) {
    forall range | range in plan.pick && range in plan.runs ::
      RangePlanned(ids, selfOffsets, offsets, range, plan.pick[range], plan.runs[range])
  }

  ghost predicate IsPlan(ids: set<nat>, selfOffsets: map<nat, nat>, offsets: Offsets, plan: Plan) {
    && IsOrder(plan.order, BehindRanges(selfOffsets, offsets))
    && plan.pick.Keys == plan.runs.Keys == BehindRanges(selfOffsets, offsets)
    && AllPlanned(ids, selfOffsets, offsets, plan)
  }

  /** What is asked of one peer, after visiting the ranges in `order`. */
  function RequestFor(plan: Plan, order: seq<nat>, peer: PeerId): seq<Interval> {
    if order == [] then
      []
    else
      var n := |order| - 1;
      RequestFor(plan, order[..n], peer)
      + if order[n] in plan.pick && order[n] in plan.runs && plan.pick[order[n]] == peer then plan.runs[order[n]] else []
  }

  function Requests(plan: Plan): map<PeerId, seq<Interval>> {
    map peer | peer in plan.pick.Values :: RequestFor(plan, plan.order, peer)
  }

  lemma {:induction false} RequestContains(plan: Plan, order: seq<nat>, range: nat, peer: PeerId)
    requires range in order && range in plan.pick && range in plan.runs && plan.pick[range] == peer
    ensures forall run | run in plan.runs[range] :: run in RequestFor(plan, order, peer)
  {
    var n := |order| - 1;
    if order[n] != range {
      assert order == order[..n] + [order[n]];
      RequestContains(plan, order[..n], range, peer);
    }
  }

  lemma {:induction false} RequestOrigin(plan: Plan, order: seq<nat>, peer: PeerId, run: Interval) returns (range: nat)
    requires run in RequestFor(plan, order, peer)
    ensures range in order && range in plan.pick && range in plan.runs && plan.pick[range] == peer && run in plan.runs[range]
  {
    var n := |order| - 1;
    if run in RequestFor(plan, order[..n], peer) {
      range := RequestOrigin(plan, order[..n], peer, run);
    } else {
      range := order[n];
    }
  }

  function Extended(plan: Plan, range: nat, peer: PeerId, runs: seq<Interval>): Plan {
    Plan(plan.order + [range], plan.pick[range := peer], plan.runs[range := runs])
  }

  lemma {:induction false} RequestStable(plan: Plan, order: seq<nat>, range: nat, peer: PeerId, runs: seq<Interval>, p: PeerId)
    requires range !in order
    ensures RequestFor(Extended(plan, range, peer, runs), order, p) == RequestFor(plan, order, p)
  {
    if order != [] {
      RequestStable(plan, order[..|order| - 1], range, peer, runs, p);
    }
  }

  lemma RequestGrows(plan: Plan, range: nat, peer: PeerId, runs: seq<Interval>, p: PeerId)
    requires range !in plan.order
    ensures var longer := Extended(plan, range, peer, runs);
            RequestFor(longer, longer.order, p) == RequestFor(plan, plan.order, p) + if p == peer then runs else []
  {
    RequestStable(plan, plan.order, range, peer, runs, p);
    assert (plan.order + [range])[..|plan.order|] == plan.order;
  }

  /** `nodes.iter().max_by_key(..)`: on a tie the entry met last wins. */
  method MaxByKey(nodes: map<PeerId, nat>) returns (best: Option<(PeerId, nat)>)
    ensures best.None? <==> nodes == map[]
    ensures best.Some? ==> IsGreatest(nodes, best.value.0) && best.value.1 == nodes[best.value.0]
  {
    best := None;
    var remaining := nodes.Keys;
    while remaining != {}
      invariant remaining <= nodes.Keys
      invariant best.None? <==> remaining == nodes.Keys
      invariant best.Some? ==>
          && best.value.0 in nodes && best.value.1 == nodes[best.value.0]
          && forall q :: q in nodes && q !in remaining ==> nodes[q] <= best.value.1
      decreases remaining
    {
      var peer :| peer in remaining;
      remaining := remaining - {peer};
      if best.None? || best.value.1 <= nodes[peer] {
        best := Some((peer, nodes[peer]));
      }
    }
  }

  ghost predicate BoundedOffsets(offsets: Offsets) {
    forall range, p :: range in offsets && p in offsets[range] ==>
      offsets[range][p] < SINGLE_BLOB_SIZE && UniqueBlobId(range, offsets[range][p]) <= MAX_ID
  }

  function SoFar(result: map<PeerId, seq<Interval>>, peer: PeerId): seq<Interval> {
    if peer in result then result[peer] else []
  }

  /** The requests gathered from the ranges planned so far. */
  ghost predicate Gathered(plan: Plan, result: map<PeerId, seq<Interval>>) {
    && IsOrder(plan.order, plan.pick.Keys)
    && plan.pick.Keys == plan.runs.Keys
    && result.Keys == plan.pick.Values
    && (forall p: PeerId :: SoFar(result, p) == RequestFor(plan, plan.order, p))
  }

  lemma SoFarGrows(plan: Plan, result: map<PeerId, seq<Interval>>, range: nat, peer: PeerId, runs: seq<Interval>, p: PeerId)
    requires SoFar(result, p) == RequestFor(plan, plan.order, p) && range !in plan.order
    ensures SoFar(result[peer := SoFar(result, peer) + runs], p)
            == RequestFor(Extended(plan, range, peer, runs), plan.order + [range], p)
  {
    RequestGrows(plan, range, peer, runs, p);
    assert SoFar(result, p) + [] == SoFar(result, p);
  }

  lemma ValuesGrow(pick: map<nat, PeerId>, range: nat, peer: PeerId)
    requires range !in pick
    ensures pick[range := peer].Values == pick.Values + {peer}
    ensures pick[range := peer].Keys == pick.Keys + {range}
  {
    var longer := pick[range := peer];
    forall p | p in pick.Values ensures p in longer.Values {
      var r :| r in pick && pick[r] == p;
      assert longer[r] == p;
    }
    assert longer[range] == peer;
  }

  lemma GatheredRequests(plan: Plan, result: map<PeerId, seq<Interval>>, range: nat, peer: PeerId, runs: seq<Interval>)
    requires range !in plan.order && forall p: PeerId :: SoFar(result, p) == RequestFor(plan, plan.order, p)
    ensures var longer, more := Extended(plan, range, peer, runs), result[peer := SoFar(result, peer) + runs];
            forall p: PeerId :: SoFar(more, p) == RequestFor(longer, longer.order, p)
  {
    var longer, more := Extended(plan, range, peer, runs), result[peer := SoFar(result, peer) + runs];
    forall p: PeerId ensures SoFar(more, p) == RequestFor(longer, longer.order, p) {
      assert SoFar(result, p) == RequestFor(plan, plan.order, p);
      SoFarGrows(plan, result, range, peer, runs, p);
    }
  }

  lemma KeysGrow<T>(m: map<nat, T>, range: nat, value: T)
    ensures m[range := value].Keys == m.Keys + {range}
  {
  }

  lemma GatheredGrows(plan: Plan, result: map<PeerId, seq<Interval>>, range: nat, peer: PeerId, runs: seq<Interval>)
    requires Gathered(plan, result) && range !in plan.pick
    ensures Gathered(Extended(plan, range, peer, runs), result[peer := SoFar(result, peer) + runs])
    ensures Extended(plan, range, peer, runs).pick.Keys == plan.pick.Keys + {range}
  {
    GatheredRequests(plan, result, range, peer, runs);
    GatheredKeys(plan, range, peer, runs);
    ValuesGrow(plan.pick, range, peer);
    KeysGrow(result, peer, SoFar(result, peer) + runs);
  }

  lemma GatheredKeys(plan: Plan, range: nat, peer: PeerId, runs: seq<Interval>)
    requires IsOrder(plan.order, plan.pick.Keys) && plan.pick.Keys == plan.runs.Keys && range !in plan.pick
    ensures var longer := Extended(plan, range, peer, runs);
            IsOrder(longer.order, longer.pick.Keys) && longer.pick.Keys == longer.runs.Keys
  {
    OrderGrows(plan.order, plan.pick.Keys, range);
    KeysGrow(plan.pick, range, peer);
    KeysGrow(plan.runs, range, runs);
  }

  lemma PlannedGrows(ids: set<nat>, selfOffsets: map<nat, nat>, offsets: Offsets, plan: Plan,
                     range: nat, peer: PeerId, runs: seq<Interval>)
    requires AllPlanned(ids, selfOffsets, offsets, plan)
    requires RangePlanned(ids, selfOffsets, offsets, range, peer, runs)
    ensures AllPlanned(ids, selfOffsets, offsets, Extended(plan, range, peer, runs))
  {
    var longer := Extended(plan, range, peer, runs);
    forall r | r in longer.pick && r in longer.runs
      ensures RangePlanned(ids, selfOffsets, offsets, r, longer.pick[r], longer.runs[r])
    {
      if r != range {
        assert RangePlanned(ids, selfOffsets, offsets, r, plan.pick[r], plan.runs[r]);
      }
    }
  }

  /** One range of the loop of `self_delays`; `None` when the node does not lag behind in it. */
  method PlanRange(transactions: map<nat, Transaction>, selfOffsets: map<nat, nat>, offsets: Offsets, range: nat)
    returns (planned: Option<(PeerId, seq<Interval>)>)
    requires BoundedOffsets(offsets) && range in offsets
    ensures planned.Some? <==> Behind(selfOffsets, offsets, range)
    ensures planned.Some? ==>
              RangePlanned(transactions.Keys, selfOffsets, offsets, range, planned.value.0, planned.value.1)
  {
    var best := MaxByKey(offsets[range]);
    if best.None? {
      return None;
    }
    var peer, rightBorder := best.value.0, best.value.1;
    if range in selfOffsets && selfOffsets[range] >= rightBorder {
      return None;
    }
    var newIntervals := MissingIntervals(transactions, range, NextOffset(selfOffsets, range), rightBorder);
    planned := Some((peer, newIntervals));
  }

  lemma GatheredAll(plan: Plan, result: map<PeerId, seq<Interval>>)
    requires Gathered(plan, result)
    ensures result == Requests(plan)
  {
    forall p | p in result ensures result[p] == Requests(plan)[p] {
      assert SoFar(result, p) == RequestFor(plan, plan.order, p);
    }
  }

  lemma RemoveOne(all: set<nat>, remaining: set<nat>, one: nat)
    requires one in remaining
    ensures all - (remaining - {one}) == if one in all then (all - remaining) + {one} else all - remaining
  {
  }

  // ---------- what a request says ----------

  /** An identifier is requested from a peer iff its range was assigned to that peer, it lies between
      the own offset and the offset the peer has reported, and it is not held. */
  lemma RequestExact(ids: set<nat>, selfOffsets: map<nat, nat>, offsets: Offsets, plan: Plan, peer: PeerId, id: nat)
    requires IsPlan(ids, selfOffsets, offsets, plan) && BoundedOffsets(offsets)
    ensures Covers(RequestFor(plan, plan.order, peer), id) <==>
              var range := RangeOf(id);
              && range in plan.pick && plan.pick[range] == peer
              && NextOffset(selfOffsets, range) <= OffsetOf(id) <= offsets[range][peer]
              && id !in ids
  {
    var range := RangeOf(id);
    RequestCovers(plan, peer, id);
    forall r | r in plan.pick && plan.pick[r] == peer
      ensures Covers(plan.runs[r], id) <==>
              r == range && NextOffset(selfOffsets, r) <= OffsetOf(id) <= offsets[r][peer] && id !in ids
    {
      PlannedCovers(ids, selfOffsets, offsets, r, peer, plan.runs[r], id);
    }
  }

  /** What is requested from a peer is within what that peer has reported. */
  lemma RequestReported(ids: set<nat>, selfOffsets: map<nat, nat>, offsets: Offsets, plan: Plan, peer: PeerId, id: nat)
    requires IsPlan(ids, selfOffsets, offsets, plan) && BoundedOffsets(offsets)
    requires Covers(RequestFor(plan, plan.order, peer), id)
    ensures var range := RangeOf(id);
            range in offsets && peer in offsets[range] && OffsetOf(id) <= offsets[range][peer]
  {
    RequestExact(ids, selfOffsets, offsets, plan, peer, id);
    assert RangePlanned(ids, selfOffsets, offsets, RangeOf(id), peer, plan.runs[RangeOf(id)]);
  }

  /** Nothing missing between the own offset and the reported one is left out. */
  lemma RequestComplete(ids: set<nat>, selfOffsets: map<nat, nat>, offsets: Offsets, plan: Plan, range: nat, o: nat)
    requires IsPlan(ids, selfOffsets, offsets, plan) && BoundedOffsets(offsets)
    requires range in plan.pick && range in offsets && plan.pick[range] in offsets[range]
    requires NextOffset(selfOffsets, range) <= o <= offsets[range][plan.pick[range]] && UniqueBlobId(range, o) !in ids
    ensures Covers(RequestFor(plan, plan.order, plan.pick[range]), UniqueBlobId(range, o))
  {
    var peer, id := plan.pick[range], UniqueBlobId(range, o);
    assert RangeOf(id) == range && OffsetOf(id) == o;
    PlannedCovers(ids, selfOffsets, offsets, range, peer, plan.runs[range], id);
    RequestCovers(plan, peer, id);
  }

  /** The requests together ask for exactly what the node lacks, and for each identifier one peer only,
      one that is furthest in its range. */
  lemma AskedExact(ids: set<nat>, selfOffsets: map<nat, nat>, offsets: Offsets, plan: Plan, id: nat)
    requires IsPlan(ids, selfOffsets, offsets, plan) && BoundedOffsets(offsets)
    ensures Lacks(ids, selfOffsets, offsets, id) <==> exists p :: Asked(Requests(plan), p, id)
    ensures forall p :: Asked(Requests(plan), p, id) ==>
      RangeOf(id) in plan.pick && p == plan.pick[RangeOf(id)] && Furthest(offsets, p, id)
  {
    var range := RangeOf(id);
    forall p | Asked(Requests(plan), p, id)
      ensures range in plan.pick && p == plan.pick[range] && Furthest(offsets, p, id)
      ensures Lacks(ids, selfOffsets, offsets, id)
    {
      RequestExact(ids, selfOffsets, offsets, plan, p, id);
      RequestReported(ids, selfOffsets, offsets, plan, p, id);
      assert RangePlanned(ids, selfOffsets, offsets, range, p, plan.runs[range]);
    }
    if Lacks(ids, selfOffsets, offsets, id) {
      LackingPlanned(ids, selfOffsets, offsets, plan, id);
      RequestComplete(ids, selfOffsets, offsets, plan, range, OffsetOf(id));
      assert UniqueBlobId(range, OffsetOf(id)) == id;
      assert Asked(Requests(plan), plan.pick[range], id);
    }
  }

  lemma LackingPlanned(ids: set<nat>, selfOffsets: map<nat, nat>, offsets: Offsets, plan: Plan, id: nat)
    requires IsPlan(ids, selfOffsets, offsets, plan) && Lacks(ids, selfOffsets, offsets, id)
    ensures var range := RangeOf(id);
            && range in plan.pick && range in offsets && plan.pick[range] in offsets[range]
            && OffsetOf(id) <= offsets[range][plan.pick[range]]
  {
    var range := RangeOf(id);
    var q :| q in offsets[range] && OffsetOf(id) <= offsets[range][q];
    assert Behind(selfOffsets, offsets, range);
    assert range in BehindRanges(selfOffsets, offsets);
    assert RangePlanned(ids, selfOffsets, offsets, range, plan.pick[range], plan.runs[range]);
  }

  // ---------- what the requests look like ----------

  /** A stretch of the range that is missing and cannot be extended, between the own offset and what the
      peer has reported, who is furthest in the range. */
  ghost predicate RunOf(ids: set<nat>, selfOffsets: map<nat, nat>, offsets: Offsets, peer: PeerId, run: Interval, range: nat) {
    && range in offsets && IsGreatest(offsets[range], peer)
    && MaximalRun(ids, UniqueBlobId(range, NextOffset(selfOffsets, range)),
                  UniqueBlobId(range, offsets[range][peer]) + 1, run)
  }

  /** Such stretches, none overlapping another, and those of one range in ascending order. */
  ghost predicate RequestList(ids: set<nat>, selfOffsets: map<nat, nat>, offsets: Offsets, peer: PeerId, list: seq<Interval>) {
    && (forall i | 0 <= i < |list| :: RunOf(ids, selfOffsets, offsets, peer, list[i], RangeOf(list[i].left)))
    && Pairwise(list, Apart)
    && forall i, j | 0 <= i < j < |list| && RangeOf(list[i].left) == RangeOf(list[j].left) :: list[i].right < list[j].left
  }

  lemma RunInRange(ids: set<nat>, selfOffsets: map<nat, nat>, offsets: Offsets, peer: PeerId, run: Interval, range: nat)
    requires BoundedOffsets(offsets) && RunOf(ids, selfOffsets, offsets, peer, run, range)
    ensures RangeOf(run.left) == range && RangeOf(run.right) == range && run.left <= run.right
  {
  }

  lemma RunsApart(a: Interval, b: Interval)
    requires RangeOf(a.left) == RangeOf(a.right) && RangeOf(b.left) == RangeOf(b.right)
    requires RangeOf(a.left) != RangeOf(b.left) || a.right < b.left
    ensures Apart(a, b)
  {
  }

  ghost predicate WithinRanges(list: seq<Interval>, order: seq<nat>) {
    forall i | 0 <= i < |list| :: RangeOf(list[i].left) == RangeOf(list[i].right) && RangeOf(list[i].left) in order
  }

  lemma ListAppended(ids: set<nat>, selfOffsets: map<nat, nat>, offsets: Offsets, peer: PeerId,
                     list: seq<Interval>, runs: seq<Interval>, order: seq<nat>, range: nat)
    requires BoundedOffsets(offsets) && RequestList(ids, selfOffsets, offsets, peer, list) && WithinRanges(list, order)
    requires range !in order && RangePlanned(ids, selfOffsets, offsets, range, peer, runs)
    ensures RequestList(ids, selfOffsets, offsets, peer, list + runs) && WithinRanges(list + runs, order + [range])
  {
    var all := list + runs;
    forall i | 0 <= i < |runs| ensures RunOf(ids, selfOffsets, offsets, peer, runs[i], range) && RangeOf(runs[i].left) == RangeOf(runs[i].right) == range {
      RunInRange(ids, selfOffsets, offsets, peer, runs[i], range);
    }
    forall i | 0 <= i < |all|
      ensures RunOf(ids, selfOffsets, offsets, peer, all[i], RangeOf(all[i].left))
      ensures RangeOf(all[i].left) == RangeOf(all[i].right) && RangeOf(all[i].left) in order + [range]
      ensures i < |list| <==> RangeOf(all[i].left) != range
    {
      assert i < |list| ==> all[i] == list[i] && RangeOf(list[i].left) in order;
    }
    forall i, j | 0 <= i < j < |all|
      ensures RangeOf(all[i].left) == RangeOf(all[j].left) ==> all[i].right < all[j].left
      ensures Apart(all[i], all[j]) && Apart(all[j], all[i])
    {
      if j < |list| {
        assert Apart(list[i], list[j]) && Apart(list[j], list[i]);
      } else {
        RunsApart(all[i], all[j]);
      }
    }
  }

  lemma {:induction false} ListFor(ids: set<nat>, selfOffsets: map<nat, nat>, offsets: Offsets, plan: Plan,
                                   order: seq<nat>, peer: PeerId)
    requires BoundedOffsets(offsets) && AllPlanned(ids, selfOffsets, offsets, plan)
    requires forall i, j | 0 <= i < j < |order| :: order[i] != order[j]
    ensures RequestList(ids, selfOffsets, offsets, peer, RequestFor(plan, order, peer))
    ensures WithinRanges(RequestFor(plan, order, peer), order)
  {
    if order != [] {
      var n := |order| - 1;
      var front, range := order[..n], order[n];
      ListFor(ids, selfOffsets, offsets, plan, front, peer);
      OrderPrefix(order, n);
      assert order == front + [range];
      if range in plan.pick && range in plan.runs && plan.pick[range] == peer {
        assert RangePlanned(ids, selfOffsets, offsets, range, plan.pick[range], plan.runs[range]);
        ListAppended(ids, selfOffsets, offsets, peer, RequestFor(plan, front, peer), plan.runs[range], front, range);
      } else {
        assert RequestFor(plan, order, peer) == RequestFor(plan, front, peer);
      }
    }
  }

  ghost predicate ListsProper(ids: set<nat>, selfOffsets: map<nat, nat>, offsets: Offsets, result: map<PeerId, seq<Interval>>) {
    forall p | p in result :: RequestList(ids, selfOffsets, offsets, p, result[p])
  }

  /** Asked are peers that are furthest in a lagging range, one for each such range. */
  ghost predicate PeersChosen(selfOffsets: map<nat, nat>, offsets: Offsets, result: map<PeerId, seq<Interval>>) {
    && (forall p | p in result :: exists range :: Behind(selfOffsets, offsets, range) && IsGreatest(offsets[range], p))
    && (forall range | Behind(selfOffsets, offsets, range) :: exists p :: p in result && IsGreatest(offsets[range], p))
  }

  /** Exactly what is lacking is asked for, of one peer that is furthest. */
  ghost predicate AsksExactly(ids: set<nat>, selfOffsets: map<nat, nat>, offsets: Offsets, result: map<PeerId, seq<Interval>>) {
    && (forall id: nat :: Lacks(ids, selfOffsets, offsets, id) <==> exists p :: Asked(result, p, id))
    && (forall p, id: nat :: Asked(result, p, id) ==> Furthest(offsets, p, id))
    && (forall p, q, id: nat :: Asked(result, p, id) && Asked(result, q, id) ==> p == q)
  }

  /** The outcome of `self_delays`, in plain terms: who is asked, each for maximal missing stretches that do
      not overlap, and altogether for exactly what the node lacks. */
  ghost predicate DelaysExact(ids: set<nat>, selfOffsets: map<nat, nat>, offsets: Offsets, result: map<PeerId, seq<Interval>>) {
    && ListsProper(ids, selfOffsets, offsets, result)
    && PeersChosen(selfOffsets, offsets, result)
    && AsksExactly(ids, selfOffsets, offsets, result)
  }

  lemma AllAsked(ids: set<nat>, selfOffsets: map<nat, nat>, offsets: Offsets, plan: Plan)
    requires IsPlan(ids, selfOffsets, offsets, plan) && BoundedOffsets(offsets)
    ensures AsksExactly(ids, selfOffsets, offsets, Requests(plan))
  {
    forall id: nat
      ensures Lacks(ids, selfOffsets, offsets, id) <==> exists p :: Asked(Requests(plan), p, id)
      ensures forall p :: Asked(Requests(plan), p, id) ==>
        RangeOf(id) in plan.pick && p == plan.pick[RangeOf(id)] && Furthest(offsets, p, id)
    {
      AskedExact(ids, selfOffsets, offsets, plan, id);
    }
  }

  lemma PlanChooses(ids: set<nat>, selfOffsets: map<nat, nat>, offsets: Offsets, plan: Plan)
    requires IsPlan(ids, selfOffsets, offsets, plan)
    ensures PeersChosen(selfOffsets, offsets, Requests(plan))
  {
    forall p | p in Requests(plan)
      ensures exists range :: Behind(selfOffsets, offsets, range) && IsGreatest(offsets[range], p)
    {
      var range :| range in plan.pick && plan.pick[range] == p;
      assert RangePlanned(ids, selfOffsets, offsets, range, plan.pick[range], plan.runs[range]);
      assert Behind(selfOffsets, offsets, range) && IsGreatest(offsets[range], p);
    }
    forall range | Behind(selfOffsets, offsets, range)
      ensures exists p :: p in Requests(plan) && IsGreatest(offsets[range], p)
    {
      assert range in plan.pick;
      assert RangePlanned(ids, selfOffsets, offsets, range, plan.pick[range], plan.runs[range]);
      assert plan.pick[range] in Requests(plan);
    }
  }

  lemma PlanLists(ids: set<nat>, selfOffsets: map<nat, nat>, offsets: Offsets, plan: Plan)
    requires IsPlan(ids, selfOffsets, offsets, plan) && BoundedOffsets(offsets)
    ensures ListsProper(ids, selfOffsets, offsets, Requests(plan))
  {
    forall p | p in Requests(plan) ensures RequestList(ids, selfOffsets, offsets, p, Requests(plan)[p]) {
      ListFor(ids, selfOffsets, offsets, plan, plan.order, p);
    }
  }

  lemma PlanExact(ids: set<nat>, selfOffsets: map<nat, nat>, offsets: Offsets, plan: Plan)
    requires IsPlan(ids, selfOffsets, offsets, plan) && BoundedOffsets(offsets)
    ensures DelaysExact(ids, selfOffsets, offsets, Requests(plan))
  {
    AllAsked(ids, selfOffsets, offsets, plan);
    PlanChooses(ids, selfOffsets, offsets, plan);
    PlanLists(ids, selfOffsets, offsets, plan);
  }

  /** `self_delays` */
  method SelfDelays(transactions: map<nat, Transaction>, selfOffsets: map<nat, nat>, offsets: Offsets)
    returns (result: map<PeerId, seq<Interval>>, ghost plan: Plan)
    requires BoundedOffsets(offsets)
    ensures IsPlan(transactions.Keys, selfOffsets, offsets, plan)
    ensures result == Requests(plan)
    ensures DelaysExact(transactions.Keys, selfOffsets, offsets, result)
  {
    result, plan := map[], Plan([], map[], map[]);
    ghost var behind := BehindRanges(selfOffsets, offsets);
    var remaining := offsets.Keys;
    while remaining != {}
      invariant remaining <= offsets.Keys
      invariant plan.pick.Keys == behind - remaining
      invariant Gathered(plan, result) && AllPlanned(transactions.Keys, selfOffsets, offsets, plan)
      decreases remaining
    {
      var range :| range in remaining;
      RemoveOne(behind, remaining, range);
      remaining := remaining - {range};
      var planned := PlanRange(transactions, selfOffsets, offsets, range);
      assert range in behind <==> planned.Some?;
      if planned.Some? {
        var (peer, newIntervals) := planned.value;
        GatheredGrows(plan, result, range, peer, newIntervals);
        PlannedGrows(transactions.Keys, selfOffsets, offsets, plan, range, peer, newIntervals);
        plan := Extended(plan, range, peer, newIntervals);
        result := result[peer := SoFar(result, peer) + newIntervals];
      }
    }
    GatheredAll(plan, result);
    PlanExact(transactions.Keys, selfOffsets, offsets, plan);
  }

  lemma PlannedCovers(ids: set<nat>, selfOffsets: map<nat, nat>, offsets: Offsets, range: nat, peer: PeerId, runs: seq<Interval>, id: nat)
    requires RangePlanned(ids, selfOffsets, offsets, range, peer, runs) && BoundedOffsets(offsets)
    ensures Covers(runs, id) <==>
            range == RangeOf(id) && NextOffset(selfOffsets, range) <= OffsetOf(id) <= offsets[range][peer] && id !in ids
  {
    var left, right := NextOffset(selfOffsets, range), offsets[range][peer];
    RunsExact(ids, UniqueBlobId(range, left), UniqueBlobId(range, right) + 1, runs, id);
    assert UniqueBlobId(range, left) <= id < UniqueBlobId(range, right) + 1
      <==> range == RangeOf(id) && left <= OffsetOf(id) <= right;
  }

  lemma RequestCovers(plan: Plan, peer: PeerId, id: nat)
    requires forall r :: r in plan.order <==> r in plan.pick
    requires plan.pick.Keys == plan.runs.Keys
    ensures Covers(RequestFor(plan, plan.order, peer), id) <==>
            exists r :: r in plan.pick && plan.pick[r] == peer && Covers(plan.runs[r], id)
  {
    var request := RequestFor(plan, plan.order, peer);
    if Covers(request, id) {
      var i :| 0 <= i < |request| && request[i].Contains(id);
      var r := RequestOrigin(plan, plan.order, peer, request[i]);
      var j :| 0 <= j < |plan.runs[r]| && plan.runs[r][j] == request[i];
      assert Covers(plan.runs[r], id);
    }
    if r :| r in plan.pick && plan.pick[r] == peer && Covers(plan.runs[r], id) {
      var j :| 0 <= j < |plan.runs[r]| && plan.runs[r][j].Contains(id);
      RequestContains(plan, plan.order, r, peer);
      assert plan.runs[r][j] in request;
      var i :| 0 <= i < |request| && request[i] == plan.runs[r][j];
      assert request[i].Contains(id);
    }
  }

  /** Where the index is exact a lagging range is asked for, beginning with the next identifier needed. */
  lemma NextNeededRequested(index: Index, offsets: Offsets, plan: Plan, range: nat)
    requires Possession(index) && ExactAt(index, range) && BoundedOffsets(offsets)
    requires IsPlan(index.Held(), index.selfOffsets, offsets, plan) && Behind(index.selfOffsets, offsets, range)
    ensures plan.runs[range] != []
    ensures plan.runs[range][0].left == UniqueBlobId(range, NextOffset(index.selfOffsets, range))
  {
    var peer, runs := plan.pick[range], plan.runs[range];
    assert RangePlanned(index.Held(), index.selfOffsets, offsets, range, peer, runs);
    NextMissing(index, offsets, range, peer);
    FirstPlanned(index.Held(), index.selfOffsets, offsets, range, peer, runs);
  }

  lemma NextMissing(index: Index, offsets: Offsets, range: nat, peer: PeerId)
    requires Possession(index) && ExactAt(index, range) && BoundedOffsets(offsets)
    requires Behind(index.selfOffsets, offsets, range) && IsGreatest(offsets[range], peer)
    ensures NextOffset(index.selfOffsets, range) <= offsets[range][peer]
    ensures UniqueBlobId(range, NextOffset(index.selfOffsets, range)) !in index.Held()
  {
  }

  lemma FirstPlanned(ids: set<nat>, selfOffsets: map<nat, nat>, offsets: Offsets, range: nat, peer: PeerId, runs: seq<Interval>)
    requires RangePlanned(ids, selfOffsets, offsets, range, peer, runs)
    requires NextOffset(selfOffsets, range) <= offsets[range][peer]
    requires UniqueBlobId(range, NextOffset(selfOffsets, range)) !in ids
    ensures runs != [] && runs[0].left == UniqueBlobId(range, NextOffset(selfOffsets, range))
  {
    FirstRun(ids, UniqueBlobId(range, NextOffset(selfOffsets, range)), UniqueBlobId(range, offsets[range][peer]) + 1, runs);
  }

  lemma FirstRun(ids: set<nat>, lo: nat, hi: nat, runs: seq<Interval>)
    requires MissingRuns(ids, lo, hi, runs) && lo < hi && lo !in ids
    ensures runs != [] && runs[0].left == lo
  {
    assert Covers(runs, lo);
    var i :| 0 <= i < |runs| && runs[i].Contains(lo);
    assert MaximalRun(ids, lo, hi, runs[0]) && MaximalRun(ids, lo, hi, runs[i]);
  }

  // ---------- there is always a plan ----------

  lemma {:induction false} ScanExists(ids: set<nat>, lo: nat, pointer: nat) returns (left: nat, runs: seq<Interval>)
    requires lo <= pointer
    ensures Scanned(ids, lo, left, pointer, runs)
    decreases pointer
  {
    if pointer == lo {
      left, runs := lo, [];
    } else {
      left, runs := ScanExists(ids, lo, pointer - 1);
      if pointer - 1 !in ids {
        ScanMissing(ids, lo, left, pointer - 1, runs);
      } else if left < pointer - 1 {
        var run := Interval(left, pointer - 2);
        ScanPush(ids, lo, left, pointer - 1, runs, run);
        left, runs := pointer, runs + [run];
      } else {
        ScanSkip(ids, lo, pointer - 1, runs);
        left := pointer;
      }
    }
  }

  lemma RunsExist(ids: set<nat>, lo: nat, hi: nat)
    requires lo <= hi
    ensures exists runs :: MissingRuns(ids, lo, hi, runs)
  {
    var left, runs := ScanExists(ids, lo, hi);
    if left < hi {
      RunsPush(ids, lo, left, hi, hi, runs);
    } else {
      assert MissingRuns(ids, lo, hi, runs);
    }
  }

  ghost function SomeRuns(ids: set<nat>, lo: nat, hi: nat): (runs: seq<Interval>)
    requires lo <= hi
    ensures MissingRuns(ids, lo, hi, runs)
  {
    RunsExist(ids, lo, hi);
    var runs :| MissingRuns(ids, lo, hi, runs); runs
  }

  ghost function SomeGreatest(nodes: map<PeerId, nat>): (peer: PeerId)
    requires nodes != map[]
    ensures IsGreatest(nodes, peer)
  {
    assert exists p :: IsGreatest(nodes, p) by {
      assert nodes.Keys != {};
      var p := GreatestPeer(nodes);
      assert IsGreatest(nodes, p);
    }
    var peer :| IsGreatest(nodes, peer); peer
  }

  ghost function SomeRangePlan(ids: set<nat>, selfOffsets: map<nat, nat>, offsets: Offsets, range: nat): (p: (PeerId, seq<Interval>))
    requires Behind(selfOffsets, offsets, range)
    ensures RangePlanned(ids, selfOffsets, offsets, range, p.0, p.1)
  {
    var peer := SomeGreatest(offsets[range]);
    (peer, SomeRuns(ids, UniqueBlobId(range, NextOffset(selfOffsets, range)), UniqueBlobId(range, offsets[range][peer]) + 1))
  }

  /** Whatever a node knows, the computation has an outcome. */
  lemma PlanExists(ids: set<nat>, selfOffsets: map<nat, nat>, offsets: Offsets) returns (plan: Plan)
    ensures IsPlan(ids, selfOffsets, offsets, plan)
  {
    var behind := BehindRanges(selfOffsets, offsets);
    var pick := map range | range in behind :: SomeRangePlan(ids, selfOffsets, offsets, range).0;
    var runs := map range | range in behind :: SomeRangePlan(ids, selfOffsets, offsets, range).1;
    var order := OrderExists(behind);
    plan := Plan(order, pick, runs);
  }
}
