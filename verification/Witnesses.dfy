/**
 Runs that show what the program does not promise: an offset that goes back, a consensus offset that is
 lowered, and two nodes with the same committed offsets and different logs.
 */
module Witnesses {
  import opened Iteration
  import opened RangeKey
  import opened Consensus
  import opened Indexing
  import opened Histories
  import opened Epochs
  import opened Commits
  import opened Nodes
  import opened Protocol
  import opened Theorems
  import opened Runs

  // ---------- a recorded offset goes back ----------

  ghost predicate AllSingle(ds: seq<Delivery>) {
    forall i | 0 <= i < |ds| :: Single(ds[i])
  }

  /** Node 0 has received the first deliveries, one after each step. */
  ghost predicate Follows(run: Run, ds: seq<Delivery>) {
    && |run.acts| == |ds| && |run.states| == |ds| + 1
    && forall i | 0 <= i <= |ds| :: 0 in run.states[i].nodes && run.states[i].nodes[0].index == IngestMany(Empty(), ds[..i])
  }

  lemma SingleShape(d: Delivery)
    requires Single(d)
    ensures d == Delivery([d.txs[0]], [RangeOf(d.txs[0].id)])
  {
  }

  lemma IngestManyLast(index: Index, ds: seq<Delivery>)
    requires ds != []
    ensures var n := |ds| - 1;
            IngestMany(index, ds) == Ingest(IngestMany(index, ds[..n]), ds[n].txs, ds[n].order)
  {
  }

  lemma {:induction false} FollowsNext(run: Run, longer: Run, ds: seq<Delivery>)
    requires ds != [] && Follows(run, ds[..|ds| - 1]) && Extends(run, longer) && |longer.acts| == |ds|
    requires 0 in longer.states[|ds|].nodes && longer.states[|ds|].nodes[0].index == IngestMany(Empty(), ds)
    ensures Follows(longer, ds)
  {
    var front := ds[..|ds| - 1];
    forall i | 0 <= i <= |ds|
      ensures 0 in longer.states[i].nodes && longer.states[i].nodes[0].index == IngestMany(Empty(), ds[..i])
    {
      if i < |ds| {
        ExtendsAt(run, longer, i);
        assert front[..i] == ds[..i];
      } else {
        assert ds[..i] == ds;
      }
    }
  }

  /** A gateway can bring about every history of single deliveries. */
  lemma {:induction false} GatewayRun(sha: Sha256, ds: seq<Delivery>) returns (run: Run)
    requires AllSingle(ds)
    ensures Valid(sha, run) && Follows(run, ds)
    decreases |ds|
  {
    if ds == [] {
      run := Run([Alone(0, 1)], []);
      StartRun(sha, Alone(0, 1));
    } else {
      var n := |ds| - 1;
      var before := GatewayRun(sha, ds[..n]);
      assert ds[..n][..n] == ds[..n];
      SingleShape(ds[n]);
      run := SubmitNext(sha, before, 0, ds[n].txs[0]);
      IngestManyLast(Empty(), ds);
      FollowsNext(before, run, ds);
    }
  }

  /** In no run that leads a node to this store has the recorded offset of the range ever gone back. */
  ghost predicate NeverGoesBack(sha: Sha256, ids: set<nat>, range: nat) {
    forall run: Run, p: PeerId, i: nat ::
      Valid(sha, run) && p in End(sha, run).nodes && HeldBy(End(sha, run), p) == ids
      && i <= |run.acts| && p in run.states[i].nodes
      ==> NoLowerAt(run.states[i].nodes[p].index.selfOffsets, End(sha, run).nodes[p].index.selfOffsets, range)
  }

  lemma SpillGoesBack(sha: Sha256, ids: set<nat>, range: nat)
    requires Spills(ids, range) && forall id | id in ids :: id <= MAX_ID
    ensures !NeverGoesBack(sha, ids, range)
  {
    var good, bad, full := SpillHistories(ids, range);
    var run := GatewayRun(sha, bad);
    assert bad[..|bad|] == bad;
    assert HeldBy(End(sha, run), 0) == ids;
    assert !NoLowerAt(run.states[full].nodes[0].index.selfOffsets, End(sha, run).nodes[0].index.selfOffsets, range);
  }

  /** The condition under which recorded offsets do not go back is exact: a store is safe in a range,
      whatever run has led to it, if and only if its blob is not full or the next one has not begun. */
  lemma IndexGoesBackExactly(sha: Sha256, ids: set<nat>, range: nat)
    requires forall id | id in ids :: id <= MAX_ID
    ensures NeverGoesBack(sha, ids, range) <==> !Spills(ids, range)
  {
    if Spills(ids, range) {
      SpillGoesBack(sha, ids, range);
    } else {
      forall run: Run, p: PeerId, i: nat | Valid(sha, run) && p in End(sha, run).nodes && HeldBy(End(sha, run), p) == ids
          && i <= |run.acts| && p in run.states[i].nodes
        ensures NoLowerAt(run.states[i].nodes[p].index.selfOffsets, End(sha, run).nodes[p].index.selfOffsets, range)
      {
        IndexNeverGoesBack(sha, run.states, run.acts, i, |run.acts|, p, range);
      }
    }
  }

  // ---------- nodes that have not heard of others ----------

  /** The node knows its own offsets and no others. */
  ghost predicate OnlySelf(n: Node) {
    forall range | range in n.offsets :: n.offsets[range].Keys == {n.me}
  }

  lemma OneReport(me: PeerId, v: nat)
    ensures ConsensusMaximum(map[me := v], 1).Some? && ConsensusMaximum(map[me := v], 1).value == v
  {
    var reports: map<PeerId, nat> := map[me := v];
    assert AtLeast(reports, v) == {me} && Above(reports, v) == {};
    assert me in reports && reports[me] == v;
    ConsensusMaximumExact(reports, 1, v);
  }

  lemma SameMaps(a: map<nat, nat>, b: map<nat, nat>)
    requires forall k :: k in a <==> k in b
    requires forall k | k in a :: a[k] == b[k]
    ensures a == b
  {
  }

  /** With a quorum of one a node on its own takes its own offsets for consensus. */
  lemma AloneConsensus(n: Node)
    requires SelfPointers(n) && ConsensusKnown(n) && OnlySelf(n) && n.quorum == 1
    ensures Recalculated(n).consensus == n.index.selfOffsets
  {
    RecalculatedMaxima(n);
    forall range: nat
      ensures range in n.index.selfOffsets <==> range in Maxima(n.offsets, 1)
      ensures range in n.index.selfOffsets ==> Maxima(n.offsets, 1)[range] == n.index.selfOffsets[range]
    {
      OwnMaximum(n, range);
    }
    SameMaps(Maxima(n.offsets, 1), n.index.selfOffsets);
  }

  lemma OwnMaximum(n: Node, range: nat)
    requires SelfPointers(n) && OnlySelf(n) && n.quorum == 1
    ensures range in n.index.selfOffsets <==> range in Maxima(n.offsets, 1)
    ensures range in n.index.selfOffsets ==> Maxima(n.offsets, 1)[range] == n.index.selfOffsets[range]
  {
    if range in n.offsets {
      var v := n.offsets[range][n.me];
      assert n.offsets[range] == map[n.me := v];
      OneReport(n.me, v);
      MaximumAt(n.offsets, 1, range);
    }
  }

  lemma ReceivedOnlySelf(n: Node, txs: seq<Transaction>, order: seq<nat>)
    requires OnlySelf(n)
    ensures OnlySelf(Received(n, txs, order))
  {
  }

  /** The offset of a range of which just the identifiers up to an offset are held. */
  lemma PrefixRecorded(index: Index, range: nat, offset: nat)
    requires IndexInv(index) && offset + 1 < SINGLE_BLOB_SIZE
    requires PrefixHeld(index.Held(), range, offset) && UniqueBlobId(range, offset + 1) !in index.Held()
    ensures range in index.selfOffsets && index.selfOffsets[range] == offset
  {
    assert UniqueBlobId(range, 0) in index.Held();
    assert !Spills(index.Held(), range);
    assert ExactAt(index, range);
    LongestUnique(index.Held(), range, index.selfOffsets[range], offset);
  }

  // ---------- a consensus offset is lowered ----------

  /** What one node does leaves the others as they are and takes nothing from the network. */
  ghost predicate OnlyMoves(s: System, t: System, p: PeerId) {
    && s.nodes.Keys == t.nodes.Keys && s.net <= t.net
    && forall q | q in s.nodes && q != p :: q in t.nodes && t.nodes[q] == s.nodes[q]
  }

  /** Node `p` receives a transaction and ticks. */
  lemma SubmitAndTick(sha: Sha256, run: Run, p: PeerId, id: nat) returns (longer: Run)
    requires Valid(sha, run) && p in End(sha, run).nodes && id <= MAX_ID
    ensures Valid(sha, longer) && Extends(run, longer) && OnlyMoves(End(sha, run), End(sha, longer), p)
    ensures HeldBy(End(sha, longer), p) == HeldBy(End(sha, run), p) + {id}
    ensures StateOf(p, End(sha, longer).nodes[p].index.selfOffsets) in End(sha, longer).net
  {
    var mid := SubmitNext(sha, run, p, Transaction(id, Created));
    EndMember(sha, run, p);
    StoresExactly(sha, End(sha, run), Gateway(p, Transaction(id, Created)), p);
    var plan;
    longer, plan := TickNext(sha, mid, p);
    ExtendsTransitive(run, mid, longer);
  }

  /** Node `p` receives a state and ticks. */
  lemma HearAndTick(sha: Sha256, run: Run, p: PeerId, from: PeerId, state: map<nat, nat>) returns (longer: Run)
    requires Valid(sha, run) && p in End(sha, run).nodes && from != p && StateOf(from, state) in End(sha, run).net
    ensures Valid(sha, longer) && Extends(run, longer) && OnlyMoves(End(sha, run), End(sha, longer), p)
    ensures End(sha, longer).nodes[p] == Recalculated(Heard(End(sha, run).nodes[p], from, state))
  {
    EndMember(sha, run, p);
    var mid := Then(sha, run, DeliverState(p, from, state));
    ThenRuns(sha, run, DeliverState(p, from, state));
    var plan;
    longer, plan := TickNext(sha, mid, p);
    ExtendsTransitive(run, mid, longer);
  }

  lemma HeardOne(n: Node, from: PeerId, state: map<nat, nat>, range: nat)
    requires n.quorum == 1 && range in state && Reports(n.offsets, range).Keys <= {from}
    ensures var after := Recalculated(Heard(n, from, state));
            && range in after.consensus && after.consensus[range] == state[range]
            && Reports(after.offsets, range).Keys <= {from} && after.quorum == 1
  {
    var after := Heard(n, from, state);
    RecordAt(n.offsets, from, state, range);
    assert after.offsets[range] == map[from := state[range]];
    OneReport(from, state[range]);
    MaximumAt(after.offsets, 1, range);
  }

  function Below(o: nat): set<nat> {
    if o == 0 then {} else Below(o - 1) + {o - 1}
  }

  lemma BelowRecorded(index: Index, o: nat)
    requires IndexInv(index) && o <= 1 && index.Held() == Below(o) + {o}
    ensures 0 in index.selfOffsets && index.selfOffsets[0] == o
  {
    assert Below(0) == {} && Below(1) == {0};
    PrefixRecorded(index, 0, o);
  }

  /** After identifiers 0 up to `o` node 1 has told that it has got that far. */
  lemma Told(sha: Sha256, run: Run, o: nat) returns (longer: Run, state: map<nat, nat>)
    requires Valid(sha, run) && 1 in End(sha, run).nodes && o <= 1 && HeldBy(End(sha, run), 1) == Below(o)
    ensures Valid(sha, longer) && Extends(run, longer) && OnlyMoves(End(sha, run), End(sha, longer), 1)
    ensures HeldBy(End(sha, longer), 1) == Below(o + 1)
    ensures StateOf(1, state) in End(sha, longer).net && 0 in state && state[0] == o
  {
    longer := SubmitAndTick(sha, run, 1, o);
    EndIndex(sha, longer, 1);
    state := End(sha, longer).nodes[1].index.selfOffsets;
    BelowRecorded(End(sha, longer).nodes[1].index, o);
  }

  lemma EndIndex(sha: Sha256, run: Run, p: PeerId)
    requires Valid(sha, run) && p in End(sha, run).nodes
    ensures IndexInv(End(sha, run).nodes[p].index)
  {
    EndMember(sha, run, p);
  }

  ghost function Pair(): System {
    System(map[0 := Fresh(0, 1), 1 := Fresh(1, 1)], {}, {})
  }

  /** A run in which a late state makes a node lower a consensus offset: node 1 has told offset 0, then
      offset 1, and node 0 hears the later first. */
  lemma ConsensusMayDrop(sha: Sha256) returns (run: Run, i: nat)
    ensures Valid(sha, run) && i < |run.acts|
    ensures 0 in run.states[i].nodes && 0 in End(sha, run).nodes
    ensures var before, after := run.states[i].nodes[0].consensus, End(sha, run).nodes[0].consensus;
            0 in before && before[0] == 1 && 0 in after && after[0] == 0
  {
    var start := Run([Pair()], []);
    StartRun(sha, Pair());
    var first, early := Told(sha, start, 0);
    var second, late := Told(sha, first, 1);
    assert End(sha, second).nodes[0] == Fresh(0, 1);
    HeardOne(Fresh(0, 1), 1, late, 0);
    var heard := HearAndTick(sha, second, 0, 1, late);
    HeardOne(End(sha, heard).nodes[0], 1, early, 0);
    run := HearAndTick(sha, heard, 0, 1, early);
    i := |heard.acts|;
    ExtendsAt(heard, run, i);
    assert run.acts != heard.acts;
  }

  // ---------- whole logs differ ----------

  /** The first two identifiers of each range. */
  ghost function Pairs(ranges: set<nat>): set<nat> {
    set r, o | r in ranges && 0 <= o <= 1 :: UniqueBlobId(r, o)
  }

  function Ones(ranges: set<nat>): map<nat, nat> {
    map r | r in ranges :: 1
  }

  lemma PairsRecorded(index: Index, ranges: set<nat>)
    requires IndexInv(index) && index.Held() == Pairs(ranges)
    ensures index.selfOffsets == Ones(ranges)
  {
    forall r: nat ensures r in index.selfOffsets <==> r in ranges {
      PairsMember(ranges, r, 0);
    }
    forall r | r in ranges ensures index.selfOffsets[r] == 1 {
      PairsMember(ranges, r, 0);
      PairsMember(ranges, r, 1);
      PairsMember(ranges, r, 2);
      PrefixRecorded(index, r, 1);
    }
    SameMaps(index.selfOffsets, Ones(ranges));
  }

  lemma PairsMember(ranges: set<nat>, r: nat, o: nat)
    requires o < SINGLE_BLOB_SIZE
    ensures UniqueBlobId(r, o) in Pairs(ranges) <==> r in ranges && o <= 1
  {
    if UniqueBlobId(r, o) in Pairs(ranges) {
      var r', o' :| r' in ranges && 0 <= o' <= 1 && UniqueBlobId(r', o') == UniqueBlobId(r, o);
      assert RangeOf(UniqueBlobId(r', o')) == r' && RangeOf(UniqueBlobId(r, o)) == r;
    }
  }

  lemma PairsGrow(ranges: set<nat>, range: nat)
    ensures Pairs(ranges + {range}) == Pairs(ranges) + {UniqueBlobId(range, 0), UniqueBlobId(range, 1)}
  {
    assert UniqueBlobId(range, 0) in Pairs(ranges + {range}) && UniqueBlobId(range, 1) in Pairs(ranges + {range});
    forall id | id in Pairs(ranges + {range})
      ensures id in Pairs(ranges) + {UniqueBlobId(range, 0), UniqueBlobId(range, 1)}
    {
      var r, o :| r in ranges + {range} && 0 <= o <= 1 && UniqueBlobId(r, o) == id;
      assert r in ranges ==> UniqueBlobId(r, o) in Pairs(ranges);
    }
    forall id | id in Pairs(ranges) ensures id in Pairs(ranges + {range}) {
      var r, o :| r in ranges && 0 <= o <= 1 && UniqueBlobId(r, o) == id;
      assert r in ranges + {range};
    }
  }

  /** The node has received the first two identifiers of the ranges and has not heard of others. */
  ghost predicate OnItsOwn(s: System, p: PeerId, ranges: set<nat>) {
    p in s.nodes && s.nodes[p].quorum == 1 && OnlySelf(s.nodes[p]) && HeldBy(s, p) == Pairs(ranges)
  }

  lemma OneMoreDue(ranges: set<nat>, range: nat)
    requires range !in ranges
    ensures var due, increments := Due(Ones(ranges + {range}), Ones(ranges)), Increments(Ones(ranges + {range}), Ones(ranges), [range]);
            && IsOrder([range], due)
            && increments == [Interval(UniqueBlobId(range, 0), UniqueBlobId(range, 1))]
            && Advance(Ones(ranges), increments) == Ones(ranges + {range})
  {
    assert Due(Ones(ranges + {range}), Ones(ranges)) == {range};
    AdvanceOne(Ones(ranges), Interval(UniqueBlobId(range, 0), UniqueBlobId(range, 1)));
    SameMaps(Ones(ranges)[range := 1], Ones(ranges + {range}));
  }

  lemma SubmitAlone(sha: Sha256, run: Run, p: PeerId, id: nat) returns (longer: Run)
    requires Valid(sha, run) && p in End(sha, run).nodes && id <= MAX_ID && OnlySelf(End(sha, run).nodes[p])
    ensures Valid(sha, longer) && Extends(run, longer) && OnlyMoves(End(sha, run), End(sha, longer), p)
    ensures var before, after := End(sha, run).nodes[p], End(sha, longer).nodes[p];
            && OnlySelf(after) && after.quorum == before.quorum && after.ledger == before.ledger
            && after.index.Held() == before.index.Held() + {id}
  {
    longer := SubmitNext(sha, run, p, Transaction(id, Created));
    EndMember(sha, run, p);
    StoresExactly(sha, End(sha, run), Gateway(p, Transaction(id, Created)), p);
    ReceivedOnlySelf(End(sha, run).nodes[p], [Transaction(id, Created)], [RangeOf(id)]);
  }

  /** A tick of a node on its own. */
  lemma TickAlone(sha: Sha256, run: Run, p: PeerId, ranges: set<nat>) returns (longer: Run)
    requires Valid(sha, run) && OnItsOwn(End(sha, run), p, ranges)
    ensures Valid(sha, longer) && Extends(run, longer) && OnlyMoves(End(sha, run), End(sha, longer), p)
    ensures OnItsOwn(End(sha, longer), p, ranges) && End(sha, longer).nodes[p].consensus == Ones(ranges)
    ensures End(sha, longer).nodes[p].ledger == End(sha, run).nodes[p].ledger
  {
    var plan;
    longer, plan := TickNext(sha, run, p);
    EndMember(sha, run, p);
    AloneConsensus(End(sha, run).nodes[p]);
    PairsRecorded(End(sha, run).nodes[p].index, ranges);
  }

  lemma CommittedAlone(sha: Sha256, n: Node, ranges: set<nat>, range: nat)
    requires range !in ranges && n.consensus == Ones(ranges + {range}) && n.ledger.committed == Ones(ranges)
    ensures IsOrder([range], Due(n.consensus, n.ledger.committed)) && range in n.consensus
    ensures var after := Committed(sha, n, [range]).ledger;
            && after.committed == Ones(ranges + {range})
            && after.sequence == n.ledger.sequence + [UniqueBlobId(range, 0), UniqueBlobId(range, 1)]
  {
    OneMoreDue(ranges, range);
    AppendOne(n.ledger.sequence, Interval(UniqueBlobId(range, 0), UniqueBlobId(range, 1)));
    assert Ids(UniqueBlobId(range, 0), UniqueBlobId(range, 1)) == [UniqueBlobId(range, 0), UniqueBlobId(range, 1)];
  }

  /** A commit of one new range. */
  lemma CommitAlone(sha: Sha256, run: Run, p: PeerId, ranges: set<nat>, range: nat) returns (longer: Run)
    requires Valid(sha, run) && p in End(sha, run).nodes && range !in ranges
    requires End(sha, run).nodes[p].consensus == Ones(ranges + {range})
    requires End(sha, run).nodes[p].ledger.committed == Ones(ranges)
    ensures Valid(sha, longer) && Extends(run, longer) && OnlyMoves(End(sha, run), End(sha, longer), p)
    ensures var before, after := End(sha, run).nodes[p], End(sha, longer).nodes[p];
            && after.index == before.index && after.offsets == before.offsets && after.quorum == before.quorum
            && after.me == before.me && after.ledger.committed == Ones(ranges + {range})
            && after.ledger.sequence == before.ledger.sequence + [UniqueBlobId(range, 0), UniqueBlobId(range, 1)]
  {
    NoneHung(sha, run);
    CommittedAlone(sha, End(sha, run).nodes[p], ranges, range);
    longer := Then(sha, run, Commit(p, [range]));
    ThenRuns(sha, run, Commit(p, [range]));
  }

  lemma OnlyMovesTransitive(s: System, t: System, u: System, p: PeerId)
    requires OnlyMoves(s, t, p) && OnlyMoves(t, u, p)
    ensures OnlyMoves(s, u, p)
  {
  }

  lemma SubmitPair(sha: Sha256, run: Run, p: PeerId, ranges: set<nat>, range: nat) returns (longer: Run)
    requires Valid(sha, run) && OnItsOwn(End(sha, run), p, ranges) && range <= 1
    ensures Valid(sha, longer) && Extends(run, longer) && OnlyMoves(End(sha, run), End(sha, longer), p)
    ensures OnItsOwn(End(sha, longer), p, ranges + {range})
    ensures End(sha, longer).nodes[p].ledger == End(sha, run).nodes[p].ledger
  {
    var mid := SubmitAlone(sha, run, p, UniqueBlobId(range, 0));
    longer := SubmitAlone(sha, mid, p, UniqueBlobId(range, 1));
    ExtendsTransitive(run, mid, longer);
    OnlyMovesTransitive(End(sha, run), End(sha, mid), End(sha, longer), p);
    PairsGrow(ranges, range);
  }

  /** Two transactions of a new range, a tick and a commit. */
  lemma NextEpochAlone(sha: Sha256, run: Run, p: PeerId, ranges: set<nat>, range: nat) returns (longer: Run)
    requires Valid(sha, run) && OnItsOwn(End(sha, run), p, ranges) && range !in ranges && range <= 1
    requires End(sha, run).nodes[p].ledger.committed == Ones(ranges)
    ensures Valid(sha, longer) && Extends(run, longer) && OnlyMoves(End(sha, run), End(sha, longer), p)
    ensures OnItsOwn(End(sha, longer), p, ranges + {range})
    ensures var before, after := End(sha, run).nodes[p].ledger, End(sha, longer).nodes[p].ledger;
            && after.committed == Ones(ranges + {range})
            && after.sequence == before.sequence + [UniqueBlobId(range, 0), UniqueBlobId(range, 1)]
  {
    var a := SubmitPair(sha, run, p, ranges, range);
    var b := TickAlone(sha, a, p, ranges + {range});
    longer := CommitAlone(sha, b, p, ranges, range);
    ExtendsTransitive(run, a, b);
    ExtendsTransitive(run, b, longer);
    OnlyMovesTransitive(End(sha, run), End(sha, a), End(sha, b), p);
    OnlyMovesTransitive(End(sha, run), End(sha, b), End(sha, longer), p);
  }

  lemma TwoEpochsAlone(sha: Sha256, run: Run, p: PeerId, first: nat, second: nat) returns (longer: Run)
    requires Valid(sha, run) && OnItsOwn(End(sha, run), p, {}) && first <= 1 && second <= 1 && first != second
    requires End(sha, run).nodes[p].ledger.committed == map[] && End(sha, run).nodes[p].ledger.sequence == []
    ensures Valid(sha, longer) && Extends(run, longer) && OnlyMoves(End(sha, run), End(sha, longer), p)
    ensures p in End(sha, longer).nodes
    ensures var ledger := End(sha, longer).nodes[p].ledger;
            && ledger.committed == Ones({first, second})
            && ledger.sequence == [UniqueBlobId(first, 0), UniqueBlobId(first, 1), UniqueBlobId(second, 0), UniqueBlobId(second, 1)]
  {
    assert Ones({}) == map[];
    var mid := NextEpochAlone(sha, run, p, {}, first);
    assert {} + {first} == {first} && {first} + {second} == {first, second};
    longer := NextEpochAlone(sha, mid, p, {first}, second);
    ExtendsTransitive(run, mid, longer);
    OnlyMovesTransitive(End(sha, run), End(sha, mid), End(sha, longer), p);
  }

  lemma FirstsDiffer(a: seq<nat>, b: seq<nat>)
    requires a != [] && b != [] && a[0] != b[0]
    ensures !(a <= b) && !(b <= a)
  {
  }

  /** A run after which two nodes have committed the same and have different logs, neither in front of
      the other: they have reached consensus about two ranges in different order. */
  lemma LogsMayDiffer(sha: Sha256) returns (run: Run)
    ensures Valid(sha, run) && 0 in End(sha, run).nodes && 1 in End(sha, run).nodes
    ensures var a, b := End(sha, run).nodes[0].ledger, End(sha, run).nodes[1].ledger;
            a.committed == b.committed && !(a.sequence <= b.sequence) && !(b.sequence <= a.sequence)
  {
    var start := Run([Pair()], []);
    StartRun(sha, Pair());
    assert Pairs({}) == {};
    var mid := TwoEpochsAlone(sha, start, 0, 0, 1);
    assert End(sha, mid).nodes[1] == Fresh(1, 1);
    run := TwoEpochsAlone(sha, mid, 1, 1, 0);
    assert End(sha, run).nodes[0] == End(sha, mid).nodes[0];
    FirstsDiffer(End(sha, run).nodes[0].ledger.sequence, End(sha, run).nodes[1].ledger.sequence);
  }
}
