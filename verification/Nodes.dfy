/**
 A maroon node as a value (the fields of `App` in maroon/src/app/app.rs) and its steps as functions.
 What a hash map leaves open, the order of its keys, is a parameter of the step.
 */
module Nodes {
  import opened Iteration
  import opened RangeKey
  import opened Consensus
  import opened Indexing
  import opened Delays
  import opened Epochs
  import opened Commits

  datatype Node = Node(
    me: PeerId,
    quorum: NonZero,
    index: Index,
    offsets: Offsets,
    consensus: map<nat, nat>,
    ledger: Ledger)

  function Fresh(me: PeerId, quorum: NonZero): Node {
    Node(me, quorum, Index(map[], map[]), map[], map[], Ledger(map[], [], []))
  }

  function Reports(offsets: Offsets, range: nat): map<PeerId, nat> {
    if range in offsets then offsets[range] else map[]
  }

  /** Moves the pointers of one peer to the given offsets. */
  function Record(offsets: Offsets, peer: PeerId, updates: map<nat, nat>): Offsets {
    map range | range in offsets.Keys + updates.Keys ::
      if range in updates then Reports(offsets, range)[peer := updates[range]] else offsets[range]
  }

  /** A peer's state has arrived. */
  function Heard(node: Node, from: PeerId, state: map<nat, nat>): Node {
    node.(offsets := Record(node.offsets, from, state))
  }

  lemma RecordOther(offsets: Offsets, peer: PeerId, updates: map<nat, nat>, range: nat, q: PeerId)
    requires q != peer && range in offsets && q in offsets[range]
    ensures var after := Record(offsets, peer, updates);
            range in after && q in after[range] && after[range][q] == offsets[range][q]
  {
  }

  lemma RecordNothing(offsets: Offsets, peer: PeerId)
    ensures Record(offsets, peer, map[]) == offsets
  {
  }

  lemma Overwritten(m: map<nat, nat>, key: nat, a: nat, b: nat)
    ensures m[key := a][key := b] == m[key := b]
  {
  }

  lemma RecordAt(offsets: Offsets, peer: PeerId, updates: map<nat, nat>, range: nat)
    ensures Reports(Record(offsets, peer, updates), range)
            == if range in updates then Reports(offsets, range)[peer := updates[range]] else Reports(offsets, range)
  {
  }

  lemma RecordSingle(offsets: Offsets, peer: PeerId, range: nat, offset: nat)
    ensures Record(offsets, peer, map[range := offset]) == offsets[range := Reports(offsets, range)[peer := offset]]
  {
  }

  lemma RecordMore(offsets: Offsets, peer: PeerId, updates: map<nat, nat>, range: nat, offset: nat)
    ensures Record(offsets, peer, updates[range := offset])
            == Record(offsets, peer, updates)[range := Reports(offsets, range)[peer := offset]]
  {
  }

  lemma RecordOne(offsets: Offsets, peer: PeerId, updates: map<nat, nat>, range: nat, offset: nat)
    ensures Record(Record(offsets, peer, updates), peer, map[range := offset])
            == Record(offsets, peer, updates[range := offset])
  {
    RecordAt(offsets, peer, updates, range);
    RecordSingle(Record(offsets, peer, updates), peer, range, offset);
    RecordMore(offsets, peer, updates, range, offset);
    if range in updates {
      Overwritten(Reports(offsets, range), peer, updates[range], offset);
    }
  }

  ghost function Touched(index: Index, ranges: set<nat>): map<nat, nat> {
    map range | range in ranges && range in index.selfOffsets :: index.selfOffsets[range]
  }

  /** Transactions have arrived. */
  ghost function Received(node: Node, txs: seq<Transaction>, order: seq<nat>): Node {
    var index := Ingest(node.index, txs, order);
    node.(index := index, offsets := Record(node.offsets, node.me, Touched(index, Ranges(txs))))
  }

  /** `recalculate_consensus_offsets`: a range with too few peers keeps its old value. */
  ghost function Recalculated(node: Node): Node {
    node.(consensus := NewConsensus(node.consensus, node.offsets, node.quorum))
  }

  /** The ranges of which enough peers have reported. */
  function Known(offsets: Offsets, quorum: nat): set<nat> {
    set range | range in offsets && |offsets[range]| >= quorum
  }

  ghost function Maxima(offsets: Offsets, quorum: NonZero): map<nat, nat> {
    map range | range in Known(offsets, quorum) :: ConsensusMaximum(offsets[range], quorum).value
  }

  ghost function NewConsensus(consensus: map<nat, nat>, offsets: Offsets, quorum: NonZero): map<nat, nat> {
    consensus + Maxima(offsets, quorum)
  }

  lemma KnownGrows(offsets: Offsets, quorum: NonZero, range: nat, nodes: map<PeerId, nat>)
    requires range !in offsets
    ensures Known(offsets[range := nodes], quorum) == Known(offsets, quorum) + if |nodes| >= quorum then {range} else {}
    ensures range !in Known(offsets, quorum)
  {
  }

  lemma MaximaOfKnown(offsets: Offsets, quorum: NonZero)
    ensures Maxima(offsets, quorum).Keys == Known(offsets, quorum)
  {
  }

  lemma MaximumAt(offsets: Offsets, quorum: NonZero, range: nat)
    requires range in Known(offsets, quorum)
    ensures range in Maxima(offsets, quorum)
    ensures Maxima(offsets, quorum)[range] == ConsensusMaximum(offsets[range], quorum).value
  {
  }

  lemma MaximumKept(offsets: Offsets, quorum: NonZero, range: nat, nodes: map<PeerId, nat>, r: nat)
    requires range !in offsets && r in Known(offsets, quorum)
    ensures r in Maxima(offsets[range := nodes], quorum) && r in Maxima(offsets, quorum)
    ensures Maxima(offsets[range := nodes], quorum)[r] == Maxima(offsets, quorum)[r]
  {
    assert offsets[range := nodes][r] == offsets[r];
    MaximumAt(offsets, quorum, r);
    MaximumAt(offsets[range := nodes], quorum, r);
  }

  /** One map extends another by at most one key. */
  lemma ExtendedByOne(shorter: map<nat, nat>, longer: map<nat, nat>, key: nat)
    requires key !in shorter && longer.Keys <= shorter.Keys + {key}
    requires forall k | k in shorter :: k in longer && longer[k] == shorter[k]
    ensures longer == if key in longer then shorter[key := longer[key]] else shorter
  {
  }

  lemma MaximaExtended(offsets: Offsets, quorum: NonZero, range: nat, nodes: map<PeerId, nat>)
    requires range !in offsets
    ensures range in Maxima(offsets[range := nodes], quorum) <==> |nodes| >= quorum
    ensures var before, after := Maxima(offsets, quorum), Maxima(offsets[range := nodes], quorum);
            after == if range in after then before[range := after[range]] else before
  {
    KnownGrows(offsets, quorum, range, nodes);
    MaximaOfKnown(offsets, quorum);
    MaximaOfKnown(offsets[range := nodes], quorum);
    var before, after := Maxima(offsets, quorum), Maxima(offsets[range := nodes], quorum);
    forall r | r in before ensures r in after && after[r] == before[r] {
      MaximumKept(offsets, quorum, range, nodes, r);
    }
    ExtendedByOne(before, after, range);
  }

  lemma MaximaGrow(offsets: Offsets, quorum: NonZero, range: nat, nodes: map<PeerId, nat>)
    requires range !in offsets && |nodes| >= quorum
    ensures Maxima(offsets[range := nodes], quorum) == Maxima(offsets, quorum)[range := ConsensusMaximum(nodes, quorum).value]
  {
    MaximaExtended(offsets, quorum, range, nodes);
    MaximumAt(offsets[range := nodes], quorum, range);
  }

  /** When what a peer reports lowers the consensus offset of a range. */
  lemma RecordLowersExactly(offsets: Offsets, quorum: NonZero, peer: PeerId, updates: map<nat, nat>, range: nat)
    requires range in Known(offsets, quorum)
    ensures var before, after := Maxima(offsets, quorum), Maxima(Record(offsets, peer, updates), quorum);
            && range in before && range in after
            && (after[range] < before[range]
                <==> && range in updates && peer in offsets[range]
                     && updates[range] < before[range] <= offsets[range][peer]
                     && |AtLeast(offsets[range], before[range])| == quorum)
  {
    RecordKnown(offsets, quorum, peer, updates);
    MaximumAt(offsets, quorum, range);
    MaximumAt(Record(offsets, peer, updates), quorum, range);
    RecordAt(offsets, peer, updates, range);
    if range in updates {
      ReportLowersExactly(offsets[range], quorum, peer, updates[range]);
    }
  }

  lemma RecordKnown(offsets: Offsets, quorum: NonZero, peer: PeerId, updates: map<nat, nat>)
    ensures Known(offsets, quorum) <= Known(Record(offsets, peer, updates), quorum)
  {
    forall range | range in Known(offsets, quorum) ensures range in Known(Record(offsets, peer, updates), quorum) {
      RecordAt(offsets, peer, updates, range);
      if range in updates {
        SubsetSize(offsets[range].Keys, offsets[range][peer := updates[range]].Keys);
      }
    }
  }

  /** Once a range has a consensus offset it has enough reports for ever. */
  ghost predicate ConsensusKnown(node: Node) {
    node.consensus.Keys <= Known(node.offsets, node.quorum)
  }

  lemma RecalculatedMaxima(node: Node)
    requires ConsensusKnown(node)
    ensures Recalculated(node).consensus == Maxima(node.offsets, node.quorum)
  {
    MaximaOfKnown(node.offsets, node.quorum);
  }

  /** `commit_epoch_if_needed` */
  function Committed(sha: Sha256, node: Node, order: seq<nat>): Node
    requires forall range | range in order :: range in node.consensus
  {
    node.(ledger := CommitEpoch(sha, node.ledger, Increments(node.consensus, node.ledger.committed, order)))
  }

  // ---------- what every step keeps ----------

  /** The node's own entry in `offsets` is its index. */
  ghost predicate SelfPointers(node: Node) {
    forall range: nat ::
      && (range in node.index.selfOffsets <==> range in node.offsets && node.me in node.offsets[range])
      && (range in node.index.selfOffsets ==> node.offsets[range][node.me] == node.index.selfOffsets[range])
  }

  ghost predicate NodeInv(sha: Sha256, node: Node) {
    && IndexInv(node.index)
    && BoundedOffsets(node.offsets)
    && SelfPointers(node)
    && Bounded(node.consensus)
    && ConsensusKnown(node)
    && LedgerInv(sha, node.ledger)
  }

  lemma FreshInv(sha: Sha256, me: PeerId, quorum: NonZero)
    ensures NodeInv(sha, Fresh(me, quorum))
  {
    EmptyLedger(sha);
  }

  lemma RecordBounded(offsets: Offsets, peer: PeerId, updates: map<nat, nat>)
    requires BoundedOffsets(offsets) && Bounded(updates)
    ensures BoundedOffsets(Record(offsets, peer, updates))
  {
  }

  lemma HeardInv(sha: Sha256, node: Node, from: PeerId, state: map<nat, nat>)
    requires NodeInv(sha, node) && Bounded(state) && from != node.me
    ensures NodeInv(sha, Heard(node, from, state))
  {
    RecordBounded(node.offsets, from, state);
    RecordKnown(node.offsets, node.quorum, from, state);
  }

  lemma IndexBounded(index: Index)
    requires Possession(index)
    ensures Bounded(index.selfOffsets)
  {
    forall range | range in index.selfOffsets ensures UniqueBlobId(range, index.selfOffsets[range]) <= MAX_ID {
      assert UniqueBlobId(range, index.selfOffsets[range]) in index.Held();
    }
  }

  lemma ReceivedPointers(node: Node, txs: seq<Transaction>, order: seq<nat>)
    requires IndexInv(node.index) && SelfPointers(node) && ValidIds(txs) && IsOrder(order, Ranges(txs))
    ensures SelfPointers(Received(node, txs, order))
  {
    var after := Received(node, txs, order);
    IngestStep(node.index, txs, order);
    forall range: nat
      ensures range in after.index.selfOffsets <==> range in after.offsets && node.me in after.offsets[range]
      ensures range in after.index.selfOffsets ==> after.offsets[range][node.me] == after.index.selfOffsets[range]
    {
      assert range in order <==> range in Ranges(txs);
      assert range in node.index.selfOffsets <==> range in node.offsets && node.me in node.offsets[range];
    }
  }

  lemma ReceivedInv(sha: Sha256, node: Node, txs: seq<Transaction>, order: seq<nat>)
    requires NodeInv(sha, node) && ValidIds(txs) && IsOrder(order, Ranges(txs))
    ensures NodeInv(sha, Received(node, txs, order))
  {
    var after := Received(node, txs, order);
    IngestKeepsInv(node.index, txs, order);
    ReceivedPointers(node, txs, order);
    IndexBounded(after.index);
    RecordBounded(node.offsets, node.me, Touched(after.index, Ranges(txs)));
    RecordKnown(node.offsets, node.quorum, node.me, Touched(after.index, Ranges(txs)));
  }

  lemma RecalculatedInv(sha: Sha256, node: Node)
    requires NodeInv(sha, node)
    ensures NodeInv(sha, Recalculated(node))
  {
    var consensus := Recalculated(node).consensus;
    RecalculatedMaxima(node);
    forall range | range in consensus
      ensures consensus[range] < SINGLE_BLOB_SIZE && UniqueBlobId(range, consensus[range]) <= MAX_ID
    {
      if range in node.offsets && |node.offsets[range]| >= node.quorum {
        ConsensusMaximumExact(node.offsets[range], node.quorum, consensus[range]);
      }
    }
  }

  lemma CommittedInv(sha: Sha256, node: Node, order: seq<nat>)
    requires NodeInv(sha, node) && IsOrder(order, Due(node.consensus, node.ledger.committed))
    ensures NodeInv(sha, Committed(sha, node, order))
  {
    CommitKeepsInv(sha, node.ledger, node.consensus, order);
  }

  /** A plan never sends a request to the node that made it. */
  lemma NeverAsksItself(node: Node, plan: Plan, range: nat)
    requires SelfPointers(node) && IsPlan(node.index.Held(), node.index.selfOffsets, node.offsets, plan)
    requires range in plan.pick
    ensures plan.pick[range] != node.me
  {
    assert RangePlanned(node.index.Held(), node.index.selfOffsets, node.offsets, range, plan.pick[range], plan.runs[range]);
    assert Behind(node.index.selfOffsets, node.offsets, range);
    assert range in node.index.selfOffsets <==> node.me in node.offsets[range];
  }
}
