/**
 What each event does to a node, in plain terms: relations between the node before and the node after
 that name none of the functions computing the latter.
 */
module Effects {
  import opened Wrappers
  import opened Iteration
  import opened Sorting
  import opened RangeKey
  import opened Consensus
  import opened Indexing
  import opened Delays
  import opened Epochs
  import opened Linearizer
  import opened Commits
  import opened Nodes

  // ---------- pointers ----------

  /** What is recorded of a peer in a range. */
  ghost function Entry(offsets: Offsets, range: nat, peer: PeerId): Option<nat> {
    if range in offsets && peer in offsets[range] then Some(offsets[range][peer]) else None
  }

  /** The pointers of one peer have moved to the given offsets; every other pointer is as before. */
  ghost predicate PointersMoved(before: Offsets, peer: PeerId, updates: map<nat, nat>, after: Offsets) {
    && after.Keys == before.Keys + updates.Keys
    && forall range: nat, p: PeerId ::
         Entry(after, range, p) == if p == peer && range in updates then Some(updates[range]) else Entry(before, range, p)
  }

  lemma RecordMoves(offsets: Offsets, peer: PeerId, updates: map<nat, nat>)
    ensures PointersMoved(offsets, peer, updates, Record(offsets, peer, updates))
  {
  }

  // ---------- a state of a peer ----------

  ghost predicate StateEffect(before: Node, from: PeerId, state: map<nat, nat>, after: Node) {
    && after == before.(offsets := after.offsets)
    && PointersMoved(before.offsets, from, state, after.offsets)
  }

  lemma HeardEffect(node: Node, from: PeerId, state: map<nat, nat>)
    ensures StateEffect(node, from, state, Heard(node, from, state))
  {
    RecordMoves(node.offsets, from, state);
  }

  // ---------- transactions ----------

  /** The batch is stored, its ranges have been rescanned in the given order, no other range has changed,
      and the own pointers have moved to what is now recorded of the ranges of the batch. */
  ghost predicate BatchEffect(before: Node, txs: seq<Transaction>, order: seq<nat>, after: Node) {
    && after == before.(index := after.index, offsets := after.offsets)
    && BatchStored(before.index.transactions, txs, after.index.transactions)
    && (forall k | 0 <= k < |order| ::
          Rescanned(before.index.selfOffsets, after.index.selfOffsets, StoreAfter(before.index, txs, order, k), order[k]))
    && (forall range: nat | range !in order :: SameAt(before.index.selfOffsets, after.index.selfOffsets, range))
    && OwnPointersMoved(before, order, after)
  }

  ghost predicate OwnPointersMoved(before: Node, ranges: seq<nat>, after: Node) {
    && (forall range: nat :: range in after.offsets <==>
          range in before.offsets || (range in ranges && range in after.index.selfOffsets))
    && forall range: nat, p: PeerId ::
         Entry(after.offsets, range, p)
         == if p == before.me && range in ranges && range in after.index.selfOffsets
            then Some(after.index.selfOffsets[range]) else Entry(before.offsets, range, p)
  }

  lemma OwnPointers(node: Node, txs: seq<Transaction>, order: seq<nat>)
    requires IsOrder(order, Ranges(txs))
    ensures OwnPointersMoved(node, order, Received(node, txs, order))
  {
    var after := Received(node, txs, order);
    var updates := Touched(after.index, Ranges(txs));
    RecordMoves(node.offsets, node.me, updates);
    forall range: nat ensures range in updates <==> range in order && range in after.index.selfOffsets {
      assert range in order <==> range in Ranges(txs);
    }
  }

  lemma ReceivedEffect(node: Node, txs: seq<Transaction>, order: seq<nat>)
    requires Possession(node.index) && ValidIds(txs) && IsOrder(order, Ranges(txs))
    ensures BatchEffect(node, txs, order, Received(node, txs, order))
  {
    var after := Received(node, txs, order);
    IngestStores(node.index, txs, order);
    forall k | 0 <= k < |order|
      ensures Rescanned(node.index.selfOffsets, after.index.selfOffsets, StoreAfter(node.index, txs, order, k), order[k])
    {
      IngestRescans(node.index, txs, order, k);
    }
    forall range: nat | range !in order ensures SameAt(node.index.selfOffsets, after.index.selfOffsets, range) {
      IngestUntouched(node.index, txs, order, range);
    }
    OwnPointers(node, txs, order);
  }

  /** A batch of one transaction: it is stored as received, and nothing else is. */
  lemma OneStored(before: map<nat, Transaction>, tx: Transaction, after: map<nat, Transaction>)
    requires BatchStored(before, [tx], after)
    ensures after == before[tx.id := tx]
  {
    assert LastOfId([tx], 0) && [tx][0] == tx;
    assert forall id :: id in after <==> id in before || id == tx.id;
  }

  // ---------- ticks ----------

  /** Each range with enough reports has the order statistic of them as its consensus offset; the others
      have kept theirs. */
  ghost predicate TickEffect(before: Node, after: Node) {
    && after == before.(consensus := after.consensus)
    && forall range: nat ::
         if range in before.offsets && |before.offsets[range]| >= before.quorum
         then range in after.consensus && IsQuorumOffset(before.offsets[range], before.quorum, after.consensus[range])
         else SameAt(before.consensus, after.consensus, range)
  }

  lemma RecalculatedEffect(node: Node)
    ensures TickEffect(node, Recalculated(node))
  {
    var after := Recalculated(node);
    forall range: nat
      ensures if range in node.offsets && |node.offsets[range]| >= node.quorum
              then range in after.consensus && IsQuorumOffset(node.offsets[range], node.quorum, after.consensus[range])
              else SameAt(node.consensus, after.consensus, range)
    {
      MaximaOfKnown(node.offsets, node.quorum);
      if range in node.offsets && |node.offsets[range]| >= node.quorum {
        MaximumAt(node.offsets, node.quorum, range);
        ConsensusMaximumExact(node.offsets[range], node.quorum, after.consensus[range]);
      }
    }
  }

  // ---------- commits ----------

  /** The first offset of the range that is not committed. */
  function FirstOpen(committed: map<nat, nat>, range: nat): nat {
    if range in committed then committed[range] + 1 else 0
  }

  /** More than one offset of the range is in consensus and not committed. */
  ghost predicate Outstanding(consensus: map<nat, nat>, committed: map<nat, nat>, range: nat) {
    range in consensus && FirstOpen(committed, range) < consensus[range]
  }

  ghost predicate OutstandingId(consensus: map<nat, nat>, committed: map<nat, nat>, id: nat) {
    && Outstanding(consensus, committed, RangeOf(id))
    && FirstOpen(committed, RangeOf(id)) <= OffsetOf(id) <= consensus[RangeOf(id)]
  }

  ghost predicate IsIncrement(consensus: map<nat, nat>, committed: map<nat, nat>, range: nat, x: Interval) {
    && Outstanding(consensus, committed, range)
    && x == Interval(range * 0x4000_0000 + FirstOpen(committed, range), range * 0x4000_0000 + consensus[range])
  }

  /** One increment for each range with something outstanding, and nothing else. */
  ghost predicate IncrementsExact(consensus: map<nat, nat>, committed: map<nat, nat>, increments: seq<Interval>) {
    && (forall i, j | 0 <= i < j < |increments| :: increments[i] != increments[j])
    && forall x :: x in increments <==> exists range: nat :: IsIncrement(consensus, committed, range, x)
  }

  /** Every range with something outstanding is committed up to its consensus offset; the others are as before. */
  ghost predicate CommittedExact(consensus: map<nat, nat>, committed: map<nat, nat>, after: map<nat, nat>) {
    forall range: nat ::
      if Outstanding(consensus, committed, range) then range in after && after[range] == consensus[range]
      else SameAt(committed, after, range)
  }

  /** The log goes on with exactly the outstanding identifiers, in ascending order over all ranges. */
  ghost predicate LogExtended(consensus: map<nat, nat>, committed: map<nat, nat>, log: seq<nat>, longer: seq<nat>) {
    && log <= longer && Ascending(longer[|log|..])
    && forall id: nat :: id in longer[|log|..] <==> OutstandingId(consensus, committed, id)
  }

  /** Exactly one epoch is added, also when nothing is outstanding, and it is hashed over the last one. */
  ghost predicate EpochAdded(sha: Sha256, consensus: map<nat, nat>, committed: map<nat, nat>, epochs: seq<Epoch>, longer: seq<Epoch>) {
    && |longer| == |epochs| + 1 && longer[..|epochs|] == epochs
    && IncrementsExact(consensus, committed, longer[|epochs|].increments)
    && HashedOver(sha, longer[|epochs|], if epochs == [] then None else Some(epochs[|epochs| - 1].hash))
  }

  ghost predicate LedgerEffect(sha: Sha256, consensus: map<nat, nat>, before: Ledger, after: Ledger) {
    && EpochAdded(sha, consensus, before.committed, before.epochs, after.epochs)
    && CommittedExact(consensus, before.committed, after.committed)
    && LogExtended(consensus, before.committed, before.sequence, after.sequence)
  }

  ghost predicate CommitEffect(sha: Sha256, before: Node, after: Node) {
    after == before.(ledger := after.ledger) && LedgerEffect(sha, before.consensus, before.ledger, after.ledger)
  }

  lemma DueIsOutstanding(consensus: map<nat, nat>, committed: map<nat, nat>, range: nat)
    ensures range in Due(consensus, committed) <==> Outstanding(consensus, committed, range)
    ensures range in Due(consensus, committed)
            ==> IsIncrement(consensus, committed, range, Increment(consensus, committed, range))
  {
  }

  lemma IncrementsAreExact(consensus: map<nat, nat>, committed: map<nat, nat>, order: seq<nat>)
    requires Bounded(consensus) && IsOrder(order, Due(consensus, committed))
    ensures IncrementsExact(consensus, committed, Increments(consensus, committed, order))
  {
    var increments := Increments(consensus, committed, order);
    OneIncrementEach(consensus, committed, order);
    IncrementsProper(consensus, committed, order);
    forall i, j | 0 <= i < j < |increments| ensures increments[i] != increments[j] {
      assert Apart(increments[i], increments[j]);
    }
    forall x ensures x in increments <==> exists range: nat :: IsIncrement(consensus, committed, range, x) {
      if x in increments {
        var range :| range in Due(consensus, committed) && x == Increment(consensus, committed, range);
        DueIsOutstanding(consensus, committed, range);
      }
      if range: nat :| IsIncrement(consensus, committed, range, x) {
        DueIsOutstanding(consensus, committed, range);
        assert range in Due(consensus, committed) && x == Increment(consensus, committed, range);
      }
    }
  }

  lemma IncrementCovers(consensus: map<nat, nat>, committed: map<nat, nat>, range: nat, id: nat)
    requires Bounded(consensus) && Outstanding(consensus, committed, range)
    ensures Increment(consensus, committed, range).Contains(id)
            <==> RangeOf(id) == range && OutstandingId(consensus, committed, id)
  {
  }

  lemma IncrementsCover(consensus: map<nat, nat>, committed: map<nat, nat>, order: seq<nat>, id: nat)
    requires Bounded(consensus) && IsOrder(order, Due(consensus, committed))
    ensures Covers(Increments(consensus, committed, order), id) <==> OutstandingId(consensus, committed, id)
  {
    var increments := Increments(consensus, committed, order);
    if Covers(increments, id) {
      var i :| 0 <= i < |increments| && increments[i].Contains(id);
      assert order[i] in Due(consensus, committed);
      DueIsOutstanding(consensus, committed, order[i]);
      IncrementCovers(consensus, committed, order[i], id);
    }
    if OutstandingId(consensus, committed, id) {
      DueIsOutstanding(consensus, committed, RangeOf(id));
      assert RangeOf(id) in order;
      var i :| 0 <= i < |order| && order[i] == RangeOf(id);
      IncrementCovers(consensus, committed, order[i], id);
      assert increments[i].Contains(id);
    }
  }

  lemma CommitExtends(consensus: map<nat, nat>, committed: map<nat, nat>, order: seq<nat>, log: seq<nat>)
    requires Bounded(consensus) && IsOrder(order, Due(consensus, committed))
    ensures LogExtended(consensus, committed, log, Appended(log, Increments(consensus, committed, order)))
  {
    var increments := Increments(consensus, committed, order);
    IncrementsProper(consensus, committed, order);
    AppendedCanonical(log, increments);
    forall id: nat ensures Covers(increments, id) <==> OutstandingId(consensus, committed, id) {
      IncrementsCover(consensus, committed, order, id);
    }
  }

  lemma CommitAdvances(consensus: map<nat, nat>, committed: map<nat, nat>, order: seq<nat>)
    requires Bounded(consensus) && IsOrder(order, Due(consensus, committed))
    ensures CommittedExact(consensus, committed, Advance(committed, Increments(consensus, committed, order)))
  {
    var after := Advance(committed, Increments(consensus, committed, order));
    forall range: nat
      ensures if Outstanding(consensus, committed, range) then range in after && after[range] == consensus[range]
              else SameAt(committed, after, range)
    {
      DueIsOutstanding(consensus, committed, range);
      CommittedAfter(consensus, committed, order, range);
    }
  }

  lemma CommitAddsEpoch(sha: Sha256, ledger: Ledger, consensus: map<nat, nat>, order: seq<nat>)
    requires Bounded(consensus) && IsOrder(order, Due(consensus, ledger.committed))
    ensures var increments := Increments(consensus, ledger.committed, order);
            EpochAdded(sha, consensus, ledger.committed, ledger.epochs, CommitEpoch(sha, ledger, increments).epochs)
  {
    var increments := Increments(consensus, ledger.committed, order);
    IncrementsAreExact(consensus, ledger.committed, order);
    IncrementsProper(consensus, ledger.committed, order);
    ProperWords(increments);
    HashInputLayout(increments, LastHash(ledger.epochs));
  }

  lemma CommittedEffect(sha: Sha256, node: Node, order: seq<nat>)
    requires Bounded(node.consensus) && IsOrder(order, Due(node.consensus, node.ledger.committed))
    ensures CommitEffect(sha, node, Committed(sha, node, order))
  {
    CommitAddsEpoch(sha, node.ledger, node.consensus, order);
    CommitAdvances(node.consensus, node.ledger.committed, order);
    CommitExtends(node.consensus, node.ledger.committed, order, node.ledger.sequence);
  }

  /** A commit leaves no choice as to committed offsets and log: hash order does not reach them. Of the
      epochs it leaves open only the order of the increments in the new one. */
  lemma EffectDetermines(sha: Sha256, consensus: map<nat, nat>, before: Ledger, a: Ledger, b: Ledger)
    requires LedgerEffect(sha, consensus, before, a) && LedgerEffect(sha, consensus, before, b)
    ensures a.sequence == b.sequence && a.committed == b.committed && |a.epochs| == |b.epochs|
    ensures forall x :: x in a.epochs[|before.epochs|].increments <==> x in b.epochs[|before.epochs|].increments
  {
    SameExtension(consensus, before.committed, before.sequence, a.sequence, b.sequence);
    SameCommitted(consensus, before.committed, a.committed, b.committed);
  }

  lemma SameExtension(consensus: map<nat, nat>, committed: map<nat, nat>, log: seq<nat>, a: seq<nat>, b: seq<nat>)
    requires LogExtended(consensus, committed, log, a) && LogExtended(consensus, committed, log, b)
    ensures a == b
  {
    AscendingUnique(a[|log|..], b[|log|..]);
    assert a == log + a[|log|..] && b == log + b[|log|..];
  }

  lemma SameCommitted(consensus: map<nat, nat>, committed: map<nat, nat>, a: map<nat, nat>, b: map<nat, nat>)
    requires CommittedExact(consensus, committed, a) && CommittedExact(consensus, committed, b)
    ensures a == b
  {
    forall range: nat ensures SameAt(a, b, range) {
      assert Outstanding(consensus, committed, range) || !Outstanding(consensus, committed, range);
    }
    assert forall range | range in a :: SameAt(a, b, range);
    assert forall range | range in b :: SameAt(a, b, range);
  }
}
