/**
 The running node (`App` in maroon/src/app/app.rs): fields updated in place by the event handlers.
 Every handler is proved to take the abstract node of module Nodes one step further; what the steps
 mean is proved there and in module Protocol.
 */
module Application {
  import opened Wrappers
  import opened Iteration
  import opened Sorting
  import opened RangeKey
  import opened Consensus
  import opened Indexing
  import opened Delays
  import opened Epochs
  import opened Linearizer
  import opened Commits
  import opened Serving
  import opened Nodes
  import opened Effects

  datatype Outbox =
    | State(offsets: map<nat, nat>)
    | RequestMissingTxs(peer: PeerId, intervals: seq<Interval>)
    | RequestedTxsForPeer(peer: PeerId, txs: seq<Transaction>)

  /** Requests for the given peers, in that order. */
  function RequestsTo(requests: map<PeerId, seq<Interval>>, peers: seq<PeerId>): seq<Outbox>
    requires forall p | p in peers :: p in requests
  {
    seq(|peers|, i requires 0 <= i < |peers| => Outbox.RequestMissingTxs(peers[i], requests[peers[i]]))
  }

  datatype Inbox =
    | State(peer: PeerId, offsets: map<nat, nat>)
    | Nodes(peers: set<PeerId>)
    | NewTransaction(tx: Transaction)
    | MissingTx(txs: seq<Transaction>)
    | RequestMissingTxs(peer: PeerId, intervals: seq<Interval>)

  /** What the source demands of a message: identifiers it can decode, requests it can serve, and a list
      of nodes that names the receiver. */
  ghost predicate Handleable(node: Node, msg: Inbox) {
    match msg
    case State(_, _) => true
    case Nodes(peers) => node.me in peers
    case NewTransaction(tx) => tx.id <= MAX_ID
    case MissingTx(txs) => ValidIds(txs)
    case RequestMissingTxs(_, intervals) => Proper(intervals) && AllHeld(node.index.transactions, intervals)
  }

  /** The node after a message. */
  ghost function Handled(node: Node, msg: Inbox, order: seq<nat>): Node {
    match msg
    case State(peer, state) => Heard(node, peer, state)
    case NewTransaction(tx) => Received(node, [tx], [RangeOf(tx.id)])
    case MissingTx(txs) => Received(node, txs, order)
    case _ => node
  }

  /** What a message makes the node send. */
  ghost function Replies(node: Node, msg: Inbox): seq<Outbox> {
    if msg.RequestMissingTxs? && Answer(node.index.transactions, msg.intervals).Some? then
      [RequestedTxsForPeer(msg.peer, Answer(node.index.transactions, msg.intervals).value)]
    else
      []
  }

  /** The last value per range. */
  function Pointers(updates: seq<(nat, nat)>): map<nat, nat> {
    if updates == [] then
      map[]
    else
      var n := |updates| - 1;
      Pointers(updates[..n])[updates[n].0 := updates[n].1]
  }

  lemma PointersLast(updates: seq<(nat, nat)>, range: nat, offset: nat)
    ensures Pointers(updates + [(range, offset)]) == Pointers(updates)[range := offset]
  {
    assert (updates + [(range, offset)])[..|updates|] == updates;
  }

  lemma IngestLast(index: Index, txs: seq<Transaction>, order: seq<nat>, range: nat)
    ensures Ingest(index, txs, order + [range]) == IngestBucket(Ingest(index, txs, order), range, Bucket(txs, range))
  {
    assert (order + [range])[..|order|] == order;
  }

  lemma TouchedGrows(before: Index, after: Index, ranges: set<nat>, range: nat)
    requires range !in ranges && before.selfOffsets.Keys <= after.selfOffsets.Keys
    requires forall r :: r in after.selfOffsets && r != range ==> r in before.selfOffsets && after.selfOffsets[r] == before.selfOffsets[r]
    ensures Touched(after, ranges + {range})
            == if range in after.selfOffsets then Touched(before, ranges)[range := after.selfOffsets[range]] else Touched(before, ranges)
  {
  }

  lemma SingletonPointers(updates: seq<(nat, nat)>)
    requires |updates| <= 1
    ensures Pointers(updates) == if updates == [] then map[] else map[updates[0].0 := updates[0].1]
  {
    if updates != [] {
      assert updates[..0] == [];
      assert Pointers([]) == map[];
    }
  }

  lemma BucketResult(index: Index, range: nat, txs: seq<Transaction>)
    requires Possession(index) && ValidIds(txs) && OneRange(txs, range)
    requires range in index.selfOffsets || HasFirst(txs)
    ensures var start := if range in index.selfOffsets then index.selfOffsets[range] else 0;
            var store := Stored(index.transactions, txs);
            && start < SINGLE_BLOB_SIZE && UniqueBlobId(range, start) in store && UniqueBlobId(range, start) <= MAX_ID
            && (forall id :: id in store ==> id <= MAX_ID)
            && IngestBucket(index, range, txs)
               == Index(index.selfOffsets[range := OffsetOf(RunEnd(store.Keys, UniqueBlobId(range, start)))], store)
  {
    BucketHeld(index, range, txs);
    BucketOthers(index, range, txs);
  }

  /** The requests still to be sent. */
  lemma RequestsToLast(requests: map<PeerId, seq<Interval>>, peers: seq<PeerId>, peer: PeerId)
    requires (forall p | p in peers :: p in requests) && peer in requests
    ensures RequestsTo(requests, peers + [peer])
            == RequestsTo(requests, peers) + [Outbox.RequestMissingTxs(peer, requests[peer])]
  {
  }

  lemma MergeOne(base: map<nat, nat>, more: map<nat, nat>, key: nat, value: nat)
    ensures base + more[key := value] == (base + more)[key := value]
  {
  }

  lemma VisitOne(offsets: Offsets, remaining: set<nat>, k: nat)
    requires k in offsets && k in remaining
    ensures offsets - (remaining - {k}) == (offsets - remaining)[k := offsets[k]]
    ensures k !in offsets - remaining
  {
  }

  lemma SingletonOrder(tx: Transaction, order: seq<nat>)
    requires IsOrder(order, Ranges([tx]))
    ensures order == [RangeOf(tx.id)]
  {
    assert RangeOf([tx][0].id) in Ranges([tx]);
    assert Ranges([tx]) == {RangeOf(tx.id)};
    OrderSize(order, Ranges([tx]));
    assert order[0] in order;
  }

  predicate NotAfter(a: PeerId, b: PeerId) {
    a <= b
  }

  predicate Different(a: PeerId, b: PeerId) {
    a != b
  }

  function Smaller(ids: set<PeerId>, self: PeerId): set<PeerId> {
    set p | p in ids && p < self
  }

  /** In a sorted list without repetition an element's position is the number of smaller ones. */
  lemma PositionIsRank(sorted: seq<PeerId>, ids: set<PeerId>, k: nat)
    requires Sorted(sorted, NotAfter) && Pairwise(sorted, Different) && (forall p :: p in sorted <==> p in ids)
    requires k < |sorted|
    ensures k == |Smaller(ids, sorted[k])|
  {
    var smaller := Smaller(ids, sorted[k]);
    var front := sorted[..k];
    forall p ensures p in front <==> p in smaller {
      if p in front {
        var i :| 0 <= i < k && sorted[i] == p;
        assert Different(sorted[i], sorted[k]) && NotAfter(sorted[i], sorted[k]);
        assert sorted[i] in sorted;
      }
      if p in smaller {
        assert p in sorted;
        var i :| 0 <= i < |sorted| && sorted[i] == p;
        assert front[i] == p;
      }
    }
    assert forall i, j | 0 <= i < j < k :: front[i] != front[j] by {
      assert forall i, j | 0 <= i < j < k :: Different(sorted[i], sorted[j]);
    }
    OrderSize(front, smaller);
  }

  /** The identifiers in ascending order. */
  method SortedPeers(ids: set<PeerId>) returns (sorted: seq<PeerId>)
    ensures Sorted(sorted, NotAfter) && Pairwise(sorted, Different) && forall p :: p in sorted <==> p in ids
  {
    var peers: seq<PeerId> := [];
    var remaining := ids;
    while remaining != {}
      invariant remaining <= ids && IsOrder(peers, ids - remaining)
      decreases remaining
    {
      var peer :| peer in remaining;
      assert ids - (remaining - {peer}) == (ids - remaining) + {peer};
      OrderGrows(peers, ids - remaining, peer);
      peers := peers + [peer];
      remaining := remaining - {peer};
    }
    sorted := Sort(peers, NotAfter);
    SortSorted(peers, NotAfter);
    assert Pairwise(peers, Different);
    SortPairwise(peers, NotAfter, Different);
    SameElements(sorted, peers);
    forall p ensures p in sorted <==> p in ids {
      assert p in sorted <==> p in peers;
    }
  }

  /** `recalculate_order`: the number of peers before the own one is logged as the delay factor. Not
      finding the own one is a panic. */
  method RecalculateOrder(self: PeerId, ids: set<PeerId>) returns (delayFactor: nat)
    requires self in ids
    ensures delayFactor == |Smaller(ids, self)|
  {
    var peers := SortedPeers(ids);
    ghost var k :| 0 <= k < |peers| && peers[k] == self;
    delayFactor := 0;
    while peers[delayFactor] != self
      invariant delayFactor <= k
    {
      delayFactor := delayFactor + 1;
    }
    PositionIsRank(peers, ids, delayFactor);
  }

  lemma BatchIngested(index: Index, txs: seq<Transaction>, order: seq<nat>)
    requires Possession(index) && ValidIds(txs) && IsOrder(order, Ranges(txs))
    ensures var after := Ingest(index, txs, order);
            && BatchStored(index.transactions, txs, after.transactions)
            && (forall k | 0 <= k < |order| ::
                  Rescanned(index.selfOffsets, after.selfOffsets, StoreAfter(index, txs, order, k), order[k]))
            && (forall range: nat | range !in order :: SameAt(index.selfOffsets, after.selfOffsets, range))
  {
    var node := Fresh(0, 1).(index := index);
    ReceivedEffect(node, txs, order);
  }

  // ---------- what is sent, in plain terms ----------

  /** What a message does to the node. */
  ghost predicate MessageEffect(before: Node, msg: Inbox, order: seq<nat>, after: Node) {
    match msg
    case State(peer, state) => StateEffect(before, peer, state, after)
    case Nodes(_) => after == before
    case NewTransaction(tx) => BatchEffect(before, [tx], [RangeOf(tx.id)], after)
    case MissingTx(txs) => BatchEffect(before, txs, order, after)
    case RequestMissingTxs(_, _) => after == before
  }

  /** One message has been sent: the answer to the request. */
  ghost predicate AnswerSent(before: seq<Outbox>, store: map<nat, Transaction>, peer: PeerId, intervals: seq<Interval>,
                             after: seq<Outbox>)
  {
    && |after| == |before| + 1 && after[..|before|] == before
    && after[|before|].RequestedTxsForPeer? && after[|before|].peer == peer
    && ServedAs(store, intervals, after[|before|].txs)
  }

  /** The own offsets have been sent, and then one request to each peer that is asked for something. */
  ghost predicate TickSent(n: Node, before: seq<Outbox>, after: seq<Outbox>) {
    exists delays: map<PeerId, seq<Interval>>, peers: seq<PeerId> ::
      && DelaysExact(n.index.Held(), n.index.selfOffsets, n.offsets, delays) && IsOrder(peers, delays.Keys)
      && SentInOrder(n.index.selfOffsets, delays, peers, before, after)
  }

  ghost predicate SentInOrder(selfOffsets: map<nat, nat>, delays: map<PeerId, seq<Interval>>, peers: seq<PeerId>,
                              before: seq<Outbox>, after: seq<Outbox>)
  {
    && |after| == |before| + 1 + |peers| && after[..|before|] == before && after[|before|] == Outbox.State(selfOffsets)
    && forall i | 0 <= i < |peers| ::
         peers[i] in delays && after[|before| + 1 + i] == Outbox.RequestMissingTxs(peers[i], delays[peers[i]])
  }

  lemma RequestsInOrder(selfOffsets: map<nat, nat>, delays: map<PeerId, seq<Interval>>, peers: seq<PeerId>, before: seq<Outbox>)
    requires forall p | p in peers :: p in delays
    ensures SentInOrder(selfOffsets, delays, peers, before, before + [Outbox.State(selfOffsets)] + RequestsTo(delays, peers))
  {
    forall i | 0 <= i < |peers| ensures peers[i] in delays {
      assert peers[i] in peers;
    }
  }

  lemma TickSends(n: Node, plan: Plan, peers: seq<PeerId>, before: seq<Outbox>)
    requires IsPlan(n.index.Held(), n.index.selfOffsets, n.offsets, plan) && BoundedOffsets(n.offsets)
    requires IsOrder(peers, Requests(plan).Keys)
    ensures TickSent(n, before, before + [Outbox.State(n.index.selfOffsets)] + RequestsTo(Requests(plan), peers))
  {
    PlanExact(n.index.Held(), n.index.selfOffsets, n.offsets, plan);
    SentExactly(n, Requests(plan), peers, before);
  }

  lemma SentExactly(n: Node, delays: map<PeerId, seq<Interval>>, peers: seq<PeerId>, before: seq<Outbox>)
    requires DelaysExact(n.index.Held(), n.index.selfOffsets, n.offsets, delays) && IsOrder(peers, delays.Keys)
    ensures TickSent(n, before, before + [Outbox.State(n.index.selfOffsets)] + RequestsTo(delays, peers))
  {
    RequestsInOrder(n.index.selfOffsets, delays, peers, before);
  }

  lemma ReceivedBy(before: Node, index: Index, offsets: Offsets, txs: seq<Transaction>, order: seq<nat>)
    requires index == Ingest(before.index, txs, order)
    requires offsets == Record(before.offsets, before.me, Touched(index, Ranges(txs)))
    ensures before.(index := index, offsets := offsets) == Received(before, txs, order)
  {
  }

  lemma OneBucket(txs: seq<Transaction>, order: seq<nat>)
    requires |txs| == 1 && IsOrder(order, Ranges(txs))
    ensures |order| == 1
  {
    assert txs == [txs[0]];
    SingletonOrder(txs[0], order);
  }

  class App {
    const peerId: PeerId
    const consensusNodes: NonZero
    const sha: Sha256
    var selfOffsets: map<nat, nat>
    var offsets: Offsets
    var consensusOffset: map<nat, nat>
    var commitedOffsets: map<nat, nat>
    var epochs: seq<Epoch>
    var transactions: map<nat, Transaction>
    const linearizer: LogLinearizer
    /** What has been sent to the network layer. */
    var outbox: seq<Outbox>

    ghost function View(): Node
      reads this, linearizer
    {
      Node(peerId, consensusNodes, Index(selfOffsets, transactions), offsets, consensusOffset,
                Ledger(commitedOffsets, epochs, linearizer.sequence))
    }

    ghost predicate Valid()
      reads this, linearizer
    {
      NodeInv(sha, View())
    }

    constructor (peerId: PeerId, consensusNodes: NonZero, sha: Sha256)
      ensures Valid() && View() == Fresh(peerId, consensusNodes) && outbox == []
      ensures fresh(linearizer) && this.sha == sha && this.peerId == peerId && this.consensusNodes == consensusNodes
      ensures selfOffsets == map[] && offsets == map[] && consensusOffset == map[] && commitedOffsets == map[]
      ensures epochs == [] && transactions == map[] && linearizer.sequence == []
    {
      this.peerId, this.consensusNodes, this.sha := peerId, consensusNodes, sha;
      selfOffsets, offsets, consensusOffset, commitedOffsets := map[], map[], map[], map[];
      epochs, transactions, outbox := [], map[], [];
      linearizer := new LogLinearizer();
      new;
      FreshInv(sha, peerId, consensusNodes);
    }

    // ---------- offsets of peers ----------

    /** `move_offset_pointer` */
    method MoveOffsetPointer(peer: PeerId, newRange: nat, newOffset: nat)
      modifies this`offsets
      ensures offsets == Record(old(offsets), peer, map[newRange := newOffset])
    {
      if newRange in offsets {
        var inMap: map<PeerId, nat> := offsets[newRange];
        offsets := offsets[newRange := inMap[peer := newOffset]];
      } else {
        offsets := offsets[newRange := map[peer := newOffset]];
      }
    }

    /** `Inbox::State` */
    method HandleState(from: PeerId, state: map<nat, nat>)
      modifies this`offsets
      ensures View() == Heard(old(View()), from, state)
      ensures StateEffect(old(View()), from, state, View())
      ensures old(Valid()) && Bounded(state) && from != peerId ==> Valid()
    {
      ghost var before := View();
      var remaining := state.Keys;
      RecordNothing(offsets, from);
      assert state - remaining == map[];
      while remaining != {}
        invariant remaining <= state.Keys
        invariant offsets == Record(old(offsets), from, state - remaining)
        decreases remaining
      {
        var k :| k in remaining;
        RecordOne(old(offsets), from, state - remaining, k, state[k]);
        assert state - (remaining - {k}) == (state - remaining)[k := state[k]];
        remaining := remaining - {k};
        MoveOffsetPointer(from, k, state[k]);
      }
      assert state - {} == state;
      HeardEffect(before, from, state);
      if old(Valid()) && Bounded(state) && from != peerId {
        HeardInv(sha, before, from, state);
      }
    }

    // ---------- the index ----------

    /** The scan of `update_self_offsets`: no identifier formed here overflows. */
    method ScanFrom(range: u64, start: u64) returns (newOffset: nat)
      requires forall id :: id in transactions ==> id <= MAX_ID
      requires UniqueBlobId(range, start) in transactions
      ensures newOffset == OffsetOf(RunEnd(transactions.Keys, UniqueBlobId(range, start)))
    {
      var key: u64 := UniqueBlobId(range, start);
      while key + 1 in transactions
        invariant key <= MAX_ID
        invariant RunEnd(transactions.Keys, key) == RunEnd(transactions.Keys, UniqueBlobId(range, start))
        decreases MAX_ID - key
      {
        key := key + 1;
      }
      var decoded := RangeOffsetFromUniqueBlobId(key);
      newOffset := decoded.value.1;
    }

    /** The inner loop of `update_self_offsets`. */
    method InsertAll(txs: seq<Transaction>) returns (has0Tx: bool)
      modifies this`transactions
      ensures transactions == Stored(old(transactions), txs)
      ensures has0Tx <==> HasFirst(txs)
    {
      has0Tx := false;
      for i := 0 to |txs|
        invariant transactions == Stored(old(transactions), txs[..i])
        invariant has0Tx <==> HasFirst(txs[..i])
      {
        var offset := OffsetOf(txs[i].id);
        transactions := transactions[txs[i].id := txs[i]];
        assert txs[..i + 1][..i] == txs[..i];
        if offset == 0 {
          has0Tx := true;
          assert OffsetOf(txs[..i + 1][i].id) == 0;
        } else {
          assert forall j | 0 <= j < i :: txs[..i + 1][j] == txs[..i][j];
        }
      }
      assert txs[..|txs|] == txs;
    }

    /** The body of the outer loop of `update_self_offsets`. */
    method ProcessBucket(range: u64, txs: seq<Transaction>) returns (update: Option<(nat, nat)>)
      requires Possession(Index(selfOffsets, transactions)) && ValidIds(txs) && OneRange(txs, range)
      modifies this`selfOffsets, this`transactions
      ensures Index(selfOffsets, transactions) == IngestBucket(old(Index(selfOffsets, transactions)), range, txs)
      ensures update == if range in selfOffsets then Some((range, selfOffsets[range])) else None
    {
      ghost var before := Index(selfOffsets, transactions);
      if range in before.selfOffsets || HasFirst(txs) {
        BucketResult(before, range, txs);
      }
      var has0Tx := InsertAll(txs);
      var start: u64 := 0;
      if range in selfOffsets {
        start := selfOffsets[range];
      } else {
        if !has0Tx {
          return None;
        }
        selfOffsets := selfOffsets[range := 0];
      }
      var newOffset := ScanFrom(range, start);
      selfOffsets := selfOffsets[range := newOffset];
      Overwritten(before.selfOffsets, range, 0, newOffset);
      update := Some((range, newOffset));
    }

    /** `update_self_offsets`: the buckets are visited in any order; `txs` is what was bucketed. */
    method UpdateSelfOffsets(rangeTransactions: map<nat, seq<Transaction>>, ghost txs: seq<Transaction>)
      returns (updates: seq<(nat, nat)>, ghost order: seq<nat>)
      requires Possession(Index(selfOffsets, transactions)) && ValidIds(txs) && IsBucketing(rangeTransactions, txs)
      modifies this`selfOffsets, this`transactions
      ensures IsOrder(order, Ranges(txs)) && |updates| <= |order|
      ensures Index(selfOffsets, transactions) == Ingest(old(Index(selfOffsets, transactions)), txs, order)
      ensures Pointers(updates) == Touched(Index(selfOffsets, transactions), Ranges(txs))
      ensures BatchStored(old(transactions), txs, transactions)
      ensures forall k | 0 <= k < |order| ::
                Rescanned(old(selfOffsets), selfOffsets, StoreAfter(old(Index(selfOffsets, transactions)), txs, order, k), order[k])
      ensures forall range: nat | range !in order :: SameAt(old(selfOffsets), selfOffsets, range)
    {
      updates, order := [], [];
      ghost var before := Index(selfOffsets, transactions);
      var remaining := rangeTransactions.Keys;
      while remaining != {}
        invariant remaining <= rangeTransactions.Keys
        invariant IsOrder(order, rangeTransactions.Keys - remaining) && |updates| <= |order|
        invariant Possession(Index(selfOffsets, transactions))
        invariant Index(selfOffsets, transactions) == Ingest(before, txs, order)
        invariant Pointers(updates) == Touched(Index(selfOffsets, transactions), rangeTransactions.Keys - remaining)
        decreases remaining
      {
        var range :| range in remaining;
        assert rangeTransactions.Keys - (remaining - {range}) == (rangeTransactions.Keys - remaining) + {range};
        OrderGrows(order, rangeTransactions.Keys - remaining, range);
        BucketFacts(txs, range);
        IngestLast(before, txs, order, range);
        ghost var index := Index(selfOffsets, transactions);
        BucketStep(index, range, Bucket(txs, range));
        BucketOthers(index, range, Bucket(txs, range));
        assert rangeTransactions[range] == Bucket(txs, range);
        var update := ProcessBucket(range, rangeTransactions[range]);
        TouchedGrows(index, Index(selfOffsets, transactions), rangeTransactions.Keys - remaining, range);
        if update.Some? {
          PointersLast(updates, range, update.value.1);
          updates := updates + [update.value];
        }
        order := order + [range];
        remaining := remaining - {range};
      }
      assert rangeTransactions.Keys - {} == rangeTransactions.Keys;
      BatchIngested(before, txs, order);
    }

    /** The loop over the updates in `Inbox::MissingTx`. */
    method MoveOwnPointers(updates: seq<(nat, nat)>)
      modifies this`offsets
      ensures offsets == Record(old(offsets), peerId, Pointers(updates))
    {
      RecordNothing(offsets, peerId);
      for i := 0 to |updates|
        invariant offsets == Record(old(offsets), peerId, Pointers(updates[..i]))
      {
        var (newRange, newOffset) := updates[i];
        RecordOne(old(offsets), peerId, Pointers(updates[..i]), newRange, newOffset);
        PointersLast(updates[..i], newRange, newOffset);
        assert updates[..i + 1] == updates[..i] + [(newRange, newOffset)];
        MoveOffsetPointer(peerId, newRange, newOffset);
      }
      assert updates[..|updates|] == updates;
    }

    /** `Inbox::MissingTx` */
    method HandleMissingTx(txs: seq<Transaction>) returns (ghost order: seq<nat>)
      requires Valid() && ValidIds(txs)
      modifies this`selfOffsets, this`transactions, this`offsets
      ensures IsOrder(order, Ranges(txs))
      ensures View() == Received(old(View()), txs, order) && Valid()
      ensures BatchEffect(old(View()), txs, order, View())
    {
      ghost var before := View();
      order := ReceiveMany(txs);
      ReceivedEffect(before, txs, order);
      ReceivedInv(sha, before, txs, order);
    }

    method ReceiveMany(txs: seq<Transaction>) returns (ghost order: seq<nat>)
      requires Possession(View().index) && ValidIds(txs)
      modifies this`selfOffsets, this`transactions, this`offsets
      ensures IsOrder(order, Ranges(txs))
      ensures View() == Received(old(View()), txs, order)
    {
      ghost var before := View();
      var updates;
      updates, order := Bucketed(txs);
      MoveOwnPointers(updates);
      ReceivedBy(before, Index(selfOffsets, transactions), offsets, txs, order);
    }

    /** A batch goes into buckets and these into the store and the index. */
    method Bucketed(txs: seq<Transaction>) returns (updates: seq<(nat, nat)>, ghost order: seq<nat>)
      requires Possession(Index(selfOffsets, transactions)) && ValidIds(txs)
      modifies this`selfOffsets, this`transactions
      ensures IsOrder(order, Ranges(txs)) && |updates| <= |order|
      ensures Index(selfOffsets, transactions) == Ingest(old(Index(selfOffsets, transactions)), txs, order)
      ensures Pointers(updates) == Touched(Index(selfOffsets, transactions), Ranges(txs))
    {
      var buckets := TxsToRangeTxMap(txs);
      updates, order := UpdateSelfOffsets(buckets, txs);
    }

    /** `Inbox::NewTransaction` */
    method HandleNewTransaction(tx: Transaction)
      requires Valid() && tx.id <= MAX_ID
      modifies this`selfOffsets, this`transactions, this`offsets
      ensures View() == Received(old(View()), [tx], [RangeOf(tx.id)]) && Valid()
      ensures BatchEffect(old(View()), [tx], [RangeOf(tx.id)], View())
      ensures transactions == old(transactions)[tx.id := tx]
    {
      ghost var before := View();
      ghost var order := ReceiveOne([tx]);
      SingletonOrder(tx, order);
      ReceivedEffect(before, [tx], order);
      OneStored(before.index.transactions, tx, transactions);
      ReceivedInv(sha, before, [tx], order);
    }

    /** The wrapper `update_self_offset`: the last update, if there is one. */
    method ReceiveOne(txs: seq<Transaction>) returns (ghost order: seq<nat>)
      requires Possession(View().index) && ValidIds(txs) && |txs| == 1
      modifies this`selfOffsets, this`transactions, this`offsets
      ensures IsOrder(order, Ranges(txs))
      ensures View() == Received(old(View()), txs, order)
    {
      ghost var before := View();
      var updates;
      updates, order := BucketedOne(txs);
      MoveLastPointer(updates);
      ReceivedBy(before, Index(selfOffsets, transactions), offsets, txs, order);
    }

    method BucketedOne(txs: seq<Transaction>) returns (updates: seq<(nat, nat)>, ghost order: seq<nat>)
      requires Possession(Index(selfOffsets, transactions)) && ValidIds(txs) && |txs| == 1
      modifies this`selfOffsets, this`transactions
      ensures IsOrder(order, Ranges(txs)) && |updates| <= 1
      ensures Index(selfOffsets, transactions) == Ingest(old(Index(selfOffsets, transactions)), txs, order)
      ensures Pointers(updates) == Touched(Index(selfOffsets, transactions), Ranges(txs))
    {
      updates, order := Bucketed(txs);
      OneBucket(txs, order);
    }

    method MoveLastPointer(updates: seq<(nat, nat)>)
      requires |updates| <= 1
      modifies this`offsets
      ensures offsets == Record(old(offsets), peerId, Pointers(updates))
    {
      SingletonPointers(updates);
      if |updates| != 0 {
        var (newRange, newOffset) := updates[|updates| - 1];
        MoveOffsetPointer(peerId, newRange, newOffset);
      } else {
        RecordNothing(offsets, peerId);
      }
    }

    // ---------- serving ----------

    /** `Inbox::RequestMissingTxs`. The scan ends because every requested identifier is held. */
    method HandleRequestMissingTxs(peer: PeerId, intervals: seq<Interval>)
      requires Proper(intervals) && AllHeld(transactions, intervals)
      modifies this`outbox
      ensures outbox == old(outbox) + [RequestedTxsForPeer(peer, Answer(transactions, intervals).value)]
      ensures AnswerSent(old(outbox), transactions, peer, intervals, outbox)
    {
      var response: seq<Transaction> := [];
      ghost var ids: seq<nat> := [];
      for i := 0 to |intervals|
        invariant outbox == old(outbox)
        invariant ids == Expand(intervals[..i])
        invariant |response| == |ids|
        invariant forall j | 0 <= j < |ids| :: ids[j] in transactions && response[j] == transactions[ids[j]]
      {
        ExpandMembers(intervals);
        var pointer: u64 := intervals[i].left;
        var end := intervals[i].right;
        while pointer <= end
          invariant outbox == old(outbox)
          invariant intervals[i].left <= pointer <= end + 1
          invariant ids + Ids(pointer, end) == Expand(intervals[..i]) + Ids(intervals[i].left, end)
          invariant |response| == |ids|
          invariant forall j | 0 <= j < |ids| :: ids[j] in transactions && response[j] == transactions[ids[j]]
        {
          assert intervals[i].Contains(pointer) && Covers(intervals, pointer);
          assert Ids(pointer, end) == [pointer] + Ids(pointer + 1, end);
          response := response + [transactions[pointer]];
          ids := ids + [pointer];
          pointer := pointer + 1;
        }
        assert intervals[..i + 1][..i] == intervals[..i];
      }
      assert intervals[..|intervals|] == intervals;
      assert response == Answer(transactions, intervals).value;
      AnswerServes(transactions, intervals);
      outbox := outbox + [RequestedTxsForPeer(peer, response)];
    }

    /** `handle_inbox_message`. For `Nodes` the delay factor is only logged. */
    method HandleInboxMessage(msg: Inbox) returns (ghost order: seq<nat>)
      requires Valid() && Handleable(View(), msg)
      modifies this`selfOffsets, this`transactions, this`offsets, this`outbox
      ensures msg.MissingTx? ==> IsOrder(order, Ranges(msg.txs))
      ensures View() == Handled(old(View()), msg, order)
      ensures outbox == old(outbox) + Replies(old(View()), msg)
      ensures (msg.State? ==> Bounded(msg.offsets) && msg.peer != peerId) ==> Valid()
      ensures MessageEffect(old(View()), msg, order, View())
      ensures msg.Nodes? || msg.RequestMissingTxs? ==> View() == old(View())
      ensures msg.RequestMissingTxs? ==> AnswerSent(old(outbox), transactions, msg.peer, msg.intervals, outbox)
      ensures !msg.RequestMissingTxs? ==> outbox == old(outbox)
    {
      order := [];
      match msg {
        case State(peer, state) =>
          HandleState(peer, state);
        case Nodes(peers) =>
          var _ := RecalculateOrder(peerId, peers);
        case NewTransaction(tx) =>
          HandleNewTransaction(tx);
        case MissingTx(txs) =>
          order := HandleMissingTx(txs);
        case RequestMissingTxs(peer, intervals) =>
          HandleRequestMissingTxs(peer, intervals);
      }
    }

    // ---------- ticks ----------

    method RecalculateConsensusOffsets()
      modifies this`consensusOffset
      ensures consensusOffset == NewConsensus(old(consensusOffset), offsets, consensusNodes)
    {
      var remaining := offsets.Keys;
      ghost var visited: Offsets := map[];
      while remaining != {}
        invariant remaining <= offsets.Keys && visited == offsets - remaining
        invariant consensusOffset == NewConsensus(old(consensusOffset), visited, consensusNodes)
        decreases remaining
      {
        var k :| k in remaining;
        var max := SelectConsensusMaximum(offsets[k], consensusNodes);
        VisitOne(offsets, remaining, k);
        if max.Some? {
          MaximaGrow(visited, consensusNodes, k, offsets[k]);
          MergeOne(old(consensusOffset), Maxima(visited, consensusNodes), k, max.value);
          consensusOffset := consensusOffset[k := max.value];
        } else {
          MaximaExtended(visited, consensusNodes, k, offsets[k]);
        }
        remaining := remaining - {k};
        visited := visited[k := offsets[k]];
      }
      assert visited == offsets;
    }

    /** `advertise_offsets_and_request_missing` */
    method AdvertiseOffsetsAndRequestMissing() returns (ghost plan: Plan, ghost peers: seq<PeerId>)
      requires Valid()
      modifies this`consensusOffset, this`outbox
      ensures View() == Recalculated(old(View())) && Valid()
      ensures IsPlan(transactions.Keys, selfOffsets, offsets, plan)
      ensures IsOrder(peers, Requests(plan).Keys)
      ensures outbox == old(outbox) + [Outbox.State(selfOffsets)] + RequestsTo(Requests(plan), peers)
      ensures TickEffect(old(View()), View()) && TickSent(old(View()), old(outbox), outbox)
    {
      ghost var before, sent := View(), outbox;
      plan, peers := Tick();
      RecalculatedInv(sha, before);
      RecalculatedEffect(before);
      TickSends(before, plan, peers, sent);
    }

    method Tick() returns (ghost plan: Plan, ghost peers: seq<PeerId>)
      requires BoundedOffsets(offsets)
      modifies this`consensusOffset, this`outbox
      ensures View() == Recalculated(old(View()))
      ensures IsPlan(transactions.Keys, selfOffsets, offsets, plan)
      ensures IsOrder(peers, Requests(plan).Keys)
      ensures outbox == old(outbox) + [Outbox.State(selfOffsets)] + RequestsTo(Requests(plan), peers)
    {
      RecalculateConsensusOffsets();
      plan, peers := AdvertiseAndRequest();
    }

    /** What is sent on a tick. */
    method AdvertiseAndRequest() returns (ghost plan: Plan, ghost peers: seq<PeerId>)
      requires BoundedOffsets(offsets)
      modifies this`outbox
      ensures IsPlan(transactions.Keys, selfOffsets, offsets, plan)
      ensures IsOrder(peers, Requests(plan).Keys)
      ensures outbox == old(outbox) + [Outbox.State(selfOffsets)] + RequestsTo(Requests(plan), peers)
    {
      outbox := outbox + [Outbox.State(selfOffsets)];
      var delays;
      delays, plan := FindDelays();
      peers := SendRequests(delays);
    }

    method FindDelays() returns (delays: map<PeerId, seq<Interval>>, ghost plan: Plan)
      requires BoundedOffsets(offsets)
      ensures IsPlan(transactions.Keys, selfOffsets, offsets, plan) && delays == Requests(plan)
    {
      delays, plan := SelfDelays(transactions, selfOffsets, offsets);
    }

    method SendRequests(delays: map<PeerId, seq<Interval>>) returns (ghost peers: seq<PeerId>)
      modifies this`outbox
      ensures IsOrder(peers, delays.Keys)
      ensures outbox == old(outbox) + RequestsTo(delays, peers)
    {
      peers := [];
      var remaining := delays.Keys;
      while remaining != {}
        invariant remaining <= delays.Keys
        invariant IsOrder(peers, delays.Keys - remaining)
        invariant outbox == old(outbox) + RequestsTo(delays, peers)
        decreases remaining
      {
        var peer :| peer in remaining;
        assert delays.Keys - (remaining - {peer}) == (delays.Keys - remaining) + {peer};
        OrderGrows(peers, delays.Keys - remaining, peer);
        RequestsToLast(delays, peers, peer);
        outbox := outbox + [Outbox.RequestMissingTxs(peer, delays[peer])];
        peers := peers + [peer];
        remaining := remaining - {peer};
      }
      assert delays.Keys - {} == delays.Keys;
    }

    /** `commit_epoch_if_needed` */
    method CommitEpochIfNeeded() returns (ghost order: seq<nat>)
      requires Valid()
      modifies this`commitedOffsets, this`epochs, linearizer
      ensures IsOrder(order, Due(consensusOffset, old(commitedOffsets)))
      ensures View() == Committed(sha, old(View()), order) && Valid()
      ensures CommitEffect(sha, old(View()), View())
    {
      ghost var before := View();
      order := CommitLedger();
      CommittedInv(sha, before, order);
      CommittedEffect(sha, before, order);
    }

    method CommitLedger() returns (ghost order: seq<nat>)
      requires Bounded(consensusOffset) && Bounded(commitedOffsets)
      modifies this`commitedOffsets, this`epochs, linearizer
      ensures IsOrder(order, Due(consensusOffset, old(commitedOffsets)))
      ensures Ledger(commitedOffsets, epochs, linearizer.sequence)
              == CommitEpoch(sha, old(Ledger(commitedOffsets, epochs, linearizer.sequence)),
                             Increments(consensusOffset, old(commitedOffsets), order))
    {
      var increments;
      increments, order := CalculateEpochIncrements(consensusOffset, commitedOffsets);
      IncrementsProper(consensusOffset, commitedOffsets, order);
      var newEpoch := NewEpoch(sha, increments, LastHash(epochs));
      linearizer.NewEpoch(newEpoch);
      AdvanceCommitted(increments);
      epochs := epochs + [newEpoch];
    }

    /** The loop over the increments of the new epoch. */
    method AdvanceCommitted(increments: seq<Interval>)
      requires ProperIncrements(increments)
      modifies this`commitedOffsets
      ensures commitedOffsets == Advance(old(commitedOffsets), increments)
    {
      for i := 0 to |increments|
        invariant commitedOffsets == Advance(old(commitedOffsets), increments[..i])
      {
        var decoded := RangeOffsetFromUniqueBlobId(increments[i].right);
        commitedOffsets := commitedOffsets[decoded.value.0 := decoded.value.1];
        assert increments[..i + 1][..i] == increments[..i];
      }
      assert increments[..|increments|] == increments;
    }
  }
}
