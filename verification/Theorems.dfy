/**
 What holds in every reachable state and over every run of the system.
 */
module Theorems {
  import opened Wrappers
  import opened Iteration
  import opened RangeKey
  import opened Consensus
  import opened Indexing
  import opened Histories
  import opened Delays
  import opened Epochs
  import opened Linearizer
  import opened Commits
  import opened Logs
  import opened Serving
  import opened Nodes
  import opened Effects
  import opened Protocol
  import Application

  // ---------- safety of single states ----------

  ghost function HoldersOf(s: System, id: nat): set<PeerId> {
    set p | p in s.nodes && id in HeldBy(s, p)
  }

  lemma LoggedHeld(s: System, quorum: nat, ledger: Ledger, id: nat)
    requires QuorumHolds(s, quorum, ledger.committed)
    requires LogExact(ledger.sequence, ledger.committed) && Bounded(ledger.committed) && id in ledger.sequence
    ensures |HoldersOf(s, id)| >= quorum
  {
    var range := RangeOf(id);
    LogExactlyOnce(ledger.sequence, ledger.committed);
    assert range in ledger.committed && OffsetOf(id) <= ledger.committed[range];
    assert UniqueBlobId(range, OffsetOf(id)) == id;
    SubsetSize(Holders(s, range, ledger.committed[range]), HoldersOf(s, id));
  }

  /** Whatever a node has put into its log is held by at least `consensus_nodes` distinct nodes. */
  lemma QuorumDurability(sha: Sha256, s: System, p: PeerId, id: nat)
    requires Reachable(sha, s) && p in s.nodes && id in s.nodes[p].ledger.sequence
    ensures |HoldersOf(s, id)| >= s.nodes[p].quorum
  {
    ReachableMember(sha, s, p);
    LoggedHeld(s, s.nodes[p].quorum, s.nodes[p].ledger, id);
  }

  /** Every request that is on its way is served: the scan of its addressee ends, with the requested
      transactions and no others, ascending within each interval. No node ever hangs. */
  lemma ServingTerminates(sha: Sha256, s: System, from: PeerId, to: PeerId, intervals: seq<Interval>)
    requires Reachable(sha, s) && Request(from, to, intervals) in s.net
    ensures s.hung == {} && to in s.nodes
    ensures var store := s.nodes[to].index.transactions;
            exists steps: nat ::
              && Ended(After(store, Begin(intervals, []), steps))
              && ServedAs(store, intervals, After(store, Begin(intervals, []), steps).response)
              && var response := After(store, Begin(intervals, []), steps).response;
                 && |response| == |Expand(intervals)|
                 && forall i | 0 <= i < |response| :: response[i].id == Expand(intervals)[i]
  {
    ReachableInv(sha, s);
    assert PacketInv(s, Request(from, to, intervals));
    assert MemberInv(sha, s, to);
    var store := s.nodes[to].index.transactions;
    ServingExact(store, intervals);
    AnswerIds(store, intervals);
    AnswerServes(store, intervals);
  }

  /** Exactly once and gap-free: per range the log is the committed prefix, in order. */
  lemma ExactlyOnceLog(sha: Sha256, s: System, p: PeerId)
    requires Reachable(sha, s) && p in s.nodes
    ensures var log, committed := s.nodes[p].ledger.sequence, s.nodes[p].ledger.committed;
            && (forall id: nat :: id in log <==> RangeOf(id) in committed && OffsetOf(id) <= committed[RangeOf(id)])
            && (forall i, j | 0 <= i < j < |log| :: log[i] != log[j])
            && (forall i, j | 0 <= i < j < |log| && RangeOf(log[i]) == RangeOf(log[j]) :: log[i] < log[j])
  {
    ReachableMember(sha, s, p);
    LogExactlyOnce(s.nodes[p].ledger.sequence, s.nodes[p].ledger.committed);
  }

  /** Any two nodes agree on every range as far as both have come, even in states of different runs. */
  lemma RangeAgreement(sha: Sha256, s: System, p: PeerId, t: System, q: PeerId, range: nat)
    requires Reachable(sha, s) && p in s.nodes && Reachable(sha, t) && q in t.nodes
    ensures var a, b := Project(s.nodes[p].ledger.sequence, range), Project(t.nodes[q].ledger.sequence, range);
            a <= b || b <= a
  {
    ReachableInv(sha, s);
    ReachableInv(sha, t);
    assert MemberInv(sha, s, p) && MemberInv(sha, t, q);
    LogsAgree(s.nodes[p].ledger.sequence, s.nodes[p].ledger.committed,
              t.nodes[q].ledger.sequence, t.nodes[q].ledger.committed, range);
  }

  /** The whole logs of two nodes are equal exactly when they have committed the same and their epochs put
      any two identifiers in the same order. */
  lemma WholeLogAgreement(sha: Sha256, s: System, p: PeerId, t: System, q: PeerId)
    requires Reachable(sha, s) && p in s.nodes && Reachable(sha, t) && q in t.nodes
    ensures var a, b := s.nodes[p].ledger, t.nodes[q].ledger;
            a.sequence == b.sequence <==> a.committed == b.committed && SameEpochOrder(a.sequence, a.epochs, b.epochs)
  {
    ReachableMember(sha, s, p);
    ReachableMember(sha, t, q);
    LogsEqualExactly(sha, s.nodes[p].ledger, t.nodes[q].ledger);
  }

  /** Committed offsets and the log are functions of the epochs, and the increments of a range tile its
      committed prefix. */
  lemma ReplayFromEpochs(sha: Sha256, s: System, p: PeerId, range: nat)
    requires Reachable(sha, s) && p in s.nodes
    ensures var ledger := s.nodes[p].ledger;
            && ledger.committed == ReplayCommitted(ledger.epochs)
            && ledger.sequence == ReplaySequence(ledger.epochs)
            && Tiles(History(ledger.epochs, range), UniqueBlobId(range, 0), UniqueBlobId(range, NextOffset(ledger.committed, range)))
            && AllProper(ledger.epochs)
  {
    ReachableMember(sha, s, p);
  }

  /** One digest stands for everything: nodes with equally many epochs and the same last hash have the
      same epochs, committed offsets and log, or a collision of the hash function is at hand. */
  lemma LastHashDeterminesLog(sha: Sha256, s: System, p: PeerId, t: System, q: PeerId)
    requires Reachable(sha, s) && p in s.nodes && Reachable(sha, t) && q in t.nodes
    requires |s.nodes[p].ledger.epochs| == |t.nodes[q].ledger.epochs|
    requires LastHash(s.nodes[p].ledger.epochs) == LastHash(t.nodes[q].ledger.epochs)
    ensures s.nodes[p].ledger == t.nodes[q].ledger || exists x, y :: Collision(sha, x, y)
  {
    ReachableInv(sha, s);
    ReachableInv(sha, t);
    assert MemberInv(sha, s, p) && MemberInv(sha, t, q);
    ChainBinding(sha, s.nodes[p].ledger.epochs, t.nodes[q].ledger.epochs);
  }

  /** The incremental index: recorded offsets are covered, a range is recorded iff it has begun, and the
      recorded offset is what a recomputation gives unless the blob is full and the next one has begun. */
  lemma IndexIsRecomputation(sha: Sha256, s: System, p: PeerId, range: nat)
    requires Reachable(sha, s) && p in s.nodes
    ensures var index := s.nodes[p].index;
            && (range in index.selfOffsets <==> UniqueBlobId(range, 0) in index.Held())
            && (range in index.selfOffsets ==> PrefixHeld(index.Held(), range, index.selfOffsets[range]))
            && (range in index.selfOffsets && !Spills(index.Held(), range) ==>
                  LongestPrefix(index.Held(), range, index.selfOffsets[range]))
  {
    ReachableMember(sha, s, p);
  }

  /** Requests in reachable states: never to the node itself, always to one that is in the system, and
      with an exact index beginning with the next identifier needed. */
  lemma PlansAreUseful(sha: Sha256, s: System, p: PeerId, plan: Plan, range: nat)
    requires Reachable(sha, s) && p in s.nodes && Enabled(s, Advertise(p, plan))
    requires range in plan.pick
    ensures plan.pick[range] != p && plan.pick[range] in s.nodes
    ensures !Spills(HeldBy(s, p), range) ==>
              && plan.runs[range] != []
              && plan.runs[range][0].left == UniqueBlobId(range, NextOffset(s.nodes[p].index.selfOffsets, range))
  {
    ReachableMember(sha, s, p);
    var n := s.nodes[p];
    NeverAsksItself(n, plan, range);
    AskedClaim(s, n, plan, range);
    if !Spills(HeldBy(s, p), range) {
      NextNeededRequested(n.index, n.offsets, plan, range);
    }
  }

  /** Right after a commit tick a range lags behind its consensus offset by one offset at most, and it
      does not lag at all unless exactly one offset was outstanding. */
  lemma CommitTickLag(sha: Sha256, s: System, p: PeerId, order: seq<nat>, range: nat)
    requires Reachable(sha, s) && Enabled(s, Commit(p, order)) && range in s.nodes[p].consensus
    ensures var before, after := s.nodes[p].ledger.committed, Apply(sha, s, Commit(p, order)).nodes[p].ledger.committed;
            var target := s.nodes[p].consensus[range];
            && NextOffset(after, range) >= target
            && (range in after && after[range] >= target <==> NextOffset(before, range) != target)
  {
    ReachableMember(sha, s, p);
    CommitLag(s.nodes[p].consensus, s.nodes[p].ledger.committed, order, range);
  }

  // ---------- the handlers are never called outside their contract ----------

  function MessageOf(a: Action): Application.Inbox
    requires !a.Advertise? && !a.Commit?
  {
    match a
    case Gateway(_, tx) => Application.Inbox.NewTransaction(tx)
    case DeliverState(_, from, offsets) => Application.Inbox.State(from, offsets)
    case DeliverRequest(_, from, intervals) => Application.Inbox.RequestMissingTxs(from, intervals)
    case DeliverTransactions(_, txs, _) => Application.Inbox.MissingTx(txs)
    case Peers(_, peers) => Application.Inbox.Nodes(peers)
  }

  function PacketOf(from: PeerId, msg: Application.Outbox): Packet {
    match msg
    case State(offsets) => StateOf(from, offsets)
    case RequestMissingTxs(peer, intervals) => Request(from, peer, intervals)
    case RequestedTxsForPeer(peer, txs) => Transactions(peer, txs)
  }

  function PacketList(from: PeerId, outbox: seq<Application.Outbox>): seq<Packet> {
    seq(|outbox|, i requires 0 <= i < |outbox| => PacketOf(from, outbox[i]))
  }

  /** What the network layer makes of an outbox: each packet as often as it is sent. */
  function Packets(from: PeerId, outbox: seq<Application.Outbox>): multiset<Packet> {
    multiset(PacketList(from, outbox))
  }

  lemma {:induction false} OrderBag<T(!new)>(order: seq<T>, keys: set<T>)
    requires IsOrder(order, keys)
    ensures multiset(order) == multiset(keys)
  {
    if order == [] {
      assert keys == {};
    } else {
      var n := |order| - 1;
      var rest := keys - {order[n]};
      OrderPrefix(order, n);
      assert order[..n + 1] == order;
      OrderBag(order[..n], rest);
      assert order == order[..n] + [order[n]];
      BagGrows(rest, order[n]);
      assert keys == rest + {order[n]};
    }
  }

  lemma BagGrows<T>(keys: set<T>, key: T)
    requires key !in keys
    ensures multiset(keys + {key}) == multiset(keys) + multiset{key}
  {
  }

  lemma OrderStarts<T(!new)>(first: T, order: seq<T>, keys: set<T>)
    requires IsOrder(order, keys) && first !in keys
    ensures IsOrder([first] + order, {first} + keys)
  {
    var longer := [first] + order;
    forall i, j | 0 <= i < j < |longer| ensures longer[i] != longer[j] {
      assert longer[j] == order[j - 1] && order[j - 1] in order;
    }
  }

  lemma RequestsOrder(from: PeerId, requests: map<PeerId, seq<Interval>>, peers: seq<PeerId>)
    requires IsOrder(peers, requests.Keys)
    ensures IsOrder(PacketList(from, Application.RequestsTo(requests, peers)),
                    set q | q in requests :: Request(from, q, requests[q]))
  {
    var list := PacketList(from, Application.RequestsTo(requests, peers));
    forall i | 0 <= i < |peers| ensures peers[i] in requests && list[i] == Request(from, peers[i], requests[peers[i]]) {
      assert peers[i] in peers;
    }
    forall q | q in requests ensures Request(from, q, requests[q]) in list {
      assert q in peers;
      var i :| 0 <= i < |peers| && peers[i] == q;
      assert list[i] == Request(from, q, requests[q]);
    }
  }

  lemma TickPacketsOrder(from: PeerId, selfOffsets: map<nat, nat>, requests: map<PeerId, seq<Interval>>, peers: seq<PeerId>)
    requires IsOrder(peers, requests.Keys)
    ensures IsOrder(PacketList(from, [Application.Outbox.State(selfOffsets)] + Application.RequestsTo(requests, peers)),
                    {StateOf(from, selfOffsets)} + set q | q in requests :: Request(from, q, requests[q]))
  {
    var outbox := Application.RequestsTo(requests, peers);
    RequestsOrder(from, requests, peers);
    OrderStarts(StateOf(from, selfOffsets), PacketList(from, outbox), set q | q in requests :: Request(from, q, requests[q]));
    assert PacketList(from, [Application.Outbox.State(selfOffsets)] + outbox)
        == [StateOf(from, selfOffsets)] + PacketList(from, outbox);
  }

  /** What a tick puts into the outbox, the requests in any order, is what the system's step sends, and
      its effect on the node is that of the step. */
  lemma TickHandled(sha: Sha256, s: System, p: PeerId, plan: Plan, peers: seq<PeerId>)
    requires Enabled(s, Advertise(p, plan)) && IsOrder(peers, Requests(plan).Keys)
    ensures var n := s.nodes[p];
            && NodeAfter(sha, s, Advertise(p, plan)) == Recalculated(n)
            && multiset(Sent(s, Advertise(p, plan)))
               == Packets(p, [Application.Outbox.State(n.index.selfOffsets)]
                             + Application.RequestsTo(Requests(plan), peers))
  {
    var selfOffsets := s.nodes[p].index.selfOffsets;
    TickPacketsOrder(p, selfOffsets, Requests(plan), peers);
    OrderBag(PacketList(p, [Application.Outbox.State(selfOffsets)] + Application.RequestsTo(Requests(plan), peers)),
             Sent(s, Advertise(p, plan)));
  }

  lemma RepliesSent(s: System, a: Action)
    requires Enabled(s, a) && !a.Advertise? && !a.Commit? && !Hangs(s, a)
    ensures multiset(Sent(s, a)) == Packets(a.node, Application.Replies(s.nodes[a.node], MessageOf(a)))
  {
    var list := PacketList(a.node, Application.Replies(s.nodes[a.node], MessageOf(a)));
    if a.DeliverRequest? {
      assert list == [Transactions(a.from, Answer(s.nodes[a.node].index.transactions, a.intervals).value)];
    } else {
      assert list == [];
    }
  }

  lemma DeliveryHandleable(sha: Sha256, s: System, a: Action)
    requires SystemInv(sha, s) && Enabled(s, a) && !a.Advertise? && !a.Commit?
    ensures var n, msg := s.nodes[a.node], MessageOf(a);
            && NodeInv(sha, n) && n.me == a.node && Application.Handleable(n, msg)
            && (msg.State? ==> Bounded(msg.offsets) && msg.peer != n.me)
  {
    assert MemberInv(sha, s, a.node);
    match a {
      case DeliverState(_, from, offsets) => assert PacketInv(s, StateOf(from, offsets));
      case DeliverRequest(p, from, intervals) => assert PacketInv(s, Request(from, p, intervals));
      case DeliverTransactions(p, txs, _) => assert PacketInv(s, Transactions(p, txs));
      case _ =>
    }
  }

  /** In reachable states every delivery meets the demands of `handle_inbox_message`, so no panic is
      hit, no id or offset overflows and no scan hangs; and what the handler does to the node and puts
      into the outbox is the system's step. */
  lemma DeliveriesHandled(sha: Sha256, s: System, a: Action)
    requires Reachable(sha, s) && Enabled(s, a) && !a.Advertise? && !a.Commit?
    ensures var n, msg := s.nodes[a.node], MessageOf(a);
            && NodeInv(sha, n) && Application.Handleable(n, msg)
            && (msg.State? ==> Bounded(msg.offsets) && msg.peer != n.me)
            && NodeAfter(sha, s, a) == Application.Handled(n, msg, if a.DeliverTransactions? then a.order else [])
            && multiset(Sent(s, a)) == Packets(a.node, Application.Replies(n, msg))
  {
    StepFacts(sha, s, a);
    RepliesSent(s, a);
    ReachableHandleable(sha, s, a);
  }

  lemma ReachableHandleable(sha: Sha256, s: System, a: Action)
    requires Reachable(sha, s) && Enabled(s, a) && !a.Advertise? && !a.Commit?
    ensures var n, msg := s.nodes[a.node], MessageOf(a);
            && NodeInv(sha, n) && Application.Handleable(n, msg)
            && (msg.State? ==> Bounded(msg.offsets) && msg.peer != n.me)
  {
    ReachableInv(sha, s);
    DeliveryHandleable(sha, s, a);
  }

  // ---------- the system is never stuck ----------

  /** In every reachable state every node can tick and commit. */
  lemma TicksAvailable(sha: Sha256, s: System, p: PeerId) returns (plan: Plan, order: seq<nat>)
    requires Reachable(sha, s) && p in s.nodes
    ensures Enabled(s, Advertise(p, plan)) && Enabled(s, Commit(p, order))
    ensures NodeInv(sha, s.nodes[p])
  {
    ReachableMember(sha, s, p);
    var n := s.nodes[p];
    plan := PlanExists(n.index.Held(), n.index.selfOffsets, n.offsets);
    order := OrderExists(Due(n.consensus, n.ledger.committed));
  }

  /** What a tick sends can be delivered: the state to every other node, each request to its addressee. */
  lemma TickDelivers(sha: Sha256, s: System, p: PeerId, plan: Plan, q: PeerId)
    requires Reachable(sha, s) && Enabled(s, Advertise(p, plan)) && q in s.nodes && q != p
    ensures var t := Apply(sha, s, Advertise(p, plan));
            && Enabled(t, DeliverState(q, p, s.nodes[p].index.selfOffsets))
            && (q in Requests(plan) ==> Enabled(t, DeliverRequest(q, p, Requests(plan)[q])))
  {
    ReachableMember(sha, s, p);
  }

  /** After a tick the consensus offsets are the order statistics of what has been reported. */
  lemma TickRecalculates(sha: Sha256, s: System, p: PeerId, plan: Plan, range: nat)
    requires Enabled(s, Advertise(p, plan))
    ensures var n, after := s.nodes[p], Apply(sha, s, Advertise(p, plan)).nodes[p].consensus;
            if range in n.offsets && |n.offsets[range]| >= n.quorum
            then range in after && IsQuorumOffset(n.offsets[range], n.quorum, after[range])
            else (range in after <==> range in n.consensus) && (range in after ==> after[range] == n.consensus[range])
  {
    var n := s.nodes[p];
    if range in n.offsets && |n.offsets[range]| >= n.quorum {
      ConsensusMaximumExact(n.offsets[range], n.quorum, ConsensusMaximum(n.offsets[range], n.quorum).value);
    }
  }

  /** A delivered request is answered, and the answer can be delivered. */
  lemma RequestAnswered(sha: Sha256, s: System, from: PeerId, to: PeerId, intervals: seq<Interval>) returns (order: seq<nat>)
    requires Reachable(sha, s) && from in s.nodes && Enabled(s, DeliverRequest(to, from, intervals))
    ensures var answer := Answer(s.nodes[to].index.transactions, intervals);
            && answer.Some?
            && Enabled(Apply(sha, s, DeliverRequest(to, from, intervals)), DeliverTransactions(from, answer.value, order))
  {
    ReachableInv(sha, s);
    StepKeepsInv(sha, s, DeliverRequest(to, from, intervals));
    NeverHangs(sha, s, DeliverRequest(to, from, intervals));
    order := OrderExists(Ranges(Answer(s.nodes[to].index.transactions, intervals).value));
  }

  // ---------- consensus offsets may go down ----------

  /** The peer whose offsets an action moves, and where it moves them. */
  function Reporter(a: Action): PeerId {
    if a.DeliverState? then a.from else a.node
  }

  ghost function Reported(sha: Sha256, s: System, a: Action): map<nat, nat>
    requires Enabled(s, a)
  {
    match a
    case Gateway(_, tx) => Touched(NodeAfter(sha, s, a).index, Ranges([tx]))
    case DeliverState(_, _, offsets) => offsets
    case DeliverTransactions(_, txs, _) => Touched(NodeAfter(sha, s, a).index, Ranges(txs))
    case _ => map[]
  }

  lemma OffsetsAfter(sha: Sha256, s: System, a: Action)
    requires Enabled(s, a) && s.nodes[a.node].me == a.node
    ensures NodeAfter(sha, s, a).offsets == Record(s.nodes[a.node].offsets, Reporter(a), Reported(sha, s, a))
    ensures NodeAfter(sha, s, a).quorum == s.nodes[a.node].quorum
  {
    RecordNothing(s.nodes[a.node].offsets, a.node);
  }

  lemma MaximaAfter(sha: Sha256, s: System, a: Action)
    requires Reachable(sha, s) && Enabled(s, a)
    ensures var n, after := s.nodes[a.node], NodeAfter(sha, s, a);
            && n.me == a.node
            && Recalculated(n).consensus == Maxima(n.offsets, n.quorum)
            && Recalculated(after).consensus == Maxima(after.offsets, after.quorum)
  {
    ReachableInv(sha, s);
    ActorKept(sha, s, a);
    assert MemberInv(sha, s, a.node);
    RecalculatedMaxima(s.nodes[a.node]);
    RecalculatedMaxima(NodeAfter(sha, s, a));
  }

  /** When an event makes the next tick record a lower consensus offset for a range: exactly when it
      moves a peer back over that offset, and there were just `consensus_nodes` peers at or beyond it. */
  lemma ConsensusDropsExactly(sha: Sha256, s: System, a: Action, range: nat)
    requires Reachable(sha, s) && Enabled(s, a) && range in Recalculated(s.nodes[a.node]).consensus
    ensures var n, peer, updates := s.nodes[a.node], Reporter(a), Reported(sha, s, a);
            var w, after := Recalculated(n).consensus[range], Recalculated(NodeAfter(sha, s, a)).consensus;
            && range in after && range in n.offsets
            && (after[range] < w
                <==> && range in updates && peer in n.offsets[range]
                     && updates[range] < w <= n.offsets[range][peer]
                     && |AtLeast(n.offsets[range], w)| == n.quorum)
  {
    var n := s.nodes[a.node];
    MaximaAfter(sha, s, a);
    OffsetsAfter(sha, s, a);
    MaximaOfKnown(n.offsets, n.quorum);
    RecordLowersExactly(n.offsets, n.quorum, Reporter(a), Reported(sha, s, a), range);
  }

  // ---------- nothing is invented ----------

  /** What an action brings to the acting node from outside. */
  ghost function Arriving(a: Action): set<nat> {
    match a
    case Gateway(_, tx) => {tx.id}
    case DeliverTransactions(_, txs, _) => IdsOf(txs)
    case _ => {}
  }

  lemma ArrivalsValid(sha: Sha256, s: System, a: Action)
    requires SystemInv(sha, s) && Enabled(s, a)
    ensures Possession(s.nodes[a.node].index)
    ensures a.DeliverTransactions? ==> ValidIds(a.txs)
  {
    assert MemberInv(sha, s, a.node);
    if a.DeliverTransactions? {
      assert PacketInv(s, Transactions(a.node, a.txs));
    }
  }

  /** A store grows by exactly the transactions that arrive. */
  lemma StoresExactly(sha: Sha256, s: System, a: Action, p: PeerId)
    requires Enabled(s, a) && p in s.nodes
    requires Possession(s.nodes[a.node].index) && (a.DeliverTransactions? ==> ValidIds(a.txs))
    ensures HeldBy(Apply(sha, s, a), p) == HeldBy(s, p) + if p == a.node then Arriving(a) else {}
  {
    if a.node == p && a.Gateway? {
      SingleOrder(a.tx);
      IngestHeld(s.nodes[p].index, [a.tx], [RangeOf(a.tx.id)]);
    } else if a.node == p && a.DeliverTransactions? {
      IngestHeld(s.nodes[p].index, a.txs, a.order);
    }
  }

  /** A gateway has submitted exactly this transaction, status included. */
  ghost predicate Submitted(acts: seq<Action>, tx: Transaction) {
    exists i | 0 <= i < |acts| :: acts[i].Gateway? && acts[i].tx == tx
  }

  ghost predicate StoredSubmitted(s: System, acts: seq<Action>) {
    forall p, id | p in s.nodes && id in s.nodes[p].index.transactions :: Submitted(acts, s.nodes[p].index.transactions[id])
  }

  ghost predicate SentSubmitted(s: System, acts: seq<Action>) {
    forall packet, tx | packet in s.net && packet.Transactions? && tx in packet.txs :: Submitted(acts, tx)
  }

  ghost predicate OnlySubmitted(s: System, acts: seq<Action>) {
    StoredSubmitted(s, acts) && SentSubmitted(s, acts)
  }

  lemma SubmittedGrows(acts: seq<Action>, a: Action, tx: Transaction)
    requires Submitted(acts, tx) || (a.Gateway? && a.tx == tx)
    ensures Submitted(acts + [a], tx)
  {
    var longer := acts + [a];
    if Submitted(acts, tx) {
      var i :| 0 <= i < |acts| && acts[i].Gateway? && acts[i].tx == tx;
      assert longer[i] == acts[i];
    } else {
      assert longer[|acts|] == a;
    }
  }

  lemma FetchedFrom(store: map<nat, Transaction>, ids: seq<nat>, tx: Transaction)
    requires (forall i | 0 <= i < |ids| :: ids[i] in store) && tx in Fetch(store, ids)
    ensures exists id :: id in store && store[id] == tx
  {
    var i :| 0 <= i < |ids| && Fetch(store, ids)[i] == tx;
    assert store[ids[i]] == tx;
  }

  lemma AnswerFromStore(s: System, a: Action, packet: Packet, tx: Transaction)
    requires Enabled(s, a) && packet in Sent(s, a) && packet.Transactions? && tx in packet.txs
    ensures exists id :: id in s.nodes[a.node].index.transactions && s.nodes[a.node].index.transactions[id] == tx
  {
    var store := s.nodes[a.node].index.transactions;
    assert Answer(store, a.intervals) == Some(packet.txs);
    FetchedFrom(store, Expand(a.intervals), tx);
  }

  lemma {:induction false} LastIndex(txs: seq<Transaction>, id: nat) returns (i: nat)
    requires Mentions(txs, id)
    ensures i < |txs| && txs[i].id == id && LastOfId(txs, i)
  {
    var n := |txs| - 1;
    if txs[n].id == id {
      i := n;
    } else {
      var k :| 0 <= k < |txs| && txs[k].id == id;
      assert txs[..n][k].id == id;
      i := LastIndex(txs[..n], id);
    }
  }

  /** What is stored after a batch is from the batch or was stored before. */
  lemma StoredFrom(before: map<nat, Transaction>, txs: seq<Transaction>, after: map<nat, Transaction>, id: nat)
    requires BatchStored(before, txs, after) && id in after
    ensures after[id] in txs || (id in before && before[id] == after[id])
  {
    if Mentions(txs, id) {
      var i := LastIndex(txs, id);
      assert after[txs[i].id] == txs[i];
    }
  }

  /** The transactions that an action brings to the acting node. */
  function Brought(a: Action): seq<Transaction> {
    match a
    case Gateway(_, tx) => [tx]
    case DeliverTransactions(_, txs, _) => txs
    case _ => []
  }

  /** A store changes by exactly the transactions that arrive: each identifier maps to the last of them, as
      received, and every other one to what it did. */
  lemma TransactionsKept(sha: Sha256, s: System, a: Action, p: PeerId)
    requires Enabled(s, a) && p in s.nodes
    ensures BatchStored(s.nodes[p].index.transactions, if p == a.node then Brought(a) else [],
                        Apply(sha, s, a).nodes[p].index.transactions)
  {
    if a.node == p && a.Gateway? {
      SingleOrder(a.tx);
      IngestStores(s.nodes[p].index, [a.tx], [RangeOf(a.tx.id)]);
    } else if a.node == p && a.DeliverTransactions? {
      IngestStores(s.nodes[p].index, a.txs, a.order);
    }
  }

  lemma BroughtSubmitted(s: System, a: Action, acts: seq<Action>, tx: Transaction)
    requires Enabled(s, a) && SentSubmitted(s, acts) && tx in Brought(a)
    ensures Submitted(acts, tx) || (a.Gateway? && a.tx == tx)
  {
    if a.DeliverTransactions? {
      assert Transactions(a.node, a.txs) in s.net;
    }
  }

  lemma StepStoresSubmitted(sha: Sha256, s: System, a: Action, acts: seq<Action>)
    requires Enabled(s, a) && OnlySubmitted(s, acts)
    ensures StoredSubmitted(Apply(sha, s, a), acts + [a])
  {
    var t := Apply(sha, s, a);
    forall p, id | p in t.nodes && id in t.nodes[p].index.transactions
      ensures Submitted(acts + [a], t.nodes[p].index.transactions[id])
    {
      var before, after := s.nodes[p].index.transactions, t.nodes[p].index.transactions;
      var txs := if p == a.node then Brought(a) else [];
      TransactionsKept(sha, s, a, p);
      StoredFrom(before, txs, after, id);
      if after[id] in txs {
        BroughtSubmitted(s, a, acts, after[id]);
      }
      SubmittedGrows(acts, a, after[id]);
    }
  }

  lemma StepSendsSubmitted(sha: Sha256, s: System, a: Action, acts: seq<Action>)
    requires SystemInv(sha, s) && Enabled(s, a) && OnlySubmitted(s, acts)
    ensures SentSubmitted(Apply(sha, s, a), acts + [a])
  {
    var t := Apply(sha, s, a);
    forall packet, tx | packet in t.net && packet.Transactions? && tx in packet.txs ensures Submitted(acts + [a], tx) {
      if packet !in s.net {
        AnswerFromStore(s, a, packet, tx);
      }
      SubmittedGrows(acts, a, tx);
    }
  }

  lemma StepInventsNothing(sha: Sha256, s: System, a: Action, acts: seq<Action>)
    requires SystemInv(sha, s) && Enabled(s, a) && OnlySubmitted(s, acts)
    ensures OnlySubmitted(Apply(sha, s, a), acts + [a])
  {
    StepStoresSubmitted(sha, s, a, acts);
    StepSendsSubmitted(sha, s, a, acts);
  }

  lemma PrefixGrows(acts: seq<Action>, i: nat)
    requires i < |acts|
    ensures acts[..i + 1] == acts[..i] + [acts[i]]
  {
  }

  lemma RunStepInventsNothing(sha: Sha256, states: seq<System>, acts: seq<Action>, i: nat)
    requires IsRun(sha, states, acts) && i < |acts| && OnlySubmitted(states[i], acts[..i])
    ensures OnlySubmitted(states[i + 1], acts[..i + 1])
  {
    RunStep(sha, states, acts, i);
    PrefixGrows(acts, i);
    StepInventsNothing(sha, states[i], acts[i], acts[..i]);
  }

  /** Over any run every transaction that is stored, or on its way, is one that a gateway has submitted,
      status included. */
  lemma {:induction false} RunInventsNothing(sha: Sha256, states: seq<System>, acts: seq<Action>, i: nat)
    requires IsRun(sha, states, acts) && i <= |acts|
    ensures OnlySubmitted(states[i], acts[..i])
  {
    if i > 0 {
      RunInventsNothing(sha, states, acts, i - 1);
      RunStepInventsNothing(sha, states, acts, i - 1);
    } else {
      FreshHoldsNothing(states[0]);
    }
  }

  lemma FreshHoldsNothing(s: System)
    requires Init(s)
    ensures forall p | p in s.nodes :: HeldBy(s, p) == {}
  {
    forall p | p in s.nodes ensures HeldBy(s, p) == {} {
      assert s.nodes[p] == Fresh(p, s.nodes[p].quorum);
    }
  }

  /** Every identifier in a log was submitted by a gateway earlier in the run. */
  lemma LogOnlySubmitted(sha: Sha256, states: seq<System>, acts: seq<Action>, i: nat, p: PeerId, id: nat)
    requires IsRun(sha, states, acts) && i <= |acts| && p in states[i].nodes
    requires id in states[i].nodes[p].ledger.sequence
    ensures exists tx: Transaction :: tx.id == id && Submitted(acts[..i], tx)
  {
    RunReachable(sha, states, acts, i);
    QuorumDurability(sha, states[i], p, id);
    RunInventsNothing(sha, states, acts, i);
    assert HoldersOf(states[i], id) != {};
    var q :| q in HoldersOf(states[i], id);
    ReachableMember(sha, states[i], q);
    var tx := states[i].nodes[q].index.transactions[id];
    assert tx.id == id && Submitted(acts[..i], tx);
  }

  lemma RunReachable(sha: Sha256, states: seq<System>, acts: seq<Action>, i: nat)
    requires IsRun(sha, states, acts) && i <= |acts|
    ensures Reachable(sha, states[i])
  {
    var front, did := states[..i + 1], acts[..i];
    forall x | 0 <= x < |did| ensures StepTaken(sha, front, did, x) {
      assert StepTaken(sha, states, acts, x);
    }
    assert IsRun(sha, front, did) && front[|did|] == states[i];
  }

  // ---------- whole runs ----------

  lemma {:induction false} RunGrows(sha: Sha256, states: seq<System>, acts: seq<Action>, i: nat, j: nat)
    requires IsRun(sha, states, acts) && i <= j <= |acts|
    ensures Grows(states[i], states[j])
    decreases j - i
  {
    if i < j {
      RunGrows(sha, states, acts, i, j - 1);
      RunStepGrows(sha, states, acts, j - 1);
      GrowsTransitive(states[i], states[j - 1], states[j]);
    }
  }

  ghost predicate NoneLower(before: map<nat, nat>, after: map<nat, nat>) {
    forall range :: range in before ==> range in after && after[range] >= before[range]
  }

  /** What may happen to a ledger: it grows at the end, and no committed offset is lowered. */
  ghost predicate LedgerGrows(a: Ledger, b: Ledger) {
    a.epochs <= b.epochs && a.sequence <= b.sequence && NoneLower(a.committed, b.committed)
  }

  lemma CommitGrows(sha: Sha256, ledger: Ledger, consensus: map<nat, nat>, order: seq<nat>)
    requires Bounded(consensus) && IsOrder(order, Due(consensus, ledger.committed))
    ensures LedgerGrows(ledger, CommitEpoch(sha, ledger, Increments(consensus, ledger.committed, order)))
  {
    forall range | range in ledger.committed
      ensures var after := Advance(ledger.committed, Increments(consensus, ledger.committed, order));
              range in after && after[range] >= ledger.committed[range]
    {
      CommitLag(consensus, ledger.committed, order, range);
    }
  }

  lemma StepLedger(sha: Sha256, s: System, a: Action, p: PeerId)
    requires Enabled(s, a) && p in s.nodes && Bounded(s.nodes[p].consensus)
    ensures LedgerGrows(s.nodes[p].ledger, Apply(sha, s, a).nodes[p].ledger)
  {
    if a.Commit? && a.node == p {
      CommitGrows(sha, s.nodes[p].ledger, s.nodes[p].consensus, a.order);
    }
  }

  lemma RunStepLedger(sha: Sha256, states: seq<System>, acts: seq<Action>, i: nat, p: PeerId)
    requires IsRun(sha, states, acts) && i < |acts| && p in states[i].nodes
    ensures p in states[i + 1].nodes && LedgerGrows(states[i].nodes[p].ledger, states[i + 1].nodes[p].ledger)
  {
    RunStep(sha, states, acts, i);
    assert MemberInv(sha, states[i], p);
    StepLedger(sha, states[i], acts[i], p);
  }

  lemma LedgerGrowsTransitive(a: Ledger, b: Ledger, c: Ledger)
    requires LedgerGrows(a, b) && LedgerGrows(b, c)
    ensures LedgerGrows(a, c)
  {
  }

  /** Nothing committed is ever taken back, although consensus offsets may go down. */
  lemma {:induction false} CommittedNeverGoesBack(sha: Sha256, states: seq<System>, acts: seq<Action>, i: nat, j: nat, p: PeerId)
    requires IsRun(sha, states, acts) && i <= j <= |acts| && p in states[i].nodes
    ensures p in states[j].nodes && LedgerGrows(states[i].nodes[p].ledger, states[j].nodes[p].ledger)
    decreases j - i
  {
    if i < j {
      CommittedNeverGoesBack(sha, states, acts, i, j - 1, p);
      RunStepLedger(sha, states, acts, j - 1, p);
      LedgerGrowsTransitive(states[i].nodes[p].ledger, states[j - 1].nodes[p].ledger, states[j].nodes[p].ledger);
    }
  }

  lemma StepIndex(sha: Sha256, s: System, a: Action, p: PeerId, range: nat)
    requires SystemInv(sha, s) && Enabled(s, a) && p in s.nodes
    requires !Spills(HeldBy(Apply(sha, s, a), p), range)
    ensures NoLowerAt(s.nodes[p].index.selfOffsets, Apply(sha, s, a).nodes[p].index.selfOffsets, range)
  {
    assert MemberInv(sha, s, p);
    if a.node == p && a.Gateway? {
      SingleOrder(a.tx);
      IngestKeepsInv(s.nodes[p].index, [a.tx], [RangeOf(a.tx.id)]);
    } else if a.node == p && a.DeliverTransactions? {
      assert PacketInv(s, Transactions(p, a.txs));
      IngestKeepsInv(s.nodes[p].index, a.txs, a.order);
    }
  }

  lemma RunStepIndex(sha: Sha256, states: seq<System>, acts: seq<Action>, i: nat, p: PeerId, range: nat)
    requires IsRun(sha, states, acts) && i < |acts| && p in states[i].nodes && p in states[i + 1].nodes
    requires !Spills(HeldBy(states[i + 1], p), range)
    ensures NoLowerAt(states[i].nodes[p].index.selfOffsets, states[i + 1].nodes[p].index.selfOffsets, range)
  {
    RunStep(sha, states, acts, i);
    StepIndex(sha, states[i], acts[i], p, range);
  }

  /** The recorded offset of a range never goes back as long as its blob does not run, full, into the next. */
  lemma {:induction false} IndexNeverGoesBack(sha: Sha256, states: seq<System>, acts: seq<Action>,
                                              i: nat, j: nat, p: PeerId, range: nat)
    requires IsRun(sha, states, acts) && i <= j <= |acts| && p in states[i].nodes && p in states[j].nodes
    requires !Spills(HeldBy(states[j], p), range)
    ensures NoLowerAt(states[i].nodes[p].index.selfOffsets, states[j].nodes[p].index.selfOffsets, range)
    decreases j - i
  {
    if i < j {
      RunGrows(sha, states, acts, i, j - 1);
      RunStepGrows(sha, states, acts, j - 1);
      NotSpilledBefore(states[j - 1], states[j], p, range);
      IndexNeverGoesBack(sha, states, acts, i, j - 1, p, range);
      RunStepIndex(sha, states, acts, j - 1, p, range);
      NoLowerTransitive(states[i].nodes[p].index.selfOffsets, states[j - 1].nodes[p].index.selfOffsets,
                        states[j].nodes[p].index.selfOffsets, range);
    }
  }

  lemma NotSpilledBefore(s: System, t: System, p: PeerId, range: nat)
    requires Grows(s, t) && p in s.nodes && p in t.nodes && !Spills(HeldBy(t, p), range)
    ensures !Spills(HeldBy(s, p), range)
  {
    if Spills(HeldBy(s, p), range) {
      SpillsMonotone(HeldBy(s, p), HeldBy(t, p), range);
    }
  }

  // ---------- every step, in plain terms ----------

  /** What an action does to the acting node. */
  ghost predicate Effect(sha: Sha256, a: Action, before: Node, after: Node) {
    match a
    case Gateway(_, tx) => BatchEffect(before, [tx], [RangeOf(tx.id)], after)
    case DeliverState(_, from, offsets) => StateEffect(before, from, offsets, after)
    case DeliverRequest(_, _, _) => after == before
    case DeliverTransactions(_, txs, order) => BatchEffect(before, txs, order, after)
    case Peers(_, _) => after == before
    case Advertise(_, _) => TickEffect(before, after)
    case Commit(_, _) => CommitEffect(sha, before, after)
  }

  /** What an action sends. */
  ghost predicate Sends(a: Action, before: Node, sent: set<Packet>) {
    match a
    case DeliverRequest(_, from, intervals) =>
      exists txs :: ServedAs(before.index.transactions, intervals, txs) && sent == {Transactions(from, txs)}
    case Advertise(p, _) =>
      exists delays: map<PeerId, seq<Interval>> ::
        && DelaysExact(before.index.Held(), before.index.selfOffsets, before.offsets, delays)
        && sent == {StateOf(p, before.index.selfOffsets)} + set q | q in delays :: Request(p, q, delays[q])
    case _ => sent == {}
  }

  lemma NodeEffect(sha: Sha256, s: System, a: Action)
    requires Enabled(s, a) && NodeInv(sha, s.nodes[a.node]) && (a.DeliverTransactions? ==> ValidIds(a.txs))
    ensures Effect(sha, a, s.nodes[a.node], NodeAfter(sha, s, a))
  {
    var n := s.nodes[a.node];
    match a {
      case Gateway(_, tx) =>
        SingleOrder(tx);
        ReceivedEffect(n, [tx], [RangeOf(tx.id)]);
      case DeliverState(_, from, offsets) => HeardEffect(n, from, offsets);
      case DeliverTransactions(_, txs, order) => ReceivedEffect(n, txs, order);
      case Advertise(_, _) => RecalculatedEffect(n);
      case Commit(_, order) => CommittedEffect(sha, n, order);
      case _ =>
    }
  }

  lemma NodeSends(sha: Sha256, s: System, a: Action)
    requires Enabled(s, a) && NodeInv(sha, s.nodes[a.node]) && !Hangs(s, a)
    ensures Sends(a, s.nodes[a.node], Sent(s, a))
  {
    var n := s.nodes[a.node];
    match a {
      case DeliverRequest(_, from, intervals) =>
        AnswerServes(n.index.transactions, intervals);
      case Advertise(p, plan) =>
        PlanExact(n.index.Held(), n.index.selfOffsets, n.offsets, plan);
      case _ =>
    }
  }

  lemma StepFacts(sha: Sha256, s: System, a: Action)
    requires Reachable(sha, s) && Enabled(s, a)
    ensures NodeInv(sha, s.nodes[a.node]) && (a.DeliverTransactions? ==> ValidIds(a.txs))
    ensures !Hangs(s, a) && s.hung == {}
  {
    ReachableInv(sha, s);
    NeverHangs(sha, s, a);
    ArrivalsValid(sha, s, a);
    assert MemberInv(sha, s, a.node);
  }

  /** Every step from a reachable state: the acting node changes as its effect says and the others do not
      change, what is sent is added to the network and nothing is taken from it, and no node hangs. */
  lemma StepExact(sha: Sha256, s: System, a: Action)
    requires Reachable(sha, s) && Enabled(s, a)
    ensures var t := Apply(sha, s, a);
            && t.nodes.Keys == s.nodes.Keys && (forall p | p in s.nodes && p != a.node :: t.nodes[p] == s.nodes[p])
            && Effect(sha, a, s.nodes[a.node], t.nodes[a.node])
            && t.net == s.net + Sent(s, a) && Sends(a, s.nodes[a.node], Sent(s, a))
            && t.hung == {}
  {
    StepFacts(sha, s, a);
    NodeEffect(sha, s, a);
    NodeSends(sha, s, a);
  }

  /** The order in which a hash map yields the due ranges reaches neither the log nor the committed offsets. */
  lemma CommitOrderInvisible(sha: Sha256, s: System, p: PeerId, a: seq<nat>, b: seq<nat>)
    requires Reachable(sha, s) && Enabled(s, Commit(p, a)) && Enabled(s, Commit(p, b))
    ensures var x, y := Apply(sha, s, Commit(p, a)).nodes[p].ledger, Apply(sha, s, Commit(p, b)).nodes[p].ledger;
            x.sequence == y.sequence && x.committed == y.committed && |x.epochs| == |y.epochs|
  {
    StepExact(sha, s, Commit(p, a));
    StepExact(sha, s, Commit(p, b));
    var n := s.nodes[p];
    EffectDetermines(sha, n.consensus, n.ledger, Apply(sha, s, Commit(p, a)).nodes[p].ledger,
                     Apply(sha, s, Commit(p, b)).nodes[p].ledger);
  }
}
