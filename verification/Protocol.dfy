/**
 The system: any number of nodes and a network that may lose, duplicate and reorder what is sent.
 Sent packets stay available for ever; a packet that is never delivered is lost, one that is
 delivered again is a duplicate. States reach every other node, requests and answers one peer
 (maroon/src/network/p2p.rs).
 */
module Protocol {
  import opened Iteration
  import opened RangeKey
  import opened Consensus
  import opened Indexing
  import opened Delays
  import opened Epochs
  import opened Linearizer
  import opened Commits
  import opened Serving
  import opened Nodes

  datatype Packet =
    | StateOf(from: PeerId, offsets: map<nat, nat>)
    | Request(from: PeerId, to: PeerId, intervals: seq<Interval>)
    | Transactions(to: PeerId, txs: seq<Transaction>)

  /** `hung` are the nodes whose serving loop does not end. */
  datatype System = System(nodes: map<PeerId, Node>, net: set<Packet>, hung: set<PeerId>)

  datatype Action =
    | Gateway(node: PeerId, tx: Transaction)
    | DeliverState(node: PeerId, from: PeerId, offsets: map<nat, nat>)
    | DeliverRequest(node: PeerId, from: PeerId, intervals: seq<Interval>)
    | DeliverTransactions(node: PeerId, txs: seq<Transaction>, order: seq<nat>)
    | Peers(node: PeerId, peers: set<PeerId>)
    | Advertise(node: PeerId, plan: Plan)
    | Commit(node: PeerId, order: seq<nat>)

  ghost predicate Init(s: System) {
    && s.net == {} && s.hung == {}
    && forall p | p in s.nodes :: s.nodes[p] == Fresh(p, s.nodes[p].quorum)
  }

  ghost predicate Enabled(s: System, a: Action) {
    && a.node in s.nodes && a.node !in s.hung
    && var n := s.nodes[a.node];
       match a
       case Gateway(_, tx) => tx.id <= MAX_ID
       case DeliverState(p, from, offsets) => from != p && StateOf(from, offsets) in s.net
       case DeliverRequest(p, from, intervals) => Request(from, p, intervals) in s.net
       case DeliverTransactions(p, txs, order) => Transactions(p, txs) in s.net && IsOrder(order, Ranges(txs))
       case Peers(p, peers) => p in peers
       case Advertise(_, plan) => IsPlan(n.index.Held(), n.index.selfOffsets, n.offsets, plan)
       case Commit(_, order) => IsOrder(order, Due(n.consensus, n.ledger.committed))
  }

  ghost function NodeAfter(sha: Sha256, s: System, a: Action): Node
    requires Enabled(s, a)
  {
    var n := s.nodes[a.node];
    match a
    case Gateway(_, tx) => Received(n, [tx], [RangeOf(tx.id)])
    case DeliverState(_, from, offsets) => Heard(n, from, offsets)
    case DeliverRequest(_, _, _) => n
    case DeliverTransactions(_, txs, order) => Received(n, txs, order)
    case Peers(_, _) => n
    case Advertise(_, _) => Recalculated(n)
    case Commit(_, order) => Committed(sha, n, order)
  }

  ghost function Sent(s: System, a: Action): set<Packet>
    requires Enabled(s, a)
  {
    var n := s.nodes[a.node];
    match a
    case DeliverRequest(_, from, intervals) =>
      (match Answer(n.index.transactions, intervals)
       case Some(txs) => {Transactions(from, txs)}
       case None => {})
    case Advertise(p, plan) =>
      {StateOf(p, n.index.selfOffsets)} + set q | q in Requests(plan) :: Request(p, q, Requests(plan)[q])
    case _ => {}
  }

  ghost predicate Hangs(s: System, a: Action)
    requires Enabled(s, a)
  {
    a.DeliverRequest? && Answer(s.nodes[a.node].index.transactions, a.intervals).None?
  }

  ghost function Apply(sha: Sha256, s: System, a: Action): System
    requires Enabled(s, a)
  {
    System(s.nodes[a.node := NodeAfter(sha, s, a)], s.net + Sent(s, a), s.hung + if Hangs(s, a) then {a.node} else {})
  }

  // ---------- what the nodes know about each other ----------

  ghost function HeldBy(s: System, p: PeerId): set<nat>
    requires p in s.nodes
  {
    s.nodes[p].index.Held()
  }

  /** The peer holds every transaction of the range up to the offset. */
  ghost predicate Holds(s: System, p: PeerId, range: nat, offset: nat) {
    p in s.nodes && PrefixHeld(HeldBy(s, p), range, offset)
  }

  ghost function Holders(s: System, range: nat, offset: nat): set<PeerId> {
    set p | p in s.nodes && Holds(s, p, range, offset)
  }

  /** Whatever is recorded about a peer is covered by what that peer holds. */
  ghost predicate ClaimsHold(s: System, offsets: Offsets) {
    forall range, p :: range in offsets && p in offsets[range] ==> Holds(s, p, range, offsets[range][p])
  }

  ghost predicate QuorumHolds(s: System, quorum: nat, offsets: map<nat, nat>) {
    forall range :: range in offsets ==> |Holders(s, range, offsets[range])| >= quorum
  }

  ghost predicate StateInv(s: System, from: PeerId, offsets: map<nat, nat>) {
    Bounded(offsets) && forall range :: range in offsets ==> Holds(s, from, range, offsets[range])
  }

  ghost predicate RequestInv(s: System, to: PeerId, intervals: seq<Interval>) {
    Proper(intervals) && to in s.nodes && AllHeld(s.nodes[to].index.transactions, intervals)
  }

  ghost predicate PacketInv(s: System, packet: Packet) {
    match packet
    case StateOf(from, offsets) => StateInv(s, from, offsets)
    case Request(_, to, intervals) => RequestInv(s, to, intervals)
    case Transactions(_, txs) => ValidIds(txs)
  }

  ghost predicate MemberInv(sha: Sha256, s: System, p: PeerId)
    requires p in s.nodes
  {
    var n := s.nodes[p];
    && n.me == p
    && NodeInv(sha, n)
    && ClaimsHold(s, n.offsets)
    && QuorumHolds(s, n.quorum, n.consensus)
    && QuorumHolds(s, n.quorum, n.ledger.committed)
  }

  ghost predicate SystemInv(sha: Sha256, s: System) {
    && s.hung == {}
    && (forall p | p in s.nodes :: MemberInv(sha, s, p))
    && (forall packet | packet in s.net :: PacketInv(s, packet))
  }

  // ---------- nothing is ever forgotten ----------

  ghost predicate Grows(s: System, t: System) {
    && s.nodes.Keys == t.nodes.Keys
    && forall p | p in s.nodes :: p in t.nodes && HeldBy(s, p) <= HeldBy(t, p)
  }

  lemma HoldsGrows(s: System, t: System, p: PeerId, range: nat, offset: nat)
    requires Grows(s, t) && Holds(s, p, range, offset)
    ensures Holds(t, p, range, offset)
  {
    PrefixMonotone(HeldBy(s, p), HeldBy(t, p), range, offset);
  }

  lemma HoldersGrow(s: System, t: System, range: nat, offset: nat)
    requires Grows(s, t)
    ensures |Holders(s, range, offset)| <= |Holders(t, range, offset)|
  {
    forall p | p in Holders(s, range, offset) ensures p in Holders(t, range, offset) {
      HoldsGrows(s, t, p, range, offset);
    }
    SubsetSize(Holders(s, range, offset), Holders(t, range, offset));
  }

  lemma QuorumGrows(s: System, t: System, quorum: nat, offsets: map<nat, nat>)
    requires Grows(s, t) && QuorumHolds(s, quorum, offsets)
    ensures QuorumHolds(t, quorum, offsets)
  {
    forall range | range in offsets ensures |Holders(t, range, offsets[range])| >= quorum {
      HoldersGrow(s, t, range, offsets[range]);
    }
  }

  lemma ClaimsGrow(s: System, t: System, offsets: Offsets)
    requires Grows(s, t) && ClaimsHold(s, offsets)
    ensures ClaimsHold(t, offsets)
  {
    forall range, p | range in offsets && p in offsets[range] ensures Holds(t, p, range, offsets[range][p]) {
      HoldsGrows(s, t, p, range, offsets[range][p]);
    }
  }

  lemma MemberGrows(sha: Sha256, s: System, t: System, p: PeerId)
    requires Grows(s, t) && p in s.nodes && t.nodes[p] == s.nodes[p] && MemberInv(sha, s, p)
    ensures MemberInv(sha, t, p)
  {
    var n := s.nodes[p];
    ClaimsGrow(s, t, n.offsets);
    QuorumGrows(s, t, n.quorum, n.consensus);
    QuorumGrows(s, t, n.quorum, n.ledger.committed);
  }

  lemma PacketGrows(s: System, t: System, packet: Packet)
    requires Grows(s, t) && PacketInv(s, packet)
    ensures PacketInv(t, packet)
  {
    match packet {
      case StateOf(from, offsets) =>
        forall range | range in offsets ensures Holds(t, from, range, offsets[range]) {
          HoldsGrows(s, t, from, range, offsets[range]);
        }
      case Request(_, to, intervals) =>
        assert HeldBy(s, to) <= HeldBy(t, to);
      case Transactions(_, txs) =>
    }
  }

  // ---------- every step keeps the invariant ----------

  /** The node `p` of `s` has become `n`; whatever else happened, nothing held was lost. */
  ghost predicate Becomes(s: System, t: System, p: PeerId, n: Node) {
    && p in s.nodes && t.nodes == s.nodes[p := n]
    && s.nodes[p].index.Held() <= n.index.Held()
  }

  lemma BecomesGrows(s: System, t: System, p: PeerId, n: Node)
    requires Becomes(s, t, p, n)
    ensures Grows(s, t)
  {
  }

  lemma RecordClaims(s: System, offsets: Offsets, peer: PeerId, updates: map<nat, nat>)
    requires ClaimsHold(s, offsets) && forall range :: range in updates ==> Holds(s, peer, range, updates[range])
    ensures ClaimsHold(s, Record(offsets, peer, updates))
  {
    var after := Record(offsets, peer, updates);
    forall range, p | range in after && p in after[range] ensures Holds(s, p, range, after[range][p]) {
      if !(range in updates && p == peer) {
        assert range in offsets && p in offsets[range] && after[range][p] == offsets[range][p];
      }
    }
  }

  lemma ReceivedMember(sha: Sha256, s: System, t: System, p: PeerId, txs: seq<Transaction>, order: seq<nat>)
    requires p in s.nodes && MemberInv(sha, s, p) && ValidIds(txs) && IsOrder(order, Ranges(txs))
    requires t.nodes == s.nodes[p := Received(s.nodes[p], txs, order)]
    ensures Becomes(s, t, p, Received(s.nodes[p], txs, order)) && MemberInv(sha, t, p)
  {
    var n, after := s.nodes[p], Received(s.nodes[p], txs, order);
    IngestKeepsInv(n.index, txs, order);
    ReceivedInv(sha, n, txs, order);
    BecomesGrows(s, t, p, after);
    ClaimsGrow(s, t, n.offsets);
    OwnClaims(t, p);
    RecordClaims(t, n.offsets, p, Touched(after.index, Ranges(txs)));
    QuorumGrows(s, t, n.quorum, n.consensus);
    QuorumGrows(s, t, n.quorum, n.ledger.committed);
  }

  lemma OwnClaims(s: System, p: PeerId)
    requires p in s.nodes && Possession(s.nodes[p].index)
    ensures StateInv(s, p, s.nodes[p].index.selfOffsets)
  {
    IndexBounded(s.nodes[p].index);
  }

  lemma HeardMember(sha: Sha256, s: System, t: System, p: PeerId, from: PeerId, state: map<nat, nat>)
    requires p in s.nodes && MemberInv(sha, s, p) && from != p && StateInv(s, from, state)
    requires t.nodes == s.nodes[p := Heard(s.nodes[p], from, state)]
    ensures Becomes(s, t, p, Heard(s.nodes[p], from, state)) && MemberInv(sha, t, p)
  {
    var n, after := s.nodes[p], Heard(s.nodes[p], from, state);
    HeardInv(sha, n, from, state);
    BecomesGrows(s, t, p, after);
    ClaimsGrow(s, t, n.offsets);
    PacketGrows(s, t, StateOf(from, state));
    RecordClaims(t, n.offsets, from, state);
    QuorumGrows(s, t, n.quorum, n.consensus);
    QuorumGrows(s, t, n.quorum, n.ledger.committed);
  }

  /** A consensus offset computed from true claims is held by a quorum. */
  lemma RecalculatedQuorum(s: System, consensus: map<nat, nat>, offsets: Offsets, quorum: NonZero)
    requires ClaimsHold(s, offsets) && QuorumHolds(s, quorum, consensus)
    ensures QuorumHolds(s, quorum, NewConsensus(consensus, offsets, quorum))
  {
    var after := NewConsensus(consensus, offsets, quorum);
    forall range | range in after ensures |Holders(s, range, after[range])| >= quorum {
      if range in Known(offsets, quorum) {
        var v := after[range];
        ConsensusMaximumExact(offsets[range], quorum, v);
        forall p | p in AtLeast(offsets[range], v) ensures p in Holders(s, range, v) {
          assert Holds(s, p, range, offsets[range][p]);
        }
        SubsetSize(AtLeast(offsets[range], v), Holders(s, range, v));
      }
    }
  }

  lemma RecalculatedMember(sha: Sha256, s: System, t: System, p: PeerId)
    requires p in s.nodes && MemberInv(sha, s, p)
    requires t.nodes == s.nodes[p := Recalculated(s.nodes[p])]
    ensures Becomes(s, t, p, Recalculated(s.nodes[p])) && MemberInv(sha, t, p)
  {
    var n, after := s.nodes[p], Recalculated(s.nodes[p]);
    RecalculatedInv(sha, n);
    BecomesGrows(s, t, p, after);
    ClaimsGrow(s, t, n.offsets);
    QuorumGrows(s, t, n.quorum, n.consensus);
    QuorumGrows(s, t, n.quorum, n.ledger.committed);
    RecalculatedQuorum(t, n.consensus, n.offsets, n.quorum);
  }

  lemma CommittedQuorum(s: System, n: Node, order: seq<nat>)
    requires Bounded(n.consensus) && IsOrder(order, Due(n.consensus, n.ledger.committed))
    requires QuorumHolds(s, n.quorum, n.consensus) && QuorumHolds(s, n.quorum, n.ledger.committed)
    ensures QuorumHolds(s, n.quorum, Advance(n.ledger.committed, Increments(n.consensus, n.ledger.committed, order)))
  {
    var after := Advance(n.ledger.committed, Increments(n.consensus, n.ledger.committed, order));
    forall range | range in after ensures |Holders(s, range, after[range])| >= n.quorum {
      CommittedAfter(n.consensus, n.ledger.committed, order, range);
    }
  }

  lemma CommittedMember(sha: Sha256, s: System, t: System, p: PeerId, order: seq<nat>)
    requires p in s.nodes && MemberInv(sha, s, p) && IsOrder(order, Due(s.nodes[p].consensus, s.nodes[p].ledger.committed))
    requires t.nodes == s.nodes[p := Committed(sha, s.nodes[p], order)]
    ensures Becomes(s, t, p, Committed(sha, s.nodes[p], order)) && MemberInv(sha, t, p)
  {
    var n, after := s.nodes[p], Committed(sha, s.nodes[p], order);
    CommittedInv(sha, n, order);
    BecomesGrows(s, t, p, after);
    ClaimsGrow(s, t, n.offsets);
    QuorumGrows(s, t, n.quorum, n.consensus);
    QuorumGrows(s, t, n.quorum, n.ledger.committed);
    CommittedQuorum(t, n, order);
  }

  /** What an action hands to the node is in order. */
  ghost predicate ArrivesProper(s: System, a: Action) {
    && (a.DeliverState? ==> StateInv(s, a.from, a.offsets))
    && (a.DeliverTransactions? ==> ValidIds(a.txs))
  }

  lemma ActorMember(sha: Sha256, s: System, a: Action)
    requires Enabled(s, a) && MemberInv(sha, s, a.node) && ArrivesProper(s, a)
    ensures var t := Apply(sha, s, a);
            Becomes(s, t, a.node, NodeAfter(sha, s, a)) && MemberInv(sha, t, a.node)
  {
    var p, t := a.node, Apply(sha, s, a);
    match a {
      case Gateway(_, tx) =>
        SingleOrder(tx);
        ReceivedMember(sha, s, t, p, [tx], [RangeOf(tx.id)]);
      case DeliverState(_, from, offsets) =>
        HeardMember(sha, s, t, p, from, offsets);
      case DeliverTransactions(_, txs, order) =>
        ReceivedMember(sha, s, t, p, txs, order);
      case Advertise(_, _) =>
        RecalculatedMember(sha, s, t, p);
      case Commit(_, order) =>
        CommittedMember(sha, s, t, p, order);
      case _ =>
        UnchangedMember(sha, s, t, p);
    }
  }

  lemma UnchangedMember(sha: Sha256, s: System, t: System, p: PeerId)
    requires p in s.nodes && MemberInv(sha, s, p) && t.nodes == s.nodes[p := s.nodes[p]]
    ensures Becomes(s, t, p, s.nodes[p]) && MemberInv(sha, t, p)
  {
    MemberGrows(sha, s, t, p);
  }

  lemma ActorKept(sha: Sha256, s: System, a: Action)
    requires SystemInv(sha, s) && Enabled(s, a)
    ensures var t := Apply(sha, s, a);
            Becomes(s, t, a.node, NodeAfter(sha, s, a)) && MemberInv(sha, t, a.node)
  {
    if a.DeliverState? {
      assert PacketInv(s, StateOf(a.from, a.offsets));
    } else if a.DeliverTransactions? {
      assert PacketInv(s, Transactions(a.node, a.txs));
    }
    ActorMember(sha, s, a);
  }

  lemma AskedClaim(s: System, n: Node, plan: Plan, range: nat)
    requires ClaimsHold(s, n.offsets) && IsPlan(n.index.Held(), n.index.selfOffsets, n.offsets, plan) && range in plan.pick
    ensures range in n.offsets && plan.pick[range] in n.offsets[range]
    ensures Holds(s, plan.pick[range], range, n.offsets[range][plan.pick[range]])
  {
    assert RangePlanned(n.index.Held(), n.index.selfOffsets, n.offsets, range, plan.pick[range], plan.runs[range]);
  }

  lemma HeldUpTo(s: System, p: PeerId, id: nat, offset: nat)
    requires Holds(s, p, RangeOf(id), offset) && OffsetOf(id) <= offset
    ensures id in HeldBy(s, p)
  {
    assert UniqueBlobId(RangeOf(id), OffsetOf(id)) == id;
  }

  lemma RequestedHeld(s: System, n: Node, plan: Plan, peer: PeerId, id: nat)
    requires ClaimsHold(s, n.offsets) && BoundedOffsets(n.offsets)
    requires IsPlan(n.index.Held(), n.index.selfOffsets, n.offsets, plan)
    requires peer in s.nodes && Covers(RequestFor(plan, plan.order, peer), id)
    ensures id in HeldBy(s, peer)
  {
    RequestReported(n.index.Held(), n.index.selfOffsets, n.offsets, plan, peer, id);
    HeldUpTo(s, peer, id, n.offsets[RangeOf(id)][peer]);
  }

  /** What a plan requests from a peer, that peer holds. */
  lemma RequestHeld(s: System, n: Node, plan: Plan, peer: PeerId)
    requires ClaimsHold(s, n.offsets) && BoundedOffsets(n.offsets)
    requires IsPlan(n.index.Held(), n.index.selfOffsets, n.offsets, plan) && peer in Requests(plan)
    ensures RequestInv(s, peer, Requests(plan)[peer])
  {
    var request := Requests(plan)[peer];
    var r :| r in plan.pick && plan.pick[r] == peer;
    AskedClaim(s, n, plan, r);
    RequestProper(n, plan, peer);
    ExpandMembers(request);
    forall id | id in Expand(request) ensures id in HeldBy(s, peer) {
      RequestedHeld(s, n, plan, peer, id);
    }
  }

  lemma RequestProper(n: Node, plan: Plan, peer: PeerId)
    requires BoundedOffsets(n.offsets) && peer in Requests(plan)
    requires IsPlan(n.index.Held(), n.index.selfOffsets, n.offsets, plan)
    ensures Proper(Requests(plan)[peer])
  {
    var request := Requests(plan)[peer];
    forall i | 0 <= i < |request| ensures request[i].left <= request[i].right < U64_MAX {
      var r := RequestOrigin(plan, plan.order, peer, request[i]);
      assert RangePlanned(n.index.Held(), n.index.selfOffsets, n.offsets, r, peer, plan.runs[r]);
      PlannedProper(n.index.Held(), n.index.selfOffsets, n.offsets, r, peer, plan.runs[r], request[i]);
    }
  }

  lemma PlannedProper(ids: set<nat>, selfOffsets: map<nat, nat>, offsets: Offsets, range: nat, peer: PeerId, runs: seq<Interval>, run: Interval)
    requires RangePlanned(ids, selfOffsets, offsets, range, peer, runs) && BoundedOffsets(offsets) && run in runs
    ensures run.left <= run.right <= MAX_ID
  {
    var i :| 0 <= i < |runs| && runs[i] == run;
    assert MaximalRun(ids, UniqueBlobId(range, NextOffset(selfOffsets, range)), UniqueBlobId(range, offsets[range][peer]) + 1, run);
  }

  lemma SentKept(sha: Sha256, s: System, a: Action, packet: Packet)
    requires SystemInv(sha, s) && Enabled(s, a) && packet in Sent(s, a)
    ensures PacketInv(s, packet)
  {
    var p := a.node;
    var n := s.nodes[p];
    assert MemberInv(sha, s, p);
    match a {
      case DeliverRequest(_, from, intervals) =>
        AnswerIds(n.index.transactions, intervals);
      case Advertise(_, plan) =>
        if packet.StateOf? {
          OwnClaims(s, p);
        } else {
          RequestHeld(s, n, plan, packet.to);
        }
      case _ =>
    }
  }

  /** No delivered request makes a node scan for ever. */
  lemma NeverHangs(sha: Sha256, s: System, a: Action)
    requires SystemInv(sha, s) && Enabled(s, a)
    ensures !Hangs(s, a)
  {
    if a.DeliverRequest? {
      assert PacketInv(s, Request(a.from, a.node, a.intervals));
    }
  }

  lemma MembersKept(sha: Sha256, s: System, t: System, p: PeerId, n: Node)
    requires Becomes(s, t, p, n) && (forall q | q in s.nodes :: MemberInv(sha, s, q)) && MemberInv(sha, t, p)
    ensures forall q | q in t.nodes :: MemberInv(sha, t, q)
  {
    BecomesGrows(s, t, p, n);
    forall q | q in t.nodes ensures MemberInv(sha, t, q) {
      if q != p {
        MemberGrows(sha, s, t, q);
      }
    }
  }

  lemma StepKeepsInv(sha: Sha256, s: System, a: Action)
    requires SystemInv(sha, s) && Enabled(s, a)
    ensures SystemInv(sha, Apply(sha, s, a)) && Grows(s, Apply(sha, s, a))
  {
    var t := Apply(sha, s, a);
    ActorKept(sha, s, a);
    BecomesGrows(s, t, a.node, NodeAfter(sha, s, a));
    NeverHangs(sha, s, a);
    MembersKept(sha, s, t, a.node, NodeAfter(sha, s, a));
    forall packet | packet in t.net ensures PacketInv(t, packet) {
      if packet !in s.net {
        SentKept(sha, s, a, packet);
      }
      PacketGrows(s, t, packet);
    }
  }

  lemma InitInv(sha: Sha256, s: System)
    requires Init(s)
    ensures SystemInv(sha, s)
  {
    forall p | p in s.nodes ensures MemberInv(sha, s, p) {
      assert s.nodes[p] == Fresh(p, s.nodes[p].quorum);
      FreshInv(sha, p, s.nodes[p].quorum);
    }
  }

  // ---------- runs ----------

  ghost predicate StepTaken(sha: Sha256, states: seq<System>, acts: seq<Action>, i: nat)
    requires i < |acts| && |states| == |acts| + 1
  {
    Enabled(states[i], acts[i]) && states[i + 1] == Apply(sha, states[i], acts[i])
  }

  ghost predicate IsRun(sha: Sha256, states: seq<System>, acts: seq<Action>) {
    && |states| == |acts| + 1
    && Init(states[0])
    && forall i | 0 <= i < |acts| :: StepTaken(sha, states, acts, i)
  }

  ghost predicate Reachable(sha: Sha256, s: System) {
    exists states, acts :: IsRun(sha, states, acts) && states[|acts|] == s
  }

  lemma {:induction false} RunInv(sha: Sha256, states: seq<System>, acts: seq<Action>, i: nat)
    requires IsRun(sha, states, acts) && i <= |acts|
    ensures SystemInv(sha, states[i])
  {
    if i == 0 {
      InitInv(sha, states[0]);
    } else {
      RunInv(sha, states, acts, i - 1);
      assert StepTaken(sha, states, acts, i - 1);
      StepKeepsInv(sha, states[i - 1], acts[i - 1]);
    }
  }

  lemma RunStep(sha: Sha256, states: seq<System>, acts: seq<Action>, i: nat)
    requires IsRun(sha, states, acts) && i < |acts|
    ensures SystemInv(sha, states[i]) && Enabled(states[i], acts[i]) && states[i + 1] == Apply(sha, states[i], acts[i])
  {
    RunInv(sha, states, acts, i);
    assert StepTaken(sha, states, acts, i);
  }

  lemma RunStepGrows(sha: Sha256, states: seq<System>, acts: seq<Action>, i: nat)
    requires IsRun(sha, states, acts) && i < |acts|
    ensures Grows(states[i], states[i + 1])
  {
    RunStep(sha, states, acts, i);
    StepKeepsInv(sha, states[i], acts[i]);
  }

  lemma GrowsTransitive(s: System, t: System, u: System)
    requires Grows(s, t) && Grows(t, u)
    ensures Grows(s, u)
  {
    forall p | p in s.nodes ensures p in u.nodes && HeldBy(s, p) <= HeldBy(u, p) {
      assert HeldBy(s, p) <= HeldBy(t, p) <= HeldBy(u, p);
    }
  }

  lemma ReachableInv(sha: Sha256, s: System)
    requires Reachable(sha, s)
    ensures SystemInv(sha, s)
  {
    var states, acts :| IsRun(sha, states, acts) && states[|acts|] == s;
    RunInv(sha, states, acts, |acts|);
  }

  lemma ReachableMember(sha: Sha256, s: System, p: PeerId)
    requires Reachable(sha, s) && p in s.nodes
    ensures MemberInv(sha, s, p) && s.hung == {}
  {
    ReachableInv(sha, s);
  }
}
