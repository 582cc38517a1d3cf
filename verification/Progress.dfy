/**
 Progress: what one round trip, and one round of every node, bring about; and that every reachable
 state has such rounds ahead of it.
 */
module Progress {
  import opened Wrappers
  import opened RangeKey
  import opened Consensus
  import opened Indexing
  import opened Delays
  import opened Epochs
  import opened Serving
  import opened Nodes
  import opened Protocol
  import opened Theorems

  // ---------- catching up ----------

  /** The node holds the range up to the offset, and has it recorded unless the blob spills. */
  ghost predicate Reaches(s: System, p: PeerId, range: nat, offset: nat) {
    && p in s.nodes && PrefixHeld(HeldBy(s, p), range, offset)
    && (!Spills(HeldBy(s, p), range) ==>
          range in s.nodes[p].index.selfOffsets && s.nodes[p].index.selfOffsets[range] >= offset)
  }

  lemma LongestAtLeast(index: Index, range: nat, offset: nat)
    requires Possession(index) && ExactAt(index, range)
    requires PrefixHeld(index.Held(), range, offset) && offset < SINGLE_BLOB_SIZE
    ensures range in index.selfOffsets && index.selfOffsets[range] >= offset
  {
    assert UniqueBlobId(range, 0) in index.Held();
  }

  lemma AskedOrHeld(n: Node, plan: Plan, range: nat, o: nat)
    requires Possession(n.index) && BoundedOffsets(n.offsets)
    requires IsPlan(n.index.Held(), n.index.selfOffsets, n.offsets, plan) && range in plan.pick
    requires range in n.offsets && plan.pick[range] in n.offsets[range] && o <= n.offsets[range][plan.pick[range]]
    ensures UniqueBlobId(range, o) in n.index.Held()
            || Covers(RequestFor(plan, plan.order, plan.pick[range]), UniqueBlobId(range, o))
  {
    if UniqueBlobId(range, o) !in n.index.Held() {
      BelowIsHeld(n.index, range, o);
      RequestComplete(n.index.Held(), n.index.selfOffsets, n.offsets, plan, range, o);
    }
  }

  lemma BelowIsHeld(index: Index, range: nat, o: nat)
    requires Possession(index) && UniqueBlobId(range, o) !in index.Held()
    ensures NextOffset(index.selfOffsets, range) <= o
  {
    if range in index.selfOffsets {
      assert PrefixHeld(index.Held(), range, index.selfOffsets[range]);
    }
  }

  lemma PickKnown(n: Node, plan: Plan, range: nat)
    requires IsPlan(n.index.Held(), n.index.selfOffsets, n.offsets, plan) && range in plan.pick
    ensures range in n.offsets && plan.pick[range] in n.offsets[range]
    ensures IsGreatest(n.offsets[range], plan.pick[range])
    ensures plan.pick[range] in Requests(plan)
  {
    assert RangePlanned(n.index.Held(), n.index.selfOffsets, n.offsets, range, plan.pick[range], plan.runs[range]);
  }

  /** A request and the held transactions together close the gap up to the advertised border. */
  lemma RequestCloses(n: Node, plan: Plan, range: nat, held: set<nat>)
    requires Possession(n.index) && BoundedOffsets(n.offsets)
    requires IsPlan(n.index.Held(), n.index.selfOffsets, n.offsets, plan) && range in plan.pick
    requires range in n.offsets && plan.pick[range] in n.offsets[range]
    requires n.index.Held() <= held
    requires forall id: nat :: Covers(RequestFor(plan, plan.order, plan.pick[range]), id) ==> id in held
    ensures PrefixHeld(held, range, n.offsets[range][plan.pick[range]])
  {
    forall o: nat | o <= n.offsets[range][plan.pick[range]] ensures UniqueBlobId(range, o) in held {
      AskedOrHeld(n, plan, range, o);
    }
  }

  /** The answer served in step `j` to the request of step `i` is processed in step `k`. */
  ghost predicate AnsweredBy(states: seq<System>, acts: seq<Action>, i: nat, peer: PeerId, j: nat, k: nat)
    requires |states| == |acts| + 1
  {
    && i < j < k < |acts| && acts[i].Advertise? && peer in Requests(acts[i].plan) && peer in states[j].nodes
    && acts[j] == DeliverRequest(peer, acts[i].node, Requests(acts[i].plan)[peer])
    && acts[k].DeliverTransactions? && acts[k].node == acts[i].node
    && Answer(states[j].nodes[peer].index.transactions, Requests(acts[i].plan)[peer]) == Some(acts[k].txs)
  }

  lemma AnswerCarries(sha: Sha256, states: seq<System>, acts: seq<Action>, i: nat, peer: PeerId, j: nat, k: nat, id: nat)
    requires IsRun(sha, states, acts) && AnsweredBy(states, acts, i, peer, j, k)
    requires Covers(Requests(acts[i].plan)[peer], id)
    ensures id in IdsOf(acts[k].txs)
  {
    RunInv(sha, states, acts, j);
    assert MemberInv(sha, states[j], peer);
    AnswerIds(states[j].nodes[peer].index.transactions, Requests(acts[i].plan)[peer]);
  }

  lemma DeliveredIsHeld(sha: Sha256, s: System, a: Action, id: nat)
    requires SystemInv(sha, s) && Enabled(s, a) && a.DeliverTransactions? && id in IdsOf(a.txs)
    ensures id in HeldBy(Apply(sha, s, a), a.node)
  {
    assert MemberInv(sha, s, a.node);
    assert PacketInv(s, Transactions(a.node, a.txs));
    IngestHeld(s.nodes[a.node].index, a.txs, a.order);
  }

  lemma AnswerArrives(sha: Sha256, states: seq<System>, acts: seq<Action>, i: nat, peer: PeerId, j: nat, k: nat, id: nat)
    requires IsRun(sha, states, acts) && AnsweredBy(states, acts, i, peer, j, k)
    requires Covers(Requests(acts[i].plan)[peer], id)
    ensures acts[i].node in states[k + 1].nodes && id in HeldBy(states[k + 1], acts[i].node)
  {
    AnswerCarries(sha, states, acts, i, peer, j, k, id);
    RunStep(sha, states, acts, k);
    DeliveredIsHeld(sha, states[k], acts[k], id);
  }

  lemma TickFacts(sha: Sha256, states: seq<System>, acts: seq<Action>, i: nat)
    requires IsRun(sha, states, acts) && i < |acts| && acts[i].Advertise?
    ensures acts[i].node in states[i].nodes
    ensures var n := states[i].nodes[acts[i].node];
            && Possession(n.index) && BoundedOffsets(n.offsets)
            && IsPlan(n.index.Held(), n.index.selfOffsets, n.offsets, acts[i].plan)
  {
    RunStep(sha, states, acts, i);
    assert MemberInv(sha, states[i], acts[i].node);
  }

  /** One round trip is enough: once the full answer has been processed, the node holds every range it
      asked that peer for up to the border the peer had advertised, whatever else happened meanwhile. */
  lemma CatchUp(sha: Sha256, states: seq<System>, acts: seq<Action>, i: nat, j: nat, k: nat, range: nat)
    requires IsRun(sha, states, acts) && i < |acts| && acts[i].Advertise? && range in acts[i].plan.pick
    requires AnsweredBy(states, acts, i, acts[i].plan.pick[range], j, k)
    ensures acts[i].node in states[i].nodes && acts[i].node in states[k + 1].nodes
    ensures var p, peer := acts[i].node, acts[i].plan.pick[range];
            var offsets := states[i].nodes[p].offsets;
            && range in offsets && peer in offsets[range]
            && PrefixHeld(HeldBy(states[k + 1], p), range, offsets[range][peer])
            && (!Spills(HeldBy(states[k + 1], p), range) ==>
                  var selfOffsets := states[k + 1].nodes[p].index.selfOffsets;
                  range in selfOffsets && selfOffsets[range] >= offsets[range][peer])
  {
    PickOffered(sha, states, acts, i, range);
    BorderHeld(sha, states, acts, i, j, k, range);
    var p, peer := acts[i].node, acts[i].plan.pick[range];
    BorderIndexed(sha, states, acts, k + 1, p, range, states[i].nodes[p].offsets[range][peer]);
  }

  lemma PickOffered(sha: Sha256, states: seq<System>, acts: seq<Action>, i: nat, range: nat)
    requires IsRun(sha, states, acts) && i < |acts| && acts[i].Advertise? && range in acts[i].plan.pick
    ensures acts[i].node in states[i].nodes
    ensures var offsets := states[i].nodes[acts[i].node].offsets;
            && range in offsets && IsGreatest(offsets[range], acts[i].plan.pick[range])
            && offsets[range][acts[i].plan.pick[range]] < SINGLE_BLOB_SIZE
  {
    TickFacts(sha, states, acts, i);
    PickKnown(states[i].nodes[acts[i].node], acts[i].plan, range);
  }

  lemma TickCloses(sha: Sha256, states: seq<System>, acts: seq<Action>, i: nat, range: nat, held: set<nat>)
    requires IsRun(sha, states, acts) && i < |acts| && acts[i].Advertise? && range in acts[i].plan.pick
    requires acts[i].node in states[i].nodes && HeldBy(states[i], acts[i].node) <= held
    requires forall id: nat :: Covers(RequestFor(acts[i].plan, acts[i].plan.order, acts[i].plan.pick[range]), id) ==> id in held
    requires range in states[i].nodes[acts[i].node].offsets
    requires acts[i].plan.pick[range] in states[i].nodes[acts[i].node].offsets[range]
    ensures PrefixHeld(held, range, states[i].nodes[acts[i].node].offsets[range][acts[i].plan.pick[range]])
  {
    TickFacts(sha, states, acts, i);
    RequestCloses(states[i].nodes[acts[i].node], acts[i].plan, range, held);
  }

  lemma BorderHeld(sha: Sha256, states: seq<System>, acts: seq<Action>, i: nat, j: nat, k: nat, range: nat)
    requires IsRun(sha, states, acts) && i < |acts| && acts[i].Advertise? && range in acts[i].plan.pick
    requires AnsweredBy(states, acts, i, acts[i].plan.pick[range], j, k)
    requires acts[i].node in states[i].nodes && range in states[i].nodes[acts[i].node].offsets
    requires acts[i].plan.pick[range] in states[i].nodes[acts[i].node].offsets[range]
    ensures acts[i].node in states[k + 1].nodes
    ensures PrefixHeld(HeldBy(states[k + 1], acts[i].node), range,
                       states[i].nodes[acts[i].node].offsets[range][acts[i].plan.pick[range]])
  {
    var p, plan := acts[i].node, acts[i].plan;
    RunGrows(sha, states, acts, i, k + 1);
    var held := HeldBy(states[k + 1], p);
    forall id: nat | Covers(RequestFor(plan, plan.order, plan.pick[range]), id) ensures id in held {
      AnswerArrives(sha, states, acts, i, plan.pick[range], j, k, id);
    }
    TickCloses(sha, states, acts, i, range, held);
  }

  lemma BorderIndexed(sha: Sha256, states: seq<System>, acts: seq<Action>, i: nat, p: PeerId, range: nat, offset: nat)
    requires IsRun(sha, states, acts) && i <= |acts| && p in states[i].nodes
    requires offset < SINGLE_BLOB_SIZE && PrefixHeld(HeldBy(states[i], p), range, offset)
    ensures Reaches(states[i], p, range, offset)
  {
    RunInv(sha, states, acts, i);
    assert MemberInv(sha, states[i], p);
    if !Spills(HeldBy(states[i], p), range) {
      LongestAtLeast(states[i].nodes[p].index, range, offset);
    }
  }

  // ---------- convergence ----------

  /** Before step `t` node `p` has received a state that `q` sent at or after `base`, and no other state
      of `q` after it. */
  ghost predicate Exchanged(states: seq<System>, acts: seq<Action>, base: nat, q: PeerId, p: PeerId, t: nat, e: nat, d: nat)
    requires |states| == |acts| + 1
  {
    && base <= e < d < t <= |acts| && q in states[e].nodes
    && acts[e].Advertise? && acts[e].node == q
    && acts[d] == DeliverState(p, q, states[e].nodes[q].index.selfOffsets)
    && forall x | d < x < t :: !(acts[x].DeliverState? && acts[x].node == p && acts[x].from == q)
  }

  /** Node `p` ticks in step `t`, after hearing from every other node, and gets all its answers. */
  ghost predicate RoundOf(states: seq<System>, acts: seq<Action>, base: nat, p: PeerId, t: nat)
    requires |states| == |acts| + 1
  {
    && base <= t < |acts| && acts[t].Advertise? && acts[t].node == p
    && (forall q | q in states[t].nodes && q != p :: exists e: nat, d: nat :: Exchanged(states, acts, base, q, p, t, e, d))
    && (forall peer | peer in Requests(acts[t].plan) :: exists j: nat, k: nat :: AnsweredBy(states, acts, t, peer, j, k))
  }

  lemma EntryKept(sha: Sha256, s: System, a: Action, p: PeerId, q: PeerId, range: nat)
    requires Enabled(s, a) && p in s.nodes && p != q && s.nodes[p].me == p
    requires !(a.DeliverState? && a.node == p && a.from == q)
    requires range in s.nodes[p].offsets && q in s.nodes[p].offsets[range]
    ensures var offsets := Apply(sha, s, a).nodes[p].offsets;
            range in offsets && q in offsets[range] && offsets[range][q] == s.nodes[p].offsets[range][q]
  {
    if a.node == p {
      var n := s.nodes[p];
      match a {
        case Gateway(_, tx) =>
          RecordOther(n.offsets, p, Touched(NodeAfter(sha, s, a).index, Ranges([tx])), range, q);
        case DeliverState(_, from, offsets) =>
          RecordOther(n.offsets, from, offsets, range, q);
        case DeliverTransactions(_, txs, order) =>
          RecordOther(n.offsets, p, Touched(NodeAfter(sha, s, a).index, Ranges(txs)), range, q);
        case _ =>
      }
    }
  }

  lemma RunStepEntry(sha: Sha256, states: seq<System>, acts: seq<Action>, i: nat, p: PeerId, q: PeerId, range: nat)
    requires IsRun(sha, states, acts) && i < |acts| && p in states[i].nodes && p != q
    requires !(acts[i].DeliverState? && acts[i].node == p && acts[i].from == q)
    requires range in states[i].nodes[p].offsets && q in states[i].nodes[p].offsets[range]
    ensures p in states[i + 1].nodes
    ensures var offsets := states[i + 1].nodes[p].offsets;
            range in offsets && q in offsets[range] && offsets[range][q] == states[i].nodes[p].offsets[range][q]
  {
    RunStep(sha, states, acts, i);
    assert MemberInv(sha, states[i], p);
    EntryKept(sha, states[i], acts[i], p, q, range);
  }

  lemma StateRecorded(sha: Sha256, states: seq<System>, acts: seq<Action>, d: nat, range: nat)
    requires IsRun(sha, states, acts) && d < |acts| && acts[d].DeliverState? && range in acts[d].offsets
    ensures acts[d].node in states[d + 1].nodes
    ensures var offsets := states[d + 1].nodes[acts[d].node].offsets;
            range in offsets && acts[d].from in offsets[range] && offsets[range][acts[d].from] == acts[d].offsets[range]
  {
    RunStep(sha, states, acts, d);
  }

  lemma {:induction false} EntryStays(sha: Sha256, states: seq<System>, acts: seq<Action>, p: PeerId, q: PeerId, range: nat, d: nat, t: nat)
    requires IsRun(sha, states, acts) && d < t <= |acts| && p != q
    requires acts[d].DeliverState? && acts[d].node == p && acts[d].from == q && range in acts[d].offsets
    requires forall x | d < x < t :: !(acts[x].DeliverState? && acts[x].node == p && acts[x].from == q)
    ensures p in states[t].nodes
    ensures var offsets := states[t].nodes[p].offsets;
            range in offsets && q in offsets[range] && offsets[range][q] == acts[d].offsets[range]
    decreases t - d
  {
    if t == d + 1 {
      StateRecorded(sha, states, acts, d, range);
    } else {
      EntryStays(sha, states, acts, p, q, range, d, t - 1);
      RunStepEntry(sha, states, acts, t - 1, p, q, range);
    }
  }

  lemma HeldLater(sha: Sha256, states: seq<System>, acts: seq<Action>, i: nat, j: nat, p: PeerId, range: nat, offset: nat)
    requires IsRun(sha, states, acts) && i <= j <= |acts| && p in states[i].nodes
    requires PrefixHeld(HeldBy(states[i], p), range, offset)
    ensures p in states[j].nodes && PrefixHeld(HeldBy(states[j], p), range, offset)
  {
    RunGrows(sha, states, acts, i, j);
    PrefixMonotone(HeldBy(states[i], p), HeldBy(states[j], p), range, offset);
  }

  lemma AskedIsHeld(sha: Sha256, states: seq<System>, acts: seq<Action>, t: nat, j: nat, k: nat, range: nat)
    requires IsRun(sha, states, acts) && t < |acts| && acts[t].Advertise? && range in acts[t].plan.pick
    requires AnsweredBy(states, acts, t, acts[t].plan.pick[range], j, k)
    ensures acts[t].node in states[t].nodes && acts[t].node in states[|acts|].nodes
    ensures var p, peer := acts[t].node, acts[t].plan.pick[range];
            var offsets := states[t].nodes[p].offsets;
            && range in offsets && IsGreatest(offsets[range], peer)
            && PrefixHeld(HeldBy(states[|acts|], p), range, offsets[range][peer])
  {
    PickOffered(sha, states, acts, t, range);
    BorderHeld(sha, states, acts, t, j, k, range);
    HeldLater(sha, states, acts, k + 1, |acts|, acts[t].node, range,
              states[t].nodes[acts[t].node].offsets[range][acts[t].plan.pick[range]]);
  }

  lemma ReportBounded(n: Node, range: nat, q: PeerId)
    requires BoundedOffsets(n.offsets) && range in n.offsets && q in n.offsets[range]
    ensures n.offsets[range][q] < SINGLE_BLOB_SIZE
  {
  }

  lemma NotAskedIsHeld(n: Node, plan: Plan, range: nat, q: PeerId)
    requires Possession(n.index) && IsPlan(n.index.Held(), n.index.selfOffsets, n.offsets, plan)
    requires range in n.offsets && q in n.offsets[range] && range !in plan.pick
    ensures PrefixHeld(n.index.Held(), range, n.offsets[range][q])
  {
    assert range !in BehindRanges(n.index.selfOffsets, n.offsets);
    assert !Behind(n.index.selfOffsets, n.offsets, range);
    assert PrefixHeld(n.index.Held(), range, n.index.selfOffsets[range]);
  }

  /** What a node has heard of when it ticks it holds in the end: the requests are answered. */
  lemma HeardIsHeld(sha: Sha256, states: seq<System>, acts: seq<Action>, p: PeerId, q: PeerId, t: nat, range: nat)
    requires IsRun(sha, states, acts) && t < |acts| && acts[t].Advertise? && acts[t].node == p
    requires forall peer | peer in Requests(acts[t].plan) :: exists j: nat, k: nat :: AnsweredBy(states, acts, t, peer, j, k)
    requires p in states[t].nodes
    requires range in states[t].nodes[p].offsets && q in states[t].nodes[p].offsets[range]
    ensures states[t].nodes[p].offsets[range][q] < SINGLE_BLOB_SIZE
    ensures p in states[|acts|].nodes
    ensures PrefixHeld(HeldBy(states[|acts|], p), range, states[t].nodes[p].offsets[range][q])
  {
    var n, plan := states[t].nodes[p], acts[t].plan;
    TickBounds(sha, states, acts, t, range, q);
    if range in plan.pick {
      PickRequested(plan, range);
      var j: nat, k: nat :| AnsweredBy(states, acts, t, plan.pick[range], j, k);
      AskedIsHeld(sha, states, acts, t, j, k, range);
    } else {
      TickHolds(sha, states, acts, t, range, q);
      HeldLater(sha, states, acts, t, |acts|, p, range, n.offsets[range][q]);
    }
  }

  lemma PickRequested(plan: Plan, range: nat)
    requires range in plan.pick
    ensures plan.pick[range] in Requests(plan)
  {
  }

  lemma TickBounds(sha: Sha256, states: seq<System>, acts: seq<Action>, t: nat, range: nat, q: PeerId)
    requires IsRun(sha, states, acts) && t < |acts| && acts[t].Advertise? && acts[t].node in states[t].nodes
    requires range in states[t].nodes[acts[t].node].offsets && q in states[t].nodes[acts[t].node].offsets[range]
    ensures states[t].nodes[acts[t].node].offsets[range][q] < SINGLE_BLOB_SIZE
  {
    TickFacts(sha, states, acts, t);
    ReportBounded(states[t].nodes[acts[t].node], range, q);
  }

  lemma TickHolds(sha: Sha256, states: seq<System>, acts: seq<Action>, t: nat, range: nat, q: PeerId)
    requires IsRun(sha, states, acts) && t < |acts| && acts[t].Advertise? && acts[t].node in states[t].nodes
    requires range in states[t].nodes[acts[t].node].offsets && q in states[t].nodes[acts[t].node].offsets[range]
    requires range !in acts[t].plan.pick
    ensures PrefixHeld(HeldBy(states[t], acts[t].node), range, states[t].nodes[acts[t].node].offsets[range][q])
  {
    TickFacts(sha, states, acts, t);
    NotAskedIsHeld(states[t].nodes[acts[t].node], acts[t].plan, range, q);
  }

  /** After its round a node is, in every range, at least where any other node was at `base`. */
  lemma ConvergencePair(sha: Sha256, states: seq<System>, acts: seq<Action>, base: nat, p: PeerId, q: PeerId, t: nat, range: nat)
    requires IsRun(sha, states, acts) && RoundOf(states, acts, base, p, t)
    requires p in states[base].nodes && q in states[base].nodes && p != q && q in states[|acts|].nodes
    requires !Spills(HeldBy(states[|acts|], q), range) && range in states[base].nodes[q].index.selfOffsets
    ensures Reaches(states[|acts|], p, range, states[base].nodes[q].index.selfOffsets[range])
  {
    RunGrows(sha, states, acts, base, t);
    var e: nat, d: nat :| Exchanged(states, acts, base, q, p, t, e, d);
    RunGrows(sha, states, acts, e, |acts|);
    NotSpilledBefore(states[e], states[|acts|], q, range);
    IndexNeverGoesBack(sha, states, acts, base, e, q, range);
    EntryStays(sha, states, acts, p, q, range, d, t);
    HeardIsHeld(sha, states, acts, p, q, t, range);
    BorderIndexed(sha, states, acts, |acts|, p, range, states[base].nodes[q].index.selfOffsets[range]);
  }

  lemma StaysReached(sha: Sha256, states: seq<System>, acts: seq<Action>, base: nat, p: PeerId, range: nat)
    requires IsRun(sha, states, acts) && base <= |acts| && p in states[base].nodes
    requires range in states[base].nodes[p].index.selfOffsets
    ensures Reaches(states[|acts|], p, range, states[base].nodes[p].index.selfOffsets[range])
  {
    RunInv(sha, states, acts, base);
    assert MemberInv(sha, states[base], p);
    var offset := states[base].nodes[p].index.selfOffsets[range];
    HeldLater(sha, states, acts, base, |acts|, p, range, offset);
    BorderIndexed(sha, states, acts, |acts|, p, range, offset);
  }

  /** Convergence: after one round of every node (all states exchanged, then a tick whose requests are
      answered) each node is, in every range, at least where the furthest node was before: it holds the
      range that far, and has it recorded. New transactions and other messages may come in between. A
      spill matters in its own range only, and only at the two nodes concerned. */
  lemma Convergence(sha: Sha256, states: seq<System>, acts: seq<Action>, base: nat)
    requires IsRun(sha, states, acts) && base <= |acts|
    requires forall p | p in states[base].nodes :: exists t: nat :: RoundOf(states, acts, base, p, t)
    ensures states[|acts|].nodes.Keys == states[base].nodes.Keys
    ensures forall p, q, range | p in states[base].nodes && q in states[base].nodes
                && range in states[base].nodes[q].index.selfOffsets
                && (p == q || !Spills(HeldBy(states[|acts|], q), range)) ::
              Reaches(states[|acts|], p, range, states[base].nodes[q].index.selfOffsets[range])
  {
    RunGrows(sha, states, acts, base, |acts|);
    forall p, q, range | p in states[base].nodes && q in states[base].nodes
        && range in states[base].nodes[q].index.selfOffsets
        && (p == q || !Spills(HeldBy(states[|acts|], q), range))
      ensures Reaches(states[|acts|], p, range, states[base].nodes[q].index.selfOffsets[range])
    {
      if p == q {
        StaysReached(sha, states, acts, base, p, range);
      } else {
        var t: nat :| RoundOf(states, acts, base, p, t);
        ConvergencePair(sha, states, acts, base, p, q, t, range);
      }
    }
  }
}
