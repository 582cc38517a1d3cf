/**
 Every reachable state has a round of every node ahead of it: states are exchanged, each node ticks, and
 its requests are answered. The rounds that convergence asks for are always available.
 */
module Rounds {
  import opened Consensus
  import opened Indexing
  import opened Delays
  import opened Epochs
  import opened Serving
  import opened Protocol
  import opened Theorems
  import opened Progress
  import opened Runs

  // ---------- what a longer run keeps ----------

  ghost predicate Exchange(run: Run, base: nat, q: PeerId, p: PeerId, t: nat) {
    |run.states| == |run.acts| + 1
    && exists e: nat, d: nat :: Exchanged(run.states, run.acts, base, q, p, t, e, d)
  }

  ghost predicate Answered(run: Run, t: nat, peer: PeerId) {
    |run.states| == |run.acts| + 1 && t < |run.acts|
    && exists j: nat, k: nat :: AnsweredBy(run.states, run.acts, t, peer, j, k)
  }

  ghost predicate Round(run: Run, base: nat, p: PeerId) {
    |run.states| == |run.acts| + 1 && exists t: nat :: RoundOf(run.states, run.acts, base, p, t)
  }

  /** No state of `q` is delivered to `p` in what the longer run adds. */
  ghost predicate Quiet(run: Run, longer: Run, q: PeerId, p: PeerId) {
    forall x | |run.acts| <= x < |longer.acts| ::
      !(longer.acts[x].DeliverState? && longer.acts[x].node == p && longer.acts[x].from == q)
  }

  lemma ExchangeKept(run: Run, longer: Run, base: nat, q: PeerId, p: PeerId, t: nat, u: nat)
    requires Extends(run, longer) && Exchange(run, base, q, p, t)
    requires t == u || (t == |run.acts| && u == |longer.acts| && Quiet(run, longer, q, p))
    ensures Exchange(longer, base, q, p, u)
  {
    var e: nat, d: nat :| Exchanged(run.states, run.acts, base, q, p, t, e, d);
    ExtendsAt(run, longer, e);
    ExtendsAt(run, longer, d);
    forall x | d < x < u
      ensures !(longer.acts[x].DeliverState? && longer.acts[x].node == p && longer.acts[x].from == q)
    {
      if x < t {
        ExtendsAt(run, longer, x);
      }
    }
    assert Exchanged(longer.states, longer.acts, base, q, p, u, e, d);
  }

  lemma AnsweredKept(run: Run, longer: Run, t: nat, peer: PeerId)
    requires Extends(run, longer) && Answered(run, t, peer)
    ensures Answered(longer, t, peer)
  {
    var j: nat, k: nat :| AnsweredBy(run.states, run.acts, t, peer, j, k);
    ExtendsAt(run, longer, t);
    ExtendsAt(run, longer, j);
    ExtendsAt(run, longer, k);
    assert AnsweredBy(longer.states, longer.acts, t, peer, j, k);
  }

  lemma RoundKept(run: Run, longer: Run, base: nat, p: PeerId)
    requires Extends(run, longer) && Round(run, base, p)
    ensures Round(longer, base, p)
  {
    var t: nat :| RoundOf(run.states, run.acts, base, p, t);
    ExtendsAt(run, longer, t);
    forall q | q in longer.states[t].nodes && q != p
      ensures exists e: nat, d: nat :: Exchanged(longer.states, longer.acts, base, q, p, t, e, d)
    {
      assert Exchange(run, base, q, p, t);
      ExchangeKept(run, longer, base, q, p, t, t);
    }
    forall peer | peer in Requests(longer.acts[t].plan)
      ensures exists j: nat, k: nat :: AnsweredBy(longer.states, longer.acts, t, peer, j, k)
    {
      assert Answered(run, t, peer);
      AnsweredKept(run, longer, t, peer);
    }
    assert RoundOf(longer.states, longer.acts, base, p, t);
  }

  // ---------- hearing from the others ----------

  lemma DeliverNext(sha: Sha256, run: Run, a: Action) returns (longer: Run)
    requires Valid(sha, run) && Enabled(End(sha, run), a)
    ensures longer == Then(sha, run, a) && Valid(sha, longer) && Extends(run, longer)
    ensures End(sha, longer) == Apply(sha, End(sha, run), a)
  {
    longer := Then(sha, run, a);
    ThenRuns(sha, run, a);
  }

  /** `q` ticks and `p` receives the state. */
  lemma ExchangeNext(sha: Sha256, run: Run, base: nat, q: PeerId, p: PeerId) returns (longer: Run)
    requires Valid(sha, run) && base <= |run.acts| && p != q
    requires p in End(sha, run).nodes && q in End(sha, run).nodes
    ensures Valid(sha, longer) && Extends(run, longer)
    ensures Exchange(longer, base, q, p, |longer.acts|)
    ensures forall x | |run.acts| <= x < |longer.acts| :: longer.acts[x].DeliverState? ==> longer.acts[x].from == q
  {
    var s := End(sha, run);
    var mid, plan := TickNext(sha, run, q);
    EndReachable(sha, run);
    TickDelivers(sha, s, q, plan, p);
    longer := DeliverNext(sha, mid, DeliverState(p, q, s.nodes[q].index.selfOffsets));
    ExtendsTransitive(run, mid, longer);
    var e := |run.acts|;
    assert longer.acts == run.acts + [Advertise(q, plan), DeliverState(p, q, s.nodes[q].index.selfOffsets)];
    ExtendsAt(run, longer, e);
    assert Exchanged(longer.states, longer.acts, base, q, p, |longer.acts|, e, e + 1);
  }

  lemma {:induction false} HearAll(sha: Sha256, run: Run, base: nat, p: PeerId, others: set<PeerId>) returns (longer: Run)
    requires Valid(sha, run) && base <= |run.acts| && p in End(sha, run).nodes
    requires others <= End(sha, run).nodes.Keys - {p}
    ensures Valid(sha, longer) && Extends(run, longer)
    ensures forall q | q in others :: Exchange(longer, base, q, p, |longer.acts|)
    decreases others
  {
    if others == {} {
      longer := run;
    } else {
      var q :| q in others;
      var mid := HearAll(sha, run, base, p, others - {q});
      EndGrows(sha, run, mid);
      longer := ExchangeNext(sha, mid, base, q, p);
      ExtendsTransitive(run, mid, longer);
      forall r | r in others ensures Exchange(longer, base, r, p, |longer.acts|) {
        if r != q {
          ExchangeKept(mid, longer, base, r, p, |mid.acts|, |longer.acts|);
        }
      }
    }
  }

  // ---------- being answered ----------

  lemma RequestWaits(sha: Sha256, run: Run, t: nat, peer: PeerId)
    requires Valid(sha, run) && t < |run.acts| && run.acts[t].Advertise? && peer in Requests(run.acts[t].plan)
    ensures run.acts[t].node in End(sha, run).nodes
    ensures Enabled(End(sha, run), DeliverRequest(peer, run.acts[t].node, Requests(run.acts[t].plan)[peer]))
  {
    var p, intervals := run.acts[t].node, Requests(run.acts[t].plan)[peer];
    assert StepTaken(sha, run.states, run.acts, t);
    assert Request(p, peer, intervals) in Sent(run.states[t], run.acts[t]);
    NetGrows(sha, run.states, run.acts, t + 1, |run.acts|);
    RunGrows(sha, run.states, run.acts, t, |run.acts|);
    EndReachable(sha, run);
    ServingTerminates(sha, End(sha, run), p, peer, intervals);
  }

  lemma AnswerNext(sha: Sha256, run: Run, t: nat, peer: PeerId) returns (longer: Run)
    requires Valid(sha, run) && t < |run.acts| && run.acts[t].Advertise? && peer in Requests(run.acts[t].plan)
    ensures Valid(sha, longer) && Extends(run, longer) && Answered(longer, t, peer)
  {
    var s, p, intervals := End(sha, run), run.acts[t].node, Requests(run.acts[t].plan)[peer];
    RequestWaits(sha, run, t, peer);
    EndReachable(sha, run);
    var order := RequestAnswered(sha, s, p, peer, intervals);
    var txs := Answer(s.nodes[peer].index.transactions, intervals).value;
    var mid := DeliverNext(sha, run, DeliverRequest(peer, p, intervals));
    longer := DeliverNext(sha, mid, DeliverTransactions(p, txs, order));
    ExtendsTransitive(run, mid, longer);
    var j := |run.acts|;
    assert longer.acts == run.acts + [DeliverRequest(peer, p, intervals), DeliverTransactions(p, txs, order)];
    ExtendsAt(run, longer, j);
    ExtendsAt(run, longer, t);
    assert AnsweredBy(longer.states, longer.acts, t, peer, j, j + 1);
  }

  lemma {:induction false} AnswerAll(sha: Sha256, run: Run, t: nat, peers: set<PeerId>) returns (longer: Run)
    requires Valid(sha, run) && t < |run.acts| && run.acts[t].Advertise? && peers <= Requests(run.acts[t].plan).Keys
    ensures Valid(sha, longer) && Extends(run, longer)
    ensures forall peer | peer in peers :: Answered(longer, t, peer)
    decreases peers
  {
    if peers == {} {
      longer := run;
    } else {
      var peer :| peer in peers;
      var mid := AnswerAll(sha, run, t, peers - {peer});
      ExtendsAt(run, mid, t);
      longer := AnswerNext(sha, mid, t, peer);
      ExtendsTransitive(run, mid, longer);
      forall r | r in peers ensures Answered(longer, t, r) {
        if r != peer {
          AnsweredKept(mid, longer, t, r);
        }
      }
    }
  }

  // ---------- rounds ----------

  lemma RoundNext(sha: Sha256, run: Run, base: nat, p: PeerId) returns (longer: Run)
    requires Valid(sha, run) && base <= |run.acts| && p in End(sha, run).nodes
    ensures Valid(sha, longer) && Extends(run, longer) && Round(longer, base, p)
  {
    var heard := HearAll(sha, run, base, p, End(sha, run).nodes.Keys - {p});
    EndGrows(sha, run, heard);
    var ticked, plan := TickNext(sha, heard, p);
    var t := |heard.acts|;
    longer := AnswerAll(sha, ticked, t, Requests(plan).Keys);
    ExtendsTransitive(heard, ticked, longer);
    ExtendsTransitive(run, heard, longer);
    RoundBuilt(heard, longer, base, p, plan);
  }

  lemma RoundBuilt(heard: Run, longer: Run, base: nat, p: PeerId, plan: Plan)
    requires Extends(heard, longer) && base <= |heard.acts| < |longer.acts|
    requires longer.acts[|heard.acts|] == Advertise(p, plan)
    requires forall q | q in heard.states[|heard.acts|].nodes && q != p :: Exchange(heard, base, q, p, |heard.acts|)
    requires forall peer | peer in Requests(plan) :: Answered(longer, |heard.acts|, peer)
    ensures Round(longer, base, p)
  {
    var t := |heard.acts|;
    ExtendsAt(heard, longer, t);
    forall q | q in longer.states[t].nodes && q != p
      ensures exists e: nat, d: nat :: Exchanged(longer.states, longer.acts, base, q, p, t, e, d)
    {
      ExchangeKept(heard, longer, base, q, p, t, t);
      assert Exchange(longer, base, q, p, t);
    }
    forall peer | peer in Requests(longer.acts[t].plan)
      ensures exists j: nat, k: nat :: AnsweredBy(longer.states, longer.acts, t, peer, j, k)
    {
      assert Answered(longer, t, peer);
    }
    assert RoundOf(longer.states, longer.acts, base, p, t);
  }

  lemma {:induction false} RoundsNext(sha: Sha256, run: Run, base: nat, nodes: set<PeerId>) returns (longer: Run)
    requires Valid(sha, run) && base <= |run.acts| && nodes <= End(sha, run).nodes.Keys
    ensures Valid(sha, longer) && Extends(run, longer)
    ensures forall p | p in nodes :: Round(longer, base, p)
    decreases nodes
  {
    if nodes == {} {
      longer := run;
    } else {
      var p :| p in nodes;
      var mid := RoundsNext(sha, run, base, nodes - {p});
      EndGrows(sha, run, mid);
      longer := RoundNext(sha, mid, base, p);
      ExtendsTransitive(run, mid, longer);
      forall q | q in nodes ensures Round(longer, base, q) {
        if q != p {
          RoundKept(mid, longer, base, q);
        }
      }
    }
  }

  /** From wherever a run has led, it can go on so that every node gets its round, and is then, in every
      range, at least where the furthest node was. */
  lemma ConvergenceAvailable(sha: Sha256, states: seq<System>, acts: seq<Action>) returns (longer: Run)
    requires IsRun(sha, states, acts)
    ensures Valid(sha, longer) && Extends(Run(states, acts), longer)
    ensures forall p | p in states[|acts|].nodes :: Round(longer, |acts|, p)
    ensures forall p, q, range | p in states[|acts|].nodes && q in states[|acts|].nodes
                && range in states[|acts|].nodes[q].index.selfOffsets
                && q in End(sha, longer).nodes && (p == q || !Spills(HeldBy(End(sha, longer), q), range)) ::
              Reaches(End(sha, longer), p, range, states[|acts|].nodes[q].index.selfOffsets[range])
  {
    var run := Run(states, acts);
    longer := RoundsNext(sha, run, |acts|, states[|acts|].nodes.Keys);
    ExtendsAt(run, longer, |acts|);
    forall p | p in longer.states[|acts|].nodes ensures exists t: nat :: RoundOf(longer.states, longer.acts, |acts|, p, t) {
      assert Round(longer, |acts|, p);
    }
    Convergence(sha, longer.states, longer.acts, |acts|);
  }
}
