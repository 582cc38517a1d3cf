/**
 Building runs step by step.
 */
module Runs {
  import opened RangeKey
  import opened Consensus
  import opened Indexing
  import opened Delays
  import opened Epochs
  import opened Nodes
  import opened Protocol
  import opened Theorems

  datatype Run = Run(states: seq<System>, acts: seq<Action>)

  ghost predicate Valid(sha: Sha256, run: Run) {
    IsRun(sha, run.states, run.acts)
  }

  ghost function End(sha: Sha256, run: Run): System
    requires Valid(sha, run)
  {
    run.states[|run.acts|]
  }

  ghost predicate Extends(run: Run, longer: Run) {
    && |run.states| == |run.acts| + 1 && |longer.states| == |longer.acts| + 1
    && run.states <= longer.states && run.acts <= longer.acts
  }

  lemma ExtendsTransitive(a: Run, b: Run, c: Run)
    requires Extends(a, b) && Extends(b, c)
    ensures Extends(a, c)
  {
  }

  lemma ExtendsAt(run: Run, longer: Run, i: nat)
    requires Extends(run, longer)
    ensures i <= |run.acts| ==> longer.states[i] == run.states[i]
    ensures i < |run.acts| ==> longer.acts[i] == run.acts[i]
  {
  }

  ghost function Then(sha: Sha256, run: Run, a: Action): Run
    requires Valid(sha, run) && Enabled(End(sha, run), a)
  {
    Run(run.states + [Apply(sha, End(sha, run), a)], run.acts + [a])
  }

  lemma ThenRuns(sha: Sha256, run: Run, a: Action)
    requires Valid(sha, run) && Enabled(End(sha, run), a)
    ensures Valid(sha, Then(sha, run, a)) && Extends(run, Then(sha, run, a))
    ensures End(sha, Then(sha, run, a)) == Apply(sha, End(sha, run), a)
  {
    var longer := Then(sha, run, a);
    forall i | 0 <= i < |longer.acts| ensures StepTaken(sha, longer.states, longer.acts, i) {
      if i < |run.acts| {
        assert StepTaken(sha, run.states, run.acts, i);
      }
    }
  }

  lemma EndReachable(sha: Sha256, run: Run)
    requires Valid(sha, run)
    ensures Reachable(sha, End(sha, run))
  {
  }

  lemma EndMember(sha: Sha256, run: Run, p: PeerId)
    requires Valid(sha, run) && p in End(sha, run).nodes
    ensures MemberInv(sha, End(sha, run), p) && End(sha, run).hung == {}
  {
    ReachableMember(sha, End(sha, run), p);
  }

  lemma NoneHung(sha: Sha256, run: Run)
    requires Valid(sha, run)
    ensures End(sha, run).hung == {}
  {
    EndReachable(sha, run);
    ReachableInv(sha, End(sha, run));
  }

  lemma EndGrows(sha: Sha256, run: Run, longer: Run)
    requires Valid(sha, run) && Valid(sha, longer) && Extends(run, longer)
    ensures Grows(End(sha, run), End(sha, longer))
  {
    ExtendsAt(run, longer, |run.acts|);
    RunGrows(sha, longer.states, longer.acts, |run.acts|, |longer.acts|);
  }

  /** What was sent stays available. */
  lemma {:induction false} NetGrows(sha: Sha256, states: seq<System>, acts: seq<Action>, i: nat, j: nat)
    requires IsRun(sha, states, acts) && i <= j <= |acts|
    ensures states[i].net <= states[j].net
    decreases j - i
  {
    if i < j {
      NetGrows(sha, states, acts, i, j - 1);
      assert StepTaken(sha, states, acts, j - 1);
    }
  }

  /** Any node can tick next. */
  lemma TickNext(sha: Sha256, run: Run, p: PeerId) returns (longer: Run, plan: Plan)
    requires Valid(sha, run) && p in End(sha, run).nodes
    ensures Enabled(End(sha, run), Advertise(p, plan)) && longer == Then(sha, run, Advertise(p, plan))
    ensures Valid(sha, longer) && Extends(run, longer)
    ensures End(sha, longer) == Apply(sha, End(sha, run), Advertise(p, plan))
  {
    var order;
    EndReachable(sha, run);
    plan, order := TicksAvailable(sha, End(sha, run), p);
    longer := Then(sha, run, Advertise(p, plan));
    ThenRuns(sha, run, Advertise(p, plan));
  }

  // ---------- a run of one node that receives transactions from a gateway ----------

  ghost function Alone(p: PeerId, quorum: NonZero): System {
    System(map[p := Fresh(p, quorum)], {}, {})
  }

  lemma StartRun(sha: Sha256, s: System)
    requires Init(s)
    ensures Valid(sha, Run([s], []))
  {
  }

  lemma SubmitNext(sha: Sha256, run: Run, p: PeerId, tx: Transaction) returns (longer: Run)
    requires Valid(sha, run) && p in End(sha, run).nodes && tx.id <= MAX_ID
    ensures Enabled(End(sha, run), Gateway(p, tx)) && longer == Then(sha, run, Gateway(p, tx))
    ensures Valid(sha, longer) && Extends(run, longer)
    ensures End(sha, longer) == Apply(sha, End(sha, run), Gateway(p, tx))
  {
    EndMember(sha, run, p);
    longer := Then(sha, run, Gateway(p, tx));
    ThenRuns(sha, run, Gateway(p, tx));
  }
}
