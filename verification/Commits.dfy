/**
 Committing epochs (`calculate_epoch_increments` and `commit_epoch_if_needed` in
 maroon/src/app/app.rs): committed offsets, the epochs and the log.
 */
module Commits {
  import opened Wrappers
  import opened Iteration
  import opened Sorting
  import opened RangeKey
  import opened Epochs
  import opened Linearizer

  datatype Ledger = Ledger(committed: map<nat, nat>, epochs: seq<Epoch>, sequence: seq<nat>)

  // ---------- one commit ----------

  /** The ranges that get an increment: the guard is strict, so a single new offset does not count. */
  function Due(consensus: map<nat, nat>, committed: map<nat, nat>): set<nat> {
    set range | range in consensus && NextOffset(committed, range) < consensus[range]
  }

  function Increment(consensus: map<nat, nat>, committed: map<nat, nat>, range: nat): Interval
    requires range in consensus
  {
    Interval(UniqueBlobId(range, NextOffset(committed, range)), UniqueBlobId(range, consensus[range]))
  }

  function Increments(consensus: map<nat, nat>, committed: map<nat, nat>, order: seq<nat>): seq<Interval>
    requires forall range | range in order :: range in consensus
  {
    seq(|order|, i requires 0 <= i < |order| => Increment(consensus, committed, order[i]))
  }

  function Advance(committed: map<nat, nat>, increments: seq<Interval>): map<nat, nat> {
    if increments == [] then
      committed
    else
      var n := |increments| - 1;
      Advance(committed, increments[..n])[RangeOf(increments[n].right) := OffsetOf(increments[n].right)]
  }

  function CommitEpoch(sha: Sha256, ledger: Ledger, increments: seq<Interval>): Ledger {
    Ledger(Advance(ledger.committed, increments),
           ledger.epochs + [NextEpoch(sha, increments, LastHash(ledger.epochs))],
           Appended(ledger.sequence, increments))
  }

  ghost predicate Bounded(offsets: map<nat, nat>) {
    forall range :: range in offsets ==>
      offsets[range] < SINGLE_BLOB_SIZE && UniqueBlobId(range, offsets[range]) <= MAX_ID
  }

  lemma OneIncrementEach(consensus: map<nat, nat>, committed: map<nat, nat>, order: seq<nat>)
    requires IsOrder(order, Due(consensus, committed))
    ensures var increments := Increments(consensus, committed, order);
            && |increments| == |Due(consensus, committed)|
            && (forall x :: x in increments <==>
                  exists range :: range in Due(consensus, committed) && x == Increment(consensus, committed, range))
  {
    var increments := Increments(consensus, committed, order);
    OrderSize(order, Due(consensus, committed));
    forall range | range in Due(consensus, committed)
      ensures Increment(consensus, committed, range) in increments
    {
      var i :| 0 <= i < |order| && order[i] == range;
      assert increments[i] == Increment(consensus, committed, range);
    }
    forall x | x in increments
      ensures exists range :: range in Due(consensus, committed) && x == Increment(consensus, committed, range)
    {
      var i :| 0 <= i < |increments| && increments[i] == x;
      assert order[i] in Due(consensus, committed);
    }
  }

  /** `calculate_epoch_increments` */
  method CalculateEpochIncrements(consensus: map<nat, nat>, committed: map<nat, nat>)
    returns (increments: seq<Interval>, ghost order: seq<nat>)
    requires Bounded(consensus) && Bounded(committed)
    ensures IsOrder(order, Due(consensus, committed))
    ensures increments == Increments(consensus, committed, order)
    ensures |increments| == |Due(consensus, committed)|
    ensures forall x :: x in increments <==>
      exists range :: range in Due(consensus, committed) && x == Increment(consensus, committed, range)
  {
    increments, order := [], [];
    ghost var due := Due(consensus, committed);
    var remaining := consensus.Keys;
    while remaining != {}
      invariant remaining <= consensus.Keys
      invariant IsOrder(order, due - remaining)
      invariant increments == Increments(consensus, committed, order)
      decreases remaining
    {
      var range :| range in remaining;
      assert due - (remaining - {range}) == if range in due then (due - remaining) + {range} else due - remaining;
      remaining := remaining - {range};
      var start: u64 := 0;
      if range in committed {
        start := committed[range] + 1;
      }
      if start < consensus[range] {
        var left: u64, right: u64 := UniqueBlobId(range, start), UniqueBlobId(range, consensus[range]);
        var increment := NewInterval(left, right);
        OrderGrows(order, due - remaining - {range}, range);
        order := order + [range];
        increments := increments + [increment.value];
      }
    }
    assert due - remaining == due;
    OneIncrementEach(consensus, committed, order);
  }

  // ---------- committed offsets ----------

  lemma {:induction false} AdvanceExact(consensus: map<nat, nat>, committed: map<nat, nat>, order: seq<nat>)
    requires Bounded(consensus) && forall range | range in order :: range in consensus
    ensures var after := Advance(committed, Increments(consensus, committed, order));
            forall range: nat ::
              && (range in after <==> range in committed || range in order)
              && (range in order ==> after[range] == consensus[range])
              && (range in committed && range !in order ==> after[range] == committed[range])
  {
    if order != [] {
      var n := |order| - 1;
      AdvanceExact(consensus, committed, order[..n]);
      assert Increments(consensus, committed, order)[..n] == Increments(consensus, committed, order[..n]);
      assert order == order[..n] + [order[n]];
    }
  }

  /** What a commit does to a range, whatever order the increments are in. */
  lemma CommittedAfter(consensus: map<nat, nat>, committed: map<nat, nat>, order: seq<nat>, range: nat)
    requires Bounded(consensus) && IsOrder(order, Due(consensus, committed))
    ensures var after := Advance(committed, Increments(consensus, committed, order));
            && (range in after <==> range in committed || range in Due(consensus, committed))
            && (range in Due(consensus, committed) ==> after[range] == consensus[range])
            && (range in committed && range !in Due(consensus, committed) ==> after[range] == committed[range])
  {
    AdvanceExact(consensus, committed, order);
  }

  /** A range is committed up to its consensus offset unless exactly one offset is outstanding; it
      never lags by more than that one, and nothing that was committed is taken back. */
  lemma CommitLag(consensus: map<nat, nat>, committed: map<nat, nat>, order: seq<nat>, range: nat)
    requires Bounded(consensus) && IsOrder(order, Due(consensus, committed))
    ensures var after := Advance(committed, Increments(consensus, committed, order));
            && (range in committed ==> range in after && after[range] >= committed[range])
            && (range in consensus ==>
                  && NextOffset(after, range) >= consensus[range]
                  && (NextOffset(after, range) > consensus[range] <==> NextOffset(committed, range) != consensus[range]))
  {
    CommittedAfter(consensus, committed, order, range);
  }

  /** The first transaction of a range is in consensus and is not committed. */
  lemma SingleTransactionSkipped()
    ensures Due(map[0 := 0], map[]) == {}
    ensures Advance(map[], Increments(map[0 := 0], map[], [])) == map[]
    ensures Due(map[0 := 6], map[0 := 5]) == {}
  {
    assert Increments(map[0 := 0], map[], []) == [];
  }

  // ---------- the log, range by range ----------

  /** The identifiers of one range, in the order of the log. */
  function Project(log: seq<nat>, range: nat): seq<nat> {
    if log == [] then
      []
    else
      var n := |log| - 1;
      Project(log[..n], range) + if RangeOf(log[n]) == range then [log[n]] else []
  }

  function Filter(intervals: seq<Interval>, range: nat): seq<Interval> {
    if intervals == [] then
      []
    else
      var n := |intervals| - 1;
      Filter(intervals[..n], range) + if RangeOf(intervals[n].left) == range then [intervals[n]] else []
  }

  function CommittedIds(committed: map<nat, nat>, range: nat): seq<nat> {
    if range in committed then Ids(UniqueBlobId(range, 0), UniqueBlobId(range, committed[range])) else []
  }

  lemma {:induction false} ProjectAppend(a: seq<nat>, b: seq<nat>, range: nat)
    ensures Project(a + b, range) == Project(a, range) + Project(b, range)
  {
    if b == [] {
      assert a + b == a;
    } else {
      var n := |b| - 1;
      ProjectAppend(a, b[..n], range);
      assert (a + b)[..|a| + n] == a + b[..n];
    }
  }

  lemma {:induction false} ProjectUniform(s: seq<nat>, r: nat, range: nat)
    requires forall i | 0 <= i < |s| :: RangeOf(s[i]) == r
    ensures Project(s, range) == if r == range then s else []
  {
    if s != [] {
      var n := |s| - 1;
      ProjectUniform(s[..n], r, range);
      assert s == s[..n] + [s[n]];
    }
  }

  ghost predicate SingleRange(interval: Interval) {
    interval.left <= interval.right && RangeOf(interval.left) == RangeOf(interval.right)
  }

  lemma ExpandFilterLast(intervals: seq<Interval>, range: nat)
    requires intervals != []
    ensures var n := |intervals| - 1;
            Expand(Filter(intervals, range)) == Expand(Filter(intervals[..n], range))
              + if RangeOf(intervals[n].left) == range then Ids(intervals[n].left, intervals[n].right) else []
  {
    var n := |intervals| - 1;
    var front := Filter(intervals[..n], range);
    if RangeOf(intervals[n].left) == range {
      assert (front + [intervals[n]])[..|front|] == front;
    } else {
      assert Filter(intervals, range) == front;
    }
  }

  lemma {:induction false} ProjectExpand(intervals: seq<Interval>, range: nat)
    requires forall i | 0 <= i < |intervals| :: SingleRange(intervals[i])
    ensures Project(Expand(intervals), range) == Expand(Filter(intervals, range))
  {
    if intervals != [] {
      var n := |intervals| - 1;
      var ids := Ids(intervals[n].left, intervals[n].right);
      ProjectExpand(intervals[..n], range);
      ProjectInterval(intervals[n], range);
      ProjectAppend(Expand(intervals[..n]), ids, range);
      ExpandFilterLast(intervals, range);
    }
  }

  lemma ProjectInterval(interval: Interval, range: nat)
    requires SingleRange(interval)
    ensures var ids := Ids(interval.left, interval.right);
            Project(ids, range) == if RangeOf(interval.left) == range then ids else []
  {
    ProjectUniform(Ids(interval.left, interval.right), RangeOf(interval.left), range);
  }

  lemma {:induction false} FilterCount(intervals: seq<Interval>, range: nat, x: Interval)
    ensures multiset(Filter(intervals, range))[x] == if RangeOf(x.left) == range then multiset(intervals)[x] else 0
  {
    if intervals != [] {
      var n := |intervals| - 1;
      FilterCount(intervals[..n], range, x);
      assert intervals == intervals[..n] + [intervals[n]];
    }
  }

  lemma {:induction false} FilterIncrements(consensus: map<nat, nat>, committed: map<nat, nat>, order: seq<nat>, range: nat)
    requires forall r | r in order :: r in consensus && r in Due(consensus, committed)
    requires forall i, j | 0 <= i < j < |order| :: order[i] != order[j]
    requires Bounded(consensus)
    ensures Filter(Increments(consensus, committed, order), range)
            == if range in order then [Increment(consensus, committed, range)] else []
  {
    if order != [] {
      var n := |order| - 1;
      FilterIncrements(consensus, committed, order[..n], range);
      assert Increments(consensus, committed, order)[..n] == Increments(consensus, committed, order[..n]);
      OrderPrefix(order, n);
      assert order[..n + 1] == order;
      assert order[n] in Due(consensus, committed);
      assert RangeOf(Increment(consensus, committed, order[n]).left) == order[n];
    }
  }

  /** Increments are within one range, span two identifiers or more, stay below the bound, and do not
      overlap. */
  ghost predicate ProperIncrements(increments: seq<Interval>) {
    && (forall i | 0 <= i < |increments| ::
          SingleRange(increments[i]) && increments[i].left < increments[i].right <= MAX_ID)
    && Pairwise(increments, Apart)
  }

  lemma IncrementProper(consensus: map<nat, nat>, committed: map<nat, nat>, range: nat)
    requires Bounded(consensus) && range in Due(consensus, committed)
    ensures var x := Increment(consensus, committed, range);
            RangeOf(x.left) == RangeOf(x.right) == range && x.left < x.right <= MAX_ID
  {
  }

  lemma IncrementsApart(consensus: map<nat, nat>, committed: map<nat, nat>, a: nat, b: nat)
    requires Bounded(consensus) && a in Due(consensus, committed) && b in Due(consensus, committed) && a != b
    ensures Apart(Increment(consensus, committed, a), Increment(consensus, committed, b))
  {
    IncrementProper(consensus, committed, a);
    IncrementProper(consensus, committed, b);
  }

  lemma IncrementsProper(consensus: map<nat, nat>, committed: map<nat, nat>, order: seq<nat>)
    requires Bounded(consensus) && IsOrder(order, Due(consensus, committed))
    ensures ProperIncrements(Increments(consensus, committed, order))
  {
    var increments := Increments(consensus, committed, order);
    forall i | 0 <= i < |increments|
      ensures SingleRange(increments[i]) && increments[i].left < increments[i].right <= MAX_ID
    {
      assert order[i] in Due(consensus, committed);
      IncrementProper(consensus, committed, order[i]);
    }
    forall i, j | 0 <= i < |increments| && 0 <= j < |increments| && i != j
      ensures Apart(increments[i], increments[j])
    {
      assert order[i] in Due(consensus, committed) && order[j] in Due(consensus, committed);
      IncrementsApart(consensus, committed, order[i], order[j]);
    }
  }

  lemma SameSingleton(a: seq<Interval>, b: seq<Interval>)
    requires |b| <= 1 && multiset(a) == multiset(b)
    ensures a == b
  {
    assert |a| == |multiset(a)| == |multiset(b)| == |b|;
    if |b| == 1 {
      assert b[0] in multiset(b) && a[0] in multiset(a);
      assert a == [a[0]] && b == [b[0]];
    }
  }

  lemma SortedFilter(increments: seq<Interval>, range: nat)
    requires |Filter(increments, range)| <= 1
    ensures Filter(SortIntervals(increments), range) == Filter(increments, range)
  {
    var a, b := Filter(SortIntervals(increments), range), Filter(increments, range);
    forall x ensures multiset(a)[x] == multiset(b)[x] {
      FilterCount(SortIntervals(increments), range, x);
      FilterCount(increments, range, x);
    }
    SameSingleton(a, b);
  }

  /** What one commit adds to the log of a range. */
  lemma ProjectCommit(log: seq<nat>, consensus: map<nat, nat>, committed: map<nat, nat>, order: seq<nat>, range: nat)
    requires Bounded(consensus) && IsOrder(order, Due(consensus, committed))
    ensures Project(Appended(log, Increments(consensus, committed, order)), range)
            == Project(log, range)
               + if range in Due(consensus, committed)
                 then Ids(UniqueBlobId(range, NextOffset(committed, range)), UniqueBlobId(range, consensus[range])) else []
  {
    var increments := Increments(consensus, committed, order);
    var sorted := SortIntervals(increments);
    IncrementsProper(consensus, committed, order);
    SameElements(sorted, increments);
    forall i | 0 <= i < |sorted| ensures SingleRange(sorted[i]) {
      assert sorted[i] in increments;
    }
    ProjectAppend(log, Expand(sorted), range);
    ProjectExpand(sorted, range);
    FilterIncrements(consensus, committed, order, range);
    SortedFilter(increments, range);
    if range in order {
      ExpandOne(Increment(consensus, committed, range));
    }
  }

  lemma ExpandOne(interval: Interval)
    ensures Expand([interval]) == Ids(interval.left, interval.right)
  {
    assert [interval][..0] == [];
    assert Expand([]) == [];
  }

  // ---------- the whole ledger ----------

  /** Each range of the log is exactly its committed prefix, in order. */
  ghost predicate LogExact(log: seq<nat>, committed: map<nat, nat>) {
    forall range: nat :: Project(log, range) == CommittedIds(committed, range)
  }

  lemma IdsSplit(left: nat, middle: nat, right: nat)
    requires left <= middle <= right
    ensures Ids(left, right) == Ids(left, middle) + Ids(middle + 1, right)
  {
  }

  /** The committed prefix of a range grows by the offsets of its increment. */
  lemma CommittedIdsGrow(consensus: map<nat, nat>, committed: map<nat, nat>, range: nat)
    requires range in Due(consensus, committed)
    ensures Ids(UniqueBlobId(range, 0), UniqueBlobId(range, consensus[range]))
            == CommittedIds(committed, range)
               + Ids(UniqueBlobId(range, NextOffset(committed, range)), UniqueBlobId(range, consensus[range]))
  {
    if range in committed {
      IdsSplit(UniqueBlobId(range, 0), UniqueBlobId(range, committed[range]), UniqueBlobId(range, consensus[range]));
      assert UniqueBlobId(range, committed[range] + 1) == UniqueBlobId(range, committed[range]) + 1;
    }
  }

  lemma RangeExactKept(log: seq<nat>, consensus: map<nat, nat>, committed: map<nat, nat>, order: seq<nat>, range: nat)
    requires Bounded(consensus) && IsOrder(order, Due(consensus, committed))
    requires Project(log, range) == CommittedIds(committed, range)
    ensures var increments := Increments(consensus, committed, order);
            Project(Appended(log, increments), range) == CommittedIds(Advance(committed, increments), range)
  {
    ProjectCommit(log, consensus, committed, order, range);
    CommittedAfter(consensus, committed, order, range);
    if range in Due(consensus, committed) {
      CommittedIdsGrow(consensus, committed, range);
    }
  }

  lemma LogExactKept(log: seq<nat>, consensus: map<nat, nat>, committed: map<nat, nat>, order: seq<nat>)
    requires Bounded(consensus) && IsOrder(order, Due(consensus, committed)) && LogExact(log, committed)
    ensures var increments := Increments(consensus, committed, order);
            LogExact(Appended(log, increments), Advance(committed, increments))
  {
    var increments := Increments(consensus, committed, order);
    forall range: nat
      ensures Project(Appended(log, increments), range) == CommittedIds(Advance(committed, increments), range)
    {
      assert Project(log, range) == CommittedIds(committed, range);
      RangeExactKept(log, consensus, committed, order, range);
    }
  }

  function ReplayCommitted(epochs: seq<Epoch>): map<nat, nat> {
    if epochs == [] then
      map[]
    else
      var n := |epochs| - 1;
      Advance(ReplayCommitted(epochs[..n]), epochs[n].increments)
  }

  function ReplaySequence(epochs: seq<Epoch>): seq<nat> {
    if epochs == [] then
      []
    else
      var n := |epochs| - 1;
      Appended(ReplaySequence(epochs[..n]), epochs[n].increments)
  }

  /** The increments of one range over all epochs. */
  function History(epochs: seq<Epoch>, range: nat): seq<Interval> {
    if epochs == [] then
      []
    else
      var n := |epochs| - 1;
      History(epochs[..n], range) + Filter(epochs[n].increments, range)
  }

  /** The intervals follow one another without gap or overlap, from `lo` to `hi - 1`. */
  ghost predicate Tiles(intervals: seq<Interval>, lo: nat, hi: nat) {
    if intervals == [] then
      lo == hi
    else
      var last := intervals[|intervals| - 1];
      last.left <= last.right && last.right + 1 == hi && Tiles(intervals[..|intervals| - 1], lo, last.left)
  }

  ghost predicate Tiled(epochs: seq<Epoch>, committed: map<nat, nat>) {
    forall range: nat ::
      Tiles(History(epochs, range), UniqueBlobId(range, 0), UniqueBlobId(range, NextOffset(committed, range)))
  }

  lemma TilesGrow(intervals: seq<Interval>, lo: nat, increment: Interval)
    requires Tiles(intervals, lo, increment.left) && increment.left <= increment.right
    ensures Tiles(intervals + [increment], lo, increment.right + 1)
  {
    assert (intervals + [increment])[..|intervals|] == intervals;
  }

  lemma HistoryGrows(epochs: seq<Epoch>, epoch: Epoch, range: nat)
    ensures History(epochs + [epoch], range) == History(epochs, range) + Filter(epoch.increments, range)
  {
    assert (epochs + [epoch])[..|epochs|] == epochs;
  }

  lemma RangeTiledKept(epochs: seq<Epoch>, epoch: Epoch, consensus: map<nat, nat>, committed: map<nat, nat>,
                       order: seq<nat>, range: nat)
    requires Bounded(consensus) && IsOrder(order, Due(consensus, committed))
    requires epoch.increments == Increments(consensus, committed, order)
    requires Tiles(History(epochs, range), UniqueBlobId(range, 0), UniqueBlobId(range, NextOffset(committed, range)))
    ensures Tiles(History(epochs + [epoch], range), UniqueBlobId(range, 0),
                  UniqueBlobId(range, NextOffset(Advance(committed, epoch.increments), range)))
  {
    HistoryGrows(epochs, epoch, range);
    FilterIncrements(consensus, committed, order, range);
    CommittedAfter(consensus, committed, order, range);
    if range in order {
      TilesGrow(History(epochs, range), UniqueBlobId(range, 0), Increment(consensus, committed, range));
    } else {
      assert History(epochs, range) + [] == History(epochs, range);
    }
  }

  lemma TiledKept(epochs: seq<Epoch>, epoch: Epoch, consensus: map<nat, nat>, committed: map<nat, nat>, order: seq<nat>)
    requires Bounded(consensus) && IsOrder(order, Due(consensus, committed)) && Tiled(epochs, committed)
    requires epoch.increments == Increments(consensus, committed, order)
    ensures Tiled(epochs + [epoch], Advance(committed, epoch.increments))
  {
    var after := Advance(committed, epoch.increments);
    forall range: nat
      ensures Tiles(History(epochs + [epoch], range), UniqueBlobId(range, 0), UniqueBlobId(range, NextOffset(after, range)))
    {
      assert Tiles(History(epochs, range), UniqueBlobId(range, 0), UniqueBlobId(range, NextOffset(committed, range)));
      RangeTiledKept(epochs, epoch, consensus, committed, order, range);
    }
  }

  ghost predicate AllProper(epochs: seq<Epoch>) {
    forall i | 0 <= i < |epochs| :: ProperIncrements(epochs[i].increments)
  }

  ghost predicate LedgerInv(sha: Sha256, ledger: Ledger) {
    && Bounded(ledger.committed)
    && LogExact(ledger.sequence, ledger.committed)
    && ledger.committed == ReplayCommitted(ledger.epochs)
    && ledger.sequence == ReplaySequence(ledger.epochs)
    && Tiled(ledger.epochs, ledger.committed)
    && AllProper(ledger.epochs)
    && Chain(sha, ledger.epochs)
  }

  lemma EmptyLedger(sha: Sha256)
    ensures LedgerInv(sha, Ledger(map[], [], []))
  {
  }

  lemma ReplayGrows(epochs: seq<Epoch>, epoch: Epoch)
    ensures ReplayCommitted(epochs + [epoch]) == Advance(ReplayCommitted(epochs), epoch.increments)
    ensures ReplaySequence(epochs + [epoch]) == Appended(ReplaySequence(epochs), epoch.increments)
  {
    assert (epochs + [epoch])[..|epochs|] == epochs;
  }

  lemma AllProperGrows(epochs: seq<Epoch>, epoch: Epoch)
    requires AllProper(epochs) && ProperIncrements(epoch.increments)
    ensures AllProper(epochs + [epoch])
  {
  }

  lemma ProperWords(increments: seq<Interval>)
    requires ProperIncrements(increments)
    ensures Words(increments)
  {
  }

  lemma BoundedKept(consensus: map<nat, nat>, committed: map<nat, nat>, order: seq<nat>)
    requires Bounded(consensus) && Bounded(committed) && IsOrder(order, Due(consensus, committed))
    ensures Bounded(Advance(committed, Increments(consensus, committed, order)))
  {
    AdvanceExact(consensus, committed, order);
  }

  /** A commit keeps all of it: exact log, replay from the epochs, tiling, hash chain. */
  lemma CommitKeepsInv(sha: Sha256, ledger: Ledger, consensus: map<nat, nat>, order: seq<nat>)
    requires LedgerInv(sha, ledger) && Bounded(consensus) && IsOrder(order, Due(consensus, ledger.committed))
    ensures LedgerInv(sha, CommitEpoch(sha, ledger, Increments(consensus, ledger.committed, order)))
  {
    var increments := Increments(consensus, ledger.committed, order);
    var epoch := NextEpoch(sha, increments, LastHash(ledger.epochs));
    IncrementsProper(consensus, ledger.committed, order);
    BoundedKept(consensus, ledger.committed, order);
    LogExactKept(ledger.sequence, consensus, ledger.committed, order);
    TiledKept(ledger.epochs, epoch, consensus, ledger.committed, order);
    ReplayGrows(ledger.epochs, epoch);
    AllProperGrows(ledger.epochs, epoch);
    ProperWords(increments);
    ChainExtends(sha, ledger.epochs, increments);
  }

  lemma IncrementsInjective(consensus: map<nat, nat>, committed: map<nat, nat>, a: seq<nat>, b: seq<nat>)
    requires Bounded(consensus) && IsOrder(a, Due(consensus, committed)) && IsOrder(b, Due(consensus, committed))
    requires Increments(consensus, committed, a) == Increments(consensus, committed, b)
    ensures a == b
  {
    var x, y := Increments(consensus, committed, a), Increments(consensus, committed, b);
    assert |x| == |a| && |y| == |b|;
    forall i | 0 <= i < |a| ensures a[i] == b[i] {
      assert a[i] in Due(consensus, committed) && b[i] in Due(consensus, committed);
      IncrementProper(consensus, committed, a[i]);
      IncrementProper(consensus, committed, b[i]);
      assert x[i] == y[i];
    }
  }

  lemma SameIncrements(consensus: map<nat, nat>, committed: map<nat, nat>, a: seq<nat>, b: seq<nat>, id: nat)
    requires forall range :: range in a <==> range in b
    requires forall range | range in a :: range in consensus
    requires Covers(Increments(consensus, committed, a), id)
    ensures Covers(Increments(consensus, committed, b), id)
  {
    var i :| 0 <= i < |a| && Increments(consensus, committed, a)[i].Contains(id);
    assert a[i] in b;
    var j :| 0 <= j < |b| && b[j] == a[i];
    assert Increments(consensus, committed, b)[j].Contains(id);
  }

  /** The order in which a hash map yields the due ranges does not reach the log, but it does reach the
      hash of the epoch: two orders give the same hash only if they are equal, or there is a collision. */
  lemma HashSeesOrder(sha: Sha256, consensus: map<nat, nat>, committed: map<nat, nat>, a: seq<nat>, b: seq<nat>,
                      log: seq<nat>, prev: Option<Digest>)
    requires Bounded(consensus) && IsOrder(a, Due(consensus, committed)) && IsOrder(b, Due(consensus, committed))
    ensures var x, y := Increments(consensus, committed, a), Increments(consensus, committed, b);
            && Appended(log, x) == Appended(log, y)
            && ((NextEpoch(sha, x, prev).hash == NextEpoch(sha, y, prev).hash <==> a == b)
                || exists u, v :: Collision(sha, u, v))
  {
    var x, y := Increments(consensus, committed, a), Increments(consensus, committed, b);
    IncrementsProper(consensus, committed, a);
    IncrementsProper(consensus, committed, b);
    SameLogEitherWay(consensus, committed, a, b, log);
    ProperWords(x);
    ProperWords(y);
    if NextEpoch(sha, x, prev).hash == NextEpoch(sha, y, prev).hash {
      EpochBinding(sha, NextEpoch(sha, x, prev), prev, NextEpoch(sha, y, prev), prev);
      if x == y {
        IncrementsInjective(consensus, committed, a, b);
      }
    }
  }

  lemma SameLogEitherWay(consensus: map<nat, nat>, committed: map<nat, nat>, a: seq<nat>, b: seq<nat>, log: seq<nat>)
    requires IsOrder(a, Due(consensus, committed)) && IsOrder(b, Due(consensus, committed))
    requires ProperIncrements(Increments(consensus, committed, a)) && ProperIncrements(Increments(consensus, committed, b))
    ensures Appended(log, Increments(consensus, committed, a)) == Appended(log, Increments(consensus, committed, b))
  {
    var x, y := Increments(consensus, committed, a), Increments(consensus, committed, b);
    assert forall range :: range in a <==> range in Due(consensus, committed);
    assert forall range :: range in b <==> range in Due(consensus, committed);
    forall id: nat ensures Covers(x, id) <==> Covers(y, id) {
      if Covers(x, id) {
        SameIncrements(consensus, committed, a, b, id);
      }
      if Covers(y, id) {
        SameIncrements(consensus, committed, b, a, id);
      }
    }
    AppendedOrderIndependent(log, x, y);
  }

  // ---------- reading the log ----------

  lemma {:induction false} ProjectMember(log: seq<nat>, id: nat)
    ensures id in log <==> id in Project(log, RangeOf(id))
  {
    if log != [] {
      var n := |log| - 1;
      ProjectMember(log[..n], id);
      assert log == log[..n] + [log[n]];
    }
  }

  lemma {:induction false} ProjectAscending(log: seq<nat>, i: nat, j: nat)
    requires i < j < |log| && RangeOf(log[i]) == RangeOf(log[j]) && Ascending(Project(log, RangeOf(log[i])))
    ensures log[i] < log[j]
  {
    var n := |log| - 1;
    var range := RangeOf(log[i]);
    var front := Project(log[..n], range);
    assert Ascending(front) by {
      assert front <= Project(log, range);
      assert forall k | 0 <= k < |front| :: front[k] == Project(log, range)[k];
    }
    if j < n {
      ProjectAscending(log[..n], i, j);
    } else {
      assert log[..n][i] == log[i];
      ProjectMember(log[..n], log[i]);
      var k :| 0 <= k < |front| && front[k] == log[i];
      assert Project(log, range) == front + [log[n]];
      assert Project(log, range)[k] < Project(log, range)[|front|];
    }
  }

  /** Exactly once and without gaps: the log holds the committed identifiers and no others, none of
      them twice, and those of one range in ascending order. */
  lemma LogExactlyOnce(log: seq<nat>, committed: map<nat, nat>)
    requires LogExact(log, committed) && Bounded(committed)
    ensures forall id: nat :: id in log <==> RangeOf(id) in committed && OffsetOf(id) <= committed[RangeOf(id)]
    ensures forall i, j | 0 <= i < j < |log| :: log[i] != log[j]
    ensures forall i, j | 0 <= i < j < |log| && RangeOf(log[i]) == RangeOf(log[j]) :: log[i] < log[j]
  {
    forall id: nat ensures id in log <==> RangeOf(id) in committed && OffsetOf(id) <= committed[RangeOf(id)] {
      ProjectMember(log, id);
      assert Project(log, RangeOf(id)) == CommittedIds(committed, RangeOf(id));
      assert id == UniqueBlobId(RangeOf(id), OffsetOf(id));
    }
    forall i, j | 0 <= i < j < |log| && RangeOf(log[i]) == RangeOf(log[j]) ensures log[i] < log[j] {
      assert Project(log, RangeOf(log[i])) == CommittedIds(committed, RangeOf(log[i]));
      ProjectAscending(log, i, j);
    }
  }

  /** Restricted to one range, of any two logs one is a prefix of the other. */
  lemma LogsAgree(a: seq<nat>, ca: map<nat, nat>, b: seq<nat>, cb: map<nat, nat>, range: nat)
    requires LogExact(a, ca) && LogExact(b, cb)
    ensures Project(a, range) <= Project(b, range) || Project(b, range) <= Project(a, range)
  {
    assert Project(a, range) == CommittedIds(ca, range) && Project(b, range) == CommittedIds(cb, range);
  }

  lemma AppendOne(log: seq<nat>, interval: Interval)
    ensures Appended(log, [interval]) == log + Ids(interval.left, interval.right)
  {
    assert SortIntervals([interval]) == [interval] by {
      assert [interval][1..] == [];
      assert SortIntervals([]) == [];
    }
    ExpandOne(interval);
  }

  lemma AdvanceOne(committed: map<nat, nat>, increment: Interval)
    ensures Advance(committed, [increment]) == committed[RangeOf(increment.right) := OffsetOf(increment.right)]
  {
    assert [increment][..0] == [];
  }
}
