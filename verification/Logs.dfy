/**
 When whole logs agree. Within a range they always do; between ranges the log follows the epochs, and
 these depend on when each node has reached consensus about what.
 */
module Logs {
  import opened RangeKey
  import opened Sorting
  import opened Epochs
  import opened Linearizer
  import opened Commits

  ghost predicate Before(log: seq<nat>, x: nat, y: nat) {
    exists i, j | 0 <= i < j < |log| :: log[i] == x && log[j] == y
  }

  ghost predicate NoneTwice(log: seq<nat>) {
    forall i, j | 0 <= i < j < |log| :: log[i] != log[j]
  }

  // ---------- a list is determined by the order of its elements ----------

  lemma BeforeAppended(a: seq<nat>, b: seq<nat>, x: nat, y: nat)
    ensures Before(a + b, x, y) <==> Before(a, x, y) || Before(b, x, y) || (x in a && y in b)
  {
    var s := a + b;
    if Before(s, x, y) {
      var i, j :| 0 <= i < j < |s| && s[i] == x && s[j] == y;
      if i >= |a| {
        assert b[i - |a|] == x && b[j - |a|] == y;
      } else if j < |a| {
        assert a[i] == x && a[j] == y;
      } else {
        assert a[i] == x && b[j - |a|] == y;
      }
    }
    if Before(a, x, y) {
      var i, j :| 0 <= i < j < |a| && a[i] == x && a[j] == y;
      assert s[i] == x && s[j] == y;
    }
    if Before(b, x, y) {
      var i, j :| 0 <= i < j < |b| && b[i] == x && b[j] == y;
      assert s[|a| + i] == x && s[|a| + j] == y;
    }
    if x in a && y in b {
      var i :| 0 <= i < |a| && a[i] == x;
      var j :| 0 <= j < |b| && b[j] == y;
      assert s[i] == x && s[|a| + j] == y;
    }
  }

  lemma EitherBefore(log: seq<nat>, x: nat, y: nat)
    requires NoneTwice(log) && x in log && y in log && x != y
    ensures Before(log, x, y) <==> !Before(log, y, x)
  {
    var i :| 0 <= i < |log| && log[i] == x;
    var j :| 0 <= j < |log| && log[j] == y;
    if i < j {
      assert Before(log, x, y);
    } else {
      assert Before(log, y, x);
    }
  }

  ghost predicate SameOrder(a: seq<nat>, b: seq<nat>) {
    forall x: nat, y: nat :: Before(a, x, y) <==> Before(b, x, y)
  }

  lemma NothingAfterLast(a: seq<nat>, y: nat)
    requires NoneTwice(a) && a != []
    ensures !Before(a, a[|a| - 1], y)
  {
  }

  lemma SameLast(a: seq<nat>, b: seq<nat>)
    requires NoneTwice(a) && NoneTwice(b) && SameOrder(a, b) && a != [] && b != []
    requires forall id :: id in a <==> id in b
    ensures a[|a| - 1] == b[|b| - 1]
  {
    var z, w := a[|a| - 1], b[|b| - 1];
    NothingAfterLast(a, w);
    assert z in b;
    var k :| 0 <= k < |b| && b[k] == z;
    assert k < |b| - 1 ==> Before(b, z, w);
  }

  lemma FrontMembers(a: seq<nat>)
    requires NoneTwice(a) && a != []
    ensures forall id :: id in a[..|a| - 1] <==> id in a && id != a[|a| - 1]
  {
    assert a == a[..|a| - 1] + [a[|a| - 1]];
  }

  lemma BeforeInFront(a: seq<nat>, x: nat, y: nat)
    requires NoneTwice(a) && a != []
    ensures Before(a[..|a| - 1], x, y) <==> Before(a, x, y) && y != a[|a| - 1]
  {
    var n := |a| - 1;
    BeforeAppended(a[..n], [a[n]], x, y);
    assert a == a[..n] + [a[n]];
    FrontMembers(a);
    assert Before(a[..n], x, y) ==> y in a[..n];
  }

  lemma EmptyTogether(a: seq<nat>, b: seq<nat>)
    requires forall id :: id in a <==> id in b
    ensures a == [] <==> b == []
  {
    if a != [] {
      assert a[0] in b;
    }
    if b != [] {
      assert b[0] in a;
    }
  }

  lemma {:induction false} OrderDetermines(a: seq<nat>, b: seq<nat>)
    requires NoneTwice(a) && NoneTwice(b) && SameOrder(a, b)
    requires forall id :: id in a <==> id in b
    ensures a == b
  {
    EmptyTogether(a, b);
    if a != [] {
      var m, n := |a| - 1, |b| - 1;
      SameLast(a, b);
      forall x: nat, y: nat ensures Before(a[..m], x, y) <==> Before(b[..n], x, y) {
        BeforeInFront(a, x, y);
        BeforeInFront(b, x, y);
      }
      FrontMembers(a);
      FrontMembers(b);
      forall id ensures id in a[..m] <==> id in b[..n] {
        assert id in a <==> id in b;
      }
      OrderDetermines(a[..m], b[..n]);
      assert a == a[..m] + [a[m]] && b == b[..n] + [b[n]];
    }
  }

  lemma AscendingBefore(s: seq<nat>, x: nat, y: nat)
    requires Ascending(s) && x < y
    ensures Before(s, x, y) <==> x in s && y in s
  {
    if x in s && y in s {
      var i :| 0 <= i < |s| && s[i] == x;
      var j :| 0 <= j < |s| && s[j] == y;
      assert i < j;
    }
  }

  // ---------- the log follows the epochs ----------

  ghost predicate Logged(epochs: seq<Epoch>, id: nat) {
    exists i | 0 <= i < |epochs| :: Covers(epochs[i].increments, id)
  }

  /** `x` is in an epoch that is not later than one with `y`. */
  ghost predicate NotLater(epochs: seq<Epoch>, x: nat, y: nat) {
    exists i, j | 0 <= i <= j < |epochs| :: Covers(epochs[i].increments, x) && Covers(epochs[j].increments, y)
  }

  lemma LoggedLast(epochs: seq<Epoch>, id: nat)
    requires epochs != []
    ensures var n := |epochs| - 1;
            Logged(epochs, id) <==> Logged(epochs[..n], id) || Covers(epochs[n].increments, id)
  {
    var n := |epochs| - 1;
    if Logged(epochs[..n], id) {
      var i :| 0 <= i < n && Covers(epochs[..n][i].increments, id);
      assert Covers(epochs[i].increments, id);
    }
    if Logged(epochs, id) && !Covers(epochs[n].increments, id) {
      var i :| 0 <= i < |epochs| && Covers(epochs[i].increments, id);
      assert Covers(epochs[..n][i].increments, id);
    }
  }

  lemma NotLaterLast(epochs: seq<Epoch>, x: nat, y: nat)
    requires epochs != []
    ensures var n := |epochs| - 1;
            NotLater(epochs, x, y)
            <==> NotLater(epochs[..n], x, y) || (Logged(epochs, x) && Covers(epochs[n].increments, y))
  {
    var n := |epochs| - 1;
    var front := epochs[..n];
    if NotLater(front, x, y) {
      var i, j :| 0 <= i <= j < n && Covers(front[i].increments, x) && Covers(front[j].increments, y);
      assert Covers(epochs[i].increments, x) && Covers(epochs[j].increments, y);
    }
    if Logged(epochs, x) && Covers(epochs[n].increments, y) {
      var i :| 0 <= i < |epochs| && Covers(epochs[i].increments, x);
      assert Covers(epochs[i].increments, x) && Covers(epochs[n].increments, y);
    }
    if NotLater(epochs, x, y) && !Covers(epochs[n].increments, y) {
      var i, j :| 0 <= i <= j < |epochs| && Covers(epochs[i].increments, x) && Covers(epochs[j].increments, y);
      assert Covers(front[i].increments, x) && Covers(front[j].increments, y);
    }
  }

  /** The epoch part of the log. */
  lemma LastEpochAppends(epochs: seq<Epoch>)
    requires epochs != [] && AllProper(epochs)
    ensures var n := |epochs| - 1;
            var part := Expand(SortIntervals(epochs[n].increments));
            && ReplaySequence(epochs) == ReplaySequence(epochs[..n]) + part
            && Ascending(part) && forall id :: id in part <==> Covers(epochs[n].increments, id)
  {
    var increments := epochs[|epochs| - 1].increments;
    assert ProperIncrements(increments);
    SortedProperties(increments);
  }

  lemma {:induction false} LoggedExact(epochs: seq<Epoch>, id: nat)
    requires AllProper(epochs)
    ensures id in ReplaySequence(epochs) <==> Logged(epochs, id)
  {
    if epochs != [] {
      LoggedExact(epochs[..|epochs| - 1], id);
      LastEpochAppends(epochs);
      LoggedLast(epochs, id);
    }
  }

  /** Of two identifiers the smaller one comes first in the log if and only if its epoch is not later. */
  lemma {:induction false} BeforeExact(epochs: seq<Epoch>, x: nat, y: nat)
    requires AllProper(epochs) && x < y
    ensures Before(ReplaySequence(epochs), x, y) <==> NotLater(epochs, x, y)
  {
    if epochs != [] {
      var n := |epochs| - 1;
      var part := Expand(SortIntervals(epochs[n].increments));
      BeforeExact(epochs[..n], x, y);
      LastEpochAppends(epochs);
      LoggedExact(epochs[..n], x);
      LoggedLast(epochs, x);
      NotLaterLast(epochs, x, y);
      BeforeAppended(ReplaySequence(epochs[..n]), part, x, y);
      AscendingBefore(part, x, y);
    }
  }

  // ---------- when whole logs agree ----------

  lemma CommittedDetermined(log: seq<nat>, a: map<nat, nat>, b: map<nat, nat>)
    requires LogExact(log, a) && LogExact(log, b)
    ensures a == b
  {
    forall range: nat ensures (range in a <==> range in b) && (range in a ==> a[range] == b[range]) {
      assert Project(log, range) == CommittedIds(a, range) == CommittedIds(b, range);
    }
    assert forall range | range in a :: range in b && a[range] == b[range];
    assert forall range | range in b :: range in a;
  }

  /** The two nodes put any two identifiers of this log into epochs in the same order. */
  ghost predicate SameEpochOrder(log: seq<nat>, a: seq<Epoch>, b: seq<Epoch>) {
    forall x: nat, y: nat :: x < y && x in log && y in log ==> (NotLater(a, x, y) <==> NotLater(b, x, y))
  }

  lemma SameEpochOrderSameLog(sha: Sha256, a: Ledger, b: Ledger)
    requires LedgerInv(sha, a) && LedgerInv(sha, b)
    requires a.committed == b.committed && SameEpochOrder(a.sequence, a.epochs, b.epochs)
    ensures a.sequence == b.sequence
  {
    LogExactlyOnce(a.sequence, a.committed);
    LogExactlyOnce(b.sequence, b.committed);
    forall x: nat, y: nat ensures Before(a.sequence, x, y) <==> Before(b.sequence, x, y) {
      SamePair(a.sequence, b.sequence, a.epochs, b.epochs, x, y);
    }
    OrderDetermines(a.sequence, b.sequence);
  }

  lemma SamePair(a: seq<nat>, b: seq<nat>, ea: seq<Epoch>, eb: seq<Epoch>, x: nat, y: nat)
    requires AllProper(ea) && AllProper(eb) && a == ReplaySequence(ea) && b == ReplaySequence(eb)
    requires NoneTwice(a) && NoneTwice(b) && (forall id: nat :: id in a <==> id in b) && SameEpochOrder(a, ea, eb)
    ensures Before(a, x, y) <==> Before(b, x, y)
  {
    if x in a && y in a && x != y {
      var low, high := if x < y then x else y, if x < y then y else x;
      BeforeExact(ea, low, high);
      BeforeExact(eb, low, high);
      EitherBefore(a, x, y);
      EitherBefore(b, x, y);
    }
  }

  /** Two correct ledgers have the same log if and only if they have committed the same and, of any two
      identifiers, the smaller is in an epoch not later than the greater in both or in neither. */
  lemma LogsEqualExactly(sha: Sha256, a: Ledger, b: Ledger)
    requires LedgerInv(sha, a) && LedgerInv(sha, b)
    ensures a.sequence == b.sequence
            <==> a.committed == b.committed && SameEpochOrder(a.sequence, a.epochs, b.epochs)
  {
    if a.sequence == b.sequence {
      CommittedDetermined(a.sequence, a.committed, b.committed);
      forall x: nat, y: nat | x < y ensures NotLater(a.epochs, x, y) <==> NotLater(b.epochs, x, y) {
        BeforeExact(a.epochs, x, y);
        BeforeExact(b.epochs, x, y);
      }
    } else if a.committed == b.committed && SameEpochOrder(a.sequence, a.epochs, b.epochs) {
      SameEpochOrderSameLog(sha, a, b);
    }
  }
}
