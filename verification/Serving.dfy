/**
 Answering a request for missing transactions (the `RequestMissingTxs` branch of
 `handle_inbox_message` in maroon/src/app/app.rs). The scan does not advance over an identifier that
 is not held, so it may run for ever; the machine below makes this visible.
 */
module Serving {
  import opened Wrappers
  import opened RangeKey
  import opened Linearizer
  import opened Indexing

  ghost predicate AllHeld(store: map<nat, Transaction>, intervals: seq<Interval>) {
    forall id :: id in Expand(intervals) ==> id in store
  }

  /** The transactions of the requested identifiers, in the order requested; `None` stands for a scan
      that never ends. */
  ghost function Answer(store: map<nat, Transaction>, intervals: seq<Interval>): Option<seq<Transaction>> {
    if AllHeld(store, intervals) then Some(Fetch(store, Expand(intervals))) else None
  }

  ghost function Fetch(store: map<nat, Transaction>, ids: seq<nat>): (txs: seq<Transaction>)
    requires forall i | 0 <= i < |ids| :: ids[i] in store
    ensures |txs| == |ids| && forall i | 0 <= i < |ids| :: txs[i] == store[ids[i]]
  {
    seq(|ids|, i requires 0 <= i < |ids| => store[ids[i]])
  }

  /** The state of the two nested loops: the intervals not finished yet, the pointer into the first of
      them, and the response so far. */
  datatype Scan = Scan(todo: seq<Interval>, pointer: nat, response: seq<Transaction>)

  function Begin(intervals: seq<Interval>, response: seq<Transaction>): Scan {
    Scan(intervals, if intervals == [] then 0 else intervals[0].left, response)
  }

  predicate Ended(scan: Scan) {
    scan.todo == []
  }

  function Iterate(store: map<nat, Transaction>, scan: Scan): Scan {
    if scan.todo == [] then
      scan
    else if scan.pointer <= scan.todo[0].right then
      if scan.pointer in store then
        Scan(scan.todo, scan.pointer + 1, scan.response + [store[scan.pointer]])
      else
        scan  // `continue`
    else
      Begin(scan.todo[1..], scan.response)
  }

  function After(store: map<nat, Transaction>, scan: Scan, steps: nat): Scan
    decreases steps
  {
    if steps == 0 then scan else After(store, Iterate(store, scan), steps - 1)
  }

  /** The identifiers still to be looked up. */
  ghost function Pending(scan: Scan): seq<nat> {
    if scan.todo == [] then [] else Ids(scan.pointer, scan.todo[0].right) + Expand(scan.todo[1..])
  }

  lemma {:induction false} ExpandFirst(intervals: seq<Interval>)
    requires intervals != []
    ensures Expand(intervals) == Ids(intervals[0].left, intervals[0].right) + Expand(intervals[1..])
  {
    var n := |intervals| - 1;
    if n > 0 {
      ExpandFirst(intervals[..n]);
      assert intervals[..n][1..] == intervals[1..][..n - 1];
      var first, last := Ids(intervals[0].left, intervals[0].right), Ids(intervals[n].left, intervals[n].right);
      var middle := Expand(intervals[1..][..n - 1]);
      assert Expand(intervals[1..]) == middle + last;
      assert (first + middle) + last == first + (middle + last);
    } else {
      assert intervals[..0] == [] && intervals[1..] == [];
      assert Expand([]) == [];
    }
  }

  lemma BeginPending(intervals: seq<Interval>, response: seq<Transaction>)
    ensures Pending(Begin(intervals, response)) == Expand(intervals)
  {
    if intervals != [] {
      ExpandFirst(intervals);
    }
  }

  lemma IteratePending(store: map<nat, Transaction>, scan: Scan)
    requires !Ended(scan)
    ensures var next := Iterate(store, scan);
            if scan.pointer > scan.todo[0].right then
              Pending(next) == Pending(scan) && next.response == scan.response && |next.todo| < |scan.todo|
            else if scan.pointer in store then
              && [scan.pointer] + Pending(next) == Pending(scan) && next.todo == scan.todo
              && next.response == scan.response + [store[scan.pointer]]
            else next == scan && scan.pointer in Pending(scan)
  {
    var last := scan.todo[0].right;
    if scan.pointer > last {
      BeginPending(scan.todo[1..], scan.response);
      assert Ids(scan.pointer, last) == [];
    } else {
      assert Ids(scan.pointer, last) == [scan.pointer] + Ids(scan.pointer + 1, last);
    }
  }

  lemma FetchFirst(store: map<nat, Transaction>, id: nat, ids: seq<nat>)
    requires id in store && forall i | 0 <= i < |ids| :: ids[i] in store
    ensures forall i | 0 <= i < |[id] + ids| :: ([id] + ids)[i] in store
    ensures Fetch(store, [id] + ids) == [store[id]] + Fetch(store, ids)
  {
  }

  /** What the scan has produced together with what is pending does not change. */
  lemma IterateConserves(store: map<nat, Transaction>, scan: Scan)
    requires !Ended(scan) && forall id :: id in Pending(scan) ==> id in store
    ensures var next := Iterate(store, scan);
            && (forall id :: id in Pending(next) ==> id in store)
            && next.response + Fetch(store, Pending(next)) == scan.response + Fetch(store, Pending(scan))
            && (|Pending(next)| < |Pending(scan)| || (Pending(next) == Pending(scan) && |next.todo| < |scan.todo|))
  {
    var next := Iterate(store, scan);
    IteratePending(store, scan);
    if scan.pointer <= scan.todo[0].right {
      assert Pending(scan) == [scan.pointer] + Pending(next) by {
        assert scan.pointer !in store ==> scan.pointer in Pending(scan);
      }
      assert forall id :: id in Pending(next) ==> id in [scan.pointer] + Pending(next);
      FetchFirst(store, scan.pointer, Pending(next));
    }
  }

  lemma {:induction false} ScanFinishes(store: map<nat, Transaction>, scan: Scan) returns (steps: nat)
    requires forall id :: id in Pending(scan) ==> id in store
    ensures Ended(After(store, scan, steps))
    ensures After(store, scan, steps).response == scan.response + Fetch(store, Pending(scan))
    decreases |Pending(scan)|, |scan.todo|
  {
    if Ended(scan) {
      steps := 0;
    } else {
      IterateConserves(store, scan);
      var rest := ScanFinishes(store, Iterate(store, scan));
      steps := rest + 1;
    }
  }

  lemma MissingStays(store: map<nat, Transaction>, scan: Scan, missing: nat)
    requires missing in Pending(scan) && missing !in store
    ensures missing in Pending(Iterate(store, scan))
  {
    IteratePending(store, scan);
    if scan.pointer <= scan.todo[0].right && scan.pointer in store {
      assert missing in [scan.pointer] + Pending(Iterate(store, scan));
    }
  }

  lemma {:induction false} ScanHangs(store: map<nat, Transaction>, scan: Scan, missing: nat, steps: nat)
    requires missing in Pending(scan) && missing !in store
    ensures !Ended(After(store, scan, steps))
    decreases steps
  {
    assert !Ended(scan);
    if steps > 0 {
      MissingStays(store, scan, missing);
      ScanHangs(store, Iterate(store, scan), missing, steps - 1);
    }
  }

  /** The scan ends if and only if every requested identifier is held, and then it has produced exactly
      the requested transactions, ascending within each interval. */
  lemma ServingExact(store: map<nat, Transaction>, intervals: seq<Interval>)
    ensures (exists steps: nat :: Ended(After(store, Begin(intervals, []), steps))) <==> Answer(store, intervals).Some?
    ensures Answer(store, intervals).Some? ==> exists steps: nat ::
              && Ended(After(store, Begin(intervals, []), steps))
              && After(store, Begin(intervals, []), steps).response == Answer(store, intervals).value
  {
    var start := Begin(intervals, []);
    BeginPending(intervals, []);
    if AllHeld(store, intervals) {
      var steps := ScanFinishes(store, start);
    } else {
      var missing :| missing in Expand(intervals) && missing !in store;
      forall steps: nat ensures !Ended(After(store, start, steps)) {
        ScanHangs(store, start, missing, steps);
      }
    }
  }

  lemma AnswerIds(store: map<nat, Transaction>, intervals: seq<Interval>)
    requires Answer(store, intervals).Some? && forall id :: id in store ==> store[id].id == id
    ensures var txs := Answer(store, intervals).value;
            && |txs| == |Expand(intervals)|
            && (forall i | 0 <= i < |txs| :: txs[i].id == Expand(intervals)[i] && txs[i].id in store)
            && (forall id: nat :: id in IdsOf(txs) <==> Covers(intervals, id))
  {
    var ids, txs := Expand(intervals), Answer(store, intervals).value;
    ExpandMembers(intervals);
    forall id: nat ensures id in IdsOf(txs) <==> id in ids {
      if id in ids {
        var i :| 0 <= i < |ids| && ids[i] == id;
        assert txs[i].id == id;
      }
    }
  }

  // ---------- what is answered, in plain terms ----------

  /** One transaction per requested identifier: the intervals one after the other, each in ascending order,
      and under each identifier the transaction that is stored. */
  ghost predicate ServedAs(store: map<nat, Transaction>, intervals: seq<Interval>, txs: seq<Transaction>) {
    && |txs| == TotalCount(intervals)
    && forall i, id: nat | 0 <= i < |intervals| && intervals[i].Contains(id) ::
         var at := TotalCount(intervals[..i]) + id - intervals[i].left;
         at < |txs| && id in store && txs[at] == store[id]
  }

  /** Where an identifier of an interval is in the enumeration. */
  lemma {:induction false} ExpandAt(intervals: seq<Interval>, i: nat, id: nat)
    requires i < |intervals| && intervals[i].Contains(id)
    ensures var at := TotalCount(intervals[..i]) + id - intervals[i].left;
            at < |Expand(intervals)| && Expand(intervals)[at] == id
  {
    var n := |intervals| - 1;
    ExpandLength(intervals[..n]);
    if i < n {
      ExpandAt(intervals[..n], i, id);
      assert intervals[..n][..i] == intervals[..i];
    }
  }

  lemma AnswerServes(store: map<nat, Transaction>, intervals: seq<Interval>)
    requires AllHeld(store, intervals)
    ensures ServedAs(store, intervals, Answer(store, intervals).value)
  {
    ExpandLength(intervals);
    forall i, id: nat | 0 <= i < |intervals| && intervals[i].Contains(id)
      ensures var at := TotalCount(intervals[..i]) + id - intervals[i].left;
              at < |Expand(intervals)| && Expand(intervals)[at] == id
    {
      ExpandAt(intervals, i, id);
    }
  }
}
