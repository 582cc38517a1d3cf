/**
 Whole histories of deliveries: what order, batching and repetition can do to the index, and for which
 stores they cannot do anything.
 */
module Histories {
  import opened RangeKey
  import opened Iteration
  import opened Indexing

  /** One message with transactions together with the order in which its buckets were visited. */
  datatype Delivery = Delivery(txs: seq<Transaction>, order: seq<nat>)

  ghost predicate ValidDelivery(d: Delivery) {
    ValidIds(d.txs) && IsOrder(d.order, Ranges(d.txs))
  }

  ghost function IngestMany(index: Index, deliveries: seq<Delivery>): Index {
    if deliveries == [] then
      index
    else
      var n := |deliveries| - 1;
      Ingest(IngestMany(index, deliveries[..n]), deliveries[n].txs, deliveries[n].order)
  }

  ghost predicate Delivered(deliveries: seq<Delivery>, id: nat) {
    exists i | 0 <= i < |deliveries| :: id in IdsOf(deliveries[i].txs)
  }

  lemma DeliveredLast(deliveries: seq<Delivery>, id: nat)
    requires deliveries != []
    ensures var n := |deliveries| - 1;
            Delivered(deliveries, id) <==> Delivered(deliveries[..n], id) || id in IdsOf(deliveries[n].txs)
  {
    var n := |deliveries| - 1;
    if Delivered(deliveries[..n], id) {
      var i :| 0 <= i < n && id in IdsOf(deliveries[..n][i].txs);
      assert id in IdsOf(deliveries[i].txs);
    }
    if Delivered(deliveries, id) && id !in IdsOf(deliveries[n].txs) {
      var i :| 0 <= i < |deliveries| && id in IdsOf(deliveries[i].txs);
      assert id in IdsOf(deliveries[..n][i].txs);
    }
  }

  ghost predicate AllValid(deliveries: seq<Delivery>) {
    forall i | 0 <= i < |deliveries| :: ValidDelivery(deliveries[i])
  }

  lemma {:induction false} IngestManyHeld(index: Index, deliveries: seq<Delivery>)
    requires IndexInv(index) && AllValid(deliveries)
    ensures var after := IngestMany(index, deliveries);
            && IndexInv(after)
            && (forall id: nat :: id in after.Held() <==> id in index.Held() || Delivered(deliveries, id))
  {
    if deliveries != [] {
      var n := |deliveries| - 1;
      var before := IngestMany(index, deliveries[..n]);
      IngestManyHeld(index, deliveries[..n]);
      assert ValidDelivery(deliveries[n]);
      IngestKeepsInv(before, deliveries[n].txs, deliveries[n].order);
      forall id: nat
        ensures id in IngestMany(index, deliveries).Held() <==> id in index.Held() || Delivered(deliveries, id)
      {
        DeliveredLast(deliveries, id);
      }
    }
  }

  /** Where the index is exact it is determined by the store. */
  lemma IndexDetermined(a: Index, b: Index, range: nat)
    requires Possession(a) && Possession(b) && a.Held() == b.Held() && ExactAt(a, range) && ExactAt(b, range)
    ensures SameAt(a.selfOffsets, b.selfOffsets, range)
  {
    assert range in a.selfOffsets <==> UniqueBlobId(range, 0) in a.Held();
    if range in a.selfOffsets {
      LongestUnique(a.Held(), range, a.selfOffsets[range], b.selfOffsets[range]);
    }
  }

  /** Order, batching, repetition and hash-map order of deliveries are invisible in the end, in every
      range whose full blob does not run into the next one. */
  lemma Confluence(index: Index, a: seq<Delivery>, b: seq<Delivery>)
    requires IndexInv(index) && AllValid(a) && AllValid(b)
    requires forall id: nat :: Delivered(a, id) <==> Delivered(b, id)
    ensures IngestMany(index, a).Held() == IngestMany(index, b).Held()
    ensures forall range: nat | !Spills(IngestMany(index, a).Held(), range) ::
              SameAt(IngestMany(index, a).selfOffsets, IngestMany(index, b).selfOffsets, range)
  {
    IngestManyHeld(index, a);
    IngestManyHeld(index, b);
    assert IngestMany(index, a).Held() == IngestMany(index, b).Held();
    forall range: nat | !Spills(IngestMany(index, a).Held(), range)
      ensures SameAt(IngestMany(index, a).selfOffsets, IngestMany(index, b).selfOffsets, range)
    {
      IndexDetermined(IngestMany(index, a), IngestMany(index, b), range);
    }
  }

  lemma NextNeverLowers(index: Index, d: Delivery, range: nat)
    requires IndexInv(index) && ValidDelivery(d) && !Spills(Ingest(index, d.txs, d.order).Held(), range)
    ensures NoLowerAt(index.selfOffsets, Ingest(index, d.txs, d.order).selfOffsets, range)
    ensures !Spills(index.Held(), range)
  {
    IngestKeepsInv(index, d.txs, d.order);
    if Spills(index.Held(), range) {
      SpillsMonotone(index.Held(), Ingest(index, d.txs, d.order).Held(), range);
    }
  }

  lemma LastNeverLowers(index: Index, deliveries: seq<Delivery>, range: nat)
    requires IndexInv(index) && AllValid(deliveries) && deliveries != []
    requires !Spills(IngestMany(index, deliveries).Held(), range)
    ensures var before := IngestMany(index, deliveries[..|deliveries| - 1]);
            !Spills(before.Held(), range) && NoLowerAt(before.selfOffsets, IngestMany(index, deliveries).selfOffsets, range)
  {
    var n := |deliveries| - 1;
    IngestManyInv(index, deliveries[..n]);
    assert ValidDelivery(deliveries[n]);
    NextNeverLowers(IngestMany(index, deliveries[..n]), deliveries[n], range);
  }

  lemma NoLowerTransitive(a: map<nat, nat>, b: map<nat, nat>, c: map<nat, nat>, range: nat)
    requires NoLowerAt(a, b, range) && NoLowerAt(b, c, range)
    ensures NoLowerAt(a, c, range)
  {
  }

  lemma {:induction false} ManyNeverLower(index: Index, deliveries: seq<Delivery>, i: nat, range: nat)
    requires IndexInv(index) && AllValid(deliveries) && i <= |deliveries|
    requires !Spills(IngestMany(index, deliveries).Held(), range)
    ensures NoLowerAt(IngestMany(index, deliveries[..i]).selfOffsets, IngestMany(index, deliveries).selfOffsets, range)
  {
    if i == |deliveries| {
      assert deliveries[..i] == deliveries;
    } else {
      var n := |deliveries| - 1;
      var front := deliveries[..n];
      LastNeverLowers(index, deliveries, range);
      assert AllValid(front);
      assert NoLowerAt(IngestMany(index, deliveries[..i]).selfOffsets, IngestMany(index, front).selfOffsets, range) by {
        assert front[..i] == deliveries[..i];
        ManyNeverLower(index, front, i, range);
      }
      NoLowerTransitive(IngestMany(index, deliveries[..i]).selfOffsets, IngestMany(index, front).selfOffsets,
                        IngestMany(index, deliveries).selfOffsets, range);
    }
  }

  lemma IngestManyInv(index: Index, deliveries: seq<Delivery>)
    requires IndexInv(index) && AllValid(deliveries)
    ensures IndexInv(IngestMany(index, deliveries))
  {
    IngestManyHeld(index, deliveries);
  }

  // ---------- all histories of a store ----------

  function Empty(): Index {
    Index(map[], map[])
  }

  /** The deliveries lead from an empty node to this store. */
  ghost predicate LeadsTo(deliveries: seq<Delivery>, ids: set<nat>) {
    AllValid(deliveries) && IngestMany(Empty(), deliveries).Held() == ids
  }

  ghost predicate AlwaysExact(ids: set<nat>, range: nat) {
    forall ds :: LeadsTo(ds, ids) ==> ExactAt(IngestMany(Empty(), ds), range)
  }

  ghost predicate AlwaysAgree(ids: set<nat>, range: nat) {
    forall a, b :: LeadsTo(a, ids) && LeadsTo(b, ids) ==>
      SameAt(IngestMany(Empty(), a).selfOffsets, IngestMany(Empty(), b).selfOffsets, range)
  }

  /** Going back at any time, from the recorded offset of any earlier time. */
  ghost predicate NeverLowered(ids: set<nat>, range: nat) {
    forall ds, i: nat, j: nat :: LeadsTo(ds, ids) && i <= j <= |ds| ==>
      NoLowerAt(IngestMany(Empty(), ds[..i]).selfOffsets, IngestMany(Empty(), ds[..j]).selfOffsets, range)
  }

  ghost predicate Single(d: Delivery) {
    |d.txs| == 1 && d.txs[0].id <= MAX_ID && d.order == [RangeOf(d.txs[0].id)]
  }

  function One(id: nat): Delivery {
    Delivery([Transaction(id, Created)], [RangeOf(id)])
  }

  lemma OneValid(id: nat)
    requires id <= MAX_ID
    ensures Single(One(id)) && ValidDelivery(One(id)) && IdsOf(One(id).txs) == {id}
  {
    SingleOrder(Transaction(id, Created));
  }

  /** The identifiers delivered one by one, in some order. */
  lemma {:induction false} OneByOne(ids: set<nat>) returns (ds: seq<Delivery>)
    requires forall id | id in ids :: id <= MAX_ID
    ensures AllValid(ds) && forall id: nat :: Delivered(ds, id) <==> id in ids
    ensures forall i | 0 <= i < |ds| :: Single(ds[i]) && ds[i].txs[0].id in ids
    decreases ids
  {
    ds := [];
    if ids != {} {
      var id :| id in ids;
      var front := OneByOne(ids - {id});
      OneValid(id);
      ds := front + [One(id)];
      assert ds[..|front|] == front;
      forall k: nat ensures Delivered(ds, k) <==> k in ids {
        DeliveredLast(ds, k);
      }
    }
  }

  lemma {:induction false} IngestManyAppend(index: Index, a: seq<Delivery>, b: seq<Delivery>)
    ensures IngestMany(index, a + b) == IngestMany(IngestMany(index, a), b)
  {
    if b == [] {
      assert a + b == a;
    } else {
      var n := |b| - 1;
      IngestManyAppend(index, a, b[..n]);
      assert (a + b)[..|a| + n] == a + b[..n];
    }
  }

  lemma {:induction false} ManyUntouched(index: Index, ds: seq<Delivery>, range: nat)
    requires forall i | 0 <= i < |ds| :: range !in ds[i].order
    ensures SameAt(index.selfOffsets, IngestMany(index, ds).selfOffsets, range)
  {
    if ds != [] {
      var n := |ds| - 1;
      ManyUntouched(index, ds[..n], range);
      IngestUntouched(IngestMany(index, ds[..n]), ds[n].txs, ds[n].order, range);
    }
  }

  ghost function BlobOf(ids: set<nat>, range: nat): set<nat> {
    set id | id in ids && RangeOf(id) == range
  }

  lemma BlobHeld(ids: set<nat>, range: nat)
    requires Full(ids, range)
    ensures Full(BlobOf(ids, range), range) && !Spills(BlobOf(ids, range), range)
  {
    forall o: nat | o <= SINGLE_BLOB_SIZE - 1 ensures UniqueBlobId(range, o) in BlobOf(ids, range) {
      assert RangeOf(UniqueBlobId(range, o)) == range;
    }
    assert RangeOf(UniqueBlobId(range + 1, 0)) == range + 1;
  }

  lemma EmptyInv()
    ensures IndexInv(Empty())
  {
  }

  /** A whole blob, delivered first, is recorded as full. */
  lemma BlobRecorded(ids: set<nat>, range: nat) returns (ds: seq<Delivery>)
    requires Full(ids, range) && forall id | id in ids :: id <= MAX_ID
    ensures LeadsTo(ds, BlobOf(ids, range)) && forall i | 0 <= i < |ds| :: Single(ds[i])
    ensures var offsets := IngestMany(Empty(), ds).selfOffsets;
            range in offsets && offsets[range] == SINGLE_BLOB_SIZE - 1
  {
    var blob := BlobOf(ids, range);
    ds := OneByOne(blob);
    EmptyInv();
    IngestManyHeld(Empty(), ds);
    assert IngestMany(Empty(), ds).Held() == blob;
    BlobHeld(ids, range);
    FullIsRecorded(IngestMany(Empty(), ds), range);
  }

  lemma FullIsRecorded(index: Index, range: nat)
    requires IndexInv(index) && Full(index.Held(), range) && !Spills(index.Held(), range)
    ensures range in index.selfOffsets && index.selfOffsets[range] == SINGLE_BLOB_SIZE - 1
  {
    assert UniqueBlobId(range, 0) in index.Held();
    assert ExactAt(index, range);
    var offset := index.selfOffsets[range];
    if offset + 1 < SINGLE_BLOB_SIZE {
      NotLongest(index.Held(), range, offset);
    }
  }

  /** When the first identifier of the next blob has arrived, a resent one makes the scan of the full
      blob run over its end. */
  lemma ResentLowers(index: Index, range: nat)
    requires Possession(index) && Full(index.Held(), range) && UniqueBlobId(range + 1, 0) in index.Held()
    requires UniqueBlobId(range + 1, 1) !in index.Held()
    requires range in index.selfOffsets && index.selfOffsets[range] == SINGLE_BLOB_SIZE - 1
    ensures var d := One(UniqueBlobId(range, 0));
            !NoLowerAt(index.selfOffsets, Ingest(index, d.txs, d.order).selfOffsets, range)
  {
    var id := UniqueBlobId(range, 0);
    var tx := Transaction(id, Created);
    assert id in index.Held() && RangeOf(id) == range;
    OneValid(id);
    assert index.Held() + IdsOf([tx]) == index.Held();
    IngestOne(index, tx);
    BucketLowersExactly(index, range, [tx], range + 1);
  }

  lemma TwoMore(index: Index, ds: seq<Delivery>, x: Delivery, y: Delivery)
    ensures var a := IngestMany(index, ds);
            IngestMany(index, ds + [x, y]) == Ingest(Ingest(a, x.txs, x.order), y.txs, y.order)
  {
    var all := ds + [x, y];
    assert all[..|ds| + 1] == ds + [x] && (ds + [x])[..|ds|] == ds;
  }

  /** The first identifier of the next blob, and then the first of the full one once more. */
  lemma SpillTaken(a: Index, range: nat)
    requires Possession(a) && Full(a.Held(), range) && UniqueBlobId(range + 1, 0) <= MAX_ID
    requires UniqueBlobId(range + 1, 1) !in a.Held()
    requires range in a.selfOffsets && a.selfOffsets[range] == SINGLE_BLOB_SIZE - 1
    ensures var x, y := One(UniqueBlobId(range + 1, 0)), One(UniqueBlobId(range, 0));
            var c := Ingest(Ingest(a, x.txs, x.order), y.txs, y.order);
            && c.Held() == a.Held() + {UniqueBlobId(range + 1, 0)}
            && range in c.selfOffsets && c.selfOffsets[range] < SINGLE_BLOB_SIZE - 1
  {
    var x, y := One(UniqueBlobId(range + 1, 0)), One(UniqueBlobId(range, 0));
    var b := Ingest(a, x.txs, x.order);
    NextArrives(a, range);
    PrefixMonotone(a.Held(), b.Held(), range, SINGLE_BLOB_SIZE - 1);
    ResentLowers(b, range);
    OneValid(UniqueBlobId(range, 0));
    IngestHeld(b, y.txs, y.order);
    IngestOthers(b, y.txs, y.order);
    assert UniqueBlobId(range, 0) in a.Held();
  }

  lemma TwoMoreValid(ds: seq<Delivery>, x: nat, y: nat)
    requires AllValid(ds) && (forall i | 0 <= i < |ds| :: Single(ds[i])) && x <= MAX_ID && y <= MAX_ID
    ensures var all := ds + [One(x), One(y)]; AllValid(all) && forall i | 0 <= i < |all| :: Single(all[i])
  {
    OneValid(x);
    OneValid(y);
  }

  /** The blob, the first identifier of the next one, and the first of the blob once more. */
  lemma SpillLowers(ids: set<nat>, range: nat) returns (ds: seq<Delivery>, full: nat)
    requires Spills(ids, range) && forall id | id in ids :: id <= MAX_ID
    ensures LeadsTo(ds, BlobOf(ids, range) + {UniqueBlobId(range + 1, 0)}) && full <= |ds|
    ensures forall i | 0 <= i < |ds| :: Single(ds[i])
    ensures var before, after := IngestMany(Empty(), ds[..full]).selfOffsets, IngestMany(Empty(), ds).selfOffsets;
            && range in before && before[range] == SINGLE_BLOB_SIZE - 1
            && range in after && after[range] < SINGLE_BLOB_SIZE - 1
  {
    var first := BlobRecorded(ids, range);
    full := |first|;
    ds := first + [One(UniqueBlobId(range + 1, 0)), One(UniqueBlobId(range, 0))];
    assert ds[..full] == first;
    assert UniqueBlobId(range, 0) in ids;
    TwoMoreValid(first, UniqueBlobId(range + 1, 0), UniqueBlobId(range, 0));
    TwoMore(Empty(), first, One(UniqueBlobId(range + 1, 0)), One(UniqueBlobId(range, 0)));
    BlobPossessed(ids, range, first);
    SpillTaken(IngestMany(Empty(), first), range);
  }

  lemma BlobPossessed(ids: set<nat>, range: nat, ds: seq<Delivery>)
    requires Full(ids, range) && LeadsTo(ds, BlobOf(ids, range))
    ensures var a := IngestMany(Empty(), ds);
            Possession(a) && Full(a.Held(), range) && UniqueBlobId(range + 1, 1) !in a.Held()
  {
    EmptyInv();
    IngestManyInv(Empty(), ds);
    BlobHeld(ids, range);
    assert RangeOf(UniqueBlobId(range + 1, 1)) == range + 1;
  }

  lemma NextArrives(index: Index, range: nat)
    requires Possession(index) && UniqueBlobId(range + 1, 0) <= MAX_ID
    ensures var d := One(UniqueBlobId(range + 1, 0));
            var after := Ingest(index, d.txs, d.order);
            && Possession(after) && after.Held() == index.Held() + {UniqueBlobId(range + 1, 0)}
            && SameAt(index.selfOffsets, after.selfOffsets, range)
  {
    var d := One(UniqueBlobId(range + 1, 0));
    OneValid(UniqueBlobId(range + 1, 0));
    IngestPossession(index, d.txs, d.order);
    IngestHeld(index, d.txs, d.order);
    IngestUntouched(index, d.txs, d.order, range);
  }

  /** What is outside the blob comes last and does not touch its range. */
  lemma RestFollows(ids: set<nat>, range: nat, first: seq<Delivery>, held: set<nat>) returns (ds: seq<Delivery>)
    requires LeadsTo(first, held) && BlobOf(ids, range) <= held <= ids && forall id | id in ids :: id <= MAX_ID
    requires forall i | 0 <= i < |first| :: Single(first[i])
    ensures LeadsTo(ds, ids) && first <= ds && forall i | 0 <= i < |ds| :: Single(ds[i])
    ensures SameAt(IngestMany(Empty(), first).selfOffsets, IngestMany(Empty(), ds).selfOffsets, range)
  {
    var rest := OneByOne(ids - BlobOf(ids, range));
    ds := first + rest;
    AppendedLeadsTo(first, rest, held, ids - BlobOf(ids, range));
    assert held + (ids - BlobOf(ids, range)) == ids;
    IngestManyAppend(Empty(), first, rest);
    ManyUntouched(IngestMany(Empty(), first), rest, range);
  }

  lemma AppendedLeadsTo(first: seq<Delivery>, rest: seq<Delivery>, held: set<nat>, more: set<nat>)
    requires LeadsTo(first, held) && AllValid(rest) && forall id: nat :: Delivered(rest, id) <==> id in more
    ensures LeadsTo(first + rest, held + more)
  {
    EmptyInv();
    IngestManyInv(Empty(), first);
    IngestManyHeld(IngestMany(Empty(), first), rest);
    IngestManyAppend(Empty(), first, rest);
    assert IngestMany(Empty(), first + rest).Held() == held + more;
  }

  /** Two ways to receive a store in which a full blob runs into the next one: in the one the range is
      recorded as full and stays so, in the other this is taken back. */
  lemma SpillHistories(ids: set<nat>, range: nat) returns (good: seq<Delivery>, bad: seq<Delivery>, full: nat)
    requires Spills(ids, range) && forall id | id in ids :: id <= MAX_ID
    ensures LeadsTo(good, ids) && LeadsTo(bad, ids) && full <= |bad|
    ensures forall i | 0 <= i < |bad| :: Single(bad[i])
    ensures var kept, before, after := IngestMany(Empty(), good).selfOffsets, IngestMany(Empty(), bad[..full]).selfOffsets,
                                       IngestMany(Empty(), bad).selfOffsets;
            && range in kept && kept[range] == SINGLE_BLOB_SIZE - 1
            && range in before && before[range] == SINGLE_BLOB_SIZE - 1
            && range in after && after[range] < SINGLE_BLOB_SIZE - 1
  {
    var blob := BlobRecorded(ids, range);
    good := RestFollows(ids, range, blob, BlobOf(ids, range));
    var back;
    back, full := SpillLowers(ids, range);
    bad := RestFollows(ids, range, back, BlobOf(ids, range) + {UniqueBlobId(range + 1, 0)});
    assert bad[..full] == back[..full];
  }

  /** Every history of a store leaves the range exact, all of them leave the same, and none ever lowers
      its offset, if and only if its blob is not full or the next one has not begun. */
  lemma ExactHistories(ids: set<nat>, range: nat)
    requires forall id | id in ids :: id <= MAX_ID
    ensures AlwaysExact(ids, range) <==> !Spills(ids, range)
    ensures AlwaysAgree(ids, range) <==> !Spills(ids, range)
    ensures NeverLowered(ids, range) <==> !Spills(ids, range)
  {
    if Spills(ids, range) {
      var good, bad, full := SpillHistories(ids, range);
      assert bad[..|bad|] == bad;
      assert !NoLowerAt(IngestMany(Empty(), bad[..full]).selfOffsets, IngestMany(Empty(), bad[..|bad|]).selfOffsets, range);
      NotLongest(ids, range, IngestMany(Empty(), bad).selfOffsets[range]);
    } else {
      NoSpillHistories(ids, range);
    }
  }

  lemma NotLongest(ids: set<nat>, range: nat, offset: nat)
    requires Full(ids, range) && offset < SINGLE_BLOB_SIZE - 1
    ensures !LongestPrefix(ids, range, offset)
  {
    assert UniqueBlobId(range, offset + 1) in ids;
  }

  lemma NoSpillHistories(ids: set<nat>, range: nat)
    requires !Spills(ids, range)
    ensures AlwaysExact(ids, range) && AlwaysAgree(ids, range) && NeverLowered(ids, range)
  {
    EmptyInv();
    forall ds | LeadsTo(ds, ids)
      ensures Possession(IngestMany(Empty(), ds)) && ExactAt(IngestMany(Empty(), ds), range)
    {
      IngestManyHeld(Empty(), ds);
    }
    forall a, b | LeadsTo(a, ids) && LeadsTo(b, ids)
      ensures SameAt(IngestMany(Empty(), a).selfOffsets, IngestMany(Empty(), b).selfOffsets, range)
    {
      IndexDetermined(IngestMany(Empty(), a), IngestMany(Empty(), b), range);
    }
    forall ds, i: nat, j: nat | LeadsTo(ds, ids) && i <= j <= |ds|
      ensures NoLowerAt(IngestMany(Empty(), ds[..i]).selfOffsets, IngestMany(Empty(), ds[..j]).selfOffsets, range)
    {
      PrefixNeverLowers(ds, ids, i, j, range);
    }
  }

  lemma PrefixNeverLowers(ds: seq<Delivery>, ids: set<nat>, i: nat, j: nat, range: nat)
    requires LeadsTo(ds, ids) && i <= j <= |ds| && !Spills(ids, range)
    ensures NoLowerAt(IngestMany(Empty(), ds[..i]).selfOffsets, IngestMany(Empty(), ds[..j]).selfOffsets, range)
  {
    EmptyInv();
    var front := ds[..j];
    assert ds == front + ds[j..] && front[..i] == ds[..i];
    IngestManyAppend(Empty(), front, ds[j..]);
    IngestManyHeld(Empty(), front);
    IngestManyHeld(IngestMany(Empty(), front), ds[j..]);
    if Spills(IngestMany(Empty(), front).Held(), range) {
      SpillsMonotone(IngestMany(Empty(), front).Held(), ids, range);
    }
    ManyNeverLower(Empty(), front, i, range);
  }

  /** The whole index is exact after every history of a store if and only if the store has no spill. */
  lemma ExactIffNoSpill(ids: set<nat>)
    requires forall id | id in ids :: id <= MAX_ID
    ensures (forall range: nat :: AlwaysExact(ids, range)) <==> NoSpill(ids)
  {
    forall range: nat ensures AlwaysExact(ids, range) <==> !Spills(ids, range) {
      ExactHistories(ids, range);
    }
  }
}
