/**
 The store of known transactions and the incremental index over it: per key range the offset up to
 which the node holds every transaction (`update_self_offsets` in maroon/src/app/app.rs).
 */
module Indexing {
  import opened RangeKey
  import opened Iteration

  datatype TxStatus = Created | Pending | Confirmed | Finished | Rejected

  datatype Transaction = Transaction(id: nat, status: TxStatus)

  datatype Index = Index(selfOffsets: map<nat, nat>, transactions: map<nat, Transaction>)
  {
    function Held(): set<nat> {
      transactions.Keys
    }
  }

  // ---------- bucketing by range ----------

  ghost function IdsOf(txs: seq<Transaction>): set<nat> {
    set i | 0 <= i < |txs| :: txs[i].id
  }

  ghost function Ranges(txs: seq<Transaction>): set<nat> {
    set i | 0 <= i < |txs| :: RangeOf(txs[i].id)
  }

  ghost predicate ValidIds(txs: seq<Transaction>) {
    forall i | 0 <= i < |txs| :: txs[i].id <= MAX_ID
  }

  /** The transactions of one range, in the order received. */
  ghost function Bucket(txs: seq<Transaction>, range: nat): seq<Transaction> {
    if txs == [] then
      []
    else
      var n := |txs| - 1;
      Bucket(txs[..n], range) + if RangeOf(txs[n].id) == range then [txs[n]] else []
  }

  ghost predicate IsBucketing(buckets: map<nat, seq<Transaction>>, txs: seq<Transaction>) {
    && buckets.Keys == Ranges(txs)
    && forall range: nat :: Bucket(txs, range) == if range in buckets then buckets[range] else []
  }

  lemma BucketingLast(buckets: map<nat, seq<Transaction>>, txs: seq<Transaction>)
    requires txs != [] && IsBucketing(buckets, txs[..|txs| - 1])
    ensures var tx := txs[|txs| - 1];
            var range := RangeOf(tx.id);
            IsBucketing(buckets[range := (if range in buckets then buckets[range] else []) + [tx]], txs)
  {
    RangesLast(txs);
  }

  /** `txs_to_range_tx_map` */
  method TxsToRangeTxMap(txs: seq<Transaction>) returns (buckets: map<nat, seq<Transaction>>)
    requires ValidIds(txs)
    ensures IsBucketing(buckets, txs)
  {
    buckets := map[];
    for i := 0 to |txs|
      invariant IsBucketing(buckets, txs[..i])
    {
      var tx := txs[i];
      var range: u64 := RangeOf(tx.id);
      assert txs[..i + 1][..i] == txs[..i];
      BucketingLast(buckets, txs[..i + 1]);
      if range in buckets {
        buckets := buckets[range := buckets[range] + [tx]];
      } else {
        assert [] + [tx] == [tx];
        buckets := buckets[range := [tx]];
      }
    }
    assert txs[..|txs|] == txs;
  }

  lemma RangesLast(txs: seq<Transaction>)
    requires txs != []
    ensures var n := |txs| - 1;
            && Ranges(txs) == Ranges(txs[..n]) + {RangeOf(txs[n].id)}
            && IdsOf(txs) == IdsOf(txs[..n]) + {txs[n].id}
  {
    var n := |txs| - 1;
    assert forall i | 0 <= i < n :: txs[..n][i] == txs[i];
    forall r | r in Ranges(txs) ensures r in Ranges(txs[..n]) + {RangeOf(txs[n].id)} {
      var i :| 0 <= i < |txs| && RangeOf(txs[i].id) == r;
      assert i < n ==> RangeOf(txs[..n][i].id) == r;
    }
    forall id | id in IdsOf(txs) ensures id in IdsOf(txs[..n]) + {txs[n].id} {
      var i :| 0 <= i < |txs| && txs[i].id == id;
      assert i < n ==> txs[..n][i].id == id;
    }
    forall r | r in Ranges(txs[..n]) ensures r in Ranges(txs) {
      var i :| 0 <= i < n && RangeOf(txs[..n][i].id) == r;
      assert RangeOf(txs[i].id) == r;
    }
    forall id | id in IdsOf(txs[..n]) ensures id in IdsOf(txs) {
      var i :| 0 <= i < n && txs[..n][i].id == id;
      assert txs[i].id == id;
    }
  }

  lemma {:induction false} BucketIds(txs: seq<Transaction>, range: nat)
    ensures IdsOf(Bucket(txs, range)) == set id | id in IdsOf(txs) && RangeOf(id) == range
    ensures forall i | 0 <= i < |Bucket(txs, range)| :: Bucket(txs, range)[i] in txs && RangeOf(Bucket(txs, range)[i].id) == range
  {
    if txs != [] {
      var n := |txs| - 1;
      BucketIds(txs[..n], range);
      RangesLast(txs);
      if RangeOf(txs[n].id) == range {
        var b := Bucket(txs, range);
        assert b[..|b| - 1] == Bucket(txs[..n], range);
        RangesLast(b);
      } else {
        assert Bucket(txs, range) == Bucket(txs[..n], range);
      }
    }
  }

  /** All buckets, one after the other. */
  ghost function Gather(txs: seq<Transaction>, order: seq<nat>): seq<Transaction> {
    if order == [] then
      []
    else
      var n := |order| - 1;
      Gather(txs, order[..n]) + Bucket(txs, order[n])
  }

  lemma {:induction false} BucketCount(txs: seq<Transaction>, range: nat, tx: Transaction)
    ensures multiset(Bucket(txs, range))[tx] == if RangeOf(tx.id) == range then multiset(txs)[tx] else 0
  {
    if txs != [] {
      var n := |txs| - 1;
      BucketCount(txs[..n], range, tx);
      assert txs == txs[..n] + [txs[n]];
    }
  }

  lemma CountAppended(a: seq<Transaction>, b: seq<Transaction>, tx: Transaction)
    ensures multiset(a + b)[tx] == multiset(a)[tx] + multiset(b)[tx]
  {
  }

  lemma GatherLast(txs: seq<Transaction>, order: seq<nat>, tx: Transaction)
    requires order != []
    ensures var n := |order| - 1;
            multiset(Gather(txs, order))[tx]
            == multiset(Gather(txs, order[..n]))[tx] + if RangeOf(tx.id) == order[n] then multiset(txs)[tx] else 0
  {
    var n := |order| - 1;
    BucketCount(txs, order[n], tx);
    CountAppended(Gather(txs, order[..n]), Bucket(txs, order[n]), tx);
  }

  lemma {:induction false} GatherCount(txs: seq<Transaction>, order: seq<nat>, tx: Transaction)
    requires forall i, j | 0 <= i < j < |order| :: order[i] != order[j]
    ensures multiset(Gather(txs, order))[tx] == if RangeOf(tx.id) in order then multiset(txs)[tx] else 0
  {
    if order != [] {
      var n := |order| - 1;
      var front := order[..n];
      GatherCount(txs, front, tx);
      GatherLast(txs, order, tx);
      OrderPrefix(order, n);
      assert order[..n + 1] == order;
    }
  }

  /** Bucketing neither loses nor invents nor duplicates a transaction. */
  lemma BucketingConserves(txs: seq<Transaction>, order: seq<nat>)
    requires IsOrder(order, Ranges(txs))
    ensures multiset(Gather(txs, order)) == multiset(txs)
  {
    forall tx ensures multiset(Gather(txs, order))[tx] == multiset(txs)[tx] {
      GatherCount(txs, order, tx);
      if tx in multiset(txs) {
        assert tx in txs;
        var i :| 0 <= i < |txs| && txs[i] == tx;
        assert RangeOf(txs[i].id) in Ranges(txs);
      }
    }
  }

  // ---------- one step of the index ----------

  /** Inserting transactions; a later one overwrites an earlier one of the same identifier. */
  ghost function Stored(store: map<nat, Transaction>, txs: seq<Transaction>): map<nat, Transaction> {
    if txs == [] then
      store
    else
      var n := |txs| - 1;
      Stored(store, txs[..n])[txs[n].id := txs[n]]
  }

  lemma {:induction false} StoredIds(store: map<nat, Transaction>, txs: seq<Transaction>)
    ensures Stored(store, txs).Keys == store.Keys + IdsOf(txs)
    ensures (forall id :: id in store ==> store[id].id == id)
            ==> forall id :: id in Stored(store, txs) ==> Stored(store, txs)[id].id == id
  {
    if txs != [] {
      StoredIds(store, txs[..|txs| - 1]);
      RangesLast(txs);
    }
  }

  // ---------- which transactions are stored ----------

  /** No later transaction of the batch has the same identifier. */
  ghost predicate LastOfId(txs: seq<Transaction>, i: nat)
    requires i < |txs|
  {
    forall j | i < j < |txs| :: txs[j].id != txs[i].id
  }

  /** Each identifier of the batch maps to the last of its transactions, as received, and every other one
      to what it did before. */
  ghost predicate BatchStored(before: map<nat, Transaction>, txs: seq<Transaction>, after: map<nat, Transaction>) {
    && (forall id: nat :: id in after <==> id in before || Mentions(txs, id))
    && (forall i | 0 <= i < |txs| && LastOfId(txs, i) :: txs[i].id in after && after[txs[i].id] == txs[i])
    && (forall id | id in before && !Mentions(txs, id) :: id in after && after[id] == before[id])
  }

  ghost predicate Mentions(txs: seq<Transaction>, id: nat) {
    exists i :: 0 <= i < |txs| && txs[i].id == id
  }

  lemma MentionsLast(txs: seq<Transaction>, id: nat)
    requires txs != []
    ensures Mentions(txs, id) <==> Mentions(txs[..|txs| - 1], id) || txs[|txs| - 1].id == id
  {
    var n := |txs| - 1;
    if Mentions(txs, id) && txs[n].id != id {
      var i :| 0 <= i < |txs| && txs[i].id == id;
      assert txs[..n][i].id == id;
    }
    if Mentions(txs[..n], id) {
      var i :| 0 <= i < n && txs[..n][i].id == id;
      assert txs[i].id == id;
    }
  }

  lemma LastOfIdInFront(txs: seq<Transaction>, i: nat)
    requires i < |txs| - 1 && LastOfId(txs, i)
    ensures LastOfId(txs[..|txs| - 1], i) && txs[|txs| - 1].id != txs[i].id
  {
  }

  lemma {:induction false} StoredMeans(store: map<nat, Transaction>, txs: seq<Transaction>)
    ensures BatchStored(store, txs, Stored(store, txs))
  {
    if txs != [] {
      var n := |txs| - 1;
      var front, after := Stored(store, txs[..n]), Stored(store, txs);
      StoredMeans(store, txs[..n]);
      forall id: nat ensures id in after <==> id in store || Mentions(txs, id) {
        MentionsLast(txs, id);
        assert id in front <==> id in store || Mentions(txs[..n], id);
      }
      forall i | 0 <= i < |txs| && LastOfId(txs, i) ensures txs[i].id in after && after[txs[i].id] == txs[i] {
        if i < n {
          LastOfIdInFront(txs, i);
          assert txs[..n][i] == txs[i];
        }
      }
      forall id | id in store && !Mentions(txs, id) ensures id in after && after[id] == store[id] {
        MentionsLast(txs, id);
      }
    }
  }

  /** Both stores have nothing, or the same, under the identifier. */
  ghost predicate SameTx(a: map<nat, Transaction>, b: map<nat, Transaction>, id: nat) {
    (id in a <==> id in b) && (id in a ==> a[id] == b[id])
  }

  /** A bucket does to the identifiers of its range what the whole batch does, and nothing to the others. */
  lemma {:induction false} BucketStoresLike(a: map<nat, Transaction>, b: map<nat, Transaction>, txs: seq<Transaction>,
                                            range: nat, id: nat)
    requires SameTx(a, b, id)
    ensures RangeOf(id) == range ==> SameTx(Stored(a, Bucket(txs, range)), Stored(b, txs), id)
    ensures RangeOf(id) != range ==> SameTx(Stored(a, Bucket(txs, range)), a, id)
  {
    if txs != [] {
      var n := |txs| - 1;
      BucketStoresLike(a, b, txs[..n], range, id);
      var bucket := Bucket(txs, range);
      if RangeOf(txs[n].id) == range {
        assert bucket[..|bucket| - 1] == Bucket(txs[..n], range);
      } else {
        assert bucket == Bucket(txs[..n], range);
      }
    }
  }

  /** Visiting the buckets in any order stores the batch. */
  lemma {:induction false} IngestStoresLike(index: Index, txs: seq<Transaction>, order: seq<nat>, id: nat)
    requires forall i, j | 0 <= i < j < |order| :: order[i] != order[j]
    ensures SameTx(Ingest(index, txs, order).transactions,
                   if RangeOf(id) in order then Stored(index.transactions, txs) else index.transactions, id)
  {
    if order != [] {
      var n := |order| - 1;
      IngestStoresLike(index, txs, order[..n], id);
      OrderPrefix(order, n);
      assert order[..n + 1] == order;
      var earlier := Ingest(index, txs, order[..n]).transactions;
      if RangeOf(id) == order[n] {
        BucketStoresLike(earlier, index.transactions, txs, order[n], id);
      } else {
        BucketStoresLike(earlier, earlier, txs, order[n], id);
      }
    }
  }

  lemma IngestStores(index: Index, txs: seq<Transaction>, order: seq<nat>)
    requires IsOrder(order, Ranges(txs))
    ensures Ingest(index, txs, order).transactions == Stored(index.transactions, txs)
    ensures BatchStored(index.transactions, txs, Ingest(index, txs, order).transactions)
  {
    var a, b := Ingest(index, txs, order).transactions, Stored(index.transactions, txs);
    StoredMeans(index.transactions, txs);
    forall id: nat ensures SameTx(a, b, id) {
      IngestStoresLike(index, txs, order, id);
      RangesOfIds(txs, id);
      OutsideStored(index.transactions, txs, id);
    }
    SameStores(a, b);
  }

  lemma RangesOfIds(txs: seq<Transaction>, id: nat)
    ensures id in IdsOf(txs) ==> RangeOf(id) in Ranges(txs)
  {
    if id in IdsOf(txs) {
      var i :| 0 <= i < |txs| && txs[i].id == id;
      assert RangeOf(txs[i].id) in Ranges(txs);
    }
  }

  lemma MentionsExact(txs: seq<Transaction>, id: nat)
    ensures Mentions(txs, id) <==> id in IdsOf(txs)
  {
  }

  lemma OutsideStored(store: map<nat, Transaction>, txs: seq<Transaction>, id: nat)
    ensures id !in IdsOf(txs) ==> SameTx(Stored(store, txs), store, id)
  {
    StoredMeans(store, txs);
    MentionsExact(txs, id);
  }

  lemma SameStores(a: map<nat, Transaction>, b: map<nat, Transaction>)
    requires forall id: nat :: SameTx(a, b, id)
    ensures a == b
  {
    assert forall id | id in a :: SameTx(a, b, id);
    assert forall id | id in b :: SameTx(a, b, id);
  }

  /** Where the scan for consecutive identifiers stops. */
  ghost function RunEnd(ids: set<nat>, key: nat): (end: nat)
    ensures end >= key && end + 1 !in ids
    ensures forall k | key < k <= end :: k in ids
    decreases set k | k in ids && k > key
  {
    if key + 1 in ids then
      var above, rest := set k | k in ids && k > key, set k | k in ids && k > key + 1;
      assert key + 1 in above && key + 1 !in rest && rest <= above;
      RunEnd(ids, key + 1)
    else
      key
  }

  ghost predicate HasFirst(txs: seq<Transaction>) {
    exists i | 0 <= i < |txs| :: OffsetOf(txs[i].id) == 0
  }

  /** What the loop body of `update_self_offsets` does for the bucket of one range. */
  ghost function IngestBucket(index: Index, range: nat, txs: seq<Transaction>): Index {
    var store := Stored(index.transactions, txs);
    if range in index.selfOffsets || HasFirst(txs) then
      var start := if range in index.selfOffsets then index.selfOffsets[range] else 0;
      Index(index.selfOffsets[range := OffsetOf(RunEnd(store.Keys, UniqueBlobId(range, start)))], store)
    else
      Index(index.selfOffsets, store)
  }

  /** `update_self_offsets`, the buckets being visited in the given order. */
  ghost function Ingest(index: Index, txs: seq<Transaction>, order: seq<nat>): Index {
    if order == [] then
      index
    else
      var n := |order| - 1;
      IngestBucket(Ingest(index, txs, order[..n]), order[n], Bucket(txs, order[n]))
  }

  // ---------- what the index means ----------

  ghost predicate PrefixHeld(ids: set<nat>, range: nat, offset: int) {
    forall o: nat | o <= offset :: UniqueBlobId(range, o) in ids
  }

  ghost predicate LongestPrefix(ids: set<nat>, range: nat, offset: nat) {
    && offset < SINGLE_BLOB_SIZE
    && PrefixHeld(ids, range, offset)
    && (offset + 1 == SINGLE_BLOB_SIZE || UniqueBlobId(range, offset + 1) !in ids)
  }

  ghost predicate Full(ids: set<nat>, range: nat) {
    PrefixHeld(ids, range, SINGLE_BLOB_SIZE - 1)
  }

  /** The scan of this range does not stop at the end of its blob. */
  ghost predicate Spills(ids: set<nat>, range: nat) {
    Full(ids, range) && UniqueBlobId(range + 1, 0) in ids
  }

  ghost predicate NoSpill(ids: set<nat>) {
    forall range: nat :: !Spills(ids, range)
  }

  /** Every transaction up to the recorded offset is held; a range is recorded iff it has begun. */
  ghost predicate Possession(index: Index) {
    && (forall id :: id in index.transactions ==> id <= MAX_ID && index.transactions[id].id == id)
    && (forall range: nat :: range in index.selfOffsets <==> UniqueBlobId(range, 0) in index.Held())
    && (forall range :: range in index.selfOffsets ==>
          index.selfOffsets[range] < SINGLE_BLOB_SIZE && PrefixHeld(index.Held(), range, index.selfOffsets[range]))
  }

  /** What is recorded of a range, if anything, is what a recomputation from the store would give. */
  ghost predicate ExactAt(index: Index, range: nat) {
    range in index.selfOffsets ==> LongestPrefix(index.Held(), range, index.selfOffsets[range])
  }

  /** Recorded offsets are covered; they are exact wherever no full blob runs into the next one. */
  ghost predicate IndexInv(index: Index) {
    Possession(index) && forall range: nat | !Spills(index.Held(), range) :: ExactAt(index, range)
  }

  /** The range is not dropped and its recorded offset is not lowered. */
  ghost predicate NoLowerAt(before: map<nat, nat>, after: map<nat, nat>, range: nat) {
    range in before ==> range in after && after[range] >= before[range]
  }

  /** Nothing, or the same offset, is recorded of the range. */
  ghost predicate SameAt(a: map<nat, nat>, b: map<nat, nat>, range: nat) {
    (range in a <==> range in b) && (range in a ==> a[range] == b[range])
  }

  lemma PrefixMonotone(a: set<nat>, b: set<nat>, range: nat, offset: int)
    requires a <= b && PrefixHeld(a, range, offset)
    ensures PrefixHeld(b, range, offset)
  {
  }

  lemma SpillsMonotone(a: set<nat>, b: set<nat>, range: nat)
    requires a <= b && Spills(a, range)
    ensures Spills(b, range)
  {
    PrefixMonotone(a, b, range, SINGLE_BLOB_SIZE - 1);
  }

  lemma LongestUnique(ids: set<nat>, range: nat, a: nat, b: nat)
    requires LongestPrefix(ids, range, a) && LongestPrefix(ids, range, b)
    ensures a == b
  {
  }

  /** The recorded offset is covered by held transactions even when the scan leaves the blob. */
  lemma ScanPrefix(ids: set<nat>, range: nat, start: nat)
    requires start < SINGLE_BLOB_SIZE && PrefixHeld(ids, range, start)
    ensures PrefixHeld(ids, range, OffsetOf(RunEnd(ids, UniqueBlobId(range, start))))
  {
    var end := RunEnd(ids, UniqueBlobId(range, start));
    forall o: nat | o <= OffsetOf(end) ensures UniqueBlobId(range, o) in ids {
      if o > start {
        assert UniqueBlobId(range, start) < UniqueBlobId(range, o) <= end;
      }
    }
  }

  lemma ScanLongest(ids: set<nat>, range: nat, start: nat)
    requires start < SINGLE_BLOB_SIZE && PrefixHeld(ids, range, start) && !Spills(ids, range)
    ensures var end := RunEnd(ids, UniqueBlobId(range, start));
            LongestPrefix(ids, range, OffsetOf(end)) && start <= OffsetOf(end) && RangeOf(end) == range
  {
    var end := RunEnd(ids, UniqueBlobId(range, start));
    if end >= UniqueBlobId(range + 1, 0) {
      forall o: nat | o < SINGLE_BLOB_SIZE ensures UniqueBlobId(range, o) in ids {
        if o > start {
          assert UniqueBlobId(range, start) < UniqueBlobId(range, o) <= end;
        }
      }
      assert Spills(ids, range);
    }
    ScanPrefix(ids, range, start);
    assert end == UniqueBlobId(range, OffsetOf(end));
  }

  // ---------- the exact condition of the scan ----------

  /** Some range at or after any given one is not full: identifiers are bounded. */
  lemma {:induction false} FirstNotFull(ids: set<nat>, range: nat) returns (m: nat)
    requires forall id :: id in ids ==> id <= MAX_ID
    ensures m >= range && !Full(ids, m) && forall r | range <= r < m :: Full(ids, r)
    decreases MAX_BLOCK_INDEX + 1 - range
  {
    if !Full(ids, range) {
      m := range;
    } else {
      assert UniqueBlobId(range, 1) in ids;
      m := FirstNotFull(ids, range + 1);
    }
  }

  lemma FullRunHeld(ids: set<nat>, range: nat, m: nat, id: nat)
    requires forall r | range <= r < m :: Full(ids, r)
    requires UniqueBlobId(range, 0) <= id < UniqueBlobId(m, 0)
    ensures id in ids
  {
    var r := RangeOf(id);
    assert range <= r < m;
    assert Full(ids, r);
    assert UniqueBlobId(r, OffsetOf(id)) == id;
  }

  /** The scan finds the longest prefix if and only if the first range from here on that is not full
      is this range itself or one that has not begun. `FirstNotFull` gives that range. */
  lemma ScanExact(ids: set<nat>, range: nat, start: nat, m: nat)
    requires start < SINGLE_BLOB_SIZE && PrefixHeld(ids, range, start)
    requires m >= range && !Full(ids, m) && forall r | range <= r < m :: Full(ids, r)
    ensures LongestPrefix(ids, range, OffsetOf(RunEnd(ids, UniqueBlobId(range, start))))
            <==> m == range || UniqueBlobId(m, 0) !in ids
  {
    var end := RunEnd(ids, UniqueBlobId(range, start));
    if m == range {
      ScanLongest(ids, range, start);
    } else {
      assert Full(ids, range);
      var border := UniqueBlobId(m, 0);
      if end + 1 < border {
        FullRunHeld(ids, range, m, end + 1);
      }
      ScanPrefix(ids, range, start);
      if border !in ids {
        assert end + 1 == border;
      } else {
        assert end >= border;
        var o: nat :| o < SINGLE_BLOB_SIZE && UniqueBlobId(m, o) !in ids;
        assert border < UniqueBlobId(m, o) ==> end < UniqueBlobId(m, o);
        assert OffsetOf(end) + 1 < SINGLE_BLOB_SIZE;
        assert UniqueBlobId(range, OffsetOf(end) + 1) in ids;
      }
    }
  }

  /** A scan that starts at a recorded offset goes back if and only if the first range from here on that
      is not full is another one, has begun, and is not held as far as that offset. */
  lemma ScanLowersExactly(ids: set<nat>, range: nat, start: nat, m: nat)
    requires start < SINGLE_BLOB_SIZE && PrefixHeld(ids, range, start)
    requires m >= range && !Full(ids, m) && forall r | range <= r < m :: Full(ids, r)
    ensures OffsetOf(RunEnd(ids, UniqueBlobId(range, start))) < start
            <==> m != range && UniqueBlobId(m, 0) in ids && !PrefixHeld(ids, m, start)
  {
    var end := RunEnd(ids, UniqueBlobId(range, start));
    if m == range {
      ScanLongest(ids, range, start);
    } else if UniqueBlobId(m, 0) !in ids {
      ScanPassesFull(ids, range, start, m);
    } else {
      ScanPassesFull(ids, range, start, m);
      ScanStopsIn(ids, m, end);
      if PrefixHeld(ids, m, start) {
        assert end + 1 !in ids && UniqueBlobId(m, OffsetOf(end) + 1) == end + 1;
      } else {
        var o: nat :| o <= start && UniqueBlobId(m, o) !in ids;
        assert UniqueBlobId(range, start) < UniqueBlobId(m, o);
        assert end < UniqueBlobId(m, o);
      }
    }
  }

  /** The scan passes full blobs; if the blob after them has not begun it stops at the last full one. */
  lemma ScanPassesFull(ids: set<nat>, range: nat, start: nat, m: nat)
    requires start < SINGLE_BLOB_SIZE && m > range && forall r | range <= r < m :: Full(ids, r)
    ensures var end := RunEnd(ids, UniqueBlobId(range, start));
            if UniqueBlobId(m, 0) in ids
            then end >= UniqueBlobId(m, 0) && forall k | UniqueBlobId(m, 0) <= k <= end :: k in ids
            else end + 1 == UniqueBlobId(m, 0) && OffsetOf(end) == SINGLE_BLOB_SIZE - 1
  {
    var end, border := RunEnd(ids, UniqueBlobId(range, start)), UniqueBlobId(m, 0);
    assert UniqueBlobId(range, start) < border;
    if end + 1 < border {
      FullRunHeld(ids, range, m, end + 1);
    }
  }

  /** Such a scan ends within the first blob that is not full. */
  lemma ScanStopsIn(ids: set<nat>, m: nat, end: nat)
    requires !Full(ids, m) && end >= UniqueBlobId(m, 0)
    requires forall k | UniqueBlobId(m, 0) <= k <= end :: k in ids
    ensures RangeOf(end) == m && end == UniqueBlobId(m, OffsetOf(end)) && OffsetOf(end) + 1 < SINGLE_BLOB_SIZE
  {
    var o: nat :| o < SINGLE_BLOB_SIZE && UniqueBlobId(m, o) !in ids;
    assert end < UniqueBlobId(m, o);
  }

  lemma SingleOrder(tx: Transaction)
    ensures IsOrder([RangeOf(tx.id)], Ranges([tx])) && IdsOf([tx]) == {tx.id}
  {
    assert [tx][0] == tx;
    assert RangeOf([tx][0].id) in Ranges([tx]) && [tx][0].id in IdsOf([tx]);
  }

  lemma IngestOne(index: Index, tx: Transaction)
    ensures Ingest(index, [tx], [RangeOf(tx.id)]) == IngestBucket(index, RangeOf(tx.id), [tx])
  {
    var order := [RangeOf(tx.id)];
    assert [tx][..0] == [] && order[..0] == [];
    assert Bucket([tx], RangeOf(tx.id)) == [tx] by {
      assert Bucket([], RangeOf(tx.id)) == [];
    }
    assert Ingest(index, [tx], []) == index;
  }

  // ---------- what every ingest keeps ----------

  ghost predicate OneRange(txs: seq<Transaction>, range: nat) {
    forall i | 0 <= i < |txs| :: RangeOf(txs[i].id) == range
  }

  lemma OneRangeIds(txs: seq<Transaction>, range: nat)
    requires OneRange(txs, range)
    ensures forall id | id in IdsOf(txs) :: RangeOf(id) == range
    ensures UniqueBlobId(range, 0) in IdsOf(txs) <==> HasFirst(txs)
  {
    if HasFirst(txs) {
      var i :| 0 <= i < |txs| && OffsetOf(txs[i].id) == 0;
      assert txs[i].id == UniqueBlobId(range, 0);
      assert txs[i].id in IdsOf(txs);
    }
    if UniqueBlobId(range, 0) in IdsOf(txs) {
      var i :| 0 <= i < |txs| && txs[i].id == UniqueBlobId(range, 0);
      assert OffsetOf(txs[i].id) == 0;
    }
  }

  lemma BucketHeld(index: Index, range: nat, txs: seq<Transaction>)
    requires Possession(index) && ValidIds(txs) && OneRange(txs, range)
    ensures var after := IngestBucket(index, range, txs);
            && after.Held() == index.Held() + IdsOf(txs)
            && (forall id :: id in after.transactions ==> id <= MAX_ID && after.transactions[id].id == id)
            && (forall r: nat :: r in after.selfOffsets <==> UniqueBlobId(r, 0) in after.Held())
  {
    StoredIds(index.transactions, txs);
    OneRangeIds(txs, range);
    forall r: nat ensures UniqueBlobId(r, 0) in IdsOf(txs) <==> r == range && HasFirst(txs) {
      if UniqueBlobId(r, 0) in IdsOf(txs) {
        assert RangeOf(UniqueBlobId(r, 0)) == r;
      }
    }
  }

  lemma BucketScanned(index: Index, range: nat, txs: seq<Transaction>)
    requires Possession(index) && ValidIds(txs) && OneRange(txs, range)
    ensures var after := IngestBucket(index, range, txs);
            range in after.selfOffsets ==>
              after.selfOffsets[range] < SINGLE_BLOB_SIZE && PrefixHeld(after.Held(), range, after.selfOffsets[range])
  {
    var ids := Stored(index.transactions, txs).Keys;
    StoredIds(index.transactions, txs);
    if range in index.selfOffsets {
      assert PrefixHeld(ids, range, index.selfOffsets[range]) by {
        PrefixMonotone(index.Held(), ids, range, index.selfOffsets[range]);
      }
      ScanPrefix(ids, range, index.selfOffsets[range]);
    } else if HasFirst(txs) {
      assert PrefixHeld(ids, range, 0) by {
        OneRangeIds(txs, range);
      }
      ScanPrefix(ids, range, 0);
    }
  }

  lemma BucketOthers(index: Index, range: nat, txs: seq<Transaction>)
    ensures var after := IngestBucket(index, range, txs);
            && index.selfOffsets.Keys <= after.selfOffsets.Keys
            && (forall r :: r in after.selfOffsets && r != range ==> r in index.selfOffsets && after.selfOffsets[r] == index.selfOffsets[r])
  {
  }

  lemma BucketStep(index: Index, range: nat, txs: seq<Transaction>)
    requires Possession(index) && ValidIds(txs) && OneRange(txs, range)
    ensures Possession(IngestBucket(index, range, txs))
  {
    var after := IngestBucket(index, range, txs);
    BucketHeld(index, range, txs);
    BucketScanned(index, range, txs);
    BucketOthers(index, range, txs);
    forall r | r in after.selfOffsets
      ensures after.selfOffsets[r] < SINGLE_BLOB_SIZE && PrefixHeld(after.Held(), r, after.selfOffsets[r])
    {
      if r != range {
        PrefixMonotone(index.Held(), after.Held(), r, after.selfOffsets[r]);
      }
    }
  }

  /** The scan of the batch's own range finds the longest prefix, and goes no further back. */
  lemma BucketLongest(index: Index, range: nat, txs: seq<Transaction>)
    requires Possession(index) && ValidIds(txs) && OneRange(txs, range)
    requires !Spills(IngestBucket(index, range, txs).Held(), range)
    ensures var after := IngestBucket(index, range, txs);
            ExactAt(after, range) && NoLowerAt(index.selfOffsets, after.selfOffsets, range)
  {
    var ids := Stored(index.transactions, txs).Keys;
    StoredIds(index.transactions, txs);
    if range in index.selfOffsets {
      PrefixMonotone(index.Held(), ids, range, index.selfOffsets[range]);
      ScanLongest(ids, range, index.selfOffsets[range]);
    } else if HasFirst(txs) {
      assert PrefixHeld(ids, range, 0) by {
        OneRangeIds(txs, range);
      }
      ScanLongest(ids, range, 0);
    }
  }

  lemma LongestKept(before: set<nat>, after: set<nat>, added: set<nat>, range: nat, offset: nat)
    requires after == before + added && LongestPrefix(before, range, offset)
    requires forall id | id in added :: RangeOf(id) != range
    ensures LongestPrefix(after, range, offset)
  {
    if offset + 1 < SINGLE_BLOB_SIZE {
      assert RangeOf(UniqueBlobId(range, offset + 1)) == range;
    }
  }

  lemma BucketExact(index: Index, range: nat, txs: seq<Transaction>, r: nat)
    requires Possession(index) && ExactAt(index, r) && ValidIds(txs) && OneRange(txs, range)
    requires !Spills(IngestBucket(index, range, txs).Held(), r)
    ensures var after := IngestBucket(index, range, txs);
            ExactAt(after, r) && NoLowerAt(index.selfOffsets, after.selfOffsets, r)
  {
    var after := IngestBucket(index, range, txs);
    if r == range {
      BucketLongest(index, range, txs);
    } else {
      BucketStores(index, range, txs);
      BucketOthers(index, range, txs);
      OneRangeIds(txs, range);
      if r in after.selfOffsets {
        LongestKept(index.Held(), after.Held(), IdsOf(txs), r, after.selfOffsets[r]);
      }
    }
  }

  /** A bucket lowers the recorded offset of its range if and only if, with the bucket stored, the first
      range from there on that is not full is another one, has begun, and is not held that far. */
  lemma BucketLowersExactly(index: Index, range: nat, txs: seq<Transaction>, m: nat)
    requires Possession(index) && ValidIds(txs) && OneRange(txs, range) && range in index.selfOffsets
    requires var ids := index.Held() + IdsOf(txs);
             m >= range && !Full(ids, m) && forall r | range <= r < m :: Full(ids, r)
    ensures var before, after := index.selfOffsets, IngestBucket(index, range, txs).selfOffsets;
            var ids := index.Held() + IdsOf(txs);
            !NoLowerAt(before, after, range)
            <==> m != range && UniqueBlobId(m, 0) in ids && !PrefixHeld(ids, m, before[range])
  {
    var ids := index.Held() + IdsOf(txs);
    StoredIds(index.transactions, txs);
    PrefixMonotone(index.Held(), ids, range, index.selfOffsets[range]);
    ScanLowersExactly(ids, range, index.selfOffsets[range], m);
  }

  lemma BucketFacts(txs: seq<Transaction>, range: nat)
    requires ValidIds(txs)
    ensures ValidIds(Bucket(txs, range)) && OneRange(Bucket(txs, range), range)
    ensures range in Ranges(txs) ==> range <= MAX_BLOCK_INDEX
  {
    BucketIds(txs, range);
  }

  ghost predicate Visited(txs: seq<Transaction>, order: seq<nat>, id: nat) {
    id in IdsOf(txs) && RangeOf(id) in order
  }

  lemma {:induction false} IngestPossession(index: Index, txs: seq<Transaction>, order: seq<nat>)
    requires Possession(index) && ValidIds(txs)
    ensures Possession(Ingest(index, txs, order))
  {
    if order != [] {
      var n := |order| - 1;
      IngestPossession(index, txs, order[..n]);
      BucketIds(txs, order[n]);
      BucketStep(Ingest(index, txs, order[..n]), order[n], Bucket(txs, order[n]));
    }
  }

  lemma BucketStores(index: Index, range: nat, txs: seq<Transaction>)
    ensures IngestBucket(index, range, txs).Held() == index.Held() + IdsOf(txs)
  {
    StoredIds(index.transactions, txs);
  }

  lemma {:induction false} IngestVisited(index: Index, txs: seq<Transaction>, order: seq<nat>)
    ensures forall id :: id in Ingest(index, txs, order).Held() <==> id in index.Held() || Visited(txs, order, id)
  {
    if order != [] {
      var n := |order| - 1;
      IngestVisited(index, txs, order[..n]);
      BucketIds(txs, order[n]);
      BucketStores(Ingest(index, txs, order[..n]), order[n], Bucket(txs, order[n]));
      assert order == order[..n] + [order[n]];
    }
  }

  lemma {:induction false} IngestOthers(index: Index, txs: seq<Transaction>, order: seq<nat>)
    ensures var after := Ingest(index, txs, order);
            && index.selfOffsets.Keys <= after.selfOffsets.Keys
            && (forall r :: r in after.selfOffsets && r !in order ==> r in index.selfOffsets && after.selfOffsets[r] == index.selfOffsets[r])
  {
    if order != [] {
      var n := |order| - 1;
      IngestOthers(index, txs, order[..n]);
      assert order == order[..n] + [order[n]];
      BucketOthers(Ingest(index, txs, order[..n]), order[n], Bucket(txs, order[n]));
    }
  }

  lemma IngestStep(index: Index, txs: seq<Transaction>, order: seq<nat>)
    requires Possession(index) && ValidIds(txs)
    ensures var after := Ingest(index, txs, order);
            && Possession(after)
            && (forall id :: id in after.Held() <==> id in index.Held() || Visited(txs, order, id))
            && index.selfOffsets.Keys <= after.selfOffsets.Keys
            && (forall r :: r in after.selfOffsets && r !in order ==> r in index.selfOffsets && after.selfOffsets[r] == index.selfOffsets[r])
  {
    IngestPossession(index, txs, order);
    IngestVisited(index, txs, order);
    IngestOthers(index, txs, order);
  }

  lemma {:induction false} IngestExact(index: Index, txs: seq<Transaction>, order: seq<nat>, r: nat)
    requires Possession(index) && ExactAt(index, r) && ValidIds(txs)
    requires !Spills(Ingest(index, txs, order).Held(), r)
    ensures var after := Ingest(index, txs, order);
            ExactAt(after, r) && NoLowerAt(index.selfOffsets, after.selfOffsets, r)
  {
    if order != [] {
      var n := |order| - 1;
      var bucket := Bucket(txs, order[n]);
      var before := Ingest(index, txs, order[..n]);
      IngestPossession(index, txs, order[..n]);
      BucketIds(txs, order[n]);
      BucketStores(before, order[n], bucket);
      if Spills(before.Held(), r) {
        SpillsMonotone(before.Held(), Ingest(index, txs, order).Held(), r);
      }
      IngestExact(index, txs, order[..n], r);
      BucketExact(before, order[n], bucket, r);
    }
  }

  lemma IngestHeld(index: Index, txs: seq<Transaction>, order: seq<nat>)
    requires Possession(index) && ValidIds(txs) && IsOrder(order, Ranges(txs))
    ensures Ingest(index, txs, order).Held() == index.Held() + IdsOf(txs)
  {
    IngestStep(index, txs, order);
    forall id | id in IdsOf(txs) ensures Visited(txs, order, id) {
      var i :| 0 <= i < |txs| && txs[i].id == id;
      assert RangeOf(txs[i].id) in Ranges(txs);
    }
  }

  /** The incremental index after a whole batch: what is held, that every recorded offset is covered,
      and that every range whose full blob does not run into the next one is exact and never goes back. */
  lemma IngestKeepsInv(index: Index, txs: seq<Transaction>, order: seq<nat>)
    requires IndexInv(index) && ValidIds(txs) && IsOrder(order, Ranges(txs))
    ensures var after := Ingest(index, txs, order);
            && IndexInv(after)
            && after.Held() == index.Held() + IdsOf(txs)
            && index.selfOffsets.Keys <= after.selfOffsets.Keys
            && forall r: nat | !Spills(after.Held(), r) :: NoLowerAt(index.selfOffsets, after.selfOffsets, r)
  {
    var after := Ingest(index, txs, order);
    IngestStep(index, txs, order);
    IngestHeld(index, txs, order);
    forall r: nat | !Spills(after.Held(), r)
      ensures ExactAt(after, r) && NoLowerAt(index.selfOffsets, after.selfOffsets, r)
    {
      if Spills(index.Held(), r) {
        SpillsMonotone(index.Held(), after.Held(), r);
      }
      IngestExact(index, txs, order, r);
    }
  }

  /** Among the buckets of a batch only that of the range itself can lower its recorded offset, so
      `BucketLowersExactly`, at the store as that bucket finds it, is the condition for the batch. */
  lemma {:induction false} IngestVisits(index: Index, txs: seq<Transaction>, order: seq<nat>, k: nat)
    requires k < |order| && forall i, j | 0 <= i < j < |order| :: order[i] != order[j]
    ensures var before, range := Ingest(index, txs, order[..k]), order[k];
            var visited := IngestBucket(before, range, Bucket(txs, range)).selfOffsets;
            var after := Ingest(index, txs, order).selfOffsets;
            && (range in before.selfOffsets <==> range in index.selfOffsets)
            && (range in index.selfOffsets ==> before.selfOffsets[range] == index.selfOffsets[range])
            && (range in after <==> range in visited)
            && (range in visited ==> after[range] == visited[range])
  {
    var n, range := |order| - 1, order[k];
    IngestUntouched(index, txs, order[..k], range);
    if k < n {
      IngestVisits(index, txs, order[..n], k);
      assert order[..n][..k] == order[..k];
      BucketOthers(Ingest(index, txs, order[..n]), order[n], Bucket(txs, order[n]));
    }
  }

  lemma {:induction false} IngestUntouched(index: Index, txs: seq<Transaction>, order: seq<nat>, range: nat)
    requires range !in order
    ensures var after := Ingest(index, txs, order).selfOffsets;
            && (range in after <==> range in index.selfOffsets)
            && (range in after ==> after[range] == index.selfOffsets[range])
  {
    IngestOthers(index, txs, order);
  }

  /** The store as the bucket visited as number `k` leaves it. */
  ghost function StoreAfter(index: Index, txs: seq<Transaction>, order: seq<nat>, k: nat): set<nat>
    requires k < |order|
  {
    index.Held() + set id | id in IdsOf(txs) && RangeOf(id) in order[..k + 1]
  }

  lemma StoreAfterBucket(index: Index, txs: seq<Transaction>, order: seq<nat>, k: nat)
    requires k < |order|
    ensures Ingest(index, txs, order[..k]).Held() + IdsOf(Bucket(txs, order[k])) == StoreAfter(index, txs, order, k)
  {
    IngestVisited(index, txs, order[..k]);
    BucketIds(txs, order[k]);
    assert order[..k + 1] == order[..k] + [order[k]];
  }

  /** When a batch lowers a recorded offset: exactly when its bucket, visited as number `k`, does. */
  lemma IngestLowersExactly(index: Index, txs: seq<Transaction>, order: seq<nat>, k: nat, m: nat)
    requires Possession(index) && ValidIds(txs) && IsOrder(order, Ranges(txs))
    requires k < |order| && order[k] in index.selfOffsets
    requires var ids := StoreAfter(index, txs, order, k);
             m >= order[k] && !Full(ids, m) && forall r | order[k] <= r < m :: Full(ids, r)
    ensures var before, after := index.selfOffsets, Ingest(index, txs, order).selfOffsets;
            var ids := StoreAfter(index, txs, order, k);
            !NoLowerAt(before, after, order[k])
            <==> m != order[k] && UniqueBlobId(m, 0) in ids && !PrefixHeld(ids, m, before[order[k]])
  {
    var range, earlier := order[k], Ingest(index, txs, order[..k]);
    IngestVisits(index, txs, order, k);
    IngestPossession(index, txs, order[..k]);
    StoreAfterBucket(index, txs, order, k);
    BucketFacts(txs, range);
    BucketLowersExactly(earlier, range, Bucket(txs, range), m);
  }

  // ---------- what a batch does to the recorded offsets, in plain terms ----------

  /** All identifiers after `key` up to `end` are held, and the next one is not. */
  ghost predicate StopsAt(ids: set<nat>, key: nat, end: nat) {
    key <= end && end + 1 !in ids && forall k | key < k <= end :: k in ids
  }

  /** With these identifiers held the range has been scanned from its recorded offset, or from 0 if it has
      begun but was not recorded; the offset of where the scan stops is recorded. A range that has not begun
      is not recorded. */
  ghost predicate Rescanned(before: map<nat, nat>, after: map<nat, nat>, ids: set<nat>, range: nat) {
    var start := if range in before then before[range] else 0;
    if range in before || UniqueBlobId(range, 0) in ids then
      range in after && exists end :: StopsAt(ids, UniqueBlobId(range, start), end) && after[range] == OffsetOf(end)
    else
      range !in after
  }

  lemma StopsAtUnique(ids: set<nat>, key: nat, a: nat, b: nat)
    requires StopsAt(ids, key, a) && StopsAt(ids, key, b)
    ensures a == b
  {
  }

  /** This leaves no choice of what is recorded. */
  lemma RescannedUnique(before: map<nat, nat>, a: map<nat, nat>, b: map<nat, nat>, ids: set<nat>, range: nat)
    requires Rescanned(before, a, ids, range) && Rescanned(before, b, ids, range)
    ensures SameAt(a, b, range)
  {
    if range in before || UniqueBlobId(range, 0) in ids {
      var start := if range in before then before[range] else 0;
      var x :| StopsAt(ids, UniqueBlobId(range, start), x) && a[range] == OffsetOf(x);
      var y :| StopsAt(ids, UniqueBlobId(range, start), y) && b[range] == OffsetOf(y);
      StopsAtUnique(ids, UniqueBlobId(range, start), x, y);
    }
  }

  lemma BucketVisit(index: Index, range: nat, txs: seq<Transaction>)
    requires Possession(index) && OneRange(txs, range)
    ensures (range in index.selfOffsets || HasFirst(txs))
            <==> range in index.selfOffsets || UniqueBlobId(range, 0) in index.Held() + IdsOf(txs)
  {
    OneRangeIds(txs, range);
  }

  lemma BucketRescans(index: Index, range: nat, txs: seq<Transaction>)
    requires Possession(index) && OneRange(txs, range)
    ensures Rescanned(index.selfOffsets, IngestBucket(index, range, txs).selfOffsets, index.Held() + IdsOf(txs), range)
  {
    BucketVisit(index, range, txs);
    StoredIds(index.transactions, txs);
    BucketRecords(index, range, txs, index.Held() + IdsOf(txs));
  }

  lemma BucketRecords(index: Index, range: nat, txs: seq<Transaction>, ids: set<nat>)
    requires Stored(index.transactions, txs).Keys == ids
    requires (range in index.selfOffsets || HasFirst(txs)) <==> range in index.selfOffsets || UniqueBlobId(range, 0) in ids
    ensures Rescanned(index.selfOffsets, IngestBucket(index, range, txs).selfOffsets, ids, range)
  {
    var start := if range in index.selfOffsets then index.selfOffsets[range] else 0;
    assert StopsAt(ids, UniqueBlobId(range, start), RunEnd(ids, UniqueBlobId(range, start)));
  }

  lemma RescannedFrom(a: map<nat, nat>, b: map<nat, nat>, after: map<nat, nat>, final: map<nat, nat>, ids: set<nat>, range: nat)
    requires Rescanned(b, after, ids, range) && SameAt(a, b, range) && SameAt(after, final, range)
    ensures Rescanned(a, final, ids, range)
  {
  }

  /** Each range of the batch has been rescanned once, when its bucket was visited. */
  lemma IngestRescans(index: Index, txs: seq<Transaction>, order: seq<nat>, k: nat)
    requires Possession(index) && ValidIds(txs) && IsOrder(order, Ranges(txs)) && k < |order|
    ensures Rescanned(index.selfOffsets, Ingest(index, txs, order).selfOffsets, StoreAfter(index, txs, order, k), order[k])
  {
    var range, earlier := order[k], Ingest(index, txs, order[..k]);
    var bucket := Bucket(txs, range);
    IngestVisits(index, txs, order, k);
    IngestPossession(index, txs, order[..k]);
    StoreAfterBucket(index, txs, order, k);
    BucketFacts(txs, range);
    BucketRescans(earlier, range, bucket);
    RescannedFrom(index.selfOffsets, earlier.selfOffsets, IngestBucket(earlier, range, bucket).selfOffsets,
                  Ingest(index, txs, order).selfOffsets, StoreAfter(index, txs, order, k), range);
  }
}
