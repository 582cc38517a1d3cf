/**
 Transaction identifiers (common/src/range_key.rs). An identifier packs a key range and an offset
 into 64 bits: every range owns one blob of 2^30 consecutive identifiers.
 */
module RangeKey {
  import opened Wrappers

  const U64_MAX: nat := 0xFFFF_FFFF_FFFF_FFFF
  const SINGLE_BLOB_SIZE: nat := 0x4000_0000
  const MAX_BLOCK_INDEX: nat := 0x3_FFFF_FFFF
  /** The largest identifier that `range_from_unique_blob_id` accepts. */
  const MAX_ID: nat := 0xFFFF_FFFF_C000_0000

  /** Machine words: a value assigned to this type is proved not to overflow. */
  type u64 = x: int | 0 <= x <= 0xFFFF_FFFF_FFFF_FFFF

  function UniqueBlobId(range: nat, offset: nat): nat {
    range * 0x4000_0000 + offset
  }

  function RangeOf(id: nat): nat {
    id / 0x4000_0000
  }

  function OffsetOf(id: nat): nat {
    id % 0x4000_0000
  }

  /** `None` is the program's "out of range" panic. */
  function RangeOffsetFromUniqueBlobId(id: nat): Option<(nat, nat)> {
    if id > MAX_BLOCK_INDEX * SINGLE_BLOB_SIZE then None else Some((RangeOf(id), OffsetOf(id)))
  }

  /** The offset that follows the recorded one; 0 when nothing is recorded of the range. */
  function NextOffset(offsets: map<nat, nat>, range: nat): nat {
    if range in offsets then offsets[range] + 1 else 0
  }

  /** Packing and unpacking are inverse to each other on the identifiers that are accepted. */
  lemma CodecBijection(id: nat, range: nat, offset: nat)
    requires offset < SINGLE_BLOB_SIZE
    ensures UniqueBlobId(RangeOf(id), OffsetOf(id)) == id && OffsetOf(id) < SINGLE_BLOB_SIZE
    ensures RangeOf(UniqueBlobId(range, offset)) == range
    ensures OffsetOf(UniqueBlobId(range, offset)) == offset
    ensures RangeOffsetFromUniqueBlobId(id) == Some((range, offset))
            <==> id == UniqueBlobId(range, offset) && id <= MAX_ID
    ensures id <= MAX_ID ==> RangeOf(id) <= MAX_BLOCK_INDEX
    ensures range <= MAX_BLOCK_INDEX ==> UniqueBlobId(range, offset) <= U64_MAX
  {
  }

  /** Identifiers are ordered as pairs (range, offset) are, lexicographically. */
  lemma CodecOrder(r1: nat, o1: nat, r2: nat, o2: nat)
    requires o1 < SINGLE_BLOB_SIZE && o2 < SINGLE_BLOB_SIZE
    ensures UniqueBlobId(r1, o1) < UniqueBlobId(r2, o2) <==> r1 < r2 || (r1 == r2 && o1 < o2)
  {
    if r1 < r2 {
      assert r1 * 0x4000_0000 + 0x4000_0000 <= r2 * 0x4000_0000;
    } else if r2 < r1 {
      assert r2 * 0x4000_0000 + 0x4000_0000 <= r1 * 0x4000_0000;
    }
  }

  /** The closed interval of identifiers `left..right`. */
  datatype Interval = Interval(left: nat, right: nat)
  {
    predicate Contains(id: nat) {
      left <= id <= right
    }
  }

  /** The intervals do not overlap. */
  predicate Apart(a: Interval, b: Interval) {
    a.right < b.left || b.right < a.left
  }

  /** `U64BlobIdClosedInterval::new`; `None` is the panic on a reversed interval. */
  function NewInterval(left: nat, right: nat): Option<Interval> {
    if right < left then None else Some(Interval(left, right))
  }

  /** `None` is the panic when the number of identifiers does not fit into 64 bits. */
  function IdsCount(interval: Interval): Option<nat>
    requires interval.left <= interval.right
  {
    var diff := interval.right - interval.left;
    if diff + 1 > U64_MAX then None else Some(diff + 1)
  }

  /** The identifiers `left..right` in ascending order. */
  function Ids(left: nat, right: nat): (s: seq<nat>)
    ensures |s| == if left <= right then right - left + 1 else 0
    ensures forall i | 0 <= i < |s| :: s[i] == left + i
    ensures forall id :: id in s <==> left <= id <= right
  {
    var s := seq(if left <= right then right - left + 1 else 0, (i: nat) => left + i);
    assert forall id | left <= id <= right :: id in s by {
      forall id | left <= id <= right ensures id in s {
        assert s[id - left] == id;
      }
    }
    s
  }

  ghost predicate Covers(intervals: seq<Interval>, id: nat) {
    exists i | 0 <= i < |intervals| :: intervals[i].Contains(id)
  }

  lemma CoversLast(intervals: seq<Interval>, id: nat)
    requires intervals != []
    ensures var n := |intervals| - 1;
            Covers(intervals, id) <==> Covers(intervals[..n], id) || intervals[n].Contains(id)
  {
    var n := |intervals| - 1;
    if Covers(intervals[..n], id) {
      var i :| 0 <= i < n && intervals[..n][i].Contains(id);
      assert intervals[i].Contains(id);
    }
    if Covers(intervals, id) && !intervals[n].Contains(id) {
      var i :| 0 <= i < |intervals| && intervals[i].Contains(id);
      assert intervals[..n][i].Contains(id);
    }
  }

  lemma IdsCountIsLength(interval: Interval)
    requires interval.left <= interval.right <= U64_MAX
    ensures IdsCount(interval) == Some(|Ids(interval.left, interval.right)|)
            <==> !(interval.left == 0 && interval.right == U64_MAX)
  {
  }

  /** The whole blob of a range; `None` when the computation panics or overflows 64 bits. */
  function FullIntervalForRange(range: nat): Option<Interval> {
    if range > MAX_BLOCK_INDEX || range * SINGLE_BLOB_SIZE + SINGLE_BLOB_SIZE > U64_MAX then
      None
    else
      NewInterval(range * SINGLE_BLOB_SIZE, range * SINGLE_BLOB_SIZE + SINGLE_BLOB_SIZE - 1)
  }

  /** The last range is accepted by the guard and yet overflows; every other blob holds exactly the
      identifiers of its range, so blobs are disjoint and adjacent. */
  lemma FullIntervalExact(range: nat)
    ensures FullIntervalForRange(range).Some? <==> range < MAX_BLOCK_INDEX
    ensures range < MAX_BLOCK_INDEX ==>
              && (forall id: nat :: FullIntervalForRange(range).value.Contains(id) <==> RangeOf(id) == range)
              && IdsCount(FullIntervalForRange(range).value) == Some(SINGLE_BLOB_SIZE)
  {
    if range < MAX_BLOCK_INDEX {
      forall id: nat ensures FullIntervalForRange(range).value.Contains(id) <==> RangeOf(id) == range {
      }
    }
  }

  lemma BlobsAdjacent(range: nat)
    requires range + 1 < MAX_BLOCK_INDEX
    ensures FullIntervalForRange(range).value.right + 1 == FullIntervalForRange(range + 1).value.left
  {
  }

  /** The iterator returned by `iter`: a closure that owns `current`. */
  class IdIterator {
    const right: nat
    var current: u64

    /** What the iterator will still return. */
    ghost function Remaining(): seq<nat>
      reads this
    {
      Ids(current, right)
    }

    constructor (interval: Interval)
      requires interval.left <= interval.right < U64_MAX
      ensures Remaining() == Ids(interval.left, interval.right)
      ensures right == interval.right
    {
      right := interval.right;
      current := interval.left;
    }

    method Next() returns (id: Option<nat>)
      requires right < U64_MAX
      modifies this
      ensures old(Remaining()) == [] ==> id == None && Remaining() == []
      ensures old(Remaining()) != [] ==> id == Some(old(Remaining())[0]) && Remaining() == old(Remaining())[1..]
    {
      if current <= right {
        id := Some(current);
        current := current + 1;
      } else {
        id := None;
      }
    }
  }
}
