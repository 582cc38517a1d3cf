/**
 Epochs and their hash chain (maroon/src/epoch.rs). SHA-256 (FIPS 180-4, section 6.2) is a
 parameter: any function from byte strings to 32 bytes.
 */
module Epochs {
  import opened Wrappers
  import opened Iteration
  import opened RangeKey

  type byte = b: int | 0 <= b < 256
  type Digest = d: seq<byte> | |d| == 32 witness seq(32, i => 0)
  type Sha256 = seq<byte> -> Digest

  datatype Epoch = Epoch(increments: seq<Interval>, hash: Digest)

  /** The `count` low bytes of a word, least significant first (`to_le_bytes` for eight of them). */
  function LeBytes(word: nat, count: nat): (bytes: seq<byte>)
    ensures |bytes| == count
  {
    if count == 0 then [] else [word % 256] + LeBytes(word / 256, count - 1)
  }

  function FromLeBytes(bytes: seq<byte>): nat {
    if bytes == [] then 0 else bytes[0] + 256 * FromLeBytes(bytes[1..])
  }

  function Pow256(count: nat): nat {
    if count == 0 then 1 else 256 * Pow256(count - 1)
  }

  lemma {:induction false} LeRoundTrip(word: nat, count: nat)
    requires word < Pow256(count)
    ensures FromLeBytes(LeBytes(word, count)) == word
  {
    if count > 0 {
      LeRoundTrip(word / 256, count - 1);
      assert LeBytes(word, count)[1..] == LeBytes(word / 256, count - 1);
    }
  }

  /** Eight bytes carry every 64-bit word. */
  lemma WordRoundTrip(word: nat)
    requires word <= U64_MAX
    ensures FromLeBytes(LeBytes(word, 8)) == word
  {
    assert Pow256(8) == U64_MAX + 1 by {
      assert Pow256(4) == 0x1_0000_0000;
      assert Pow256(6) == 0x1_0000_0000_0000;
    }
    LeRoundTrip(word, 8);
  }

  function Encode(increments: seq<Interval>): (bytes: seq<byte>)
    ensures |bytes| == 16 * |increments|
  {
    if increments == [] then
      []
    else
      var last := increments[|increments| - 1];
      Encode(increments[..|increments| - 1]) + LeBytes(last.left, 8) + LeBytes(last.right, 8)
  }

  /** What is hashed: the previous hash when there is one, then the encoded increments. */
  function HashInput(increments: seq<Interval>, prev: Option<Digest>): seq<byte> {
    (match prev case None => [] case Some(h) => h) + Encode(increments)
  }

  // ---------- what is hashed, byte by byte ----------

  function ByteAt(bytes: seq<byte>, i: nat): int
    requires i < |bytes|
  {
    bytes[i]
  }

  ghost predicate LittleEndian(bytes: seq<byte>, word: nat) {
    && |bytes| == 8
    && word == ByteAt(bytes, 0) + 0x100 * ByteAt(bytes, 1) + 0x1_0000 * ByteAt(bytes, 2) + 0x100_0000 * ByteAt(bytes, 3)
               + 0x1_0000_0000 * ByteAt(bytes, 4) + 0x100_0000_0000 * ByteAt(bytes, 5)
               + 0x1_0000_0000_0000 * ByteAt(bytes, 6) + 0x100_0000_0000_0000 * ByteAt(bytes, 7)
  }

  /** Left border, then right border, at this place. */
  ghost predicate BordersAt(input: seq<byte>, at: nat, x: Interval) {
    && at + 16 <= |input|
    && LittleEndian(input[at..at + 8], x.left)
    && LittleEndian(input[at + 8..at + 16], x.right)
  }

  /** The previous digest, if there is one, in front; then per increment its left and its right border,
      eight bytes each, least significant first. */
  ghost predicate Layout(input: seq<byte>, increments: seq<Interval>, prev: Option<Digest>) {
    var p := if prev.Some? then 32 else 0;
    && |input| == p + 16 * |increments|
    && (prev.Some? ==> input[..32] == prev.value)
    && forall i | 0 <= i < |increments| :: BordersAt(input, p + 16 * i, increments[i])
  }

  /** The hash of the epoch is the digest of its increments over the previous digest. */
  ghost predicate HashedOver(sha: Sha256, epoch: Epoch, prev: Option<Digest>) {
    exists input :: Layout(input, epoch.increments, prev) && epoch.hash == sha(input)
  }

  lemma FromEight(b: seq<byte>)
    requires |b| == 8
    ensures LittleEndian(b, FromLeBytes(b))
  {
    assert b[1..][1..] == b[2..] && b[2..][1..] == b[3..] && b[3..][1..] == b[4..];
    assert b[4..][1..] == b[5..] && b[5..][1..] == b[6..] && b[6..][1..] == b[7..] && b[7..][1..] == [];
    assert FromLeBytes(b[7..]) == ByteAt(b, 7) + 256 * FromLeBytes([]);
    var f6 := ByteAt(b, 6) + 256 * ByteAt(b, 7);
    assert FromLeBytes(b[6..]) == f6;
    var f4 := ByteAt(b, 4) + 256 * (ByteAt(b, 5) + 256 * f6);
    assert FromLeBytes(b[5..]) == ByteAt(b, 5) + 256 * f6;
    assert FromLeBytes(b[4..]) == f4;
    var f2 := ByteAt(b, 2) + 256 * (ByteAt(b, 3) + 256 * f4);
    assert FromLeBytes(b[3..]) == ByteAt(b, 3) + 256 * f4;
    assert FromLeBytes(b[2..]) == f2;
    assert FromLeBytes(b[1..]) == ByteAt(b, 1) + 256 * f2;
  }

  lemma LeBytesLittleEndian(word: nat)
    requires word <= U64_MAX
    ensures LittleEndian(LeBytes(word, 8), word)
  {
    WordRoundTrip(word);
    FromEight(LeBytes(word, 8));
  }

  lemma {:induction false} FromLeInjective(a: seq<byte>, b: seq<byte>)
    requires |a| == |b| && FromLeBytes(a) == FromLeBytes(b)
    ensures a == b
  {
    if a != [] {
      assert a[0] == b[0] && FromLeBytes(a[1..]) == FromLeBytes(b[1..]);
      FromLeInjective(a[1..], b[1..]);
      assert a == [a[0]] + a[1..] && b == [b[0]] + b[1..];
    }
  }

  lemma BordersUnique(x: seq<byte>, y: seq<byte>, at: nat, borders: Interval)
    requires BordersAt(x, at, borders) && BordersAt(y, at, borders)
    ensures x[at..at + 16] == y[at..at + 16]
  {
    FromEight(x[at..at + 8]);
    FromEight(y[at..at + 8]);
    FromEight(x[at + 8..at + 16]);
    FromEight(y[at + 8..at + 16]);
    FromLeInjective(x[at..at + 8], y[at..at + 8]);
    FromLeInjective(x[at + 8..at + 16], y[at + 8..at + 16]);
    assert x[at..at + 16] == x[at..at + 8] + x[at + 8..at + 16];
    assert y[at..at + 16] == y[at..at + 8] + y[at + 8..at + 16];
  }

  lemma ByteUnique(x: seq<byte>, y: seq<byte>, at: nat, borders: Interval, k: nat)
    requires BordersAt(x, at, borders) && BordersAt(y, at, borders) && at <= k < at + 16
    ensures x[k] == y[k]
  {
    BordersUnique(x, y, at, borders);
    assert x[k] == x[at..at + 16][k - at] && y[k] == y[at..at + 16][k - at];
  }

  lemma PrefixUnique(x: seq<byte>, y: seq<byte>, k: nat)
    requires k < 32 <= |x| && 32 <= |y| && x[..32] == y[..32]
    ensures x[k] == y[k]
  {
    assert x[k] == x[..32][k] && y[k] == y[..32][k];
  }

  /** The layout leaves no choice, so it determines the hash. */
  lemma LayoutUnique(x: seq<byte>, y: seq<byte>, increments: seq<Interval>, prev: Option<Digest>)
    requires Layout(x, increments, prev) && Layout(y, increments, prev)
    ensures x == y
  {
    var p := if prev.Some? then 32 else 0;
    forall k | 0 <= k < |x| ensures x[k] == y[k] {
      if k < p {
        PrefixUnique(x, y, k);
      } else {
        var i := (k - p) / 16;
        ByteUnique(x, y, p + 16 * i, increments[i], k);
      }
    }
  }

  lemma BordersMoved(a: seq<byte>, b: seq<byte>, at: nat, x: Interval)
    requires BordersAt(b, at, x)
    ensures BordersAt(a + b, |a| + at, x)
  {
    assert (a + b)[|a| + at..|a| + at + 8] == b[at..at + 8];
    assert (a + b)[|a| + at + 8..|a| + at + 16] == b[at + 8..at + 16];
  }

  lemma BordersKept(a: seq<byte>, b: seq<byte>, at: nat, x: Interval)
    requires BordersAt(a, at, x)
    ensures BordersAt(a + b, at, x)
  {
    assert (a + b)[at..at + 8] == a[at..at + 8];
    assert (a + b)[at + 8..at + 16] == a[at + 8..at + 16];
  }

  lemma BordersEncoded(x: Interval)
    requires x.left <= U64_MAX && x.right <= U64_MAX
    ensures BordersAt(LeBytes(x.left, 8) + LeBytes(x.right, 8), 0, x)
  {
    var bytes := LeBytes(x.left, 8) + LeBytes(x.right, 8);
    LeBytesLittleEndian(x.left);
    LeBytesLittleEndian(x.right);
    assert bytes[0..8] == LeBytes(x.left, 8) && bytes[8..16] == LeBytes(x.right, 8);
  }

  lemma {:induction false} EncodeLayout(increments: seq<Interval>, i: nat)
    requires Words(increments) && i < |increments|
    ensures BordersAt(Encode(increments), 16 * i, increments[i])
  {
    var n := |increments| - 1;
    var front, x := Encode(increments[..n]), increments[n];
    var last := LeBytes(x.left, 8) + LeBytes(x.right, 8);
    assert Encode(increments) == front + last;
    if i < n {
      EncodeLayout(increments[..n], i);
      BordersKept(front, last, 16 * i, increments[i]);
    } else {
      BordersEncoded(x);
      BordersMoved(front, last, 0, x);
    }
  }

  lemma HashInputLayout(increments: seq<Interval>, prev: Option<Digest>)
    requires Words(increments)
    ensures Layout(HashInput(increments, prev), increments, prev)
  {
    var digest: seq<byte> := if prev.Some? then prev.value else [];
    assert HashInput(increments, prev) == digest + Encode(increments);
    forall i | 0 <= i < |increments| ensures BordersAt(digest + Encode(increments), |digest| + 16 * i, increments[i]) {
      EncodeLayout(increments, i);
      BordersMoved(digest, Encode(increments), 16 * i, increments[i]);
    }
  }

  function NextEpoch(sha: Sha256, increments: seq<Interval>, prev: Option<Digest>): Epoch {
    Epoch(increments, sha(HashInput(increments, prev)))
  }

  function LastHash(epochs: seq<Epoch>): Option<Digest> {
    if epochs == [] then None else Some(epochs[|epochs| - 1].hash)
  }

  /** `Epoch::new`: `fed` is what the hasher has been fed so far. */
  method NewEpoch(sha: Sha256, increments: seq<Interval>, prevHash: Option<Digest>) returns (epoch: Epoch)
    ensures epoch == NextEpoch(sha, increments, prevHash)
    ensures epoch.increments == increments && (Words(increments) ==> HashedOver(sha, epoch, prevHash))
  {
    var fed: seq<byte> := [];
    if prevHash.Some? {
      fed := fed + prevHash.value;
    }
    for i := 0 to |increments|
      invariant fed == HashInput(increments[..i], prevHash)
    {
      fed := fed + LeBytes(increments[i].left, 8);
      fed := fed + LeBytes(increments[i].right, 8);
      assert increments[..i + 1][..i] == increments[..i];
    }
    assert increments[..|increments|] == increments;
    epoch := Epoch(increments, sha(fed));
    if Words(increments) {
      HashInputLayout(increments, prevHash);
    }
  }

  ghost predicate Words(increments: seq<Interval>) {
    forall i | 0 <= i < |increments| :: increments[i].left <= U64_MAX && increments[i].right <= U64_MAX
  }

  /** The fixed-width encoding is injective on lists of 64-bit intervals. */
  lemma {:induction false} EncodeInjective(a: seq<Interval>, b: seq<Interval>)
    requires Words(a) && Words(b) && Encode(a) == Encode(b)
    ensures a == b
  {
    assert |a| == |b|;
    if a != [] {
      var n := |a| - 1;
      var x, y := a[n], b[n];
      var head := 16 * n;
      assert Encode(a)[..head] == Encode(a[..n]) && Encode(b)[..head] == Encode(b[..n]);
      assert Encode(a)[head..head + 8] == LeBytes(x.left, 8) && Encode(b)[head..head + 8] == LeBytes(y.left, 8);
      assert Encode(a)[head + 8..] == LeBytes(x.right, 8) && Encode(b)[head + 8..] == LeBytes(y.right, 8);
      WordRoundTrip(x.left);
      WordRoundTrip(y.left);
      WordRoundTrip(x.right);
      WordRoundTrip(y.right);
      EncodeInjective(a[..n], b[..n]);
      assert a == a[..n] + [x] && b == b[..n] + [y];
    }
  }

  /** Every hash is the hash of its epoch over the previous one. */
  ghost predicate Chain(sha: Sha256, epochs: seq<Epoch>) {
    forall i | 0 <= i < |epochs| ::
      && Words(epochs[i].increments)
      && epochs[i] == NextEpoch(sha, epochs[i].increments, LastHash(epochs[..i]))
  }

  ghost predicate Collision(sha: Sha256, x: seq<byte>, y: seq<byte>) {
    x != y && sha(x) == sha(y)
  }

  lemma HashInputInjective(a: seq<Interval>, pa: Option<Digest>, b: seq<Interval>, pb: Option<Digest>)
    requires Words(a) && Words(b) && (pa.Some? <==> pb.Some?)
    requires HashInput(a, pa) == HashInput(b, pb)
    ensures a == b && pa == pb
  {
    if pa.Some? {
      assert HashInput(a, pa)[..32] == pa.value && HashInput(b, pb)[..32] == pb.value;
      assert HashInput(a, pa)[32..] == Encode(a) && HashInput(b, pb)[32..] == Encode(b);
    } else {
      assert HashInput(a, pa) == Encode(a) && HashInput(b, pb) == Encode(b);
    }
    EncodeInjective(a, b);
  }

  lemma ChainPrefix(sha: Sha256, epochs: seq<Epoch>, n: nat)
    requires Chain(sha, epochs) && n <= |epochs|
    ensures Chain(sha, epochs[..n])
  {
    forall i | 0 <= i < n ensures epochs[..n][..i] == epochs[..i] {
    }
  }

  lemma EpochBinding(sha: Sha256, a: Epoch, pa: Option<Digest>, b: Epoch, pb: Option<Digest>)
    requires Words(a.increments) && Words(b.increments) && (pa.Some? <==> pb.Some?)
    requires a == NextEpoch(sha, a.increments, pa) && b == NextEpoch(sha, b.increments, pb)
    requires a.hash == b.hash
    ensures (a == b && pa == pb) || exists x, y :: Collision(sha, x, y)
  {
    var x, y := HashInput(a.increments, pa), HashInput(b.increments, pb);
    if x == y {
      HashInputInjective(a.increments, pa, b.increments, pb);
    } else {
      assert Collision(sha, x, y);
    }
  }

  /** The last hash binds the whole history: two chains of one length that end in the same hash are
      equal, or a collision of the hash function is at hand. */
  lemma {:induction false} ChainBinding(sha: Sha256, a: seq<Epoch>, b: seq<Epoch>)
    requires Chain(sha, a) && Chain(sha, b) && |a| == |b| && LastHash(a) == LastHash(b)
    ensures a == b || exists x, y :: Collision(sha, x, y)
  {
    if a != [] {
      var n := |a| - 1;
      EpochBinding(sha, a[n], LastHash(a[..n]), b[n], LastHash(b[..n]));
      if a[n] == b[n] && LastHash(a[..n]) == LastHash(b[..n]) {
        ChainPrefix(sha, a, n);
        ChainPrefix(sha, b, n);
        ChainBinding(sha, a[..n], b[..n]);
        if a[..n] == b[..n] {
          SameFrontAndLast(a, b);
        }
      }
    }
  }

  lemma ChainExtends(sha: Sha256, epochs: seq<Epoch>, increments: seq<Interval>)
    requires Chain(sha, epochs) && Words(increments)
    ensures Chain(sha, epochs + [NextEpoch(sha, increments, LastHash(epochs))])
  {
    var longer := epochs + [NextEpoch(sha, increments, LastHash(epochs))];
    forall i | 0 <= i < |longer|
      ensures Words(longer[i].increments)
      ensures longer[i] == NextEpoch(sha, longer[i].increments, LastHash(longer[..i]))
    {
      assert longer[..i] == epochs[..i];
      assert epochs[..|epochs|] == epochs;
    }
  }
}
