/** SHA-256 as FIPS 180-4 defines it, on whole messages. */
module Sha256Standard {

  type Byte = bv8
  type Word = bv32
  type Block = b: seq<Byte> | |b| == 64 witness seq(64, i => 0 as Byte)

  /** The working variables or the hash value: eight words. */
  datatype Hash = Hash(a: Word, b: Word, c: Word, d: Word, e: Word, f: Word, g: Word, h: Word) {
    function Words(): (s: seq<Word>)
      ensures |s| == 8
    {
      [a, b, c, d, e, f, g, h]
    }
  }

  // ----- Section 4.1.2: functions -----

  /** Addition modulo 2^32 (section 2.2.2). */
  function Plus(x: Word, y: Word): Word { x + y }

  // ROTR by n is (x >> n) | (x << 32 - n), written out with its constants below.

  function Ch(x: Word, y: Word, z: Word): Word { (x & y) ^ (!x & z) }

  function Maj(x: Word, y: Word, z: Word): Word { (x & y) ^ (x & z) ^ (y & z) }

  function BigSigma0(x: Word): Word { ((x >> 2) | (x << 30)) ^ ((x >> 13) | (x << 19)) ^ ((x >> 22) | (x << 10)) }

  function BigSigma1(x: Word): Word { ((x >> 6) | (x << 26)) ^ ((x >> 11) | (x << 21)) ^ ((x >> 25) | (x << 7)) }

  function SmallSigma0(x: Word): Word { ((x >> 7) | (x << 25)) ^ ((x >> 18) | (x << 14)) ^ (x >> 3) }

  function SmallSigma1(x: Word): Word { ((x >> 17) | (x << 15)) ^ ((x >> 19) | (x << 13)) ^ (x >> 10) }

  // ----- Section 4.2.2: constants -----

  function KRow0(): (k: seq<Word>)
    ensures |k| == 8
  {
    [0x428a2f98, 0x71374491, 0xb5c0fbcf, 0xe9b5dba5, 0x3956c25b, 0x59f111f1, 0x923f82a4, 0xab1c5ed5]
  }

  function KRow1(): (k: seq<Word>)
    ensures |k| == 8
  {
    [0xd807aa98, 0x12835b01, 0x243185be, 0x550c7dc3, 0x72be5d74, 0x80deb1fe, 0x9bdc06a7, 0xc19bf174]
  }

  function KRow2(): (k: seq<Word>)
    ensures |k| == 8
  {
    [0xe49b69c1, 0xefbe4786, 0x0fc19dc6, 0x240ca1cc, 0x2de92c6f, 0x4a7484aa, 0x5cb0a9dc, 0x76f988da]
  }

  function KRow3(): (k: seq<Word>)
    ensures |k| == 8
  {
    [0x983e5152, 0xa831c66d, 0xb00327c8, 0xbf597fc7, 0xc6e00bf3, 0xd5a79147, 0x06ca6351, 0x14292967]
  }

  function KRow4(): (k: seq<Word>)
    ensures |k| == 8
  {
    [0x27b70a85, 0x2e1b2138, 0x4d2c6dfc, 0x53380d13, 0x650a7354, 0x766a0abb, 0x81c2c92e, 0x92722c85]
  }

  function KRow5(): (k: seq<Word>)
    ensures |k| == 8
  {
    [0xa2bfe8a1, 0xa81a664b, 0xc24b8b70, 0xc76c51a3, 0xd192e819, 0xd6990624, 0xf40e3585, 0x106aa070]
  }

  function KRow6(): (k: seq<Word>)
    ensures |k| == 8
  {
    [0x19a4c116, 0x1e376c08, 0x2748774c, 0x34b0bcb5, 0x391c0cb3, 0x4ed8aa4a, 0x5b9cca4f, 0x682e6ff3]
  }

  function KRow7(): (k: seq<Word>)
    ensures |k| == 8
  {
    [0x748f82ee, 0x78a5636f, 0x84c87814, 0x8cc70208, 0x90befffa, 0xa4506ceb, 0xbef9a3f7, 0xc67178f2]
  }

  function K(): (k: seq<Word>)
    ensures |k| == 64
  {
    KRow0() + KRow1() + KRow2() + KRow3() + KRow4() + KRow5() + KRow6() + KRow7()
  }

  // ----- Section 5.3.3: initial hash value -----

  function InitialHash(): Hash {
    Hash(0x6a09e667, 0xbb67ae85, 0x3c6ef372, 0xa54ff53a, 0x510e527f, 0x9b05688c, 0x1f83d9ab, 0x5be0cd19)
  }

  // ----- Section 6.2.2: one block -----

  function BigEndianWord(b0: Byte, b1: Byte, b2: Byte, b3: Byte): Word {
    ((b0 as Word) << 24) | ((b1 as Word) << 16) | ((b2 as Word) << 8) | (b3 as Word)
  }

  /** W_t of the message schedule. */
  function Schedule(block: Block, t: nat): Word
    requires t < 64
  {
    if t < 16 then
      BigEndianWord(block[4 * t], block[4 * t + 1], block[4 * t + 2], block[4 * t + 3])
    else
      NextWord(Schedule(block, t - 2), Schedule(block, t - 7), Schedule(block, t - 15), Schedule(block, t - 16))
  }

  function NextWord(w2: Word, w7: Word, w15: Word, w16: Word): Word {
    SmallSigma1(w2) + w7 + SmallSigma0(w15) + w16
  }

  function Round(v: Hash, k: Word, w: Word): Hash {
    var t1 := Plus(Plus(Plus(Plus(v.h, BigSigma1(v.e)), Ch(v.e, v.f, v.g)), k), w);
    var t2 := Plus(BigSigma0(v.a), Maj(v.a, v.b, v.c));
    Hash(Plus(t1, t2), v.a, v.b, v.c, Plus(v.d, t1), v.e, v.f, v.g)
  }

  /** The working variables after `t` rounds with constants `k`. */
  function Rounds(k: seq<Word>, start: Hash, block: Block, t: nat): Hash
    requires t <= 64 == |k|
  {
    if t == 0 then start else Round(Rounds(k, start, block, t - 1), k[t - 1], Schedule(block, t - 1))
  }

  function AddHash(x: Hash, y: Hash): Hash {
    Hash(Plus(x.a, y.a), Plus(x.b, y.b), Plus(x.c, y.c), Plus(x.d, y.d),
         Plus(x.e, y.e), Plus(x.f, y.f), Plus(x.g, y.g), Plus(x.h, y.h))
  }

  function Compress(hash: Hash, block: Block): Hash {
    AddHash(hash, Rounds(K(), hash, block, 64))
  }

  /** A hash value carried over the whole blocks of a message. */
  function Fold<S>(f: (S, Block) -> S, hash: S, m: seq<Byte>): S
    decreases |m|
  {
    if |m| < 64 then hash else Fold(f, f(hash, m[..64]), m[64..])
  }

  // ----- Section 5.1.1: padding -----

  /** The last `k` base-256 digits of a number, the most significant first. */
  function BigEndian(n: nat, k: nat): (s: seq<Byte>)
    ensures |s| == k
  {
    if k == 0 then [] else BigEndian(n / 256, k - 1) + [(n % 256) as Byte]
  }

  function BigEndian64(n: nat): (s: seq<Byte>)
    ensures |s| == 8
  {
    BigEndian(n, 8)
  }

  predicate FillsBlock(length: nat, zeros: nat) { (length + 1 + zeros + 8) % 64 == 0 }

  function ZeroBytes(length: nat): (z: nat) { (119 - length % 64) % 64 }

  /** The smallest number of zero bytes after the 1 bit that fills up to the length field. */
  lemma ZeroBytesIsLeast(length: nat)
    ensures FillsBlock(length, ZeroBytes(length))
    ensures forall y: nat :: FillsBlock(length, y) ==> ZeroBytes(length) <= y
  {
    var q, r := length / 64, length % 64;
    forall y: nat ensures FillsBlock(length, y) <==> FillsBlock(r, y) {
      BlocksAside(q, r + 9 + y);
    }
    LeastFill(r);
  }

  lemma BlocksAside(q: nat, n: nat)
    ensures (64 * q + n) % 64 == n % 64
  {
  }

  lemma LeastFill(r: nat)
    requires r < 64
    ensures
      var z := (119 - r) % 64;
      FillsBlock(r, z) && forall y: nat :: FillsBlock(r, y) ==> z <= y
  {
    var z := if r <= 55 then 55 - r else 119 - r;
    assert z == (119 - r) % 64;
    forall y: nat | FillsBlock(r, y) ensures z <= y {
      var k := (r + 9 + y) / 64;
      assert r + 9 + y == 64 * k && k >= 1;
      assert r > 55 ==> k >= 2;
    }
  }

  function Zeros(n: nat): (s: seq<Byte>)
    ensures |s| == n
  {
    seq(n, i => 0)
  }

  /** A 1 bit, the zero bits, and the length field. */
  function Padding(length: nat, field: seq<Byte>): seq<Byte> {
    [0x80] + Zeros(ZeroBytes(length)) + field
  }

  function Pad(m: seq<Byte>): (p: seq<Byte>)
    requires |m| < 0x2000_0000_0000_0000
    ensures |p| % 64 == 0
  {
    ZeroBytesIsLeast(|m|);
    m + Padding(|m|, BigEndian64(8 * |m|))
  }

  function Digest(m: seq<Byte>): Hash
    requires |m| < 0x2000_0000_0000_0000
  {
    Fold(Compress, InitialHash(), Pad(m))
  }
}

/** The streaming discipline of the hasher, as a value, for any compression function. */
module BlockStream {
  import opened Sha256Standard

  const U64: nat := 0x1_0000_0000_0000_0000
  const MAX_MESSAGE: nat := 0x2000_0000_0000_0000

  /** A number modulo 2^64, by subtraction. */
  function Wrap(n: nat): (r: nat)
    ensures r < U64
  {
    if n < U64 then n else Wrap(n - U64)
  }

  lemma {:induction false} WrapIsModulo(n: nat)
    ensures Wrap(n) == n % U64
  {
    if n >= U64 {
      WrapIsModulo(n - U64);
      assert n % U64 == (n - U64) % U64;
    }
  }

  lemma {:induction false} WrapShift(k: nat, n: nat)
    ensures Wrap(Wrap(k) + n) == Wrap(k + n)
  {
    if k >= U64 {
      WrapShift(k - U64, n);
    }
  }

  /** What remains of a message after its whole blocks. */
  function Leftover(m: seq<Byte>): (r: seq<Byte>)
    ensures |r| < 64
    decreases |m|
  {
    if |m| < 64 then m else Leftover(m[64..])
  }

  lemma {:induction false} LeftoverLength(m: seq<Byte>)
    ensures |Leftover(m)| == |m| % 64
    decreases |m|
  {
    if |m| >= 64 {
      LeftoverLength(m[64..]);
      assert |m| % 64 == (|m| - 64) % 64;
    }
  }

  /** A message read in two parts: the second continues what the first left over. */
  lemma {:induction false} FoldInParts<S>(f: (S, Block) -> S, hash: S, a: seq<Byte>, b: seq<Byte>)
    ensures Fold(f, hash, a + b) == Fold(f, Fold(f, hash, a), Leftover(a) + b)
    ensures Leftover(a + b) == Leftover(Leftover(a) + b)
    decreases |a|
  {
    if |a| >= 64 {
      assert (a + b)[..64] == a[..64] && (a + b)[64..] == a[64..] + b;
      FoldInParts(f, f(hash, a[..64]), a[64..], b);
    }
  }

  /** `pending` is the buffer's used part; `length` the byte count, modulo 2^64. */
  datatype Hasher<S> = Hasher(hash: S, pending: seq<Byte>, length: nat)

  /** What `update` does.  A partial block that the new bytes top up without filling
    * it is dropped: `buffered` ends as the length of the empty leftover slice. */
  function Updated<S>(f: (S, Block) -> S, h: Hasher<S>, bytes: seq<Byte>): Hasher<S> {
    var length := Wrap(h.length + |bytes|);
    var all := h.pending + bytes;
    if h.pending != [] && |all| < 64 then
      Hasher(h.hash, [], length)
    else
      Hasher(Fold(f, h.hash, all), Leftover(all), length)
  }

  /** What finishing compresses. */
  function Tail(pending: seq<Byte>, length: nat): seq<Byte> {
    pending + Padding(|pending|, BigEndian64(Wrap(length * 8)))
  }

  function Finalized<S>(f: (S, Block) -> S, h: Hasher<S>): S {
    Fold(f, h.hash, Tail(h.pending, h.length))
  }

  /** The hasher has taken in exactly the message `m`. */
  predicate Absorbed<S(==)>(f: (S, Block) -> S, iv: S, h: Hasher<S>, m: seq<Byte>) {
    h == Hasher(Fold(f, iv, m), Leftover(m), Wrap(|m|))
  }

  /** The guard under which `update` appends. */
  predicate Appends(pending: nat, more: nat) { pending == 0 || pending + more >= 64 }

  /** `update` appends to the message exactly when the buffer was empty or the new
    * bytes fill it. */
  lemma UpdateAppendsExactlyWhen<S>(f: (S, Block) -> S, iv: S, h: Hasher<S>, m: seq<Byte>, bytes: seq<Byte>)
    requires Absorbed(f, iv, h, m)
    ensures Absorbed(f, iv, Updated(f, h, bytes), m + bytes) <==> Appends(|h.pending|, |bytes|)
  {
    FoldInParts(f, iv, m, bytes);
    WrapShift(|m|, |bytes|);
    assert |m + bytes| == |m| + |bytes|;
  }

  /** The padding is the same, from the whole message's length or from what is pending. */
  lemma TailPads(m: seq<Byte>) returns (padding: seq<Byte>)
    requires |m| < MAX_MESSAGE
    ensures Tail(Leftover(m), Wrap(|m|)) == Leftover(m) + padding && Pad(m) == m + padding
  {
    padding := Padding(|m|, BigEndian64(8 * |m|));
    LeftoverLength(m);
    SamePadding(|m|, |Leftover(m)|, BigEndian64(8 * |m|));
    assert Wrap(|m|) == |m| && Wrap(|m| * 8) == 8 * |m|;
  }

  /** Finishing yields the padded message's digest. */
  lemma FinalizedIsDigest<S>(f: (S, Block) -> S, iv: S, h: Hasher<S>, m: seq<Byte>)
    requires Absorbed(f, iv, h, m) && |m| < MAX_MESSAGE
    ensures Finalized(f, h) == Fold(f, iv, Pad(m))
  {
    var padding := TailPads(m);
    FoldInParts(f, iv, m, padding);
  }

  lemma SamePadding(n: nat, k: nat, field: seq<Byte>)
    requires k == n % 64
    ensures Padding(n, field) == Padding(k, field)
  {
    assert ZeroBytes(n) == ZeroBytes(k);
  }

  /** The excluded case: what was pending and what was added are both gone, but counted. */
  lemma DroppedBytesDoNotCount<S>(f: (S, Block) -> S, h: Hasher<S>, bytes: seq<Byte>)
    requires !Appends(|h.pending|, |bytes|)
    ensures Updated(f, h, bytes) == Hasher(h.hash, [], Wrap(h.length + |bytes|))
  {
    assert h.pending != [] && |h.pending + bytes| < 64;
  }

  // ----- A sequence of updates -----

  function UpdatedAll<S>(f: (S, Block) -> S, iv: S, chunks: seq<seq<Byte>>): Hasher<S> {
    if chunks == [] then
      Hasher(iv, [], 0)
    else
      Updated(f, UpdatedAll(f, iv, chunks[..|chunks| - 1]), chunks[|chunks| - 1])
  }

  function Concat(chunks: seq<seq<Byte>>): seq<Byte> {
    if chunks == [] then [] else Concat(chunks[..|chunks| - 1]) + chunks[|chunks| - 1]
  }

  /** Every update in its turn meets the guard. */
  predicate AllAppend(chunks: seq<seq<Byte>>) {
    chunks != [] ==>
      var before := chunks[..|chunks| - 1];
      AllAppend(before) && Appends(|Leftover(Concat(before))|, |chunks[|chunks| - 1]|)
  }

  /** After every update so far the hasher has taken in exactly what it was given. */
  predicate AbsorbedThroughout<S(==)>(f: (S, Block) -> S, iv: S, chunks: seq<seq<Byte>>) {
    && Absorbed(f, iv, UpdatedAll(f, iv, chunks), Concat(chunks))
    && (chunks != [] ==> AbsorbedThroughout(f, iv, chunks[..|chunks| - 1]))
  }

  /** No update of a run loses a byte exactly when each of them meets the guard. */
  lemma {:induction false} NothingLostExactlyWhen<S>(f: (S, Block) -> S, iv: S, chunks: seq<seq<Byte>>)
    ensures AbsorbedThroughout(f, iv, chunks) <==> AllAppend(chunks)
  {
    if chunks != [] {
      var before, last := chunks[..|chunks| - 1], chunks[|chunks| - 1];
      NothingLostExactlyWhen(f, iv, before);
      if AbsorbedThroughout(f, iv, before) {
        UpdateAppendsExactlyWhen(f, iv, UpdatedAll(f, iv, before), Concat(before), last);
      }
    }
  }

  /** Any updates that each meet the guard, then finishing: the digest of everything
    * that was passed in. */
  lemma StreamedDigest<S>(f: (S, Block) -> S, iv: S, chunks: seq<seq<Byte>>)
    requires AllAppend(chunks) && |Concat(chunks)| < MAX_MESSAGE
    ensures Finalized(f, UpdatedAll(f, iv, chunks)) == Fold(f, iv, Pad(Concat(chunks)))
  {
    NothingLostExactlyWhen(f, iv, chunks);
    FinalizedIsDigest(f, iv, UpdatedAll(f, iv, chunks), Concat(chunks));
  }

  /** One run that loses a byte: two files of two bytes each, read a byte at a time,
    * get one digest whatever the compression function is. */
  lemma ByteWiseReadsCollide<S>(f: (S, Block) -> S, iv: S)
    ensures Finalized(f, UpdatedAll(f, iv, [[1], [3]])) == Finalized(f, UpdatedAll(f, iv, [[2], [3]]))
    ensures Concat([[1], [3]]) != Concat([[2], [3]])
  {
    TwoUpdates(f, iv, [1], [3]);
    TwoUpdates(f, iv, [2], [3]);
    assert Concat([[1], [3]])[0] == 1 && Concat([[2], [3]])[0] == 2;
  }

  lemma OneMoreUpdate<S>(f: (S, Block) -> S, iv: S, before: seq<seq<Byte>>, last: seq<Byte>)
    ensures UpdatedAll(f, iv, before + [last]) == Updated(f, UpdatedAll(f, iv, before), last)
    ensures Concat(before + [last]) == Concat(before) + last
  {
    assert (before + [last])[..|before|] == before;
  }

  lemma FirstUpdate<S>(f: (S, Block) -> S, iv: S, a: seq<Byte>)
    requires |a| < 64
    ensures UpdatedAll(f, iv, [a]) == Hasher(iv, a, Wrap(|a|)) && Concat([a]) == a
  {
    OneMoreUpdate(f, iv, [], a);
    assert [] + [a] == [a] && [] + a == a;
  }

  lemma PairIsSnoc<T>(a: T, b: T)
    ensures [a] + [b] == [a, b]
  {
  }

  lemma TwoUpdates<S>(f: (S, Block) -> S, iv: S, a: seq<Byte>, b: seq<Byte>)
    requires 0 < |a| && |a| + |b| < 64
    ensures UpdatedAll(f, iv, [a, b]) == Hasher(iv, [], Wrap(Wrap(|a|) + |b|))
    ensures Concat([a, b]) == a + b
  {
    FirstUpdate(f, iv, a);
    OneMoreUpdate(f, iv, [a], b);
    PairIsSnoc(a, b);
    var first := Hasher(iv, a, Wrap(|a|));
    DroppedBytesDoNotCount(f, first, b);
  }

  /** The length kept is that of everything passed in, lost bytes too, modulo 2^64. */
  lemma {:induction false} LengthCountsEverything<S>(f: (S, Block) -> S, iv: S, chunks: seq<seq<Byte>>)
    ensures UpdatedAll(f, iv, chunks).length == |Concat(chunks)| % U64
  {
    if chunks != [] {
      var before, last := chunks[..|chunks| - 1], chunks[|chunks| - 1];
      LengthCountsEverything(f, iv, before);
      WrapIsModulo(|Concat(before)|);
      WrapShift(|Concat(before)|, |last|);
    }
    WrapIsModulo(|Concat(chunks)|);
  }

  predicate SameLengths(a: seq<seq<Byte>>, b: seq<seq<Byte>>) {
    |a| == |b| && forall i :: 0 <= i < |a| ==> |a[i]| == |b[i]|
  }

  lemma {:induction false} SameLengthsConcat(a: seq<seq<Byte>>, b: seq<seq<Byte>>)
    requires SameLengths(a, b)
    ensures |Concat(a)| == |Concat(b)|
  {
    if a != [] {
      SameLengthsConcat(a[..|a| - 1], b[..|b| - 1]);
    }
  }

  /** The guard looks at lengths only. */
  lemma {:induction false} LengthsDecideGuard(a: seq<seq<Byte>>, b: seq<seq<Byte>>)
    requires SameLengths(a, b)
    ensures AllAppend(a) <==> AllAppend(b)
  {
    if a != [] {
      var before, other := a[..|a| - 1], b[..|b| - 1];
      LengthsDecideGuard(before, other);
      SameLengthsConcat(before, other);
      LeftoverLength(Concat(before));
      LeftoverLength(Concat(other));
    }
  }

  /** What is left over is not folded. */
  lemma {:induction false} LeftoverIsNotFolded<S>(f: (S, Block) -> S, hash: S, m: seq<Byte>, k: seq<Byte>)
    requires |m| == |k| && m[..|m| - |Leftover(m)|] == k[..|m| - |Leftover(m)|] && |Leftover(m)| <= |m|
    ensures Fold(f, hash, m) == Fold(f, hash, k)
    decreases |m|
  {
    if |m| >= 64 {
      LeftoverFits(m[64..]);
      var n := |m| - |Leftover(m)|;
      assert m[..64] == m[..n][..64] && k[..64] == k[..n][..64];
      assert m[64..][..n - 64] == m[..n][64..] && k[64..][..n - 64] == k[..n][64..];
      LeftoverIsNotFolded(f, f(hash, m[..64]), m[64..], k[64..]);
    }
  }

  lemma {:induction false} LeftoverFits(m: seq<Byte>)
    ensures |Leftover(m)| <= |m|
    decreases |m|
  {
    if |m| >= 64 {
      LeftoverFits(m[64..]);
    }
  }

  function Other(b: Byte): Byte { if b == 0 then 1 else 0 }

  /** The run with the last byte it passes in changed. */
  lemma {:induction false} ChangeLastByte(chunks: seq<seq<Byte>>) returns (twin: seq<seq<Byte>>)
    requires Concat(chunks) != []
    ensures SameLengths(twin, chunks) && |Concat(twin)| == |Concat(chunks)| > 0
    ensures var n := |Concat(chunks)| - 1; Concat(twin)[..n] == Concat(chunks)[..n] && Concat(twin)[n] != Concat(chunks)[n]
  {
    var before, last := chunks[..|chunks| - 1], chunks[|chunks| - 1];
    assert chunks == before + [last];
    if last == [] {
      var front := ChangeLastByte(before);
      twin := front + [last];
      ConcatSnoc(front, last);
      ConcatSnoc(before, last);
    } else {
      var other := last[|last| - 1 := Other(last[|last| - 1])];
      twin := before + [other];
      ConcatSnoc(before, other);
    }
  }

  lemma ConcatSnoc(before: seq<seq<Byte>>, last: seq<Byte>)
    ensures Concat(before + [last]) == Concat(before) + last
    ensures last == [] ==> Concat(before + [last]) == Concat(before)
  {
    assert (before + [last])[..|before|] == before;
  }

  /** The update drops bytes of its own: change one of them. */
  lemma DroppedBytesCollide<S>(f: (S, Block) -> S, iv: S, before: seq<seq<Byte>>, last: seq<Byte>)
    returns (twin: seq<seq<Byte>>)
    requires AllAppend(before) && !Appends(|Leftover(Concat(before))|, |last|) && last != []
    ensures SameLengths(twin, before + [last]) && Concat(twin) != Concat(before + [last])
    ensures UpdatedAll(f, iv, twin) == UpdatedAll(f, iv, before + [last])
  {
    NothingLostExactlyWhen(f, iv, before);
    var other := last[0 := Other(last[0])];
    twin := before + [other];
    OneMoreUpdate(f, iv, before, last);
    OneMoreUpdate(f, iv, before, other);
    DroppedBytesDoNotCount(f, UpdatedAll(f, iv, before), last);
    DroppedBytesDoNotCount(f, UpdatedAll(f, iv, before), other);
    assert Concat(twin)[|Concat(before)|] != Concat(before + [last])[|Concat(before)|];
  }

  /** An empty update drops what is pending: change the last byte of that. */
  lemma DroppedPendingCollides<S>(f: (S, Block) -> S, iv: S, before: seq<seq<Byte>>) returns (twin: seq<seq<Byte>>)
    requires AllAppend(before) && Leftover(Concat(before)) != []
    ensures SameLengths(twin, before + [[]]) && Concat(twin) != Concat(before + [[]])
    ensures UpdatedAll(f, iv, twin) == UpdatedAll(f, iv, before + [[]])
  {
    var m := Concat(before);
    LeftoverFits(m);
    var front := ChangeLastByte(before);
    var k := Concat(front);
    LengthsDecideGuard(front, before);
    NothingLostExactlyWhen(f, iv, before);
    NothingLostExactlyWhen(f, iv, front);
    var n := |m| - |Leftover(m)|;
    assert m[..n] == m[..|m| - 1][..n] && k[..n] == k[..|m| - 1][..n];
    LeftoverIsNotFolded(f, iv, m, k);
    LeftoverLength(m);
    LeftoverLength(k);
    twin := front + [[]];
    EmptyUpdateDrops(f, iv, before);
    EmptyUpdateDrops(f, iv, front);
  }

  lemma EmptyUpdateDrops<S>(f: (S, Block) -> S, iv: S, before: seq<seq<Byte>>)
    requires Absorbed(f, iv, UpdatedAll(f, iv, before), Concat(before)) && Leftover(Concat(before)) != []
    ensures UpdatedAll(f, iv, before + [[]]) == Hasher(Fold(f, iv, Concat(before)), [], Wrap(|Concat(before)|))
    ensures Concat(before + [[]]) == Concat(before)
  {
    OneMoreUpdate(f, iv, before, []);
    ConcatSnoc(before, []);
    DroppedBytesDoNotCount(f, UpdatedAll(f, iv, before), []);
    WrapShift(|Concat(before)|, 0);
  }

  /** Every run that breaks the guard collides: another message, passed in by reads of
    * the same lengths, leaves the hasher in the same state whatever the compression
    * function is, so what follows cannot tell the two apart. */
  lemma {:induction false} LossyRunsCollide<S>(f: (S, Block) -> S, iv: S, chunks: seq<seq<Byte>>)
    returns (twin: seq<seq<Byte>>)
    requires !AllAppend(chunks)
    ensures SameLengths(twin, chunks) && Concat(twin) != Concat(chunks)
    ensures UpdatedAll(f, iv, twin) == UpdatedAll(f, iv, chunks)
  {
    var before, last := chunks[..|chunks| - 1], chunks[|chunks| - 1];
    assert chunks == before + [last];
    if !AllAppend(before) {
      var front := LossyRunsCollide(f, iv, before);
      twin := front + [last];
      OneMoreUpdate(f, iv, front, last);
      SameLengthsConcat(front, before);
      SameHeads(Concat(front), Concat(before), last);
    } else if last == [] {
      twin := DroppedPendingCollides(f, iv, before);
    } else {
      twin := DroppedBytesCollide(f, iv, before, last);
    }
  }

  lemma SameHeads(a: seq<Byte>, b: seq<Byte>, c: seq<Byte>)
    requires |a| == |b|
    ensures a + c == b + c ==> a == b
  {
    assert a == (a + c)[..|a|] && b == (b + c)[..|b|];
  }

  /** All reads but the last are whole numbers of blocks. */
  predicate WholeBlockReads(chunks: seq<seq<Byte>>) {
    forall i :: 0 <= i < |chunks| - 1 ==> Leftover(chunks[i]) == []
  }

  lemma {:induction false} WholeBlockReadsAppend(chunks: seq<seq<Byte>>)
    requires WholeBlockReads(chunks)
    ensures AllAppend(chunks)
    ensures (chunks != [] ==> Leftover(chunks[|chunks| - 1]) == []) ==> Leftover(Concat(chunks)) == []
  {
    if chunks != [] {
      var before, last := chunks[..|chunks| - 1], chunks[|chunks| - 1];
      WholeBlockReadsAppend(before);
      FoldInParts((x: int, b: Block) => x, 0, Concat(before), last);
      assert [] + last == last;
    }
  }
}

/** The streaming hasher of the installation check. */
module StreamingSha256 {
  import opened Sha256Standard
  import opened BlockStream

  // ----- One block -----

  /** The word the loop computes, from the words 16, 15, 7 and 2 before it. */
  method ExpandWord(w16: Word, w15: Word, w7: Word, w2: Word) returns (w: Word)
    ensures w == NextWord(w2, w7, w15, w16)
  {
    w := w16 + SmallSigma0(w15) + w7 + SmallSigma1(w2);
  }

  /** The first `n` words are those of the schedule. */
  predicate Scheduled(words: array<Word>, block: Block, n: nat)
    requires n <= 64 == words.Length
    reads words
  {
    forall t :: 0 <= t < n ==> words[t] == Schedule(block, t)
  }

  method LoadWord(words: array<Word>, block: Block, index: nat)
    requires index < 16 && words.Length == 64 && Scheduled(words, block, index)
    modifies words
    ensures Scheduled(words, block, index + 1)
  {
    var offset := index * 4;
    words[index] := BigEndianWord(block[offset], block[offset + 1], block[offset + 2], block[offset + 3]);
  }

  method AppendWord(words: array<Word>, block: Block, index: nat)
    requires 16 <= index < 64 == words.Length && Scheduled(words, block, index)
    modifies words
    ensures Scheduled(words, block, index + 1)
  {
    var w := ExpandWord(words[index - 16], words[index - 15], words[index - 7], words[index - 2]);
    words[index] := w;
  }

  method MessageSchedule(block: Block) returns (words: array<Word>)
    ensures fresh(words) && words.Length == 64 && Scheduled(words, block, 64)
  {
    words := new Word[64](_ => 0);
    for index := 0 to 16
      invariant Scheduled(words, block, index)
    {
      LoadWord(words, block, index);
    }
    for index := 16 to 64
      invariant Scheduled(words, block, index)
    {
      AppendWord(words, block, index);
    }
  }

  method OneRound(v: Hash, k: Word, w: Word) returns (r: Hash)
    ensures r == Round(v, k, w)
  {
    var temp1 := Plus(Plus(Plus(Plus(v.h, BigSigma1(v.e)), Ch(v.e, v.f, v.g)), k), w);
    var temp2 := Plus(BigSigma0(v.a), Maj(v.a, v.b, v.c));
    r := Hash(Plus(temp1, temp2), v.a, v.b, v.c, Plus(v.d, temp1), v.e, v.f, v.g);
  }

  method AllRounds(k: seq<Word>, start: Hash, block: Block) returns (v: Hash)
    requires |k| == 64
    ensures v == Rounds(k, start, block, 64)
  {
    var words := MessageSchedule(block);
    v := start;
    for index := 0 to 64
      invariant v == Rounds(k, start, block, index)
      invariant Scheduled(words, block, 64)
    {
      v := OneRound(v, k[index], words[index]);
    }
  }


  // ----- Printing -----

  function HexDigit(n: Word): char
    requires n < 16
  {
    if n == 0 then '0' else if n == 1 then '1' else if n == 2 then '2' else if n == 3 then '3'
    else if n == 4 then '4' else if n == 5 then '5' else if n == 6 then '6' else if n == 7 then '7'
    else if n == 8 then '8' else if n == 9 then '9' else if n == 10 then 'a' else if n == 11 then 'b'
    else if n == 12 then 'c' else if n == 13 then 'd' else if n == 14 then 'e' else 'f'
  }

  /** Eight lower-case digits, leading zeros kept. */
  function HexWord(w: Word): (s: string)
    ensures |s| == 8
  {
    [HexDigit((w >> 28) & 15), HexDigit((w >> 24) & 15), HexDigit((w >> 20) & 15), HexDigit((w >> 16) & 15),
     HexDigit((w >> 12) & 15), HexDigit((w >> 8) & 15), HexDigit((w >> 4) & 15), HexDigit(w & 15)]
  }

  function HexAll(words: seq<Word>): (s: string)
    ensures |s| == 8 * |words|
  {
    if words == [] then "" else HexAll(words[..|words| - 1]) + HexWord(words[|words| - 1])
  }

  function Hex(h: Hash): (s: string)
    ensures |s| == 64
  {
    HexAll(h.Words())
  }

  lemma HexDigitTellsApart(x: Word, y: Word)
    requires x < 16 && y < 16 && HexDigit(x) == HexDigit(y)
    ensures x == y
  {
  }

  lemma NibblesTellApart(v: Word, w: Word)
    requires (v >> 28) & 15 == (w >> 28) & 15 && (v >> 24) & 15 == (w >> 24) & 15
    requires (v >> 20) & 15 == (w >> 20) & 15 && (v >> 16) & 15 == (w >> 16) & 15
    requires (v >> 12) & 15 == (w >> 12) & 15 && (v >> 8) & 15 == (w >> 8) & 15
    requires (v >> 4) & 15 == (w >> 4) & 15 && v & 15 == w & 15
    ensures v == w
  {
  }

  lemma HighDigits(v: Word, w: Word)
    requires HexWord(v)[..4] == HexWord(w)[..4]
    ensures (v >> 28) & 15 == (w >> 28) & 15 && (v >> 24) & 15 == (w >> 24) & 15
    ensures (v >> 20) & 15 == (w >> 20) & 15 && (v >> 16) & 15 == (w >> 16) & 15
  {
    var s, t := HexWord(v)[..4], HexWord(w)[..4];
    assert s[0] == t[0] && s[1] == t[1] && s[2] == t[2] && s[3] == t[3];
    HexDigitTellsApart((v >> 28) & 15, (w >> 28) & 15);
    HexDigitTellsApart((v >> 24) & 15, (w >> 24) & 15);
    HexDigitTellsApart((v >> 20) & 15, (w >> 20) & 15);
    HexDigitTellsApart((v >> 16) & 15, (w >> 16) & 15);
  }

  lemma LowDigits(v: Word, w: Word)
    requires HexWord(v)[4..] == HexWord(w)[4..]
    ensures (v >> 12) & 15 == (w >> 12) & 15 && (v >> 8) & 15 == (w >> 8) & 15
    ensures (v >> 4) & 15 == (w >> 4) & 15 && v & 15 == w & 15
  {
    var s, t := HexWord(v)[4..], HexWord(w)[4..];
    assert s[0] == t[0] && s[1] == t[1] && s[2] == t[2] && s[3] == t[3];
    HexDigitTellsApart((v >> 12) & 15, (w >> 12) & 15);
    HexDigitTellsApart((v >> 8) & 15, (w >> 8) & 15);
    HexDigitTellsApart((v >> 4) & 15, (w >> 4) & 15);
    HexDigitTellsApart(v & 15, w & 15);
  }

  lemma HexWordTellsApart(v: Word, w: Word)
    requires HexWord(v) == HexWord(w)
    ensures v == w
  {
    HighDigits(v, w);
    LowDigits(v, w);
    NibblesTellApart(v, w);
  }

  lemma {:induction false} HexAllTellsApart(v: seq<Word>, w: seq<Word>)
    requires |v| == |w| && HexAll(v) == HexAll(w)
    ensures v == w
  {
    if v != [] {
      var k := |v| - 1;
      assert HexAll(v)[..8 * k] == HexAll(v[..k]) && HexAll(v)[8 * k..] == HexWord(v[k]);
      assert HexAll(w)[..8 * k] == HexAll(w[..k]) && HexAll(w)[8 * k..] == HexWord(w[k]);
      HexAllTellsApart(v[..k], w[..k]);
      HexWordTellsApart(v[k], w[k]);
      assert v == v[..k] + [v[k]] && w == w[..k] + [w[k]];
    }
  }

  /** The printed digest determines the hash value. */
  lemma HexTellsApart(g: Hash, h: Hash)
    requires Hex(g) == Hex(h)
    ensures g == h
  {
    HexAllTellsApart(g.Words(), h.Words());
    var s, t := g.Words(), h.Words();
    assert s[0] == t[0] && s[1] == t[1] && s[2] == t[2] && s[3] == t[3];
    assert s[4] == t[4] && s[5] == t[5] && s[6] == t[6] && s[7] == t[7];
  }

  // ----- The hasher -----

  /** A partial block completed from the front of the bytes; `rest` is what is left of them. */
  predicate ToppedUp<S(==)>(f: (S, Block) -> S, hash: S, pending: seq<Byte>, bytes: seq<Byte>, mid: S, rest: seq<Byte>)
    requires |pending| < 64
  {
    if pending == [] then
      rest == bytes && mid == hash
    else if |pending| + |bytes| < 64 then
      rest == [] && mid == hash
    else
      var take := 64 - |pending|;
      rest == bytes[take..] && mid == f(hash, pending + bytes[..take])
  }

  lemma FilledFirst<S>(f: (S, Block) -> S, hash: S, pending: seq<Byte>, bytes: seq<Byte>)
    requires |pending| < 64 <= |pending| + |bytes|
    ensures
      var take := 64 - |pending|;
      && Fold(f, hash, pending + bytes) == Fold(f, f(hash, pending + bytes[..take]), bytes[take..])
      && Leftover(pending + bytes) == Leftover(bytes[take..])
  {
    var take, all := 64 - |pending|, pending + bytes;
    assert all[..64] == pending + bytes[..take] && all[64..] == bytes[take..];
  }

  lemma UpdatedInSteps<S>(f: (S, Block) -> S, h: Hasher<S>, bytes: seq<Byte>, mid: S, rest: seq<Byte>)
    requires |h.pending| < 64 && ToppedUp(f, h.hash, h.pending, bytes, mid, rest)
    ensures Updated(f, h, bytes) == Hasher(Fold(f, mid, rest), Leftover(rest), Wrap(h.length + |bytes|))
  {
    if !Appends(|h.pending|, |bytes|) {
      DroppedBytesDoNotCount(f, h, bytes);
    } else if h.pending == [] {
      assert h.pending + bytes == bytes;
    } else {
      FilledFirst(f, h.hash, h.pending, bytes);
    }
  }

  /** A 1 bit and zeros up to the length field: `done` whole blocks and then `last`. */
  predicate EndMarked(pending: seq<Byte>, done: seq<Byte>, last: seq<Byte>)
    requires |pending| < 64
  {
    if |pending| < 56 then
      done == [] && last == pending + [0x80] + Zeros(55 - |pending|)
    else
      done == pending + [0x80] + Zeros(63 - |pending|) && last == Zeros(56)
  }

  /** The padding of a partial block is one block, or two when the length field does not fit. */
  lemma PaddingInBlocks(pending: seq<Byte>, done: seq<Byte>, last: seq<Byte>, field: seq<Byte>)
    requires |pending| < 64 && EndMarked(pending, done, last)
    ensures |last| == 56 && pending + Padding(|pending|, field) == done + (last + field)
  {
    if |pending| >= 56 {
      assert Zeros(ZeroBytes(|pending|)) == Zeros(63 - |pending|) + Zeros(56);
    }
  }

  lemma FoldOneOrTwo<S>(f: (S, Block) -> S, hash: S, done: seq<Byte>, last: Block)
    requires |done| == 0 || |done| == 64
    ensures Fold(f, hash, done + last) == f(if done == [] then hash else f(hash, done), last)
  {
    var mid := if done == [] then hash else f(hash, done);
    assert last[..64] == last && Fold(f, mid, last) == f(mid, last);
    if done == [] {
      assert done + last == last;
    } else {
      assert (done + last)[..64] == done && (done + last)[64..] == last;
    }
  }

  method FillZeros(target: array<Byte>, from: nat, to: nat)
    requires from <= to <= target.Length
    modifies target
    ensures target[..] == old(target[..from]) + Zeros(to - from) + old(target[to..])
  {
    for i := from to to
      invariant target[..from] == old(target[..from])
      invariant target[from..i] == Zeros(i - from)
      invariant target[i..] == old(target[i..])
    {
      target[i] := 0;
    }
  }

  /** Overwrites `target` from `start` on with `bytes`. */
  method CopyFromSlice(target: array<Byte>, start: nat, bytes: seq<Byte>)
    requires start + |bytes| <= target.Length
    modifies target
    ensures target[..] == old(target[..start]) + bytes + old(target[start + |bytes|..])
  {
    for i := 0 to |bytes|
      invariant target[..start] == old(target[..start])
      invariant target[start..start + i] == bytes[..i]
      invariant target[start + i..] == old(target[start + i..])
    {
      target[start + i] := bytes[i];
    }
  }

  /** Names a use of the compression function whose definition is wanted. */
  predicate Asked(hash: Hash, block: Block) { true }

  /** `f` is the standard's compression function, its definition read only where asked for. */
  ghost predicate Standard(f: (Hash, Block) -> Hash) {
    forall hash: Hash, block: Block {:trigger Asked(hash, block)} :: Asked(hash, block) ==> f(hash, block) == Compress(hash, block)
  }

  class Sha256 {
    ghost const f: (Hash, Block) -> Hash
    const state: array<Word>
    const buffer: array<Byte>
    var buffered: nat
    var lengthBytes: nat

    ghost predicate Valid()
      reads this
    {
      Standard(f) && state.Length == 8 && buffer.Length == 64 && buffered < 64 && lengthBytes < U64
    }

    ghost function HashValue(): Hash
      reads state
      requires state.Length == 8
    {
      Hash(state[0], state[1], state[2], state[3], state[4], state[5], state[6], state[7])
    }

    ghost function View(): Hasher<Hash>
      reads this, state, buffer
      requires Valid()
    {
      Hasher(HashValue(), buffer[..buffered], lengthBytes)
    }

    constructor ()
      ensures Valid() && View() == Hasher(InitialHash(), [], 0)
      ensures fresh(state) && fresh(buffer) && f == Compress
    {
      f := Compress;
      state := new Word[] [
        0x6a09e667, 0xbb67ae85, 0x3c6ef372, 0xa54ff53a, 0x510e527f, 0x9b05688c, 0x1f83d9ab, 0x5be0cd19
      ];
      buffer := new Byte[64](_ => 0);
      buffered := 0;
      lengthBytes := 0;
    }

    method PrintState() returns (digest: string)
      requires state.Length == 8
      ensures digest == Hex(HashValue())
    {
      digest := "";
      for i := 0 to 8
        invariant digest == HexAll(state[..i])
      {
        assert state[..i + 1][..i] == state[..i];
        digest := digest + HexWord(state[i]);
      }
      assert state[..8] == HashValue().Words();
    }

    method AddToState(v: Hash)
      requires state.Length == 8
      modifies state
      ensures HashValue() == AddHash(old(HashValue()), v)
    {
      state[0] := Plus(state[0], v.a);
      state[1] := Plus(state[1], v.b);
      state[2] := Plus(state[2], v.c);
      state[3] := Plus(state[3], v.d);
      state[4] := Plus(state[4], v.e);
      state[5] := Plus(state[5], v.f);
      state[6] := Plus(state[6], v.g);
      state[7] := Plus(state[7], v.h);
    }

    method CompressBlock(block: Block)
      requires state.Length == 8 && Standard(f)
      modifies state
      ensures HashValue() == f(old(HashValue()), block)
    {
      var start := Hash(state[0], state[1], state[2], state[3], state[4], state[5], state[6], state[7]);
      var v := AllRounds(K(), start, block);
      AddToState(v);
      assert Asked(start, block);
    }

    /** Completes the partial block, if there is one and the bytes suffice. */
    method TopUp(bytes: seq<Byte>) returns (rest: seq<Byte>)
      requires Valid()
      modifies `buffered, state, buffer
      ensures Valid() && ToppedUp(f, old(HashValue()), old(buffer[..buffered]), bytes, HashValue(), rest)
    {
      rest := bytes;
      if buffered != 0 {
        var take := if 64 - buffered < |bytes| then 64 - buffered else |bytes|;
        ghost var pending := buffer[..buffered];
        CopyFromSlice(buffer, buffered, bytes[..take]);
        buffered := buffered + take;
        rest := bytes[take..];
        if buffered == 64 {
          assert buffer[..] == pending + bytes[..take];
          var block: Block := buffer[..];
          buffered := 0;
          CompressBlock(block);
        }
      }
    }

    method CompressWholeBlocks(bytes: seq<Byte>) returns (rest: seq<Byte>)
      requires Valid()
      modifies state
      ensures rest == Leftover(bytes) && HashValue() == Fold(f, old(HashValue()), bytes)
    {
      rest := bytes;
      while |rest| >= 64
        invariant Leftover(rest) == Leftover(bytes)
        invariant Fold(f, HashValue(), rest) == Fold(f, old(HashValue()), bytes)
      {
        var block: Block := rest[..64];
        CompressBlock(block);
        rest := rest[64..];
      }
    }

    /** Buffers what is left. */
    method Keep(bytes: seq<Byte>)
      requires Valid() && |bytes| < 64
      modifies `buffered, buffer
      ensures Valid() && buffer[..buffered] == bytes
    {
      CopyFromSlice(buffer, 0, bytes);
      buffered := |bytes|;
    }

    method Update(bytes: seq<Byte>)
      requires Valid()
      modifies this, state, buffer
      ensures Valid() && View() == Updated(f, old(View()), bytes)
    {
      ghost var before := View();
      lengthBytes := Wrap(lengthBytes + |bytes|);
      var rest := TopUp(bytes);
      UpdatedInSteps(f, before, bytes, HashValue(), rest);
      rest := CompressWholeBlocks(rest);
      Keep(rest);
    }

    /** No room for the length field: a first block is filled up and compressed. */
    method FinishBlock(ghost marked: seq<Byte>) returns (ghost done: seq<Byte>)
      requires Standard(f) && state.Length == 8 && buffer.Length == 64
      requires buffered <= 64 && buffer[..buffered] == marked
      modifies state, buffer
      ensures done == marked + Zeros(64 - |marked|) && buffer[..56] == Zeros(56)
      ensures |done| == 64 && HashValue() == f(old(HashValue()), done)
    {
      FillZeros(buffer, buffered, 64);
      var block: Block := buffer[..];
      CompressBlock(block);
      FillZeros(buffer, 0, 64);
      done := block;
    }

    method ZeroToField(ghost marked: seq<Byte>)
      requires buffer.Length == 64 && buffered <= 56 && buffer[..buffered] == marked
      modifies buffer
      ensures buffer[..56] == marked + Zeros(56 - |marked|)
    {
      FillZeros(buffer, buffered, 56);
    }

    /** Writes the 1 bit and the zeros up to the length field, compressing a first block
      * when they overflow it. */
    method MarkEnd() returns (ghost done: seq<Byte>)
      requires Valid()
      modifies `buffered, state, buffer
      ensures EndMarked(old(buffer[..buffered]), done, buffer[..56])
      ensures HashValue() == if done == [] then old(HashValue()) else f(old(HashValue()), done)
    {
      ghost var pending := buffer[..buffered];
      done := [];
      buffer[buffered] := 0x80;
      buffered := buffered + 1;
      assert buffer[..buffered] == pending + [0x80];
      if buffered > 56 {
        done := FinishBlock(pending + [0x80]);
      } else {
        ZeroToField(pending + [0x80]);
      }
    }

    method FinalizeHex() returns (digest: string)
      requires Valid()
      modifies this, state, buffer
      ensures digest == Hex(Finalized(f, old(View())))
    {
      ghost var before := View();
      var field := BigEndian64(Wrap(lengthBytes * 8));
      ghost var done := MarkEnd();
      ghost var marked := buffer[..56];
      PaddingInBlocks(before.pending, done, marked, field);
      CopyFromSlice(buffer, 56, field);
      var last: Block := buffer[..];
      assert last == marked + field;
      FoldOneOrTwo(f, before.hash, done, last);
      CompressBlock(last);
      assert HashValue() == Finalized(f, before);
      digest := PrintState();
    }
  }

  // ----- The read loop -----

  /** What the loop takes in: everything before the first read that returns nothing. */
  function Taken(chunks: seq<seq<Byte>>): (t: seq<seq<Byte>>) {
    if chunks == [] || chunks[0] == [] then [] else [chunks[0]] + Taken(chunks[1..])
  }

  lemma TakenEnds(chunks: seq<seq<Byte>>, i: nat)
    requires i <= |chunks| && Taken(chunks) == chunks[..i] + Taken(chunks[i..])
    requires i == |chunks| || chunks[i] == []
    ensures Taken(chunks) == chunks[..i]
  {
    var rest := chunks[i..];
    assert rest == [] || rest[0] == [];
  }

  lemma TakenCons(chunk: seq<Byte>, rest: seq<seq<Byte>>)
    requires chunk != []
    ensures Taken([chunk] + rest) == [chunk] + Taken(rest)
  {
    assert ([chunk] + rest)[1..] == rest;
  }

  lemma TakenMoves(all: seq<seq<Byte>>, before: seq<seq<Byte>>, chunk: seq<Byte>, rest: seq<seq<Byte>>)
    requires chunk != [] && Taken(all) == before + Taken([chunk] + rest)
    ensures Taken(all) == (before + [chunk]) + Taken(rest)
  {
    TakenCons(chunk, rest);
  }

  lemma TakenExtends(chunks: seq<seq<Byte>>, i: nat)
    requires i < |chunks| && chunks[i] != [] && Taken(chunks) == chunks[..i] + Taken(chunks[i..])
    ensures Taken(chunks) == chunks[..i + 1] + Taken(chunks[i + 1..])
  {
    var before, rest := chunks[..i], chunks[i + 1..];
    assert chunks[i..] == [chunks[i]] + rest && chunks[..i + 1] == before + [chunks[i]];
    TakenMoves(chunks, before, chunks[i], rest);
  }

  lemma TakenStarts(chunks: seq<seq<Byte>>)
    ensures Taken(chunks) == chunks[..0] + Taken(chunks[0..])
  {
    assert chunks[0..] == chunks;
  }

  lemma OneMoreRead<S>(f: (S, Block) -> S, iv: S, chunks: seq<seq<Byte>>, i: nat)
    requires i < |chunks|
    ensures UpdatedAll(f, iv, chunks[..i + 1]) == Updated(f, UpdatedAll(f, iv, chunks[..i]), chunks[i])
  {
    assert chunks[..i + 1] == chunks[..i] + [chunks[i]];
    OneMoreUpdate(f, iv, chunks[..i], chunks[i]);
  }

  method UpdateWithReads(hasher: Sha256, chunks: seq<seq<Byte>>, ghost iv: Hash)
    requires hasher.Valid() && hasher.View() == Hasher(iv, [], 0)
    modifies hasher, hasher.state, hasher.buffer
    ensures hasher.Valid() && hasher.View() == UpdatedAll(hasher.f, iv, Taken(chunks))
  {
    var i := 0;
    TakenStarts(chunks);
    while i < |chunks| && chunks[i] != []
      invariant i <= |chunks| && Taken(chunks) == chunks[..i] + Taken(chunks[i..])
      invariant hasher.Valid() && hasher.View() == UpdatedAll(hasher.f, iv, chunks[..i])
    {
      TakenExtends(chunks, i);
      OneMoreRead(hasher.f, iv, chunks, i);
      hasher.Update(chunks[i]);
      i := i + 1;
    }
    TakenEnds(chunks, i);
  }

  /** The digest of a file given as what its reads return. */
  method HashStableManagedFile(chunks: seq<seq<Byte>>) returns (digest: string)
    ensures
      var taken := Taken(chunks);
      AllAppend(taken) && |Concat(taken)| < MAX_MESSAGE ==> digest == Hex(Digest(Concat(taken)))
    ensures digest == Hex(Finalized(Compress, UpdatedAll(Compress, InitialHash(), Taken(chunks))))
  {
    var hasher := new Sha256();
    UpdateWithReads(hasher, chunks, InitialHash());
    digest := hasher.FinalizeHex();
    if AllAppend(Taken(chunks)) && |Concat(Taken(chunks))| < MAX_MESSAGE {
      StreamedDigest(Compress, InitialHash(), Taken(chunks));
    }
  }
}
