/**
 * Cutting a file buffer into fixed-size chunks (stageFileData in
 * connection.js): chunk i is the slice that starts at i * chunkSize and is
 * chunkSize long, clipped at the end of the buffer, and there are
 * ceil(length / chunkSize) of them.
 *
 * Offsets are built by repeated addition (Offset) so that the proofs that
 * use them stay linear; OffsetIsProduct and NumChunksIsCeil tie them to the
 * products and the rounded-up quotient the source computes.
 */
module Chunks {
  import opened Messages

  type ChunkSize = n: nat | n > 0 witness 1

  /** The chunk size the connection picks: 800 bytes in Chrome, 50000 elsewhere. */
  function ChunkSizeFor(isChrome: bool): ChunkSize {
    if isChrome then 800 else 50000
  }

  function Min(a: int, b: int): int {
    if a <= b then a else b
  }

  /** i * size, the offset at which chunk i starts. */
  function Offset(i: nat, size: ChunkSize): nat {
    if i == 0 then 0 else Offset(i - 1, size) + size
  }

  lemma {:induction false} OffsetIsProduct(i: nat, size: ChunkSize)
    ensures Offset(i, size) == i * size
  {
    if i > 0 {
      OffsetIsProduct(i - 1, size);
      assert (i - 1) * size + size == i * size;
    }
  }

  lemma {:induction false} OffsetMono(i: nat, j: nat, size: ChunkSize)
    requires i <= j
    ensures Offset(i, size) <= Offset(j, size)
    decreases j
  {
    if i < j {
      OffsetMono(i, j - 1, size);
    }
  }

  /** Math.ceil(len / size): the least number of chunks of `size` that cover `len` bytes. */
  function NumChunks(len: nat, size: ChunkSize): (n: nat)
    ensures len <= Offset(n, size)
    ensures n > 0 ==> Offset(n - 1, size) < len
    ensures len == 0 <==> n == 0
    decreases len
  {
    if len == 0 then 0
    else if len <= size then 1
    else 1 + NumChunks(len - size, size)
  }

  lemma MulLe(a: nat, b: nat, c: nat)
    requires a <= b
    ensures a * c <= b * c
  {
  }

  lemma MulSucc(a: nat, c: nat)
    ensures (a + 1) * c == a * c + c
  {
  }

  /** The quotient x / size is the n with n * size <= x < (n + 1) * size. */
  lemma DivUnique(x: nat, size: ChunkSize, n: nat)
    requires n * size <= x < n * size + size
    ensures x / size == n
  {
    var q := x / size;
    assert q * size + x % size == x;
    if q > n {
      MulLe(n + 1, q, size);
      MulSucc(n, size);
    } else if q < n {
      MulLe(q + 1, n, size);
      MulSucc(q, size);
    }
  }

  /** NumChunks is the quotient len / size rounded up. */
  lemma NumChunksIsCeil(len: nat, size: ChunkSize)
    ensures NumChunks(len, size) == (len + size - 1) / size
  {
    var n := NumChunks(len, size);
    OffsetIsProduct(n, size);
    if n > 0 {
      OffsetIsProduct(n - 1, size);
      MulSucc(n - 1, size);
      DivUnique(len + size - 1, size, n);
    } else {
      DivUnique(len + size - 1, size, 0);
    }
  }

  /**
   * Buffer.slice(i * size, i * size + size): the i-th chunk. Like slice,
   * both ends are clipped to the buffer.
   */
  function Chunk<T>(b: seq<T>, size: ChunkSize, i: nat): (c: seq<T>) {
    b[Min(|b|, Offset(i, size)) .. Min(|b|, Offset(i, size) + size)]
  }

  /** The first k chunks, in index order. */
  function FirstChunks<T>(b: seq<T>, size: ChunkSize, k: nat): (cs: seq<seq<T>>)
    ensures |cs| == k
  {
    if k == 0 then [] else FirstChunks(b, size, k - 1) + [Chunk(b, size, k - 1)]
  }

  /** All chunks of a buffer, in index order. */
  function Split<T>(b: seq<T>, size: ChunkSize): seq<seq<T>> {
    FirstChunks(b, size, NumChunks(|b|, size))
  }

  /** Reassembly: the chunks laid end to end. */
  function Concat<T>(cs: seq<seq<T>>): seq<T> {
    if cs == [] then [] else Concat(cs[..|cs| - 1]) + cs[|cs| - 1]
  }

  lemma {:induction false} FirstChunksAt<T>(b: seq<T>, size: ChunkSize, k: nat, i: nat)
    requires i < k
    ensures FirstChunks(b, size, k)[i] == Chunk(b, size, i)
  {
    if i < k - 1 {
      FirstChunksAt(b, size, k - 1, i);
    }
  }

  /** Chunk i of the split is the slice Chunk describes. */
  lemma SplitAt<T>(b: seq<T>, size: ChunkSize, i: nat)
    requires i < NumChunks(|b|, size)
    ensures Split(b, size)[i] == Chunk(b, size, i)
  {
    FirstChunksAt(b, size, NumChunks(|b|, size), i);
  }

  lemma SliceJoin<T>(b: seq<T>, lo: nat, hi: nat)
    requires lo <= hi <= |b|
    ensures b[..lo] + b[lo..hi] == b[..hi]
  {
  }

  /** The first k chunks, laid end to end, are the first k * size elements of the buffer. */
  lemma {:induction false} ConcatFirst<T>(b: seq<T>, size: ChunkSize, k: nat)
    ensures Concat(FirstChunks(b, size, k)) == b[..Min(|b|, Offset(k, size))]
  {
    if k > 0 {
      var cs := FirstChunks(b, size, k);
      ConcatFirst(b, size, k - 1);
      assert cs[..k - 1] == FirstChunks(b, size, k - 1);
      assert Concat(cs) == Concat(FirstChunks(b, size, k - 1)) + Chunk(b, size, k - 1);
      var lo := Offset(k - 1, size);
      OffsetMono(k - 1, k, size);
      SliceJoin(b, Min(|b|, lo), Min(|b|, lo + size));
    }
  }

  /** Split/join round trip: concatenating the chunks gives the buffer back. */
  lemma SplitJoin<T>(b: seq<T>, size: ChunkSize)
    ensures Concat(Split(b, size)) == b
  {
    ConcatFirst(b, size, NumChunks(|b|, size));
  }

  /**
   * There are ceil(|b| / size) chunks; every chunk but the last is exactly
   * `size` long and the last is non-empty and at most `size` long; an empty
   * buffer has no chunks.
   */
  lemma ChunkLengths<T>(b: seq<T>, size: ChunkSize)
    ensures |Split(b, size)| == (|b| + size - 1) / size
    ensures |b| == 0 <==> |Split(b, size)| == 0
    ensures forall i :: 0 <= i < |Split(b, size)| - 1 ==> |Split(b, size)[i]| == size
    ensures |Split(b, size)| > 0 ==> 0 < |Split(b, size)[|Split(b, size)| - 1]| <= size
  {
    var n := NumChunks(|b|, size);
    var cs := Split(b, size);
    NumChunksIsCeil(|b|, size);
    forall i: int | 0 <= i && i + 1 < n
      ensures |cs[i]| == size
    {
      OffsetMono(i + 1, n - 1, size);
      SplitAt(b, size, i);
    }
    if n > 0 {
      SplitAt(b, size, n - 1);
    }
  }
}
