/** `tarray::distribute`: contiguous chunks of equal size, the last ones shorter or empty. */
module TArray {
  import opened Basis

  /** The chunk boundaries of `size` elements on `|d| - 1` threads. */
  ghost predicate IsDistribution(d: seq<nat>, size: nat) {
    && |d| > 1 && d[0] == 0 && d[|d| - 1] == size && Sorted(d)
    && forall t :: 0 < t < |d| - 1 && d[t] == d[t - 1] ==> d[t] == size
  }

  /** No chunk is longer than the ceiling of the mean, and all are as long as the first until the end is reached. */
  ghost predicate EqualChunks(d: seq<nat>, size: nat) {
    |d| > 1 && forall t :: 0 <= t < |d| - 1 ==> EqualChunk(d, size, t)
  }

  ghost predicate EqualChunk(d: seq<nat>, size: nat, t: nat)
    requires t + 1 < |d|
  {
    (d[t + 1] - d[t]) * (|d| - 1) < size + (|d| - 1) && (d[t + 1] == size || d[t + 1] == d[t] + d[1])
  }

  ghost predicate IsCeiling(chunk: nat, threads: nat, size: nat) {
    chunk * threads < size + threads
  }

  function Min(a: nat, b: nat): nat {
    if a < b then a else b
  }

  method Distribute(threads: nat, size: nat) returns (d: seq<nat>)
    requires threads > 0
    ensures |d| == threads + 1 && IsDistribution(d, size) && EqualChunks(d, size)
  {
    hide EqualChunks, IsCeiling;
    var chunk := (size + threads - 1) / threads;
    ChunksCover(threads, size, chunk);
    d := seq(threads + 1, _ => 0);
    for t := 1 to threads
      invariant |d| == threads + 1
      invariant forall s :: 0 <= s < t ==> d[s] == Min(Multiple(chunk, s), size)
    {
      d := d[t := Multiple(chunk, t)];
      if d[t] > size {
        d := d[t := size];
      }
    }
    d := d[threads := size];
    forall s | 0 <= s <= threads
      ensures d[s] == Min(Multiple(chunk, s), size)
    {
    }
    ChunksSorted(d, chunk, size);
    ChunksEqual(d, threads, chunk, size);
  }

  lemma ShorterChunk(a: int, chunk: nat, threads: nat)
    requires a <= chunk
    ensures a * threads <= chunk * threads
  {
  }

  lemma ChunksEqual(d: seq<nat>, threads: nat, chunk: nat, size: nat)
    requires |d| == threads + 1 > 1 && IsCeiling(chunk, threads, size)
    requires forall s :: 0 <= s < |d| ==> d[s] == Min(Multiple(chunk, s), size)
    ensures EqualChunks(d, size)
  {
    forall t | 0 <= t < |d| - 1
      ensures EqualChunk(d, size, t)
    {
      MultipleMonotone(chunk, t, t + 1);
      assert d[1] == Min(Multiple(chunk, 1), size) && Multiple(chunk, 1) == chunk;
      ShorterChunk(d[t + 1] - d[t], chunk, |d| - 1);
      if Multiple(chunk, t + 1) < size {
        MultipleMonotone(chunk, 1, t + 1);
      }
    }
  }

  lemma ChunksCover(threads: nat, size: nat, chunk: nat)
    requires threads > 0 && chunk == (size + threads - 1) / threads
    ensures Multiple(chunk, threads) >= size && (chunk == 0 ==> size == 0) && IsCeiling(chunk, threads, size)
  {
    hide *;
    MultipleIsProduct(chunk, threads);
    QuotientBounds(size + threads - 1, threads);
    assert threads * chunk == chunk * threads;
    CeilingIs(chunk, threads, size);
  }

  lemma QuotientBounds(x: nat, y: nat)
    requires y > 0
    ensures x / y * y <= x < x / y * y + y
  {
    assert x == x / y * y + x % y;
  }

  lemma CeilingIs(chunk: nat, threads: nat, size: nat)
    requires chunk * threads < size + threads
    ensures IsCeiling(chunk, threads, size)
  {
  }

  lemma ChunksSorted(d: seq<nat>, chunk: nat, size: nat)
    requires |d| > 1 && (chunk == 0 ==> size == 0)
    requires forall s :: 0 <= s < |d| ==> d[s] == Min(Multiple(chunk, s), size)
    ensures Sorted(d)
    ensures forall t :: 0 < t < |d| - 1 && d[t] == d[t - 1] ==> d[t] == size
  {
    forall s, t | 0 <= s < t < |d|
      ensures d[s] <= d[t]
    {
      MultipleMonotone(chunk, s, t);
    }
  }
}
