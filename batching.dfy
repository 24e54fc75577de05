/**
 * The batcher: `batch_data(data, batch_size)` yields `data[i:i+batch_size]`
 * for `i` in `range(0, len(data), batch_size)`. Python's slice is clipped at
 * the end of the sequence, so the last batch holds the remainder.
 */
module Batching {

  function Min(a: int, b: int): int
  {
    if a <= b then a else b
  }

  /** Ceiling of n / d for a positive divisor. */
  function CeilDiv(n: nat, d: nat): nat
    requires d > 0
  {
    (n + d - 1) / d
  }

  /**
   * The batches of `data`, in order. Each step takes the clipped slice
   * `data[0:size]` and continues after it, as the generator's next `i`
   * is `i + size`.
   */
  function BatchData<T>(data: seq<T>, size: nat): (batches: seq<seq<T>>)
    requires size > 0
    ensures |batches| == 0 <==> |data| == 0
    ensures forall k :: 0 <= k < |batches| ==> 0 < |batches[k]| <= size
    decreases |data|
  {
    if |data| == 0 then []
    else
      var n := Min(size, |data|);
      [data[..n]] + BatchData(data[n..], size)
  }

  /** The concatenation of a sequence of batches. */
  function Flatten<T>(batches: seq<seq<T>>): seq<T>
  {
    if batches == [] then [] else batches[0] + Flatten(batches[1..])
  }

  /** The batches concatenate back to the input, in the original order. */
  lemma {:induction false} FlattenBatchData<T>(data: seq<T>, size: nat)
    requires size > 0
    ensures Flatten(BatchData(data, size)) == data
    decreases |data|
  {
    if |data| > 0 {
      var n := Min(size, |data|);
      var rest := BatchData(data[n..], size);
      FlattenBatchData(data[n..], size);
      assert BatchData(data, size) == [data[..n]] + rest;
      assert ([data[..n]] + rest)[1..] == rest;
      assert data[..n] + data[n..] == data;
    }
  }

  /** There are ceil(|data| / size) batches; zero for empty input. */
  lemma {:induction false} BatchCount<T>(data: seq<T>, size: nat)
    requires size > 0
    ensures |BatchData(data, size)| == CeilDiv(|data|, size)
    decreases |data|
  {
    if |data| == 0 {
      DivModUnique(size - 1, size, 0, size - 1);
    } else if |data| <= size {
      assert data[..|data|] == data && data[|data|..] == [];
      assert BatchData(data, size) == [data];
      DivModUnique(|data| + size - 1, size, 1, |data| - 1);
    } else {
      var rest := data[size..];
      assert BatchData(data, size) == [data[..size]] + BatchData(rest, size);
      BatchCount(rest, size);
      DivStep(|rest| + size - 1, size);
      assert |data| + size - 1 == (|rest| + size - 1) + size;
    }
  }

  /** Multiplying a positive divisor by a factor of at least one does not shrink it. */
  lemma MulAtLeast(x: int, d: nat)
    requires x >= 1 && d > 0
    ensures x * d >= d
  {
    assert x * d == (x - 1) * d + d;
  }

  /** Euclidean division has a unique quotient and remainder. */
  lemma DivModUnique(n: int, d: nat, q: int, r: int)
    requires d > 0 && 0 <= r < d && n == q * d + r
    ensures n / d == q && n % d == r
  {
    var q0, r0 := n / d, n % d;
    assert n == q0 * d + r0;
    assert (q0 - q) * d == r - r0;
    if q0 > q {
      MulAtLeast(q0 - q, d);
    } else if q0 < q {
      MulAtLeast(q - q0, d);
    }
  }

  lemma DivStep(m: nat, d: nat)
    requires d > 0
    ensures (m + d) / d == m / d + 1
  {
    assert m == (m / d) * d + m % d;
    assert m + d == (m / d + 1) * d + m % d;
    DivModUnique(m + d, d, m / d + 1, m % d);
  }

  /**
   * The k-th batch is the slice `data[k*size : k*size + size]`, clipped at
   * the end: the batch the generator yields for `i == k * size`.
   */
  lemma {:induction false} BatchAt<T>(data: seq<T>, size: nat, k: nat)
    requires size > 0
    requires k < |BatchData(data, size)|
    ensures k * size < |data|
    ensures BatchData(data, size)[k] == data[k * size .. Min(k * size + size, |data|)]
    decreases k
  {
    var n := Min(size, |data|);
    var rest := data[n..];
    var b := BatchData(data, size);
    assert b == [data[..n]] + BatchData(rest, size);
    var i := k * size;
    if k == 0 {
      assert i == 0;
      assert b[0] == data[0..n];
    } else {
      BatchAt(rest, size, k - 1);
      assert n == size;
      var lo := (k - 1) * size;
      var hi := Min(lo + size, |rest|);
      MulPred(k, size);
      assert lo + size == i;
      assert b[k] == BatchData(rest, size)[k - 1] == rest[lo..hi];
      assert hi + size == Min(i + size, |data|);
      SliceOfSuffix(data, size, lo, hi);
    }
  }

  /** A slice of a suffix is a slice of the whole sequence, shifted. */
  lemma SliceOfSuffix<T>(data: seq<T>, n: nat, lo: nat, hi: nat)
    requires n <= |data| && lo <= hi <= |data| - n
    ensures data[n..][lo..hi] == data[n + lo .. n + hi]
  {
  }

  lemma MulPred(k: int, d: int)
    ensures (k - 1) * d + d == k * d
  {
  }

  /** Every batch but the last is full. */
  lemma {:induction false} FullBatches<T>(data: seq<T>, size: nat)
    requires size > 0
    ensures forall k :: 0 <= k < |BatchData(data, size)| - 1 ==> |BatchData(data, size)[k]| == size
    decreases |data|
  {
    if |data| > size {
      var rest := BatchData(data[size..], size);
      FullBatches(data[size..], size);
      var b := BatchData(data, size);
      assert b == [data[..size]] + rest;
      forall k | 0 <= k < |b| - 1 ensures |b[k]| == size {
        if k > 0 {
          assert b[k] == rest[k - 1];
          assert k - 1 < |rest| - 1;
          assert |rest[k - 1]| == size;
        } else {
          assert b[0] == data[..size];
          assert |data[..size]| == size;
        }
      }
    }
  }

  /**
   * The last batch holds the remainder: `size` itself when the length is a
   * non-zero multiple of `size`.
   */
  lemma {:induction false} LastBatch<T>(data: seq<T>, size: nat)
    requires size > 0
    ensures var b := BatchData(data, size);
      |b| > 0 ==> |b[|b| - 1]| == (if |data| % size == 0 then size else |data| % size)
    decreases |data|
  {
    if |data| > size {
      var rest := BatchData(data[size..], size);
      LastBatch(data[size..], size);
      assert BatchData(data, size) == [data[..size]] + rest;
      ModStep(|data| - size, size);
    } else if |data| > 0 {
      if |data| == size {
        DivModUnique(|data|, size, 1, 0);
      } else {
        DivModUnique(|data|, size, 0, |data|);
      }
    }
  }

  lemma ModStep(m: nat, d: nat)
    requires d > 0
    ensures (m + d) % d == m % d
  {
    assert m == (m / d) * d + m % d;
    assert m + d == (m / d + 1) * d + m % d;
    DivModUnique(m + d, d, m / d + 1, m % d);
  }
}
