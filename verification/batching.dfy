/**
 * Fixed-size batching of the scanned items and the summing of per-batch
 * counts, as the backfill script's `main` does them.
 */
module Batching {

  function Min(a: int, b: int): int
  {
    if a <= b then a else b
  }

  /** The number of indices `range(0, n, size)` yields. */
  function NumBatches(n: nat, size: nat): nat
    requires size > 0
  {
    (n + size - 1) / size
  }

  /** `NumBatches` is the ceiling of `n / size`. */
  lemma NumBatchesIsCeiling(n: nat, size: nat)
    requires size > 0
    ensures NumBatches(n, size) * size >= n
    ensures NumBatches(n, size) > 0 ==> (NumBatches(n, size) - 1) * size < n
  {
    var q := NumBatches(n, size);
    var r := (n + size - 1) % size;
    assert q * size + r == n + size - 1;
  }

  lemma MulMonotone(a: nat, b: nat, size: nat)
    requires a <= b
    ensures a * size <= b * size
  {
  }

  /** The j-th batch, `s[j * size : j * size + size]` (the slice stops at the end of `s`). */
  function Batch<T>(s: seq<T>, size: nat, j: nat): (b: seq<T>)
    requires size > 0 && j < NumBatches(|s|, size)
    ensures j * size < |s|
    ensures 0 < |b| <= size
    ensures j < NumBatches(|s|, size) - 1 ==> |b| == size
  {
    var nb := NumBatches(|s|, size);
    NumBatchesIsCeiling(|s|, size);
    MulMonotone(j, nb - 1, size);
    assert (j + 1) * size == j * size + size;
    assert j < nb - 1 ==> (j + 1) * size <= |s| by {
      if j < nb - 1 { MulMonotone(j + 1, nb - 1, size); }
    }
    s[j * size .. Min((j + 1) * size, |s|)]
  }

  /** The list comprehension `[s[i:i + size] for i in range(0, len(s), size)]`. */
  function Batches<T>(s: seq<T>, size: nat): (bs: seq<seq<T>>)
    requires size > 0
    ensures |bs| * size >= |s|
    ensures |bs| > 0 ==> (|bs| - 1) * size < |s|
    ensures forall j :: 0 <= j < |bs| ==> 0 < |bs[j]| <= size
    ensures forall j :: 0 <= j < |bs| - 1 ==> |bs[j]| == size
    ensures bs == [] <==> s == []
  {
    NumBatchesIsCeiling(|s|, size);
    var nb := NumBatches(|s|, size);
    assert s == [] ==> nb == 0;
    seq(nb, j requires 0 <= j < nb => Batch(s, size, j))
  }

  /** Element `i` of batch `j` is element `j * size + i` of the input. */
  lemma BatchElement<T>(s: seq<T>, size: nat, j: nat, i: nat)
    requires size > 0 && j < |Batches(s, size)| && i < |Batches(s, size)[j]|
    ensures j * size + i < |s|
    ensures Batches(s, size)[j][i] == s[j * size + i]
  {
  }

  /** Batches of two sequences of equal length have equal lengths, batch by batch. */
  lemma BatchesAligned<T, U>(s: seq<T>, t: seq<U>, size: nat)
    requires size > 0 && |s| == |t|
    ensures |Batches(s, size)| == |Batches(t, size)|
    ensures forall j :: 0 <= j < |Batches(s, size)| ==> |Batches(s, size)[j]| == |Batches(t, size)[j]|
  {
  }

  /** Flattening, in order: `Concat([b0, b1, ...]) == b0 + b1 + ...`. */
  function Concat<T>(bs: seq<seq<T>>): seq<T>
  {
    if bs == [] then [] else Concat(bs[..|bs| - 1]) + bs[|bs| - 1]
  }

  /** The first `k` batches flatten to the first `k * size` items (or all of them). */
  lemma {:induction false} ConcatBatchesPrefix<T>(s: seq<T>, size: nat, k: nat)
    requires size > 0 && k <= |Batches(s, size)|
    ensures Concat(Batches(s, size)[..k]) == s[..Min(k * size, |s|)]
  {
    var bs := Batches(s, size);
    if k == 0 {
      assert bs[..0] == [];
    } else {
      ConcatBatchesPrefix(s, size, k - 1);
      assert bs[..k][..k - 1] == bs[..k - 1];
      var lo := (k - 1) * size;
      assert lo < |s| by { MulMonotone(k - 1, |bs| - 1, size); }
      assert k * size == lo + size;
      assert bs[k - 1] == s[lo .. Min(k * size, |s|)];
      assert s[..lo] + s[lo .. Min(k * size, |s|)] == s[..Min(k * size, |s|)];
    }
  }

  /** Concatenating the batches in order reproduces the input. */
  lemma ConcatBatches<T>(s: seq<T>, size: nat)
    requires size > 0
    ensures Concat(Batches(s, size)) == s
  {
    var bs := Batches(s, size);
    ConcatBatchesPrefix(s, size, |bs|);
    assert bs[..|bs|] == bs;
    assert s[..|s|] == s;
  }

  /** The running total `total += x` over `xs`. */
  function Sum(xs: seq<nat>): nat
  {
    if xs == [] then 0 else xs[0] + Sum(xs[1..])
  }

  lemma {:induction false} SumAppend(a: seq<nat>, b: seq<nat>)
    ensures Sum(a + b) == Sum(a) + Sum(b)
  {
    if a == [] {
      assert a + b == b;
    } else {
      assert (a + b)[1..] == a[1..] + b;
      SumAppend(a[1..], b);
    }
  }

  /** A total does not depend on the order in which its terms arrive. */
  lemma {:induction false} SumReorder(xs: seq<nat>, ys: seq<nat>)
    requires multiset(xs) == multiset(ys)
    ensures Sum(xs) == Sum(ys)
  {
    if xs == [] {
      assert |ys| == |multiset(ys)| == 0;
    } else {
      var x := xs[0];
      assert x in multiset(ys);
      var i :| 0 <= i < |ys| && ys[i] == x;
      var rest := ys[..i] + ys[i + 1..];
      assert ys == ys[..i] + [x] + ys[i + 1..];
      assert xs == [x] + xs[1..];
      assert multiset(ys) == multiset(ys[..i]) + multiset{x} + multiset(ys[i + 1..]);
      assert multiset(rest) == multiset(ys[..i]) + multiset(ys[i + 1..]);
      assert multiset(xs) == multiset{x} + multiset(xs[1..]);
      assert multiset(xs[1..]) == multiset(xs) - multiset{x};
      assert multiset(rest) == multiset(ys) - multiset{x};
      SumReorder(xs[1..], rest);
      SumAppend(ys[..i] + [x], ys[i + 1..]);
      SumAppend(ys[..i], [x]);
      SumAppend(ys[..i], ys[i + 1..]);
      assert Sum([x]) == x;
    }
  }
}
