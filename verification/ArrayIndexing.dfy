// Lowering of array indices (lib/codegen/llvm/LLVMIRBuilder.cpp:313-335, 411-456).
module ArrayIndexing {
  import opened Wrappers
  import opened ArrayTypes
  import opened Numbers

  // ---------- row-major order ----------

  function Product(lengths: seq<nat>): nat {
    if lengths == [] then 1 else lengths[0] * Product(lengths[1..])
  }

  // Where the elements that some first indices select begin, counted in elements.
  function Offset(lengths: seq<nat>, indices: seq<int>): int
    requires |indices| <= |lengths|
  {
    if indices == [] then 0
    else indices[0] * Product(lengths[1..]) + Offset(lengths[1..], indices[1..])
  }

  predicate InRange(lengths: seq<nat>, indices: seq<int>) {
    |indices| <= |lengths| && forall k :: 0 <= k < |indices| ==> 0 <= indices[k] < lengths[k]
  }

  // All elements that in-range indices select lie within the array.
  lemma {:induction false} OffsetInBounds(lengths: seq<nat>, indices: seq<int>)
    requires InRange(lengths, indices)
    ensures 0 <= Offset(lengths, indices)
    ensures Offset(lengths, indices) + Product(lengths[|indices|..]) <= Product(lengths)
  {
    if indices == [] {
      assert lengths[0..] == lengths;
    } else {
      OffsetInBounds(lengths[1..], indices[1..]);
      assert lengths[1..][|indices| - 1..] == lengths[|indices|..];
      Scale(indices[0], lengths[0], Product(lengths[1..]));
    }
  }

  lemma {:induction false} Scale(i: int, n: nat, p: nat)
    requires 0 <= i < n
    ensures 0 <= i * p && i * p + p <= n * p
  {
    MulMonotone(0, i, p);
    MulMonotone(i + 1, n, p);
    MulDistributes(i, 1, p);
  }

  // The indices of the element at place n.
  function IndicesOf(lengths: seq<nat>, n: int): seq<int>
    requires 0 <= n < Product(lengths)
  {
    if lengths == [] then []
    else
      (SplitNumber(n, lengths[0], Product(lengths[1..]));
       var p := Product(lengths[1..]);
       [n / p] + IndicesOf(lengths[1..], n % p))
  }

  lemma {:induction false} OffsetOfIndices(lengths: seq<nat>, n: int)
    requires 0 <= n < Product(lengths)
    ensures InRange(lengths, IndicesOf(lengths, n)) && |IndicesOf(lengths, n)| == |lengths|
    ensures Offset(lengths, IndicesOf(lengths, n)) == n
  {
    if lengths != [] {
      var p := Product(lengths[1..]);
      SplitNumber(n, lengths[0], p);
      OffsetOfIndices(lengths[1..], n % p);
      assert IndicesOf(lengths, n)[1..] == IndicesOf(lengths[1..], n % p);
    }
  }

  lemma {:induction false} IndicesOfOffset(lengths: seq<nat>, indices: seq<int>)
    requires InRange(lengths, indices) && |indices| == |lengths|
    ensures 0 <= Offset(lengths, indices) < Product(lengths)
    ensures IndicesOf(lengths, Offset(lengths, indices)) == indices
  {
    OffsetInBounds(lengths, indices);
    assert Product(lengths[|indices|..]) == 1;
    if indices != [] {
      IndicesOfOffset(lengths[1..], indices[1..]);
      var p, rest := Product(lengths[1..]), Offset(lengths[1..], indices[1..]);
      SplitNumber(Offset(lengths, indices), lengths[0], p);
      QuotientIs(Offset(lengths, indices), p, indices[0], rest);
      assert indices == [indices[0]] + indices[1..];
    }
  }

  // Distinct elements have distinct places.
  lemma {:induction false} NoCollisions(lengths: seq<nat>, a: seq<int>, b: seq<int>)
    requires InRange(lengths, a) && InRange(lengths, b) && |a| == |b| == |lengths|
    ensures Offset(lengths, a) == Offset(lengths, b) <==> a == b
  {
    IndicesOfOffset(lengths, a);
    IndicesOfOffset(lengths, b);
  }

  // Indexing in two steps is indexing once.
  lemma {:induction false} OffsetComposes(lengths: seq<nat>, a: seq<int>, b: seq<int>)
    requires |a| + |b| <= |lengths|
    ensures Offset(lengths, a + b) == Offset(lengths, a) + Offset(lengths[|a|..], b)
  {
    if a == [] {
      assert a + b == b && lengths[0..] == lengths;
    } else {
      assert (a + b)[1..] == a[1..] + b && (a + b)[0] == a[0];
      assert lengths[1..][|a| - 1..] == lengths[|a|..];
      OffsetComposes(lengths[1..], a[1..], b);
    }
  }

  // ---------- run-time lengths ----------

  // The lengths of an array of type n at run time: an open array has them in the dope
  // vector of its base type, shifted by the dimensions that n lacks.
  function RunLengths(n: Node, dims: nat, dope: seq<nat>): seq<nat>
    requires IsOpen(n) ==> |n.lengths| <= dims == |dope|
  {
    if IsOpen(n) then dope[dims - |n.lengths|..] else n.lengths
  }

  // A dope vector states every length that the type fixes; open dimensions come first.
  ghost predicate Describes(dope: seq<nat>, lengths: seq<nat>) {
    && |dope| == |lengths|
    && (forall k :: 0 <= k < |lengths| && lengths[k] != 0 ==> dope[k] == lengths[k])
    && forall k, l :: 0 <= k < l < |lengths| && lengths[l] == 0 ==> lengths[k] == 0
  }

  // The lengths of type n are the last of those that the array has.
  lemma {:induction false} ActualLengths(n: Node, dope: seq<nat>, actual: seq<nat>, lengths: seq<nat>)
    requires n.lengths != [] && Fits(n, dope, actual, lengths)
    ensures actual[|actual| - |n.lengths|..] == if n.lengths[0] == 0 then dope[|dope| - |n.lengths|..] else n.lengths
  {
    var s := |actual| - |n.lengths|;
    if n.lengths[0] != 0 {
      assert lengths[s] == n.lengths[0];
      forall k | 0 <= k < |n.lengths| ensures actual[s..][k] == n.lengths[k] {
        assert lengths[s + k] == n.lengths[k];
      }
      assert n.lengths == actual[s..];
    }
  }

  // An array of these actual lengths is accessed as type n, whose base type has these
  // lengths: a dope vector, if n is open, holds the actual ones.
  ghost predicate Fits(n: Node, dope: seq<nat>, actual: seq<nat>, lengths: seq<nat>) {
    && Describes(actual, lengths) && |n.lengths| <= |lengths| && lengths[|lengths| - |n.lengths|..] == n.lengths
    && (IsOpen(n) ==> dope == actual)
  }

  // What is selected by some indices has the run-time lengths that remain, read from the
  // same dope vector if its type is open. A type of fixed lengths may have been used in
  // another array type since, and so have another base by now.
  lemma {:induction false} SelectedRunLengths(heap: seq<Node>, j: nat, n: nat, b: nat, dope: seq<nat>)
    requires j < |heap| && Chained(heap, j) && Based(heap, j) && heap[j].base == Some(b) && 0 < n < |heap[j].types|
    requires Describes(dope, heap[b].lengths)
    requires var i := heap[j].types[n - 1]; i.Array? && i.id < |heap| && (IsOpen(heap[i.id]) ==> heap[i.id].base == Some(b) && Based(heap, i.id))
    ensures RunLengths(heap[heap[j].types[n - 1].id], |heap[b].lengths|, dope)
         == RunLengths(heap[j], |heap[b].lengths|, dope)[n..]
  {
    SelectedType(heap, j, n);
    var i, d := heap[j].types[n - 1].id, |heap[b].lengths|;
    var s := d - |heap[i].lengths|;
    assert heap[b].lengths[s..] == heap[i].lengths == heap[j].lengths[n..];
    if IsOpen(heap[j]) && !IsOpen(heap[i]) {
      assert heap[b].lengths[s] == heap[i].lengths[0] != 0;
      forall k | 0 <= k < |heap[i].lengths| ensures dope[s..][k] == heap[i].lengths[k] {
        assert heap[b].lengths[s + k] == heap[i].lengths[k];
      }
      assert dope[s..] == heap[i].lengths;
    }
    assert heap[b].lengths[d - |heap[j].lengths|] == heap[j].lengths[0];
    assert heap[i].lengths != [] ==> heap[b].lengths[s] == heap[i].lengths[0];
  }

  // ---------- the emitted address ----------

  // getOpenArrayLength (LLVMIRBuilder.cpp:313-323)
  method OpenArrayLength(dope: seq<nat>, n: Node, dims: nat, dim: nat) returns (length: nat)
    requires IsOpen(n) && dim < |n.lengths| <= dims == |dope|
    ensures length == RunLengths(n, dims, dope)[dim] == dope[|dope| - |n.lengths| + dim]
  {
    var delta := dims - |n.lengths|;
    length := dope[dim + delta];
  }

  // getOrLoadArrayLength (LLVMIRBuilder.cpp:325-336) with its cache.
  method OrLoadArrayLength(cache: seq<Option<nat>>, dope: seq<nat>, n: Node, dims: nat, dim: nat)
    returns (length: nat, cache': seq<Option<nat>>)
    requires dim < |n.lengths| && (IsOpen(n) ==> |n.lengths| <= dims == |dope|) && Cached(cache, RunLengths(n, dims, dope))
    ensures dim < |RunLengths(n, dims, dope)| && length == RunLengths(n, dims, dope)[dim]
    ensures Cached(cache', RunLengths(n, dims, dope))
  {
    cache' := cache;
    if cache[dim].None? {
      if IsOpen(n) {
        var l := OpenArrayLength(dope, n, dims, dim);
        cache' := cache[dim := Some(l)];
      } else {
        cache' := cache[dim := Some(n.lengths[dim])];
      }
    }
    length := cache'[dim].value;
  }

  // The cache never lies.
  ghost predicate Cached(cache: seq<Option<nat>>, run: seq<nat>) {
    |cache| == |run| && forall k :: 0 <= k < |cache| && cache[k].Some? ==> cache[k].value == run[k]
  }

  // The value that the loop over the indices emits (LLVMIRBuilder.cpp:422-449).
  method LowerIndices(n: Node, dims: nat, dope: seq<nat>, indices: seq<int>) returns (offset: int)
    requires 0 < |indices| <= |n.lengths| && (IsOpen(n) ==> |n.lengths| <= dims == |dope|)
    ensures var lengths := if n.lengths[0] == 0 then dope[|dope| - |n.lengths|..] else n.lengths;
      && |lengths| == |n.lengths| && offset == Offset(lengths, indices)
      && (InRange(lengths, indices) ==> 0 <= offset && offset + Product(lengths[|indices|..]) <= Product(lengths))
      && (InRange(lengths, indices) && |indices| == |lengths| ==> offset < Product(lengths) && IndicesOf(lengths, offset) == indices)
    ensures forall actual, lengths :: Fits(n, dope, actual, lengths) ==> offset == Offset(actual[|actual| - |n.lengths|..], indices)
  {
    hide Cached, Offset, Product, RunLengths, IndicesOf, InRange;
    ghost var run := RunLengths(n, dims, dope);
    assert run == if n.lengths[0] == 0 then dope[|dope| - |n.lengths|..] else n.lengths by { RunLengthsAre(n, dims, dope); }
    var cache: seq<Option<nat>> := seq(|n.lengths|, k => None);
    EmptyCache(n, dims, dope);
    offset := 0;
    assert Offset(run, indices[..0]) == 0 by { NoOffset(run, indices); }
    for i := 0 to |indices|
      invariant Cached(cache, run) && |run| == |n.lengths|
      invariant offset == Offset(run, indices[..i])
    {
      var addr;
      addr, cache := LowerIndex(cache, n, dims, dope, indices[i], i);
      OneMoreIndex(run, indices, i);
      offset := if i > 0 then offset + addr else addr;
    }
    assert indices[..|indices|] == indices;
    if InRange(run, indices) {
      OffsetInBounds(run, indices);
      if |indices| == |run| { IndicesOfOffset(run, indices); }
    }
    forall actual, lengths | Fits(n, dope, actual, lengths) ensures offset == Offset(actual[|actual| - |n.lengths|..], indices) {
      ActualLengths(n, dope, actual, lengths);
    }
  }

  lemma {:induction false} RunLengthsAre(n: Node, dims: nat, dope: seq<nat>)
    requires n.lengths != [] && (IsOpen(n) ==> |n.lengths| <= dims == |dope|)
    ensures RunLengths(n, dims, dope) == if n.lengths[0] == 0 then dope[|dope| - |n.lengths|..] else n.lengths
  {
  }

  lemma {:induction false} EmptyCache(n: Node, dims: nat, dope: seq<nat>)
    requires IsOpen(n) ==> |n.lengths| <= dims == |dope|
    ensures Cached(seq(|n.lengths|, k => None), RunLengths(n, dims, dope))
    ensures |RunLengths(n, dims, dope)| == |n.lengths|
  {
  }

  lemma {:induction false} NoOffset(lengths: seq<nat>, indices: seq<int>)
    requires |indices| <= |lengths|
    ensures Offset(lengths, indices[..0]) == 0
  {
  }

  // One index times the lengths behind it.
  method LowerIndex(cache: seq<Option<nat>>, n: Node, dims: nat, dope: seq<nat>, index: int, i: nat)
    returns (addr: int, cache': seq<Option<nat>>)
    requires i < |n.lengths| && (IsOpen(n) ==> |n.lengths| <= dims == |dope|)
    requires Cached(cache, RunLengths(n, dims, dope)) && |RunLengths(n, dims, dope)| == |n.lengths|
    ensures addr == index * Product(RunLengths(n, dims, dope)[i + 1..])
    ensures Cached(cache', RunLengths(n, dims, dope))
  {
    hide Cached, RunLengths, Product;
    ghost var run := RunLengths(n, dims, dope);
    addr, cache' := index, cache;
    NoProduct(run, i + 1);
    for j := i to |n.lengths| - 1
      invariant Cached(cache', run)
      invariant addr == index * Product(run[i + 1..j + 1])
    {
      var length;
      length, cache' := OrLoadArrayLength(cache', dope, n, dims, j + 1);
      ProductNext(run, i + 1, j + 1);
      addr := addr * length;
    }
    assert run[i + 1..|run|] == run[i + 1..];
  }

  lemma {:induction false} NoProduct(lengths: seq<nat>, a: nat)
    requires a <= |lengths|
    ensures Product(lengths[a..a]) == 1
  {
  }

  lemma {:induction false} ProductNext(lengths: seq<nat>, a: nat, b: nat)
    requires a <= b < |lengths|
    ensures Product(lengths[a..b + 1]) == Product(lengths[a..b]) * lengths[b]
  {
    ProductLast(lengths[a..b + 1]);
    assert lengths[a..b + 1][..b - a] == lengths[a..b];
  }

  lemma {:induction false} ProductLast(lengths: seq<nat>)
    requires lengths != []
    ensures Product(lengths) == Product(lengths[..|lengths| - 1]) * lengths[|lengths| - 1]
  {
    if |lengths| == 1 {
      assert Product(lengths[1..]) == 1 && Product(lengths[..0]) == 1;
    } else {
      var m := lengths[..|lengths| - 1];
      ProductLast(lengths[1..]);
      assert lengths[1..][..|lengths| - 2] == m[1..];
      MulAssociates(lengths[0], Product(m[1..]), lengths[|lengths| - 1]);
    }
  }

  lemma {:induction false} OneMoreIndex(lengths: seq<nat>, indices: seq<int>, i: nat)
    requires i < |indices| <= |lengths|
    ensures Offset(lengths, indices[..i + 1]) == Offset(lengths, indices[..i]) + indices[i] * Product(lengths[i + 1..])
  {
    assert indices[..i + 1] == indices[..i] + [indices[i]];
    OffsetComposes(lengths, indices[..i], [indices[i]]);
    assert lengths[i..][1..] == lengths[i + 1..];
    assert Offset(lengths[i + 1..], []) == 0;
  }

  // In-range indices never make a product or a sum leave the array, so that 64-bit
  // arithmetic does not wrap while the array has at most 2^63 - 1 elements.
  lemma {:induction false} NoOverflow(lengths: seq<nat>, indices: seq<int>, i: nat, j: nat)
    requires InRange(lengths, indices) && i < |indices| && i < j <= |lengths|
    requires forall k :: 0 <= k < |lengths| ==> lengths[k] > 0
    ensures 0 <= indices[i] * Product(lengths[i + 1..j]) < Product(lengths)
  {
    var p := Product(lengths[i + 1..j]);
    Positive(lengths[i + 1..j]);
    Scale(indices[i], lengths[i], p);
    assert lengths[i..j] == [lengths[i]] + lengths[i + 1..j];
    assert Product(lengths[i..j]) == lengths[i] * p;
    PartOfProduct(lengths, i, j);
  }

  lemma {:induction false} Positive(lengths: seq<nat>)
    requires forall k :: 0 <= k < |lengths| ==> lengths[k] > 0
    ensures Product(lengths) > 0
  {
    if lengths != [] {
      Positive(lengths[1..]);
    }
  }

  lemma {:induction false} PartOfProduct(lengths: seq<nat>, i: nat, j: nat)
    requires i <= j <= |lengths| && forall k :: 0 <= k < |lengths| ==> lengths[k] > 0
    ensures Product(lengths[i..j]) <= Product(lengths)
  {
    if i > 0 {
      PartOfProduct(lengths[1..], i - 1, j - 1);
      TailPart(lengths, i, j);
      AtLeast(lengths[0], Product(lengths[1..]));
    } else if j < |lengths| {
      ProductLast(lengths);
      PartOfProduct(lengths[..|lengths| - 1], 0, j);
      assert lengths[..|lengths| - 1][0..j] == lengths[0..j];
      AtLeast(lengths[|lengths| - 1], Product(lengths[..|lengths| - 1]));
    } else {
      assert lengths[0..j] == lengths;
    }
  }

  lemma {:induction false} TailPart(lengths: seq<nat>, i: nat, j: nat)
    requires 0 < i <= j <= |lengths|
    ensures lengths[1..][i - 1..j - 1] == lengths[i..j]
  {
  }

  lemma {:induction false} AtLeast(a: nat, b: nat)
    requires a > 0
    ensures b <= a * b && b <= b * a
  {
  }
}
