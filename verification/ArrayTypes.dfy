// Array types and how they hang together (lib/sema/Sema.cpp:171-228,
// lib/data/ast/ArrayTypeNode.cpp).
module ArrayTypes {
  import opened Wrappers

  datatype Member = Scalar(kind: nat) | Array(id: nat)

  // lengths and types run over all dimensions: types[k] is what k + 1 indices select.
  // A length of 0 stands for an open dimension.
  datatype Node = Node(lengths: seq<nat>, types: seq<Member>, base: Option<nat>)

  // An array type of n dimensions knows the n - 1 array types below it.
  ghost predicate Chained(heap: seq<Node>, j: nat)
    requires j < |heap|
  {
    && |heap[j].lengths| == |heap[j].types| > 0
    && heap[j].types[|heap[j].types| - 1].Scalar?
    && forall k :: 0 <= k < |heap[j].types| - 1 ==> Below(heap, j, k)
  }

  ghost predicate Below(heap: seq<Node>, j: nat, k: nat)
    requires j < |heap| && |heap[j].lengths| == |heap[j].types| && k < |heap[j].types| - 1
  {
    && heap[j].types[k].Array? && heap[j].types[k].id < j
    && heap[heap[j].types[k].id].lengths == heap[j].lengths[k + 1..]
    && heap[heap[j].types[k].id].types == heap[j].types[k + 1..]
  }

  // The last dimensions of the base are those of the type: the dope vector of the base,
  // shifted, is the dope vector of the type.
  ghost predicate Based(heap: seq<Node>, j: nat)
    requires j < |heap|
  {
    match heap[j].base
    case None => true
    case Some(b) =>
      && b < |heap| && |heap[j].lengths| <= |heap[b].lengths|
      && heap[b].lengths[|heap[b].lengths| - |heap[j].lengths|..] == heap[j].lengths
  }

  ghost predicate AllChained(heap: seq<Node>) {
    forall j :: 0 <= j < |heap| ==> Chained(heap, j)
  }

  ghost predicate AllBased(heap: seq<Node>) {
    forall j :: 0 <= j < |heap| ==> Based(heap, j)
  }

  predicate IsOpen(n: Node) {
    n.lengths != [] && n.lengths[0] == 0
  }

  // j itself or a type below it.
  ghost predicate Within(heap: seq<Node>, i: nat, j: nat)
    requires j < |heap|
  {
    i == j || Array(i) in heap[j].types
  }

  // After some indices, the selected type has the remaining lengths.
  lemma {:induction false} SelectedType(heap: seq<Node>, j: nat, n: nat)
    requires j < |heap| && Chained(heap, j) && 0 < n <= |heap[j].types|
    ensures n < |heap[j].types| ==> heap[j].types[n - 1].Array? && heap[j].types[n - 1].id < |heap|
    ensures n < |heap[j].types| ==> heap[heap[j].types[n - 1].id].lengths == heap[j].lengths[n..]
    ensures n == |heap[j].types| ==> heap[j].types[n - 1].Scalar?
  {
    if n < |heap[j].types| {
      assert Below(heap, j, n - 1);
    }
  }

  // Types below a type below are below.
  lemma {:induction false} WithinTransitive(heap: seq<Node>, h: nat, i: nat, j: nat)
    requires j < |heap| && Chained(heap, j) && i < |heap| && Within(heap, i, j) && Within(heap, h, i)
    ensures Within(heap, h, j)
  {
    if i != j {
      var k :| 0 <= k < |heap[j].types| && heap[j].types[k] == Array(i);
      assert Below(heap, j, k);
      assert forall m :: 0 <= m < |heap[i].types| ==> heap[i].types[m] == heap[j].types[k + 1 + m];
    }
  }

  class Context {
    var heap: seq<Node>

    constructor ()
      ensures heap == []
    {
      heap := [];
    }

    // Sema::onArrayType, after its checks: one new type for each length.
    method OnArrayType(values: seq<nat>, member: Member) returns (j: nat)
      requires AllChained(heap) && AllBased(heap) && (member.Array? ==> member.id < |heap|)
      modifies this
      ensures AllChained(heap) && AllBased(heap)
      ensures old(|heap|) <= j == |heap| - 1
      ensures heap[j].lengths == (if values == [] then [0] else values) + (if member.Array? then old(heap)[member.id].lengths else [])
      ensures forall i :: 0 <= i < |heap| && Within(heap, i, j) ==> heap[i].base == Some(j)
      ensures forall i :: 0 <= i < |old(heap)| ==> heap[i] == old(heap)[i] || heap[i] == old(heap)[i].(base := Some(j))
    {
      hide AllChained, AllBased, Within;
      ghost var first := heap;
      j := NestTypes(if values == [] then [0] else values, member);
      ghost var before := heap;
      ChainedSuffixes(heap, j);
      SetBase(j, j);
      NewBase(before, heap, j);
      forall i | 0 <= i < |first| ensures heap[i] == first[i] || heap[i] == first[i].(base := Some(j)) {
        assert before[i] == before[..|first|][i] == first[i];
      }
    }

    // The loop of onArrayType, from the innermost length out (Sema.cpp:220-224).
    method NestTypes(dims: seq<nat>, member: Member) returns (j: nat)
      requires AllChained(heap) && AllBased(heap) && (member.Array? ==> member.id < |heap|) && dims != []
      modifies this
      ensures AllChained(heap) && AllBased(heap)
      ensures |old(heap)| <= j == |heap| - 1 && heap[..|old(heap)|] == old(heap)
      ensures heap[j].lengths == dims + (if member.Array? then old(heap)[member.id].lengths else [])
    {
      hide AllChained, AllBased;
      ghost var first := heap;
      ghost var inner := if member.Array? then heap[member.id].lengths else [];
      var lengths: seq<nat> := [];
      var types: seq<Member> := [];
      var typ := member;
      if member.Array? {
        lengths, types := heap[member.id].lengths, heap[member.id].types;
      }
      var i := |dims|;
      assert lengths == dims[i..] + inner;
      while i > 0
        invariant 0 <= i <= |dims|
        invariant AllChained(heap) && AllBased(heap) && |first| <= |heap| && heap[..|first|] == first
        invariant typ.Array? ==> typ.id < |heap| && heap[typ.id].lengths == lengths && heap[typ.id].types == types
        invariant typ.Scalar? ==> lengths == [] && types == []
        invariant lengths == dims[i..] + inner
        invariant i < |dims| ==> typ == Array(|heap| - 1) && |first| < |heap|
      {
        assert [dims[i - 1]] + (dims[i..] + inner) == dims[i - 1..] + inner;
        lengths := [dims[i - 1]] + lengths;
        types := [typ] + types;
        NewNode(heap, typ, dims[i - 1], Node(lengths, types, None));
        heap := heap + [Node(lengths, types, None)];
        typ := Array(|heap| - 1);
        i := i - 1;
      }
      j := typ.id;
      assert dims[0..] == dims;
    }

    // ArrayTypeNode::setBase (ArrayTypeNode.cpp:29-36)
    method SetBase(j: nat, b: nat)
      requires j < |heap| && AllChained(heap)
      modifies this
      ensures AllChained(heap) && SameButBase(old(heap), heap)
      ensures forall i :: 0 <= i < |heap| ==> heap[i].base == if Within(heap, i, j) then Some(b) else old(heap[i].base)
      decreases j
    {
      hide Chained;
      heap := heap[j := heap[j].(base := Some(b))];
      RebasedChained(old(heap), heap);
      for k := 0 to |heap[j].types|
        invariant j < |heap| && AllChained(heap) && SameButBase(old(heap), heap)
        invariant forall i :: 0 <= i < |heap| ==>
          heap[i].base == if Marked(heap, i, j, k, b) then Some(b) else old(heap[i].base)
      {
        ghost var before := heap;
        if heap[j].types[k].Array? {
          BelowSmaller(heap, j, k);
          SetBase(heap[j].types[k].id, b);
        }
        MarkedNext(old(heap), before, heap, j, k, b);
      }
      AllMarked(heap, j, b);
    }
  }

  // Reached by the first k members of j.
  ghost predicate Marked(heap: seq<Node>, i: nat, j: nat, k: nat, b: nat)
    requires j < |heap| && k <= |heap[j].types|
  {
    i == j || exists m :: 0 <= m < k && Reached(heap, i, heap[j].types[m])
  }

  ghost predicate Reached(heap: seq<Node>, i: nat, t: Member) {
    t.Array? && t.id < |heap| && Within(heap, i, t.id)
  }

  ghost predicate SameButBase(a: seq<Node>, b: seq<Node>) {
    |a| == |b| && forall i :: 0 <= i < |a| ==> b[i].lengths == a[i].lengths && b[i].types == a[i].types
  }

  lemma {:induction false} RebasedChained(a: seq<Node>, b: seq<Node>)
    requires AllChained(a) && SameButBase(a, b)
    ensures AllChained(b)
  {
    forall j | 0 <= j < |b| ensures Chained(b, j) {
      assert Chained(a, j);
      forall k | 0 <= k < |b[j].types| - 1 ensures Below(b, j, k) {
        assert Below(a, j, k);
      }
    }
  }

  lemma {:induction false} BelowSmaller(heap: seq<Node>, j: nat, k: nat)
    requires j < |heap| && AllChained(heap) && k < |heap[j].types| && heap[j].types[k].Array?
    ensures heap[j].types[k].id < j
  {
    assert Chained(heap, j);
    assert Below(heap, j, k);
  }

  lemma {:induction false} MarkedNext(first: seq<Node>, a: seq<Node>, b: seq<Node>, j: nat, k: nat, base: nat)
    requires SameButBase(first, a) && SameButBase(a, b) && j < |a| && k < |a[j].types|
    requires a[j].types[k].Array? ==> a[j].types[k].id < |a|
    requires forall i :: 0 <= i < |a| ==> a[i].base == if Marked(a, i, j, k, base) then Some(base) else first[i].base
    requires a[j].types[k].Array? ==> forall i :: 0 <= i < |a| ==>
      b[i].base == if Within(b, i, a[j].types[k].id) then Some(base) else a[i].base
    requires !a[j].types[k].Array? ==> b == a
    ensures forall i :: 0 <= i < |b| ==> b[i].base == if Marked(b, i, j, k + 1, base) then Some(base) else first[i].base
  {
  }

  lemma {:induction false} AllMarked(heap: seq<Node>, j: nat, b: nat)
    requires j < |heap| && AllChained(heap)
    ensures forall i :: 0 <= i < |heap| ==> (Marked(heap, i, j, |heap[j].types|, b) <==> Within(heap, i, j))
  {
    assert Chained(heap, j);
    forall i | 0 <= i < |heap| ensures Marked(heap, i, j, |heap[j].types|, b) <==> Within(heap, i, j) {
      if Within(heap, i, j) && i != j {
        var m :| 0 <= m < |heap[j].types| && heap[j].types[m] == Array(i);
        assert Reached(heap, i, heap[j].types[m]);
      }
      if Marked(heap, i, j, |heap[j].types|, b) && i != j {
        var m :| 0 <= m < |heap[j].types| && Reached(heap, i, heap[j].types[m]);
        var t := heap[j].types[m].id;
        assert heap[j].types[m] == Array(t);
        WithinTransitive(heap, i, t, j);
      }
    }
  }

  lemma {:induction false} NewNode(heap: seq<Node>, typ: Member, length: nat, n: Node)
    requires AllChained(heap) && AllBased(heap) && n.base == None
    requires typ.Array? ==> typ.id < |heap| && n.lengths == [length] + heap[typ.id].lengths && n.types == [typ] + heap[typ.id].types
    requires typ.Scalar? ==> n.lengths == [length] && n.types == [typ]
    ensures AllChained(heap + [n]) && AllBased(heap + [n])
  {
    var h := heap + [n];
    forall j | 0 <= j < |h| ensures Chained(h, j) && Based(h, j) {
      if j < |heap| {
        assert Chained(heap, j) && Based(heap, j);
        forall k | 0 <= k < |h[j].types| - 1 ensures Below(h, j, k) {
          assert Below(heap, j, k);
        }
      } else if typ.Array? {
        assert Chained(heap, typ.id);
        forall k | 0 <= k < |n.types| - 1 ensures Below(h, j, k) {
          if k > 0 {
            assert Below(heap, typ.id, k - 1);
            assert n.lengths[k + 1..] == heap[typ.id].lengths[k..] && n.types[k + 1..] == heap[typ.id].types[k..];
          } else {
            assert n.lengths[1..] == heap[typ.id].lengths && n.types[1..] == heap[typ.id].types;
          }
        }
      }
    }
  }

  ghost predicate AllSuffixes(heap: seq<Node>, j: nat)
    requires j < |heap|
  {
    forall i :: 0 <= i < |heap| && Within(heap, i, j) ==>
      |heap[i].lengths| <= |heap[j].lengths| && heap[j].lengths[|heap[j].lengths| - |heap[i].lengths|..] == heap[i].lengths
  }

  lemma {:induction false} ChainedSuffixes(heap: seq<Node>, j: nat)
    requires j < |heap| && AllChained(heap)
    ensures AllSuffixes(heap, j)
  {
    assert Chained(heap, j);
    forall i | 0 <= i < |heap| && Within(heap, i, j)
      ensures |heap[i].lengths| <= |heap[j].lengths|
      ensures heap[j].lengths[|heap[j].lengths| - |heap[i].lengths|..] == heap[i].lengths
    {
      if i != j {
        var k :| 0 <= k < |heap[j].types| && heap[j].types[k] == Array(i);
        assert Below(heap, j, k);
      }
    }
  }

  lemma {:induction false} NewBase(a: seq<Node>, b: seq<Node>, j: nat)
    requires j < |a| && AllBased(a) && AllSuffixes(a, j) && SameButBase(a, b)
    requires forall i :: 0 <= i < |b| ==> b[i].base == if Within(b, i, j) then Some(j) else a[i].base
    ensures AllBased(b)
  {
    forall i | 0 <= i < |b| ensures Based(b, i) {
      assert Based(a, i);
      assert Within(b, i, j) <==> Within(a, i, j);
    }
  }
}
