// Record types: extension, fields and layout (lib/data/ast/RecordTypeNode.cpp) and what
// the code generator makes of them (lib/codegen/llvm/LLVMIRBuilder.cpp).
module RecordTypes {
  import opened Wrappers

  // A record type extends at most one declared before it. The compiler has no id for an
  // imported record without a name.
  datatype RecordType = RecordType(base: Option<nat>, fields: seq<string>, hasId: bool)

  type Forest = r: seq<RecordType> | Grown(r) witness []

  predicate Grown(r: seq<RecordType>) {
    forall i :: 0 <= i < |r| ==> r[i].base.Some? ==> r[i].base.value < i
  }

  function Level(r: Forest, i: nat): nat
    requires i < |r|
    decreases i
  {
    if r[i].base.None? then 0 else Level(r, r[i].base.value) + 1
  }

  // RecordTypeNode::extends
  predicate Extends(r: Forest, i: nat, b: nat)
    requires i < |r|
    decreases i
  {
    if i != b && r[i].base.Some? then Extends(r, r[i].base.value, b) else i == b
  }

  // RecordTypeNode::getField: the record that declares the field, and its index there
  function GetField(r: Forest, i: nat, name: string): Option<(nat, nat)>
    requires i < |r|
    decreases i
  {
    if name in r[i].fields then Some((i, First(r[i].fields, name)))
    else if r[i].base.Some? then GetField(r, r[i].base.value, name)
    else None
  }

  function First(names: seq<string>, name: string): (k: nat)
    requires name in names
    ensures k < |names| && names[k] == name && name !in names[..k]
  {
    if names[0] == name then 0
    else
      var k := First(names[1..], name) + 1;
      assert names[..k] == [names[0]] + names[1..][..k - 1];
      k
  }

  // The field found is visible in i, and nothing nearer hides it.
  lemma {:induction false} FieldIsNearest(r: Forest, i: nat, name: string)
    requires i < |r|
    ensures match GetField(r, i, name)
      case Some((a, k)) =>
        && a < |r| && Extends(r, i, a) && k < |r[a].fields| && r[a].fields[k] == name
        && forall c: nat :: c < |r| && Extends(r, i, c) && name in r[c].fields ==> Extends(r, a, c)
      case None => forall c: nat :: c < |r| && Extends(r, i, c) ==> name !in r[c].fields
    decreases i
  {
    if name !in r[i].fields && r[i].base.Some? {
      FieldIsNearest(r, r[i].base.value, name);
    }
  }

  // Extension is a partial order, and ancestors form a line.
  lemma {:induction false} ExtendsTransitive(r: Forest, a: nat, b: nat, c: nat)
    requires a < |r| && b < |r| && Extends(r, a, b) && Extends(r, b, c)
    ensures Extends(r, a, c)
    decreases a
  {
    if a != b {
      ExtendsTransitive(r, r[a].base.value, b, c);
    }
  }

  // The ancestor of i at a level.
  function Ancestor(r: Forest, i: nat, level: nat): (a: nat)
    requires i < |r| && level <= Level(r, i)
    ensures a < |r| && Level(r, a) == level && Extends(r, i, a)
    decreases i
  {
    if level == Level(r, i) then i else Ancestor(r, r[i].base.value, level)
  }

  lemma {:induction false} ExtendsIsAncestor(r: Forest, i: nat, b: nat)
    requires i < |r| && b < |r|
    ensures Extends(r, i, b) <==> Level(r, b) <= Level(r, i) && Ancestor(r, i, Level(r, b)) == b
    decreases i
  {
    if r[i].base.Some? {
      ExtendsIsAncestor(r, r[i].base.value, b);
      if i != b && Level(r, b) == Level(r, i) {
        assert Ancestor(r, i, Level(r, b)) == i;
      }
    }
  }

  // ---------- the type test ----------

  function Id(r: Forest, i: nat): Option<nat>
    requires i < |r|
  {
    if r[i].hasId then Some(i) else None
  }

  datatype Descriptor = Descriptor(ids: seq<Option<nat>>, level: nat)

  // The ids of the ancestors, by level.
  ghost predicate Describes(r: Forest, td: Descriptor, i: nat)
    requires i < |r|
  {
    && td.level == Level(r, i) && |td.ids| == Level(r, i) + 1
    && forall l :: 0 <= l <= td.level ==>
         var a := Ancestor(r, i, l); td.ids[l] == if r[a].hasId then Some(a) else None
  }

  // The ids of the ancestors from a level on.
  ghost predicate IdsFrom(r: Forest, i: nat, low: nat, ids: seq<Option<nat>>)
    requires i < |r|
  {
    |ids| + low == Level(r, i) + 1 && forall k: nat :: k < |ids| ==> ids[k] == Id(r, Ancestor(r, i, low + k))
  }

  lemma {:induction false} OneMoreId(r: Forest, i: nat, low: nat, ids: seq<Option<nat>>)
    requires i < |r| && low > 0 && IdsFrom(r, i, low, ids)
    ensures low <= Level(r, i) + 1 && IdsFrom(r, i, low - 1, [Id(r, Ancestor(r, i, low - 1))] + ids)
  {
  }

  // The type descriptor (LLVMIRBuilder.cpp:1291-1308)
  method MakeDescriptor(r: Forest, i: nat) returns (td: Descriptor)
    requires i < |r|
    ensures Describes(r, td, i)
  {
    hide IdsFrom, Id;
    var ids: seq<Option<nat>> := [];
    var cur: nat := i;
    assert IdsFrom(r, i, Level(r, i) + 1, ids) by { NoIds(r, i); }
    while r[cur].base.Some?
      invariant cur < |r| && Level(r, cur) <= Level(r, i) && Ancestor(r, i, Level(r, cur)) == cur
      invariant IdsFrom(r, i, Level(r, cur) + 1, ids)
      decreases cur
    {
      OneMoreId(r, i, Level(r, cur) + 1, ids);
      ids := [Id(r, cur)] + ids;
      AncestorAbove(r, i, cur);
      cur := r[cur].base.value;
    }
    OneMoreId(r, i, Level(r, cur) + 1, ids);
    ids := [Id(r, cur)] + ids;
    td := Descriptor(ids, |ids| - 1);
    AllIds(r, i, ids);
  }

  lemma {:induction false} NoIds(r: Forest, i: nat)
    requires i < |r|
    ensures IdsFrom(r, i, Level(r, i) + 1, [])
  {
  }

  lemma {:induction false} AllIds(r: Forest, i: nat, ids: seq<Option<nat>>)
    requires i < |r| && IdsFrom(r, i, 0, ids)
    ensures |ids| > 0 && Describes(r, Descriptor(ids, |ids| - 1), i)
  {
  }

  lemma {:induction false} AncestorAbove(r: Forest, i: nat, a: nat)
    requires i < |r| && a < |r| && Level(r, a) <= Level(r, i) && Ancestor(r, i, Level(r, a)) == a && r[a].base.Some?
    ensures Ancestor(r, i, Level(r, a) - 1) == r[a].base.value
    decreases i
  {
    if Level(r, a) < Level(r, i) {
      AncestorAbove(r, r[i].base.value, a);
    }
  }

  // createTypeTest over a descriptor (LLVMIRBuilder.cpp:764-792)
  method TestDescriptor(r: Forest, td: Descriptor, ghost i: nat, s: nat) returns (b: bool)
    requires i < |r| && s < |r| && r[s].hasId && Describes(r, td, i)
    ensures b <==> Extends(r, i, s)
  {
    ExtendsIsAncestor(r, i, s);
    var level := Level(r, s);
    if level <= td.level {
      var id := td.ids[level];
      b := id == Id(r, s);
    } else {
      b := false;
    }
  }

  // createTypeTest over a value of static type l, NIL or of dynamic type dyn
  // (LLVMIRBuilder.cpp:794-819)
  method TestValue(r: Forest, tds: seq<Descriptor>, dyn: Option<nat>, l: nat, s: nat) returns (b: bool)
    requires l < |r| && s < |r| && r[s].hasId && |tds| == |r| && forall i :: 0 <= i < |r| ==> Describes(r, tds[i], i)
    requires dyn.Some? ==> dyn.value < |r| && Extends(r, dyn.value, l)
    ensures b <==> dyn.Some? && Extends(r, dyn.value, s)
  {
    if dyn.None? {
      return false;
    }
    if Extends(r, l, s) {
      ExtendsTransitive(r, dyn.value, l, s);
      b := true;
    } else {
      b := TestDescriptor(r, tds[dyn.value], dyn.value, s);
    }
  }

  // ---------- layout ----------

  // A structure as the code generator declares it; a leaf is a field of a record.
  datatype Layout = Leaf(record: nat, index: nat) | Struct(elems: seq<Layout>)

  // The base record comes first (LLVMIRBuilder.cpp:1275-1283).
  function LayoutOf(r: Forest, i: nat): Layout
    requires i < |r|
    decreases i
  {
    Struct((if r[i].base.Some? then [LayoutOf(r, r[i].base.value)] else []) + Leaves(r, i))
  }

  function Leaves(r: Forest, i: nat): seq<Layout>
    requires i < |r|
  {
    seq(|r[i].fields|, (k: nat) => Leaf(i, k))
  }

  function At(t: Layout, path: seq<nat>): Option<Layout>
    decreases |path|
  {
    if path == [] then Some(t)
    else if t.Struct? && path[0] < |t.elems| then At(t.elems[path[0]], path[1..])
    else None
  }

  // The indices that select a field (LLVMIRBuilder.cpp:479-487): they lead to it.
  method FieldPath(r: Forest, i: nat, a: nat, k: nat) returns (path: seq<nat>)
    requires i < |r| && a < |r| && Extends(r, i, a) && k < |r[a].fields|
    ensures At(LayoutOf(r, i), path) == Some(Leaf(a, k))
  {
    path := [];
    var current := Level(r, a);
    ExtendsIsAncestor(r, i, a);
    var level := current;
    while level < Level(r, i)
      invariant current <= level <= Level(r, i)
      invariant forall m :: 0 <= m < |path| ==> path[m] == 0
      invariant At(LayoutOf(r, Ancestor(r, i, level)), path) == Some(LayoutOf(r, a))
    {
      ghost var above := Ancestor(r, i, level + 1);
      AncestorAbove(r, i, above);
      assert LayoutOf(r, above).elems[0] == LayoutOf(r, Ancestor(r, i, level));
      assert ([0] + path)[1..] == path && [0] + path == path + [0];
      path := path + [0];
      level := level + 1;
    }
    var last := if current == 0 then k else k + 1;
    AtAppend(LayoutOf(r, i), path, last);
    assert LayoutOf(r, a).elems[last] == Leaf(a, k);
    assert At(Leaf(a, k), []) == Some(Leaf(a, k));
    path := path + [last];
  }

  lemma {:induction false} AtAppend(t: Layout, path: seq<nat>, x: nat)
    requires At(t, path).Some?
    ensures At(t, path + [x]) == At(At(t, path).value, [x])
    decreases |path|
  {
    if path == [] {
      assert [] + [x] == [x];
    } else {
      assert (path + [x])[1..] == path[1..] + [x];
      AtAppend(t.elems[path[0]], path[1..], x);
    }
  }

  // The fields in the order in which they lie in memory: the base's, then the record's own.
  function Slots(r: Forest, i: nat): seq<(nat, nat)>
    requires i < |r|
    decreases i
  {
    (if r[i].base.Some? then Slots(r, r[i].base.value) else []) + Own(r, i)
  }

  function Own(r: Forest, i: nat): seq<(nat, nat)>
    requires i < |r|
  {
    seq(|r[i].fields|, (k: nat) => (i, k))
  }

  // The slots are the leaves of the layout, left to right.
  function Flatten(t: Layout): seq<(nat, nat)>
    decreases t, 0
  {
    match t
    case Leaf(a, k) => [(a, k)]
    case Struct(elems) => FlattenAll(elems)
  }

  function FlattenAll(ts: seq<Layout>): seq<(nat, nat)>
    decreases ts, 0
  {
    if ts == [] then [] else Flatten(ts[0]) + FlattenAll(ts[1..])
  }

  lemma {:induction false} FlattenLeaves(r: Forest, i: nat, k: nat)
    requires i < |r| && k <= |r[i].fields|
    ensures FlattenAll(Leaves(r, i)[k..]) == Own(r, i)[k..]
    decreases |r[i].fields| - k
  {
    if k < |r[i].fields| {
      FlattenLeaves(r, i, k + 1);
      assert Leaves(r, i)[k..][1..] == Leaves(r, i)[k + 1..];
      assert Leaves(r, i)[k..][0] == Leaf(i, k);
      assert Own(r, i)[k..] == [(i, k)] + Own(r, i)[k + 1..];
    }
  }

  lemma {:induction false} SlotsAreLeaves(r: Forest, i: nat)
    requires i < |r|
    ensures Flatten(LayoutOf(r, i)) == Slots(r, i)
    decreases i
  {
    FlattenLeaves(r, i, 0);
    assert Leaves(r, i)[0..] == Leaves(r, i) && Own(r, i)[0..] == Own(r, i);
    if r[i].base.Some? {
      SlotsAreLeaves(r, r[i].base.value);
      var elems := [LayoutOf(r, r[i].base.value)] + Leaves(r, i);
      assert elems[1..] == Leaves(r, i);
    } else {
      assert [] + Leaves(r, i) == Leaves(r, i);
    }
  }

  // An inherited field has the same slot in every extension.
  lemma {:induction false} BaseSlotsComeFirst(r: Forest, i: nat, a: nat)
    requires i < |r| && a < |r| && Extends(r, i, a)
    ensures |Slots(r, a)| <= |Slots(r, i)| && Slots(r, i)[..|Slots(r, a)|] == Slots(r, a)
    decreases i
  {
    if i == a {
      assert Slots(r, i)[..|Slots(r, i)|] == Slots(r, i);
    } else {
      var b := r[i].base.value;
      BaseSlotsComeFirst(r, b, a);
      assert Slots(r, i)[..|Slots(r, b)|] == Slots(r, b);
    }
  }

  lemma {:induction false} FieldSlot(r: Forest, i: nat, a: nat, k: nat)
    requires i < |r| && a < |r| && Extends(r, i, a) && k < |r[a].fields|
    ensures var slot := |Slots(r, a)| - |r[a].fields| + k;
      0 <= slot < |Slots(r, i)| && Slots(r, i)[slot] == (a, k)
  {
    BaseSlotsComeFirst(r, i, a);
    var slot := |Slots(r, a)| - |r[a].fields| + k;
    assert Slots(r, a)[slot] == Own(r, a)[k];
    assert Slots(r, i)[..|Slots(r, a)|][slot] == Slots(r, i)[slot];
  }

  // No two fields share a slot.
  lemma {:induction false} SlotsAreDistinct(r: Forest, i: nat, s: nat, t: nat)
    requires i < |r| && s < |Slots(r, i)| && t < |Slots(r, i)|
    ensures Slots(r, i)[s].0 <= i
    ensures Slots(r, i)[s] == Slots(r, i)[t] <==> s == t
    decreases i
  {
    if r[i].base.Some? {
      var b := r[i].base.value;
      var n := |Slots(r, b)|;
      if s < n { SlotsAreDistinct(r, b, s, if t < n then t else s); }
      if t < n { SlotsAreDistinct(r, b, t, t); }
    }
  }
}
