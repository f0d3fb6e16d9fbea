// The types an importer builds, and when they are an image of exported ones.
module SymbolImage {
  import opened Wrappers
  import opened SymbolFormat

  // A type in the importer's memory: a basic one, or a node. A node is known by its
  // address, so that a pointer's base may be set after the node is made.
  datatype Ref = Basic(kind: nat) | Node(id: nat)

  // lengths and types run over all dimensions (lib/data/ast/ArrayTypeNode.h:21-50).
  datatype INode =
    | IArray(lengths: seq<int>, types: seq<Ref>, size: int)
    | IPointer(base: Option<Ref>)
    | IProcedure(ret: Ref, params: seq<IParam>)
    | IRecord(ancestor: Option<Ref>, fields: seq<IField>, size: int)

  datatype IParam = IParam(isVar: bool, typ: Ref, index: nat)
  datatype IField = IField(name: string, typ: Ref, index: nat)

  // The importer's memory and tables, with the books of the proof: phi, the node of each
  // named type; pend, the pointer that waits for a record; open, the pointers whose base
  // is being read; orphans, those that no longer wait and have no base.
  datatype Env = Env(
    heap: seq<INode>, xrefs: map<int, Ref>, fwds: map<int, nat>, symbols: map<(string, string), Ref>,
    phi: map<nat, nat>, pend: map<nat, nat>, open: set<nat>, orphans: set<nat>)

  // ---------- images ----------

  ghost predicate Same(e: Env, t: Type, u: Ref)
    decreases t, 1
  {
    match t
    case Prim(k) => u == Basic(k)
    case Named(x) => x in e.phi && u == Node(e.phi[x]) && e.phi[x] < |e.heap|
    case _ => u.Node? && Content(e, t, u.id, false)
  }

  // Node j holds what type t says. A pointer may still wait for its base, or have lost it.
  ghost predicate Content(e: Env, t: Type, j: nat, external: bool)
    decreases t, 0
  {
    && j < |e.heap| && j !in e.open
    && match t
       case Prim(_) => false
       case Named(_) => false
       case Array(length, size, elem) =>
         && e.heap[j].IArray? && e.heap[j].size == size && |e.heap[j].types| > 0
         && Same(e, elem, e.heap[j].types[0])
         && e.heap[j].lengths == [length] + Lengths(e.heap, e.heap[j].types[0])
         && e.heap[j].types == [e.heap[j].types[0]] + Types(e.heap, e.heap[j].types[0])
       case Pointer(base) =>
         && e.heap[j].IPointer?
         && (if e.heap[j].base.Some? then Same(e, base, e.heap[j].base.value)
             else j in e.orphans || (base.Named? && base.id in e.pend && e.pend[base.id] == j))
       case Procedure(ret, params) =>
         e.heap[j].IProcedure? && Same(e, ret, e.heap[j].ret) && SameParams(e, params, e.heap[j].params)
       case Record(ancestor, size, fields) =>
         && e.heap[j].IRecord? && e.heap[j].size == size
         && (if ancestor == Prim(NOTYPE) then e.heap[j].ancestor == None
             else e.heap[j].ancestor.Some? && Same(e, ancestor, e.heap[j].ancestor.value))
         && SameFields(e, fields, e.heap[j].fields, external)
  }

  ghost predicate SameParams(e: Env, ps: seq<Parameter>, us: seq<IParam>)
    decreases ps, 0
  {
    |ps| == |us| && forall i :: 0 <= i < |ps| ==> SameParam(e, ps[i], us[i])
  }

  ghost predicate SameParam(e: Env, p: Parameter, u: IParam)
    decreases p, 0
  {
    u.isVar == p.isVar && u.index == p.seqId && Same(e, p.typ, u.typ)
  }

  ghost predicate SameFields(e: Env, fs: seq<Field>, us: seq<IField>, external: bool)
    decreases fs, 0
  {
    |fs| == |us| && forall i :: 0 <= i < |fs| ==> SameField(e, fs[i], us[i], external)
  }

  // The names of hidden fields are not kept.
  ghost predicate SameField(e: Env, f: Field, u: IField, external: bool)
    decreases f, 0
  {
    u.name == (if f.exported || external then f.name else "_") && u.index == f.seqId && Same(e, f.typ, u.typ)
  }

  // The dimensions that an array has from its elements (SymbolImporter.cpp:238-243).
  function Lengths(heap: seq<INode>, u: Ref): seq<int> {
    if u.Node? && u.id < |heap| && heap[u.id].IArray? then heap[u.id].lengths else []
  }

  function Types(heap: seq<INode>, u: Ref): seq<Ref> {
    if u.Node? && u.id < |heap| && heap[u.id].IArray? then heap[u.id].types else []
  }

  // ---------- what reading never takes back ----------

  // Only the base of a pointer is ever set, and only to what the pointer waited for.
  ghost predicate Later(e: Env, e': Env) {
    && |e.heap| <= |e'.heap|
    && (forall x :: x in e.phi ==> x in e'.phi && e'.phi[x] == e.phi[x])
    && (forall j :: 0 <= j < |e.heap| && j !in e.open ==> j !in e'.open)
    && (forall j :: 0 <= j < |e.heap| && e.heap[j] != IPointer(None) ==> e'.heap[j] == e.heap[j])
    && (forall j :: 0 <= j < |e.heap| && e.heap[j] == IPointer(None) ==> e'.heap[j].IPointer?)
    && (forall j :: j in e.orphans && j < |e.heap| ==> j in e'.orphans && e'.heap[j] == e.heap[j])
    && (forall b :: b in e.pend && e.pend[b] < |e.heap| ==> Kept(e, e', b) || Answered(e, e', b) || GivenUp(e, e', b))
    && (forall x :: x in e'.phi && x !in e.phi && e'.phi[x] < |e.heap| ==> !e.heap[e'.phi[x]].IPointer?)
  }

  ghost predicate Kept(e: Env, e': Env, b: nat) {
    b in e.pend && b in e'.pend && e'.pend[b] == e.pend[b] < |e'.heap| && e'.heap[e.pend[b]] == IPointer(None)
  }

  ghost predicate Answered(e: Env, e': Env, b: nat) {
    && b in e.pend && e.pend[b] < |e'.heap|
    && b in e'.phi && e'.phi[b] < |e'.heap| && e'.heap[e.pend[b]] == IPointer(Some(Node(e'.phi[b])))
  }

  ghost predicate GivenUp(e: Env, e': Env, b: nat) {
    b in e.pend && e.pend[b] < |e'.heap| && e.pend[b] in e'.orphans && e'.heap[e.pend[b]] == IPointer(None)
  }

  lemma {:induction false} LaterReflexive(st: St, e: Env)
    requires Waiting(st, e)
    ensures Later(e, e)
  {
  }

  lemma {:induction false} LaterTransitive(e: Env, e': Env, e'': Env)
    requires Later(e, e') && Later(e', e'')
    ensures Later(e, e'')
  {
  }

  lemma {:induction false} SameLater(e: Env, e': Env, t: Type, u: Ref)
    requires Later(e, e') && Same(e, t, u)
    ensures Same(e', t, u)
    decreases t, 1
  {
    if IsBody(t) {
      ContentLater(e, e', t, u.id, false);
    }
  }

  lemma {:induction false} ContentLater(e: Env, e': Env, t: Type, j: nat, external: bool)
    requires Later(e, e') && Content(e, t, j, external)
    ensures Content(e', t, j, external)
    decreases t, 0
  {
    match t
    case Array(_, _, elem) =>
      var u := e.heap[j].types[0];
      SameLater(e, e', elem, u);
      ElementInMemory(e, elem, u);
      assert e'.heap[j] == e.heap[j];
    case Pointer(base) =>
      if e.heap[j].base.Some? {
        SameLater(e, e', base, e.heap[j].base.value);
      } else if j !in e.orphans {
        assert Kept(e, e', base.id) || Answered(e, e', base.id) || GivenUp(e, e', base.id);
      }
    case Procedure(ret, params) =>
      SameLater(e, e', ret, e.heap[j].ret);
      ParamsLater(e, e', params, e.heap[j].params);
      assert e'.heap[j] == e.heap[j];
    case Record(ancestor, _, fields) =>
      if ancestor != Prim(NOTYPE) {
        SameLater(e, e', ancestor, e.heap[j].ancestor.value);
      }
      FieldsLater(e, e', fields, e.heap[j].fields, external);
      assert e'.heap[j] == e.heap[j];
  }

  lemma {:induction false} ElementInMemory(e: Env, t: Type, u: Ref)
    requires Same(e, t, u)
    ensures u.Node? ==> u.id < |e.heap|
  {
  }

  lemma {:induction false} ParamsLater(e: Env, e': Env, ps: seq<Parameter>, us: seq<IParam>)
    requires Later(e, e') && SameParams(e, ps, us)
    ensures SameParams(e', ps, us)
    decreases ps, 0
  {
    hide Same, Later;
    forall i | 0 <= i < |ps| ensures SameParam(e', ps[i], us[i]) {
      assert SameParam(e, ps[i], us[i]);
      ParamLater(e, e', ps[i], us[i]);
    }
  }

  lemma {:induction false} ParamLater(e: Env, e': Env, p: Parameter, u: IParam)
    requires Later(e, e') && SameParam(e, p, u)
    ensures SameParam(e', p, u)
    decreases p, 0
  {
    SameLater(e, e', p.typ, u.typ);
  }

  lemma {:induction false} FieldsLater(e: Env, e': Env, fs: seq<Field>, us: seq<IField>, external: bool)
    requires Later(e, e') && SameFields(e, fs, us, external)
    ensures SameFields(e', fs, us, external)
    decreases fs, 0
  {
    hide Same, Later;
    forall i | 0 <= i < |fs| ensures SameField(e', fs[i], us[i], external) {
      assert SameField(e, fs[i], us[i], external);
      FieldLater(e, e', fs[i], us[i], external);
    }
  }

  lemma {:induction false} FieldLater(e: Env, e': Env, f: Field, u: IField, external: bool)
    requires Later(e, e') && SameField(e, f, u, external)
    ensures SameField(e', f, u, external)
    decreases f, 0
  {
    SameLater(e, e', f.typ, u.typ);
  }

  // ---------- the invariant ----------

  predicate Numbered(st: St, x: nat) {
    x in st.xrefs || x in st.fwds
  }

  function Num(st: St, x: nat): nat
    requires Numbered(st, x)
  {
    if x in st.xrefs then st.xrefs[x] else st.fwds[x]
  }

  // The types whose node the reader knows by number: a pointer early, others when done.
  predicate Known(d: Defs, st: St, x: nat) {
    x in st.done || (x in st.xrefs && x in d && d[x].body.Pointer?)
  }

  ghost predicate Distinct(st: St) {
    forall x, y :: Numbered(st, x) && Numbered(st, y) && Num(st, x) == Num(st, y) ==> x == y
  }

  ghost predicate Injective(m: map<nat, nat>) {
    forall x, y :: x in m && y in m && m[x] == m[y] ==> x == y
  }

  ghost predicate Books(d: Defs, st: St) {
    && st.clean && TYPE < st.xref <= 128
    && (forall x :: Numbered(st, x) ==> x in d && TYPE < Num(st, x) < st.xref && Num(st, x) !in st.lost)
    && (forall n :: n in st.lost ==> TYPE < n < st.xref)
    && Distinct(st)
    && (forall x :: x in st.xrefs && x in st.fwds ==> st.xrefs[x] == st.fwds[x])
    && (forall x :: x in st.done ==> x in st.xrefs)
    && (forall x :: x in st.pending ==> Numbered(st, x) && x !in st.done && d[x].body.Record?)
    && (forall x :: x in st.fwds && x !in st.xrefs ==> x in st.pending)
  }

  ghost predicate Tables(d: Defs, st: St, e: Env) {
    && (forall x :: x in e.phi <==> Known(d, st, x))
    && (forall x :: x in e.phi ==> Numbered(st, x) && e.phi[x] < |e.heap|)
    && Injective(e.phi)
    && (forall x :: x in e.phi ==> Num(st, x) in e.xrefs && e.xrefs[Num(st, x)] == Node(e.phi[x]))
    && (forall x :: Numbered(st, x) && x !in e.phi ==> Num(st, x) !in e.xrefs)
    && (forall r :: r in e.xrefs ==> r < st.xref)
  }

  ghost predicate Waiting(st: St, e: Env) {
    && (forall b :: b in e.pend <==> b in st.pending)
    && (forall b :: b in e.pend ==> Waits(st, e, b))
    && Injective(e.pend)
    && (forall r :: r in e.fwds ==> r in st.lost || exists b :: b in e.pend && Waits(st, e, b) && Num(st, b) == r)
    && (forall n :: n in st.lost ==> n in e.fwds)
    && Orphaned(st, e)
  }

  // The pointers that have lost their base; there is none as long as the writer is whole.
  ghost predicate Orphaned(st: St, e: Env) {
    && (e.orphans == {} <==> st.whole)
    && forall j :: j in e.orphans ==> j < |e.heap| && e.heap[j] == IPointer(None) && j !in e.open
  }

  ghost predicate Waits(st: St, e: Env, b: nat)
    requires b in e.pend
  {
    && e.pend[b] < |e.heap| && e.heap[e.pend[b]] == IPointer(None) && e.pend[b] !in e.open && e.pend[b] !in e.orphans
    && Numbered(st, b) && Num(st, b) in e.fwds && e.fwds[Num(st, b)] == e.pend[b]
  }

  ghost predicate Nodes(d: Defs, e: Env) {
    && (forall j :: j in e.open ==> j < |e.heap| && e.heap[j] == IPointer(None))
    && (forall x :: x in e.phi ==> x in d && Filled(d, e, x))
  }

  ghost predicate Filled(d: Defs, e: Env, x: nat)
    requires x in d && x in e.phi
  {
    (e.phi[x] in e.open && d[x].body.Pointer?) || Content(e, d[x].body, e.phi[x], d[x].external)
  }

  // Types of other modules are declared there once they are done.
  ghost predicate Declared(d: Defs, st: St, e: Env) {
    && (forall x :: x in d && d[x].external && (d[x].modul, d[x].name) in e.symbols ==> x in st.done)
    && (forall x :: x in st.done && x in d && d[x].external ==>
          (d[x].modul, d[x].name) in e.symbols && x in e.phi && e.symbols[(d[x].modul, d[x].name)] == Node(e.phi[x]))
  }

  ghost predicate Image(d: Defs, st: St, e: Env) {
    Books(d, st) && Tables(d, st, e) && Waiting(st, e) && Nodes(d, e) && Declared(d, st, e)
  }

  // What the writer never takes back.
  ghost predicate Forth(st: St, st': St) {
    && (forall x :: x in st.xrefs ==> x in st'.xrefs && st'.xrefs[x] == st.xrefs[x])
    && (forall x :: x in st.xrefs && x !in st.done ==> x !in st'.done)
    && st.done <= st'.done
  }

  // ---------- the steps of the reader ----------

  function Alloc(e: Env, n: INode): Env {
    e.(heap := e.heap + [n])
  }

  lemma {:induction false} AllocKeeps(d: Defs, st: St, e: Env, n: INode)
    requires Image(d, st, e)
    ensures Image(d, st, Alloc(e, n)) && Later(e, Alloc(e, n))
    ensures forall x :: x in e.phi ==> e.phi[x] != |e.heap|
    ensures |e.heap| !in e.open
  {
    hide Books, Waiting, Later, Content, Same;
    AllocLater(st, e, n);
    AllocWaiting(st, e, n);
    assert Nodes(d, Alloc(e, n)) by {
      hide Tables, Declared;
      NodesLater(d, e, Alloc(e, n));
    }
  }

  lemma {:induction false} AllocWaiting(st: St, e: Env, n: INode)
    requires Waiting(st, e)
    ensures Waiting(st, Alloc(e, n))
  {
  }

  lemma {:induction false} AllocLater(st: St, e: Env, n: INode)
    requires Waiting(st, e)
    ensures Later(e, Alloc(e, n))
  {
  }

  // Records that wait for nothing new keep waiting.
  lemma {:induction false} WaitingCarries(st: St, e: Env, st': St, e': Env)
    requires Waiting(st, e) && st'.pending == st.pending && e'.pend == e.pend && e'.fwds == e.fwds
    requires st'.lost == st.lost && st'.whole == st.whole && Orphaned(st', e')
    requires forall b :: b in e.pend && Waits(st, e, b) ==> Waits(st', e', b) && Num(st', b) == Num(st, b)
    ensures Waiting(st', e')
  {
  }

  lemma {:induction false} NodesLater(d: Defs, e: Env, e': Env)
    requires Nodes(d, e) && Later(e, e')
    requires e'.phi == e.phi
    requires forall j :: j in e'.open ==> j < |e'.heap| && e'.heap[j] == IPointer(None)
    requires forall x :: x in e.phi && x in d && e.phi[x] in e.open && d[x].body.Pointer? ==> Filled(d, e', x)
    ensures Nodes(d, e')
  {
    hide Content, Later;
    forall x | x in e'.phi ensures x in d && Filled(d, e', x) {
      assert Filled(d, e, x);
      if !(e.phi[x] in e.open && d[x].body.Pointer?) {
        ContentLater(e, e', d[x].body, e.phi[x], d[x].external);
      }
    }
  }

  // A new pointer, known by number ref before its base is read (SymbolImporter.cpp:251-253).
  function OpenPointer(e: Env, ref: int, x: Option<nat>): Env {
    e.(heap := e.heap + [IPointer(None)], open := e.open + {|e.heap|}, xrefs := e.xrefs[ref := Node(|e.heap|)],
       phi := if x.Some? then e.phi[x.value := |e.heap|] else e.phi)
  }

  lemma {:induction false} OpenLater(st: St, e: Env, ref: int, x: Option<nat>)
    requires Waiting(st, e) && (x.Some? ==> x.value !in e.phi)
    ensures Later(e, OpenPointer(e, ref, x))
  {
  }

  lemma {:induction false} OpenWaiting(st: St, e: Env, st': St, ref: int, x: Option<nat>)
    requires Waiting(st, e) && st'.pending == st.pending && st'.lost == st.lost && st'.whole == st.whole
    requires forall y :: Numbered(st, y) ==> Numbered(st', y) && Num(st', y) == Num(st, y)
    ensures Waiting(st', OpenPointer(e, ref, x))
  {
  }

  lemma {:induction false} OpenNodes(d: Defs, e: Env, ref: int, x: Option<nat>)
    requires Nodes(d, e) && Later(e, OpenPointer(e, ref, x))
    requires x.Some? ==> x.value in d && d[x.value].body.Pointer?
    ensures Nodes(d, OpenPointer(e, ref, x))
  {
    hide Later;
    var e' := OpenPointer(e, ref, x);
    forall y | y in e'.phi ensures y in d && Filled(d, e', y) {
      if x != Some(y) {
        FilledLater(d, e, e', y);
      }
    }
  }

  lemma {:induction false} OpenAnonymous(d: Defs, st: St, e: Env)
    requires Image(d, st, e)
    ensures Image(d, st, OpenPointer(e, 0, None)) && Later(e, OpenPointer(e, 0, None))
    ensures forall x :: x in e.phi ==> e.phi[x] != |e.heap|
  {
    hide Books, Tables, Waiting, Nodes, Declared, Later, Content, Same;
    OpenAnonymousTables(d, st, e);
    OpenLater(st, e, 0, None);
    OpenWaiting(st, e, st, 0, None);
    OpenNodes(d, e, 0, None);
    DeclaredCarries(d, st, e, st, OpenPointer(e, 0, None));
  }

  lemma {:induction false} OpenAnonymousTables(d: Defs, st: St, e: Env)
    requires Books(d, st) && Tables(d, st, e)
    ensures Tables(d, st, OpenPointer(e, 0, None))
    ensures forall x :: x in e.phi ==> e.phi[x] != |e.heap|
  {
    hide Distinct, Injective, Known;
  }

  lemma {:induction false} EnterNumbers(d: Defs, st: St, x: nat)
    requires Books(d, st) && x in d && x !in st.xrefs && Enter(st, x).clean
    ensures Forth(st, Enter(st, x))
    ensures Numbered(Enter(st, x), x) && TYPE < Num(Enter(st, x), x) < 128
    ensures forall y :: Numbered(st, y) ==> Numbered(Enter(st, x), y) && Num(Enter(st, x), y) == Num(st, y)
    ensures forall y :: Numbered(Enter(st, x), y) ==> y == x || Numbered(st, y)
    ensures !Numbered(st, x) ==> Num(Enter(st, x), x) == st.xref
    ensures Enter(st, x).xref >= st.xref && Enter(st, x).pending == st.pending && Enter(st, x).done == st.done
    ensures Enter(st, x).lost == st.lost && Enter(st, x).whole == st.whole
  {
  }

  lemma {:induction false} EnterBooks(d: Defs, st: St, x: nat)
    requires Books(d, st) && x in d && x !in st.xrefs && Enter(st, x).clean
    ensures Books(d, Enter(st, x))
  {
    EnterNumbers(d, st, x);
    hide Distinct, Forth;
  }

  lemma {:induction false} OpenNamed(d: Defs, st: St, e: Env, x: nat)
    requires Image(d, st, e) && x in d && x !in st.xrefs && d[x].body.Pointer? && Enter(st, x).clean
    ensures Numbered(Enter(st, x), x)
    ensures var e' := OpenPointer(e, Num(Enter(st, x), x), Some(x)); Image(d, Enter(st, x), e') && Later(e, e')
  {
    hide Waiting, Nodes, Tables, Declared, Later, Content, Same, Enter;
    EnterBooks(d, st, x);
    EnterNumbers(d, st, x);
    OpenTables(d, st, e, x);
    hide Books;
    OpenLater(st, e, Num(Enter(st, x), x), Some(x));
    OpenWaiting(st, e, Enter(st, x), Num(Enter(st, x), x), Some(x));
    OpenNodes(d, e, Num(Enter(st, x), x), Some(x));
    DeclaredCarries(d, st, e, Enter(st, x), OpenPointer(e, Num(Enter(st, x), x), Some(x)));
  }

  lemma {:induction false} DeclaredCarries(d: Defs, st: St, e: Env, st': St, e': Env)
    requires Declared(d, st, e) && st'.done == st.done && e'.symbols == e.symbols
    requires forall y :: y in e.phi ==> y in e'.phi && e'.phi[y] == e.phi[y]
    ensures Declared(d, st', e')
  {
  }

  // A pointer is known by its number at once, another type when it is done.
  lemma {:induction false} EnterKnows(d: Defs, st: St, x: nat)
    requires Books(d, st) && x in d && x !in st.xrefs
    ensures forall y :: Known(d, Enter(st, x), y) <==> Known(d, st, y) || (y == x && d[x].body.Pointer?)
    ensures d[x].body.Pointer? ==> !Numbered(st, x) && Enter(st, x).xref == st.xref + 1
    ensures !Known(d, st, x) && forall y :: Numbered(st, y) ==> Num(st, y) < st.xref
  {
    hide Distinct, Num;
    assert d[x].body.Pointer? ==> x !in st.pending;
    assert x !in st.done;
    hide Books;
  }

  lemma {:induction false} OpenTables(d: Defs, st: St, e: Env, x: nat)
    requires Books(d, st) && Tables(d, st, e) && x in d && x !in st.xrefs && d[x].body.Pointer? && Enter(st, x).clean
    ensures x !in e.phi && Numbered(Enter(st, x), x)
    ensures Tables(d, Enter(st, x), OpenPointer(e, Num(Enter(st, x), x), Some(x)))
  {
    hide Books, Injective, Enter, Known;
    EnterNumbers(d, st, x);
    EnterKnows(d, st, x);
    var st' := Enter(st, x);
    var e' := OpenPointer(e, Num(st', x), Some(x));
    NewNode(e.phi, x, |e.heap|);
    forall y | Numbered(st', y) && y !in e'.phi ensures Num(st', y) !in e'.xrefs {
      assert Numbered(st, y) && Num(st, y) !in e.xrefs && Num(st, y) < st.xref;
    }
    forall y | y in e'.phi ensures Num(st', y) in e'.xrefs && e'.xrefs[Num(st', y)] == Node(e'.phi[y]) {
      if y != x { assert Num(st, y) in e.xrefs; }
    }
  }

  lemma {:induction false} NewNode(m: map<nat, nat>, x: nat, j: nat)
    requires Injective(m) && forall y :: y in m ==> m[y] != j
    ensures Injective(m[x := j])
  {
  }

  lemma {:induction false} FilledLater(d: Defs, e: Env, e': Env, y: nat)
    requires y in e.phi && y in d && Filled(d, e, y) && Later(e, e')
    requires e.phi[y] in e.open && d[y].body.Pointer? ==> e.phi[y] in e'.open
    ensures y in e'.phi && Filled(d, e', y)
  {
    if !(e.phi[y] in e.open && d[y].body.Pointer?) {
      ContentLater(e, e', d[y].body, e.phi[y], d[y].external);
    }
  }

  lemma {:induction false} EnterKeeps(d: Defs, st: St, e: Env, x: nat)
    requires Image(d, st, e) && x in d && x !in st.xrefs && !d[x].body.Pointer? && Enter(st, x).clean
    ensures Image(d, Enter(st, x), e)
  {
    hide Waiting, Nodes, Tables, Declared;
    EnterBooks(d, st, x);
    EnterNumbers(d, st, x);
    EnterTables(d, st, e, x);
    hide Books, Enter;
    EnterWaiting(st, e, Enter(st, x));
    DeclaredCarries(d, st, e, Enter(st, x), e);
  }

  lemma {:induction false} EnterTables(d: Defs, st: St, e: Env, x: nat)
    requires Books(d, st) && Tables(d, st, e) && x in d && x !in st.xrefs && !d[x].body.Pointer? && Enter(st, x).clean
    ensures Tables(d, Enter(st, x), e)
  {
    hide Books, Injective, Enter, Known;
    EnterNumbers(d, st, x);
    EnterKnows(d, st, x);
    var st' := Enter(st, x);
    forall y | Numbered(st', y) && y !in e.phi ensures Num(st', y) !in e.xrefs {
      if Numbered(st, y) {
        assert Num(st, y) !in e.xrefs;
      }
    }
  }

  lemma {:induction false} EnterWaiting(st: St, e: Env, st': St)
    requires Waiting(st, e) && st'.pending == st.pending && st'.lost == st.lost && st'.whole == st.whole
    requires forall y :: Numbered(st, y) ==> Numbered(st', y) && Num(st', y) == Num(st, y)
    ensures Waiting(st', e)
  {
  }

  // Pointer j waits for record b, whose number is ref, in place of any other pointer
  // (SymbolImporter.cpp:173-176).
  function Wait(e: Env, ref: int, b: nat, j: nat): Env {
    e.(fwds := e.fwds[ref := j], pend := e.pend[b := j], open := e.open - {j}, orphans := e.orphans + Waiter(e, b))
  }

  // The pointer that waits for b so far.
  function Waiter(e: Env, b: nat): set<nat> {
    if b in e.pend then {e.pend[b]} else {}
  }

  // j is read for the base t.
  ghost predicate Owns(d: Defs, e: Env, j: nat, t: Type) {
    j in e.open && forall x :: x in e.phi && e.phi[x] == j ==> x in d && d[x].body == Pointer(t)
  }

  lemma {:induction false} WaitLater(st: St, e: Env, ref: int, b: nat, j: nat)
    requires Waiting(st, e) && j in e.open
    ensures Later(e, Wait(e, ref, b, j))
  {
    var e' := Wait(e, ref, b, j);
    forall a | a in e.pend && e.pend[a] < |e.heap| ensures Kept(e, e', a) || GivenUp(e, e', a) {
      assert Waits(st, e, a);
    }
  }

  lemma {:induction false} WaitNodes(d: Defs, e: Env, ref: int, b: nat, j: nat)
    requires Nodes(d, e) && Later(e, Wait(e, ref, b, j)) && Owns(d, e, j, Named(b))
    ensures Nodes(d, Wait(e, ref, b, j))
  {
    hide Later;
    var e' := Wait(e, ref, b, j);
    forall y | y in e'.phi ensures y in d && Filled(d, e', y) {
      if e.phi[y] != j {
        FilledLater(d, e, e', y);
      }
    }
  }

  // st' lets b be waited for, under its number or a new one, which the old one gives way to.
  ghost predicate Awaits(st: St, st': St, b: nat) {
    && st'.pending == st.pending + {b} && st'.whole == (st.whole && b !in st.pending)
    && st'.xrefs == st.xrefs && st'.done == st.done && Numbered(st', b)
    && (forall y :: Numbered(st, y) && y != b ==> Numbered(st', y) && Num(st', y) == Num(st, y))
    && (forall y :: Numbered(st', y) ==> y == b || Numbered(st, y))
    && st'.xref >= st.xref && (Num(st', b) == st.xref || (Numbered(st, b) && Num(st', b) == Num(st, b)))
    && (Numbered(st, b) && Num(st', b) != Num(st, b) ==> b in st.pending)
    && st'.lost == st.lost + (if Numbered(st, b) && Num(st', b) != Num(st, b) then {Num(st, b)} else {})
  }

  lemma {:induction false} WaitKeeps(d: Defs, st: St, st': St, e: Env, b: nat, j: nat)
    requires Image(d, st, e) && Books(d, st') && Awaits(st, st', b) && b !in e.phi && Owns(d, e, j, Named(b))
    ensures var e' := Wait(e, Num(st', b), b, j); Image(d, st', e') && Later(e, e')
  {
    hide Books, Tables, Nodes, Declared, Later, Content, Same, Num, Numbered;
    var ref := Num(st', b);
    var e' := Wait(e, ref, b, j);
    WaitLater(st, e, ref, b, j);
    hide Waiting;
    WaitTables(d, st, st', e, b, j);
    WaitWaiting(d, st, st', e, b, j);
    WaitNodes(d, e, ref, b, j);
    DeclaredCarries(d, st, e, st', e');
  }

  lemma {:induction false} WaitTables(d: Defs, st: St, st': St, e: Env, b: nat, j: nat)
    requires Tables(d, st, e) && Books(d, st') && Awaits(st, st', b) && b !in e.phi
    ensures Tables(d, st', Wait(e, Num(st', b), b, j))
  {
  }

  lemma {:induction false} WaitWaiting(d: Defs, st: St, st': St, e: Env, b: nat, j: nat)
    requires Waiting(st, e) && Books(d, st') && Awaits(st, st', b) && Nodes(d, e) && j in e.open
    ensures Waiting(st', Wait(e, Num(st', b), b, j))
  {
    assert forall a :: Numbered(st', a) && Num(st', a) == Num(st', b) ==> a == b;
    assert forall a :: Numbered(st, a) && Num(st, a) == Num(st', b) ==> a == b;
    hide Filled, Distinct;
    assert e.heap[j] == IPointer(None) && j < |e.heap|;
    hide Books, Nodes;
    assert forall a :: a in e.pend ==> Waits(st, e, a) && e.pend[a] != j;
    NewNode(e.pend, b, j);
    hide Injective;
    OneMoreWaits(st, st', e, b, j);
  }

  lemma {:induction false} OneMoreWaits(st: St, st': St, e: Env, b: nat, j: nat)
    requires Waiting(st, e) && Awaits(st, st', b) && j < |e.heap| && e.heap[j] == IPointer(None) && j in e.open
    requires forall a :: Numbered(st', a) && Num(st', a) == Num(st', b) ==> a == b
    requires forall a :: Numbered(st, a) && Num(st, a) == Num(st', b) ==> a == b
    requires Num(st', b) !in st.lost && Injective(e.pend[b := j])
    ensures Waiting(st', Wait(e, Num(st', b), b, j))
  {
    hide Injective, Num, Numbered, Orphaned, Waits;
    var e' := Wait(e, Num(st', b), b, j);
    WaitOrphans(st, st', e, Num(st', b), b, j);
    AllWait(st, st', e, b, j);
    AllNumbered(st, e);
    forall r | r in e'.fwds && r !in st'.lost ensures exists a :: a in e'.pend && Waits(st', e', a) && Num(st', a) == r {
      if r == Num(st', b) {
        assert b in e'.pend && Waits(st', e', b);
      } else {
        var a :| a in e.pend && Waits(st, e, a) && Num(st, a) == r;
        assert a in e'.pend && Num(st', a) == r;
      }
    }
    LostWait(st, st', e, b, j);
  }

  lemma {:induction false} AllNumbered(st: St, e: Env)
    requires Waiting(st, e)
    ensures forall a :: a in e.pend ==> Numbered(st, a)
  {
    forall a | a in e.pend ensures Numbered(st, a) {
      assert Waits(st, e, a);
    }
  }

  lemma {:induction false} AllWait(st: St, st': St, e: Env, b: nat, j: nat)
    requires Waiting(st, e) && Awaits(st, st', b) && j < |e.heap| && e.heap[j] == IPointer(None) && j in e.open
    requires forall a :: Numbered(st', a) && Num(st', a) == Num(st', b) ==> a == b
    ensures var e' := Wait(e, Num(st', b), b, j); forall a :: a in e'.pend ==> Waits(st', e', a)
  {
    assert forall a :: a in e.pend && a != b ==> e.pend[a] !in Waiter(e, b);
    assert j !in e.orphans && j !in Waiter(e, b) by { if b in e.pend { assert Waits(st, e, b); } }
    hide Injective, Num, Numbered, Orphaned, Waiter;
    var e' := Wait(e, Num(st', b), b, j);
    forall a | a in e'.pend ensures Waits(st', e', a) {
      if a != b {
        assert Waits(st, e, a);
        assert Num(st', a) != Num(st', b);
      }
    }
  }

  lemma {:induction false} LostWait(st: St, st': St, e: Env, b: nat, j: nat)
    requires Waiting(st, e) && Awaits(st, st', b) && Num(st', b) !in st.lost
    ensures forall n :: n in st'.lost ==> n in Wait(e, Num(st', b), b, j).fwds
  {
    if b in e.pend { assert Waits(st, e, b); }
    hide Num, Numbered, Injective, Orphaned;
  }

  // The pointer that waited for b so far is left without a base.
  lemma {:induction false} WaitOrphans(st: St, st': St, e: Env, ref: int, b: nat, j: nat)
    requires Waiting(st, e) && Awaits(st, st', b) && j in e.open
    ensures Orphaned(st', Wait(e, ref, b, j))
  {
    hide Injective, Num, Numbered;
    if b in e.pend { assert Waits(st, e, b); }
  }

  lemma {:induction false} ReserveAwaits(d: Defs, st: St, b: nat)
    requires Books(d, st) && b in d && d[b].body.Record? && b !in st.xrefs && Reserve(st, b).clean
    ensures Awaits(st, Reserve(st, b), b) && Books(d, Reserve(st, b)) && Forth(st, Reserve(st, b))
    ensures Num(Reserve(st, b), b) == st.xref <= 127
  {
    hide Distinct, Num, Numbered, Forth;
    ReserveNumbers(d, st, b);
    ReserveDistinct(d, st, b);
    var st' := Reserve(st, b);
    assert forall x :: x in st'.xrefs && x in st'.fwds ==> x in st.fwds && st'.fwds[x] == st.fwds[x];
    assert forall n :: n in st'.lost ==> n in st.lost || (b in st.fwds && n == st.fwds[b]);
    hide Reserve;
  }

  lemma {:induction false} ReserveDistinct(d: Defs, st: St, b: nat)
    requires Books(d, st) && b !in st.xrefs
    ensures Distinct(Reserve(st, b))
    ensures forall y :: Numbered(Reserve(st, b), y) ==> Num(Reserve(st, b), y) !in Reserve(st, b).lost
  {
    ReserveNumbers(d, st, b);
    assert Reserve(st, b).lost == st.lost + if b in st.fwds then {st.fwds[b]} else {};
    hide Num, Numbered, Forth, Reserve;
  }

  lemma {:induction false} ReserveNumbers(d: Defs, st: St, b: nat)
    requires b !in st.xrefs
    ensures Numbered(Reserve(st, b), b) && Num(Reserve(st, b), b) == st.xref
    ensures forall y :: Numbered(Reserve(st, b), y) <==> y == b || Numbered(st, y)
    ensures forall y :: Numbered(st, y) && y != b ==> Num(Reserve(st, b), y) == Num(st, y)
    ensures Forth(st, Reserve(st, b)) && (Numbered(st, b) <==> b in st.fwds) && (b in st.fwds ==> st.fwds[b] == Num(st, b))
  {
  }

  lemma {:induction false} ReferAwaits(d: Defs, st: St, b: nat)
    requires Books(d, st) && b in d && d[b].body.Record? && b in st.xrefs && b !in st.done
    ensures Awaits(st, Refer(d, st, b, true), b) && Books(d, Refer(d, st, b, true)) && Forth(st, Refer(d, st, b, true))
  {
    var st' := Refer(d, st, b, true);
    assert Numbered(st', b) && forall y :: Numbered(st', y) <==> Numbered(st, y);
    assert forall y :: Numbered(st, y) ==> Num(st', y) == Num(st, y);
    hide Num, Numbered, Distinct, Forth;
  }

  // The base of pointer j is u (SymbolImporter.cpp:255-257).
  function SetBase(e: Env, j: nat, u: Ref): Env
    requires j < |e.heap|
  {
    e.(heap := e.heap[j := IPointer(Some(u))], open := e.open - {j})
  }

  lemma {:induction false} BaseLater(st: St, e: Env, j: nat, u: Ref)
    requires Waiting(st, e) && j in e.open && j < |e.heap| && e.heap[j] == IPointer(None)
    ensures Later(e, SetBase(e, j, u))
  {
  }

  lemma {:induction false} BaseKeeps(d: Defs, st: St, e: Env, j: nat, t: Type, u: Ref)
    requires Image(d, st, e) && Owns(d, e, j, t) && Same(e, t, u)
    ensures j < |e.heap|
    ensures var e' := SetBase(e, j, u); Image(d, st, e') && Later(e, e') && Content(e', Pointer(t), j, false)
  {
    hide Books, Tables, Waiting, Declared, Later, Same;
    var e' := SetBase(e, j, u);
    BaseLater(st, e, j, u);
    SameLater(e, e', t, u);
    BaseNodes(d, e, j, t, u);
    hide Nodes, Content;
    BaseWaiting(st, e, j, u);
    DeclaredCarries(d, st, e, st, e');
    BaseTables(d, st, e, j, u);
  }

  lemma {:induction false} BaseWaiting(st: St, e: Env, j: nat, u: Ref)
    requires Waiting(st, e) && j in e.open && j < |e.heap|
    ensures Waiting(st, SetBase(e, j, u))
  {
  }

  lemma {:induction false} BaseTables(d: Defs, st: St, e: Env, j: nat, u: Ref)
    requires Tables(d, st, e) && j < |e.heap|
    ensures Tables(d, st, SetBase(e, j, u))
  {
  }

  lemma {:induction false} BaseNodes(d: Defs, e: Env, j: nat, t: Type, u: Ref)
    requires Nodes(d, e) && Owns(d, e, j, t) && j < |e.heap|
    requires Later(e, SetBase(e, j, u)) && Same(SetBase(e, j, u), t, u)
    ensures Nodes(d, SetBase(e, j, u))
  {
    hide Later, Same;
    var e' := SetBase(e, j, u);
    forall y | y in e'.phi ensures y in d && Filled(d, e', y) {
      if e.phi[y] != j {
        FilledLater(d, e, e', y);
      }
    }
  }

  // A finished type is declared in its module, gets its number and becomes the base of
  // the pointer that waits for it (SymbolImporter.cpp:202-223).
  function Settle(d: Defs, e: Env, ref: int, x: nat, j: nat): Env
    requires x in d && (x in e.pend ==> e.pend[x] < |e.heap|)
  {
    var e1 := Declare(d, e, x, j).(xrefs := e.xrefs[ref := Node(j)], phi := e.phi[x := j]);
    if x in e.pend then
      e1.(heap := e.heap[e.pend[x] := IPointer(Some(Node(j)))], fwds := e.fwds - {ref}, pend := e.pend - {x})
    else e1
  }

  function Declare(d: Defs, e: Env, x: nat, j: nat): Env
    requires x in d
  {
    if d[x].external then e.(symbols := e.symbols[(d[x].modul, d[x].name) := Node(j)]) else e
  }

  lemma {:induction false} SettleLater(d: Defs, st: St, e: Env, ref: int, x: nat, j: nat)
    requires Waiting(st, e) && x in d && x !in e.phi && j < |e.heap| && !e.heap[j].IPointer?
    ensures x in e.pend ==> e.pend[x] < |e.heap|
    ensures Later(e, Settle(d, e, ref, x, j))
  {
    hide Content, Same;
    var e' := Settle(d, e, ref, x, j);
    if x in e.pend {
      assert Waits(st, e, x);
      SettleShape(d, e, ref, x, j);
      assert e'.phi == e.phi[x := j];
      hide Settle;
      AnswerLater(st, e, e', x, j);
    } else {
      forall a | a in e.pend && e.pend[a] < |e.heap| ensures Kept(e, e', a) {
        assert Waits(st, e, a);
      }
    }
  }

  lemma {:induction false} AnswerLater(st: St, e: Env, e': Env, x: nat, j: nat)
    requires Waiting(st, e) && x in e.pend && e.pend[x] < |e.heap|
    requires x !in e.phi && j < |e.heap| && !e.heap[j].IPointer?
    requires e'.pend == e.pend - {x} && e'.phi == e.phi[x := j] && e'.open == e.open
    requires e'.orphans == e.orphans && Waits(st, e, x)
    requires e'.heap == e.heap[e.pend[x] := IPointer(Some(Node(j)))]
    ensures Later(e, e')
  {
    forall a | a in e.pend && e.pend[a] < |e.heap| ensures Kept(e, e', a) || Answered(e, e', a) {
      assert Waits(st, e, a);
      if a == x {
        assert e'.heap[e.pend[a]] == IPointer(Some(Node(j)));
      } else {
        assert e'.heap[e.pend[a]] == IPointer(None);
      }
    }
  }

  // j holds x and is nobody else's.
  ghost predicate Ready(d: Defs, st: St, e: Env, x: nat, j: nat) {
    && x in d && x in st.xrefs && x !in st.done && !d[x].body.Pointer?
    && Content(e, d[x].body, j, d[x].external) && forall y :: y in e.phi ==> e.phi[y] != j
  }

  lemma {:induction false} SettleKeeps(d: Defs, st: St, e: Env, x: nat, j: nat)
    requires DefsOk(d) && Image(d, st, e) && Ready(d, st, e, x, j)
    ensures x in e.pend ==> e.pend[x] < |e.heap|
    ensures var e' := Settle(d, e, st.xrefs[x], x, j); Image(d, Leave(st, x), e') && Later(e, e')
  {
    hide Books, Waiting, Nodes, Declared, Later, Same, TypeOk, DefsOk, Settle, Leave;
    assert x !in e.phi;
    assert !e.heap[j].IPointer? && j < |e.heap|;
    hide Content, Tables;
    SettleLater(d, st, e, st.xrefs[x], x, j);
    LeaveBooks(d, st, x);
    SettleTables(d, st, e, x, j);
    SettleWaiting(d, st, e, x, j);
    SettleNodes(d, st, e, x, j);
    SettleDeclared(d, st, e, x, j);
  }

  lemma {:induction false} LeaveBooks(d: Defs, st: St, x: nat)
    requires Books(d, st) && x in st.xrefs
    ensures Books(d, Leave(st, x))
  {
    LeaveNumbers(d, st, x);
  }

  lemma {:induction false} LeaveNumbers(d: Defs, st: St, x: nat)
    ensures forall y :: Numbered(Leave(st, x), y) <==> Numbered(st, y)
    ensures forall y :: Numbered(st, y) ==> Num(Leave(st, x), y) == Num(st, y)
    ensures x in st.xrefs ==> forall y :: Known(d, Leave(st, x), y) <==> y == x || Known(d, st, y)
    ensures Leave(st, x).xref == st.xref && Leave(st, x).pending == st.pending - {x}
    ensures Leave(st, x).lost == st.lost && Leave(st, x).whole == st.whole
  {
  }

  lemma {:induction false} SettleTables(d: Defs, st: St, e: Env, x: nat, j: nat)
    requires Books(d, st) && Tables(d, st, e) && Ready(d, st, e, x, j) && x !in e.phi
    requires x in e.pend ==> e.pend[x] < |e.heap|
    ensures Tables(d, Leave(st, x), Settle(d, e, st.xrefs[x], x, j))
  {
    hide Same;
    assert j < |e.heap|;
    hide Content;
    LeaveNumbers(d, st, x);
    hide Leave, Known;
    assert Numbered(st, x) && Num(st, x) == st.xrefs[x] < st.xref;
    assert forall y :: Numbered(st, y) && Num(st, y) == Num(st, x) ==> y == x;
    hide Distinct, Books, Num, Numbered;
    TablesGrow(d, st, e, Leave(st, x), Settle(d, e, st.xrefs[x], x, j), x, j);
  }

  lemma {:induction false} TablesGrow(d: Defs, st: St, e: Env, st': St, e': Env, x: nat, j: nat)
    requires Tables(d, st, e) && Numbered(st, x) && st'.xref == st.xref && Num(st, x) < st.xref && x !in e.phi
    requires forall y :: Numbered(st, y) && Num(st, y) == Num(st, x) ==> y == x
    requires forall y :: Numbered(st', y) <==> Numbered(st, y)
    requires forall y :: Numbered(st, y) ==> Num(st', y) == Num(st, y)
    requires forall y :: Known(d, st', y) <==> y == x || Known(d, st, y)
    requires j < |e.heap| == |e'.heap| && forall y :: y in e.phi ==> e.phi[y] != j
    requires e'.phi == e.phi[x := j] && e'.xrefs == e.xrefs[Num(st, x) := Node(j)]
    ensures Tables(d, st', e')
  {
    hide Num, Numbered, Known;
    NewNode(e.phi, x, j);
    hide Injective;
    forall y | y in e'.phi ensures Num(st', y) in e'.xrefs && e'.xrefs[Num(st', y)] == Node(e'.phi[y]) {
      if y != x { assert Num(st, y) in e.xrefs; }
    }
    forall y | Numbered(st', y) && y !in e'.phi ensures Num(st', y) !in e'.xrefs {
      assert Numbered(st, y) && Num(st, y) !in e.xrefs;
    }
  }

  lemma {:induction false} SettleDeclared(d: Defs, st: St, e: Env, x: nat, j: nat)
    requires DefsOk(d) && Declared(d, st, e) && x in d && x !in e.phi && x in st.xrefs
    requires x in e.pend ==> e.pend[x] < |e.heap|
    ensures Declared(d, Leave(st, x), Settle(d, e, st.xrefs[x], x, j))
  {
    hide TypeOk;
    var e', st' := Settle(d, e, st.xrefs[x], x, j), Leave(st, x);
    assert e'.phi == e.phi[x := j] && e'.symbols == Declare(d, e, x, j).symbols;
    hide Settle;
    DeclareDeclares(d, st, e, x, j, e');
  }

  lemma {:induction false} DeclareDeclares(d: Defs, st: St, e: Env, x: nat, j: nat, e': Env)
    requires DefsOk(d) && Declared(d, st, e) && x in d && (x in e.phi ==> e.phi[x] == j)
    requires e'.phi == e.phi[x := j] && e'.symbols == Declare(d, e, x, j).symbols
    ensures Declared(d, Leave(st, x), e')
  {
  }

  lemma {:induction false} OnlyNumber(d: Defs, st: St, x: nat)
    requires Books(d, st) && x in st.xrefs
    ensures forall y :: Numbered(st, y) && Num(st, y) == st.xrefs[x] <==> y == x
    ensures st.xrefs[x] !in st.lost
  {
    assert Numbered(st, x) && Num(st, x) == st.xrefs[x];
    assert Distinct(st);
    hide Books;
  }

  lemma {:induction false} PendWaits(st: St, e: Env, x: nat)
    requires Waiting(st, e) && x in e.pend
    ensures Waits(st, e, x) && e.pend[x] < |e.heap|
  {
  }

  lemma {:induction false} SettleWaiting(d: Defs, st: St, e: Env, x: nat, j: nat)
    requires Books(d, st) && Waiting(st, e) && x in d && x in st.xrefs && x !in st.done
    ensures x in e.pend ==> e.pend[x] < |e.heap|
    ensures Waiting(Leave(st, x), Settle(d, e, st.xrefs[x], x, j))
  {
    hide Books, Distinct, Injective, Num, Numbered, Leave, Settle, Waiting, Waits;
    var ref, st' := st.xrefs[x], Leave(st, x);
    LeaveNumbers(d, st, x);
    OnlyNumber(d, st, x);
    if x in e.pend {
      PendWaits(st, e, x);
      SettleShape(d, e, ref, x, j);
      AnswerWaiting(st, e, st', Settle(d, e, ref, x, j), x, ref, j);
    } else {
      UnansweredWaiting(d, st, e, x, j);
    }
  }

  lemma {:induction false} UnansweredWaiting(d: Defs, st: St, e: Env, x: nat, j: nat)
    requires Waiting(st, e) && x in d && x in st.xrefs && x !in e.pend
    ensures Waiting(Leave(st, x), Settle(d, e, st.xrefs[x], x, j))
  {
    hide Leave, Injective, Num, Numbered;
    LeaveNumbers(d, st, x);
    assert st.pending - {x} == st.pending;
    WaitingCarries(st, e, Leave(st, x), Settle(d, e, st.xrefs[x], x, j));
  }

  lemma {:induction false} SettleShape(d: Defs, e: Env, ref: int, x: nat, j: nat)
    requires x in d && x in e.pend && e.pend[x] < |e.heap|
    ensures var e' := Settle(d, e, ref, x, j);
      && e'.pend == e.pend - {x} && e'.fwds == e.fwds - {ref} && e'.open == e.open && e'.orphans == e.orphans
      && e'.heap == e.heap[e.pend[x] := IPointer(Some(Node(j)))]
  {
  }

  lemma {:induction false} AnswerWaiting(st: St, e: Env, st': St, e': Env, x: nat, ref: int, j: nat)
    requires Waiting(st, e) && x in e.pend && Waits(st, e, x) && st'.pending == st.pending - {x}
    requires st'.lost == st.lost && st'.whole == st.whole && ref !in st.lost
    requires e'.pend == e.pend - {x} && e'.fwds == e.fwds - {ref} && e'.open == e.open && e'.orphans == e.orphans
    requires e'.heap == e.heap[e.pend[x] := IPointer(Some(Node(j)))]
    requires forall y :: Numbered(st, y) ==> Numbered(st', y) && Num(st', y) == Num(st, y)
    requires forall y :: Numbered(st, y) && Num(st, y) == ref <==> y == x
    ensures Waiting(st', e')
  {
    hide Num, Numbered;
  }

  lemma {:induction false} SettleNodes(d: Defs, st: St, e: Env, x: nat, j: nat)
    requires Waiting(st, e) && Nodes(d, e) && Ready(d, st, e, x, j) && x !in e.phi
    ensures x in e.pend ==> e.pend[x] < |e.heap|
    ensures Nodes(d, Settle(d, e, st.xrefs[x], x, j))
  {
    hide Same, Nodes;
    assert !e.heap[j].IPointer? && j < |e.heap|;
    hide Content, Later, Filled;
    if x in e.pend { assert Waits(st, e, x); }
    SettleLater(d, st, e, st.xrefs[x], x, j);
    var e' := Settle(d, e, st.xrefs[x], x, j);
    ContentLater(e, e', d[x].body, j, d[x].external);
    assert e'.phi == e.phi[x := j] && e'.open == e.open && |e'.heap| == |e.heap|;
    assert forall i :: i in e.open && i < |e.heap| ==> e'.heap[i] == e.heap[i];
    hide Settle, Waiting;
    SettledNodes(d, e, e', x, j);
  }

  lemma {:induction false} SettledNodes(d: Defs, e: Env, e': Env, x: nat, j: nat)
    requires Nodes(d, e) && Later(e, e') && x in d && Content(e', d[x].body, j, d[x].external)
    requires e'.phi == e.phi[x := j] && e'.open == e.open && |e'.heap| == |e.heap|
    requires forall i :: i in e.open && i < |e.heap| ==> e'.heap[i] == e.heap[i]
    ensures Nodes(d, e')
  {
    hide Content, Later;
    forall y | y in e'.phi ensures y in d && Filled(d, e', y) {
      if y != x {
        FilledLater(d, e, e', y);
      }
    }
  }

  // A named pointer is finished once its base is set or waited for.
  lemma {:induction false} PointerKeeps(d: Defs, st: St, e: Env, x: nat)
    requires DefsOk(d) && Image(d, st, e) && x in d && x in st.xrefs && d[x].body.Pointer? && x in e.phi
    ensures Image(d, Leave(st, x), Declare(d, e, x, e.phi[x])) && Later(e, Declare(d, e, x, e.phi[x]))
  {
    hide Tables, Waiting, Nodes, Declared, Later, Content, Same, DefsOk;
    var e', st' := Declare(d, e, x, e.phi[x]), Leave(st, x);
    assert x !in st.pending;
    LeaveBooks(d, st, x);
    hide Books;
    assert e'.phi == e.phi[x := e.phi[x]];
    DeclareDeclares(d, st, e, x, e.phi[x], e');
    hide Leave;
    DeclareLater(d, st, e, x, e.phi[x]);
    DeclareWaiting(d, st, e, x, e.phi[x]);
    DeclareTables(d, st, e, x);
    NodesDeclare(d, e, e');
  }

  lemma {:induction false} DeclareLater(d: Defs, st: St, e: Env, x: nat, j: nat)
    requires Waiting(st, e) && x in d
    ensures Later(e, Declare(d, e, x, j))
  {
    forall b | b in e.pend && e.pend[b] < |e.heap| ensures Kept(e, Declare(d, e, x, j), b) {
      assert Waits(st, e, b);
    }
  }

  lemma {:induction false} DeclareWaiting(d: Defs, st: St, e: Env, x: nat, j: nat)
    requires Waiting(st, e) && x in d && x !in st.pending
    ensures Waiting(Leave(st, x), Declare(d, e, x, j))
  {
    LeaveNumbers(d, st, x);
    hide Leave, Num, Numbered;
    WaitingCarries(st, e, Leave(st, x), Declare(d, e, x, j));
  }

  lemma {:induction false} DeclareTables(d: Defs, st: St, e: Env, x: nat)
    requires Tables(d, st, e) && x in d && x in st.xrefs && d[x].body.Pointer? && x in e.phi
    ensures Tables(d, Leave(st, x), Declare(d, e, x, e.phi[x]))
  {
    LeaveNumbers(d, st, x);
    assert Known(d, st, x);
    hide Leave, Num, Numbered, Known, Injective;
  }

  lemma {:induction false} NodesDeclare(d: Defs, e: Env, e': Env)
    requires Nodes(d, e) && Later(e, e') && e'.phi == e.phi && e'.open == e.open && e'.heap == e.heap
    ensures Nodes(d, e')
  {
    forall y | y in e'.phi ensures y in d && Filled(d, e', y) {
      FilledLater(d, e, e', y);
    }
  }

  // Number 0 belongs to no named type.
  function Unnumbered(e: Env, j: nat): Env {
    e.(xrefs := e.xrefs[0 := Node(j)])
  }

  lemma {:induction false} UnnumberedKeeps(d: Defs, st: St, e: Env, j: nat)
    requires Image(d, st, e)
    ensures Image(d, st, Unnumbered(e, j)) && Later(e, Unnumbered(e, j)) && 0 !in e.fwds
  {
    hide Tables, Nodes, Waiting, Distinct, Later, Same, Content;
    UnnumberedWaiting(st, e, j);
    assert 0 !in e.fwds by {
      if 0 in e.fwds {
        SomebodyWaits(st, e, 0);
      }
    }
    UnnumberedTables(d, st, e, j);
    NodesDeclare(d, e, Unnumbered(e, j));
  }

  lemma {:induction false} SomebodyWaits(st: St, e: Env, r: int)
    requires Waiting(st, e) && r in e.fwds && r !in st.lost
    ensures exists b :: b in e.pend && Numbered(st, b) && Num(st, b) == r
  {
  }

  lemma {:induction false} UnnumberedWaiting(st: St, e: Env, j: nat)
    requires Waiting(st, e)
    ensures Waiting(st, Unnumbered(e, j)) && Later(e, Unnumbered(e, j))
  {
    hide Same, Content, Injective;
    var e' := Unnumbered(e, j);
    forall b | b in e.pend && e.pend[b] < |e.heap| ensures Kept(e, e', b) {
      assert Waits(st, e, b);
    }
    WaitingCarries(st, e, st, e');
  }

  lemma {:induction false} UnnumberedTables(d: Defs, st: St, e: Env, j: nat)
    requires Books(d, st) && Tables(d, st, e)
    ensures Tables(d, st, Unnumbered(e, j))
  {
  }

  lemma {:induction false} WaitsOrNot(d: Defs, st: St, e: Env, x: nat)
    requires Books(d, st) && Waiting(st, e) && Numbered(st, x)
    ensures x in e.pend <==> Num(st, x) in e.fwds
    ensures x in e.pend ==> e.fwds[Num(st, x)] == e.pend[x] < |e.heap|
  {
  }

  // The five parts of the invariant, and back.
  lemma {:induction false} Parts(d: Defs, st: St, e: Env)
    requires Image(d, st, e)
    ensures Books(d, st) && Tables(d, st, e) && Waiting(st, e) && Nodes(d, e) && Declared(d, st, e)
  {
  }
}
