// The importer (lib/data/symtab/SymbolImporter.cpp) reads with a cursor into the file and
// builds types in place. Its contracts say: where the exporter's text stands at the
// cursor, the result is an image of the type that was written.
module SymbolImporter {
  import opened Wrappers
  import opened SymbolFormat
  import opened SymbolImage

  datatype IDecl = IDecl(node: int, name: string, typ: Ref)

  // ---------- texts ----------

  ghost predicate Stands(file: seq<Datum>, pos: nat, out: seq<Datum>) {
    pos + |out| <= |file| && file[pos..pos + |out|] == out
  }

  lemma {:induction false} Split(file: seq<Datum>, pos: nat, a: seq<Datum>, b: seq<Datum>)
    requires Stands(file, pos, a + b)
    ensures Stands(file, pos, a) && Stands(file, pos + |a|, b)
  {
    assert file[pos..pos + |a|] == (a + b)[..|a|] == a;
    assert file[pos + |a|..pos + |a| + |b|] == (a + b)[|a|..] == b;
  }

  lemma {:induction false} First(file: seq<Datum>, pos: nat, a: Datum, b: seq<Datum>)
    requires Stands(file, pos, [a] + b)
    ensures pos < |file| && file[pos] == a && Stands(file, pos + 1, b)
  {
    Split(file, pos, [a], b);
    assert file[pos..pos + 1][0] == a;
  }

  // A type as the base of a pointer, or elsewhere.
  ghost function W(d: Defs, st: St, t: Type, asBase: bool): (St, seq<Datum>) {
    if asBase then WBase(d, st, t) else WType(d, st, t, false)
  }

  ghost predicate IsReference(d: Defs, st: St, t: Type, asBase: bool) {
    t.Prim? || (t.Named? && (t.id in st.xrefs || (asBase && t.id in d && !d[t.id].external)))
  }

  ghost function ReferenceTo(st: St, t: Type): int
    requires !IsBody(t)
  {
    if t.Prim? then t.kind else if t.id in st.xrefs then st.xrefs[t.id] else st.xref
  }

  lemma {:induction false} ReferenceText(d: Defs, st: St, t: Type, asBase: bool)
    requires Books(d, st) && TypeOk(d, t) && IsReference(d, st, t, asBase) && W(d, st, t, asBase).0.clean
    requires asBase ==> IsRecord(d, t)
    ensures 0 < ReferenceTo(st, t) < 128
    ensures W(d, st, t, asBase).1 == [Char(-ReferenceTo(st, t))]
    ensures t.Prim? ==> W(d, st, t, asBase).0 == st
    ensures t.Named? && t.id in st.xrefs ==> W(d, st, t, asBase).0 == Refer(d, st, t.id, asBase)
    ensures t.Named? && t.id !in st.xrefs ==> asBase && W(d, st, t, asBase).0 == Reserve(st, t.id)
  {
    hide Distinct;
    if t.Named? && t.id in st.xrefs {
      assert Numbered(st, t.id);
      assert TYPE < Num(st, t.id) < st.xref;
      assert WType(d, st, t, asBase) == (Refer(d, st, t.id, asBase), [Char(ToInt8(-(st.xrefs[t.id] as int)))]);
    } else if asBase {
      assert WBase(d, st, t) == (Reserve(st, t.id), [Char(-ToInt8(st.xref))]);
    }
  }

  // What is written for a reference leads from st to st', and the number finds the type, or
  // a record that may be waited for.
  ghost predicate Resolved(d: Defs, st: St, e: Env, t: Type, ref: int, asBase: bool, st': St) {
    && (t.Prim? || t.Named?)
    && (t.Prim? ==> ref == t.kind && (ref == NOTYPE || SET <= ref <= STRING) && Same(e, t, Basic(ref)))
    && (t.Named? ==> ref > TYPE && (ref in e.xrefs <==> t.id in e.phi))
    && (t.Named? && t.id in e.phi ==> Same(e, t, e.xrefs[ref]))
    && (t.Prim? || t.id in e.phi ==> st' == st && Forth(st, st))
    && (t.Named? && t.id !in e.phi ==>
          asBase && Books(d, st') && Awaits(st, st', t.id) && Numbered(st', t.id) && Num(st', t.id) == ref && Forth(st, st'))
  }

  lemma {:induction false} ReferenceResolves(d: Defs, st: St, e: Env, t: Type, asBase: bool)
    requires Image(d, st, e) && TypeOk(d, t) && IsReference(d, st, t, asBase) && W(d, st, t, asBase).0.clean
    requires asBase ==> IsRecord(d, t)
    ensures Resolved(d, st, e, t, ReferenceTo(st, t), asBase, W(d, st, t, asBase).0)
  {
    hide W, Waiting, Nodes, Declared, Content, Distinct, Injective;
    ReferenceText(d, st, t, asBase);
    if t.Named? && t.id in st.xrefs {
      assert Numbered(st, t.id) && Num(st, t.id) == ReferenceTo(st, t);
      if t.id !in e.phi {
        ReferAwaits(d, st, t.id);
      }
    } else if t.Named? {
      ReserveAwaits(d, st, t.id);
    }
  }

  // getXRef (SymbolImporter.cpp:328-338)
  function GetXRef(xrefs: map<int, Ref>, ref: int): Option<Ref> {
    if SET <= ref <= STRING then Some(Basic(ref))
    else if ref >= TYPE && ref in xrefs then Some(xrefs[ref])
    else None
  }

  lemma {:induction false} ResolvedCases(d: Defs, st: St, e: Env, t: Type, ref: int, asBase: bool, st': St)
    requires Resolved(d, st, e, t, ref, asBase, st')
    ensures Forth(st, st')
    ensures ref == NOTYPE ==> st' == st && Same(e, t, Basic(NOTYPE))
    ensures ref != NOTYPE ==> var found := GetXRef(e.xrefs, ref);
      && (found.Some? ==> st' == st && Same(e, t, found.value))
      && (found.None? ==> asBase && t.Named? && t.id !in e.phi && Books(d, st') && Awaits(st, st', t.id))
      && (found.None? ==> Numbered(st', t.id) && ref == Num(st', t.id))
  {
    hide Same, Books, Awaits, Num, Numbered, Forth;
  }

  // What is written in front of a body, and the type the body belongs to.
  ghost function Entered(st: St, x: Option<nat>): St {
    if x.Some? then Enter(st, x.value) else st
  }

  ghost function IdOf(t: Type): Option<nat> {
    if t.Named? then Some(t.id) else None
  }

  ghost function BodyOf(d: Defs, t: Type): Type {
    if t.Named? && t.id in d then d[t.id].body else t
  }

  ghost function ExternalOf(d: Defs, t: Type): bool {
    t.Named? && t.id in d && d[t.id].external
  }

  ghost function Front(d: Defs, st: St, t: Type): seq<Datum>
    requires t.Named? ==> t.id in d
  {
    if t.Named? then [Char(if t.id in st.fwds then st.fwds[t.id] else st.xref)] + Origin(d[t.id]) else [Char(0)]
  }

  lemma {:induction false} DefinitionText(d: Defs, st: St, t: Type, asBase: bool)
    requires DefsOk(d) && Books(d, st) && TypeOk(d, t) && !IsReference(d, st, t, asBase) && W(d, st, t, asBase).0.clean
    ensures IsBody(BodyOf(d, t)) && TypeOk(d, BodyOf(d, t)) && Entered(st, IdOf(t)).clean
    ensures !t.Prim? && (t.Named? ==> t.id in d && t.id !in st.xrefs)
    ensures var (st2, out) := WBody(d, Entered(st, IdOf(t)), BodyOf(d, t), !t.Named?, ExternalOf(d, t));
      && W(d, st, t, asBase).0 == (if t.Named? then Leave(st2, t.id) else st2)
      && W(d, st, t, asBase).1 == Front(d, st, t) + ([Char(Kind(BodyOf(d, t)))] + out)
  {
    hide WBody, Distinct;
    assert W(d, st, t, asBase) == WType(d, st, t, asBase);
    if t.Named? {
      var st1 := Enter(st, t.id);
      var (st2, out) := WBody(d, st1, d[t.id].body, false, d[t.id].external);
      assert WType(d, st, t, asBase)
          == (Leave(st2, t.id), [Char(ToInt8(st1.xrefs[t.id]))] + Origin(d[t.id]) + [Char(Kind(d[t.id].body))] + out);
      if t.id in st.fwds {
        assert Numbered(st, t.id);
      }
      var num := if t.id in st.fwds then st.fwds[t.id] else st.xref;
      assert st1.xrefs[t.id] == num && 0 <= num <= 127;
      assert [Char(num)] + Origin(d[t.id]) + [Char(Kind(d[t.id].body))] + out
          == [Char(num)] + Origin(d[t.id]) + ([Char(Kind(d[t.id].body))] + out);
    } else {
      var (st2, out) := WBody(d, st, t, true, false);
      assert WType(d, st, t, asBase) == (st2, [Char(0), Char(Kind(t))] + out);
      assert [Char(0), Char(Kind(t))] + out == [Char(0)] + ([Char(Kind(t))] + out);
    }
  }

  // ---------- steps that readers of several kinds share ----------

  lemma {:induction false} ForthTransitive(a: St, b: St, c: St)
    requires Forth(a, b) && Forth(b, c)
    ensures Forth(a, c)
  {
  }

  lemma {:induction false} OwnsLater(d: Defs, e: Env, e': Env, j: nat, t: Type)
    requires Nodes(d, e) && Owns(d, e, j, t) && Later(e, e') && j in e'.open
    ensures Owns(d, e', j, t)
  {
    hide Content;
  }

  lemma {:induction false} RecordNode(d: Defs, st: St, e: Env, t: Type, u: Ref)
    requires Image(d, st, e) && IsRecord(d, t) && Same(e, t, u)
    ensures u.Node? && u.id < |e.heap| && e.heap[u.id].IRecord?
  {
    hide Books, Tables, Waiting, Declared;
    if t.Named? {
      assert Filled(d, e, t.id);
    }
  }

  lemma {:induction false} FrontText(d: Defs, st: St, t: Type)
    requires Books(d, st) && (t.Named? ==> t.id in d) && Entered(st, IdOf(t)).clean
    ensures |Front(d, st, t)| >= 1 && Front(d, st, t)[0].Char?
    ensures t.Named? ==> Front(d, st, t)[0].c > 0
    ensures !t.Named? ==> Front(d, st, t) == [Char(0)]
  {
    if t.Named? && t.id in st.fwds {
      assert Numbered(st, t.id);
    }
  }

  // What a reader of t returns: an image of t, or nothing when the pointer now waits for t.
  ghost predicate Given(d: Defs, e: Env, t: Type, typ: Option<Ref>, ptr: Option<nat>, open: set<nat>) {
    if typ.Some? then Same(e, t, typ.value) && e.open == open
    else ptr.Some? && e.open == open - {ptr.value} && t.Named? && t.id in e.pend && e.pend[t.id] == ptr.value
  }

  // A body that has been read: node j is an image of it, and no named type's unless it is
  // the pointer named x.
  ghost predicate Built(e: Env, body: Type, external: bool, x: Option<nat>, j: nat) {
    && Content(e, body, j, external)
    && (!body.Pointer? ==> forall y :: y in e.phi ==> e.phi[y] != j)
    && (body.Pointer? && x.Some? ==> x.value in e.phi && e.phi[x.value] == j)
  }

  // What the reader of a definition does to the environment at the end.
  ghost function Registered(d: Defs, e: Env, t: Type, ref: int, j: nat): Env
    requires t.Named? ==> t.id in d && (t.id in e.pend ==> e.pend[t.id] < |e.heap|)
  {
    if !t.Named? then Unnumbered(e, j)
    else if d[t.id].body.Pointer? then Declare(d, e, t.id, j)
    else Settle(d, e, ref, t.id, j)
  }

  lemma {:induction false} RegisterKeeps(d: Defs, st: St, e: Env, t: Type, ref: int, j: nat)
    requires DefsOk(d) && Image(d, st, e) && TypeOk(d, t) && !t.Prim?
    requires Built(e, BodyOf(d, t), ExternalOf(d, t), IdOf(t), j)
    requires if t.Named? then t.id in st.xrefs && t.id !in st.done && ref == st.xrefs[t.id] else ref == 0
    ensures t.Named? ==> t.id in d && (t.id in e.pend <==> ref in e.fwds)
    ensures t.Named? && t.id in e.pend ==> e.fwds[ref] == e.pend[t.id] < |e.heap|
    ensures !t.Named? ==> ref !in e.fwds
    ensures var e' := Registered(d, e, t, ref, j);
      && Image(d, if t.Named? then Leave(st, t.id) else st, e') && Later(e, e') && Same(e', t, Node(j)) && e'.open == e.open
    ensures t.Named? && d[t.id].body.Pointer? ==> t.id !in e.pend && t.id in e.phi && e.phi[t.id] == j && ref in e.xrefs && e.xrefs[ref] == Node(j)
  {
    hide DefsOk, Later, Books, Waiting, Tables, Nodes, Declared, Content, Forth, Settle, Leave;
    if !t.Named? {
      UnnumberedKeeps(d, st, e, j);
      ContentLater(e, Unnumbered(e, j), t, j, false);
    } else {
      assert Numbered(st, t.id) && Num(st, t.id) == ref;
      WaitsOrNot(d, st, e, t.id);
      if d[t.id].body.Pointer? {
        NotARecord(d, st, e, t.id);
        PointerKeeps(d, st, e, t.id);
      } else {
        SettleKeeps(d, st, e, t.id, j);
        SettleNames(d, e, ref, t.id, j, d[t.id].body, d[t.id].external);
      }
    }
  }

  lemma {:induction false} RegisteredShape(d: Defs, e: Env, t: Type, ref: int, j: nat)
    requires t.Named? ==> t.id in d && (t.id in e.pend <==> ref in e.fwds)
    requires t.Named? && t.id in e.pend ==> e.fwds[ref] == e.pend[t.id] < |e.heap|
    requires !t.Named? ==> ref == 0 && ref !in e.fwds
    requires t.Named? && d[t.id].body.Pointer? ==>
      t.id !in e.pend && t.id in e.phi && e.phi[t.id] == j && ref in e.xrefs && e.xrefs[ref] == Node(j)
    ensures Registered(d, e, t, ref, j) == Env(
      if ref in e.fwds then e.heap[e.fwds[ref] := IPointer(Some(Node(j)))] else e.heap,
      e.xrefs[ref := Node(j)],
      e.fwds - {ref},
      if ExternalOf(d, t) then e.symbols[(d[t.id].modul, d[t.id].name) := Node(j)] else e.symbols,
      if t.Named? then e.phi[t.id := j] else e.phi,
      if t.Named? then e.pend - {t.id} else e.pend,
      e.open, e.orphans)
  {
    assert ref !in e.fwds ==> e.fwds - {ref} == e.fwds;
    assert t.Named? && t.id !in e.pend ==> e.pend - {t.id} == e.pend;
    assert t.Named? && d[t.id].body.Pointer? ==> e.phi[t.id := j] == e.phi && e.xrefs[ref := Node(j)] == e.xrefs;
  }

  lemma {:induction false} NotARecord(d: Defs, st: St, e: Env, x: nat)
    requires Image(d, st, e) && x in d && d[x].body.Pointer? && x in e.phi
    ensures x !in e.pend && e.phi[x] < |e.heap|
    ensures x in st.xrefs ==> st.xrefs[x] in e.xrefs && e.xrefs[st.xrefs[x]] == Node(e.phi[x])
  {
    hide Nodes, Declared, Distinct, Injective;
    assert x in st.xrefs ==> Num(st, x) == st.xrefs[x];
  }

  lemma {:induction false} SettleNames(d: Defs, e: Env, ref: int, x: nat, j: nat, t: Type, external: bool)
    requires x in d && (x in e.pend ==> e.pend[x] < |e.heap|) && Content(e, t, j, external)
    ensures Same(Settle(d, e, ref, x, j), Named(x), Node(j)) && Settle(d, e, ref, x, j).open == e.open
  {
  }

  // What stands in front of a body, as the reader takes it apart.
  lemma {:induction false} FrontRead(d: Defs, st: St, e: Env, t: Type, file: seq<Datum>, pos: nat)
    requires DefsOk(d) && Books(d, st) && Declared(d, st, e) && (t.Named? ==> t.id in d && t.id !in st.xrefs)
    requires Stands(file, pos, Front(d, st, t)) && Entered(st, IdOf(t)).clean
    ensures pos < |file| && file[pos].Char? && (t.Named? <==> file[pos].c > 0)
    ensures t.Named? ==> Enter(st, t.id).xrefs[t.id] == file[pos].c
    ensures t.Named? ==> pos + 1 < |file| && file[pos + 1].Str? && |Front(d, st, t)| == (if d[t.id].external then 3 else 2)
    ensures t.Named? && !d[t.id].external ==> file[pos + 1].s == ""
    ensures t.Named? && d[t.id].external ==> pos + 2 < |file| && file[pos + 2].Str? && file[pos + 2].s == d[t.id].name
    ensures t.Named? && d[t.id].external ==> file[pos + 1].s == d[t.id].modul != ""
    ensures t.Named? && d[t.id].external ==> (d[t.id].modul, d[t.id].name) !in e.symbols
    ensures !t.Named? ==> |Front(d, st, t)| == 1 && file[pos].c == 0
  {
    assert t.Named? && d[t.id].external ==> d[t.id].modul != "" && t.id !in st.done;
    hide DefsOk, Distinct;
    FrontText(d, st, t);
    hide Books, Declared;
    var f := Front(d, st, t);
    assert file[pos..pos + |f|][0] == f[0];
    assert t.Named? ==> file[pos..pos + |f|][1] == f[1] == Origin(d[t.id])[0];
    assert t.Named? && d[t.id].external ==> file[pos..pos + |f|][2] == f[2] == Origin(d[t.id])[1];
  }

  lemma {:induction false} EnteredStays(d: Defs, st: St, t: Type, st2: St, ref: int)
    requires Forth(Entered(st, IdOf(t)), st2) && Books(d, st)
    requires t.Named? ==> t.id !in st.xrefs && ref == Enter(st, t.id).xrefs[t.id]
    ensures t.Named? ==> t.id in st2.xrefs && t.id !in st2.done && st2.xrefs[t.id] == ref
  {
  }

  lemma {:induction false} LeaveForth(d: Defs, st: St, t: Type, st2: St)
    requires Forth(Entered(st, IdOf(t)), st2) && (t.Named? ==> t.id !in st.xrefs)
    ensures Forth(st, if t.Named? then Leave(st2, t.id) else st2)
  {
  }

  // x, if any, is about to be entered under number ref.
  ghost predicate Starts(d: Defs, st: St, body: Type, ext: bool, x: Option<nat>, ref: int) {
    if x.Some? then
      && x.value in d && x.value !in st.xrefs && body == d[x.value].body && ext == d[x.value].external
      && Enter(st, x.value).clean && ref == Enter(st, x.value).xrefs[x.value]
    else ref == 0 && !ext
  }

  lemma {:induction false} StartsNamed(d: Defs, st: St, t: Type, ref: int)
    requires t.Named? ==> t.id in d && t.id !in st.xrefs && ref == Enter(st, t.id).xrefs[t.id]
    requires Entered(st, IdOf(t)).clean && (!t.Named? ==> ref == 0)
    ensures Starts(d, st, BodyOf(d, t), ExternalOf(d, t), IdOf(t), ref)
  {
  }

  lemma {:induction false} StartsPlain(d: Defs, st: St, e: Env, body: Type, ext: bool, x: Option<nat>, ref: int)
    requires Image(d, st, e) && Starts(d, st, body, ext, x, ref) && !body.Pointer?
    ensures Image(d, Entered(st, x), e)
  {
    hide Books, Tables, Waiting, Nodes, Declared, Enter;
    if x.Some? {
      EnterKeeps(d, st, e, x.value);
    }
  }

  lemma {:induction false} PartsOk(d: Defs, t: Type)
    requires IsBody(t) && TypeOk(d, t)
    ensures t.Array? ==> TypeOk(d, t.elem)
    ensures t.Pointer? ==> TypeOk(d, t.base) && IsRecord(d, t.base)
    ensures t.Procedure? ==> TypeOk(d, t.ret) && ParamsOk(d, t.params)
    ensures t.Record? ==> TypeOk(d, t.ancestor) && (t.ancestor == Prim(NOTYPE) || IsRecord(d, t.ancestor)) && FieldsOk(d, t.fields)
  {
  }

  lemma {:induction false} ArrayBuilt(e: Env, e': Env, t: Type, ext: bool, x: Option<nat>, j: nat, u: Ref)
    requires t.Array? && Same(e, t.elem, u) && Later(e, e') && j == |e.heap| && j !in e'.open
    requires e' == Alloc(e, IArray([t.length] + Lengths(e.heap, u), [u] + Types(e.heap, u), t.size))
    requires forall y :: y in e'.phi ==> e'.phi[y] != j
    ensures Built(e', t, ext, x, j)
  {
    hide Same, Later;
    SameLater(e, e', t.elem, u);
    assert u.Node? ==> u.id < |e.heap| by { ElementInMemory(e, t.elem, u); }
    assert e'.heap[j].types[0] == u;
  }

  lemma {:induction false} OpenKeeps(d: Defs, st: St, e: Env, body: Type, ext: bool, x: Option<nat>, ref: int)
    requires Image(d, st, e) && Starts(d, st, body, ext, x, ref) && body.Pointer?
    ensures var e' := OpenPointer(e, ref, x);
      Image(d, Entered(st, x), e') && Later(e, e') && Owns(d, e', |e.heap|, body.base)
    ensures |e.heap| !in e.open
  {
    hide Waiting, Declared, Books, Later, Enter, Content, Distinct, Injective;
    if x.Some? {
      OpenNamed(d, st, e, x.value);
      assert Num(Enter(st, x.value), x.value) == ref;
    } else {
      OpenAnonymous(d, st, e);
    }
  }

  lemma {:induction false} PointerSet(d: Defs, st1: St, e1: Env, st2: St, e2: Env, base: Type, u: Ref, j: nat, ext: bool, x: Option<nat>)
    requires Image(d, st1, e1) && Image(d, st2, e2) && Later(e1, e2) && Owns(d, e1, j, base) && j in e2.open && Same(e2, base, u)
    requires x.Some? ==> x.value in e1.phi && e1.phi[x.value] == j
    ensures j < |e2.heap|
    ensures var e' := SetBase(e2, j, u); Image(d, st2, e') && Later(e2, e') && Built(e', Pointer(base), ext, x, j)
  {
    hide Books, Tables, Waiting, Declared, Same;
    OwnsLater(d, e1, e2, j, base);
    BaseKeeps(d, st2, e2, j, base, u);
  }

  lemma {:induction false} PointerWaits(d: Defs, st1: St, e1: Env, st2: St, e2: Env, base: Type, j: nat, ext: bool, x: Option<nat>)
    requires Image(d, st2, e2) && Later(e1, e2) && j !in e2.open
    requires base.Named? && base.id in e2.pend && e2.pend[base.id] == j
    requires x.Some? ==> x.value in e1.phi && e1.phi[x.value] == j
    ensures Built(e2, Pointer(base), ext, x, j)
  {
    hide Books, Tables, Nodes, Declared;
    assert Waits(st2, e2, base.id);
  }

  lemma {:induction false} ProcedureBuilt(e: Env, e': Env, t: Type, ext: bool, x: Option<nat>, j: nat, ret: Ref, params: seq<IParam>)
    requires t.Procedure? && Same(e, t.ret, ret) && SameParams(e, t.params, params) && Later(e, e') && j == |e.heap| && j !in e'.open
    requires e' == Alloc(e, IProcedure(ret, params)) && forall y :: y in e'.phi ==> e'.phi[y] != j
    ensures Built(e', t, ext, x, j)
  {
    hide Same, SameParams, Later;
    SameLater(e, e', t.ret, ret);
    ParamsLater(e, e', t.params, params);
  }

  // The record type that an ancestor was read as; NOTYPE is none.
  ghost predicate RecordBase(e: Env, t: Type, base: Option<Ref>)
    requires t.Record?
  {
    if t.ancestor == Prim(NOTYPE) then base == None else base.Some? && Same(e, t.ancestor, base.value)
  }

  lemma {:induction false} AncestorRead(d: Defs, st: St, e: Env, t: Type, u: Ref)
    requires t.Record? && TypeOk(d, t) && Image(d, st, e) && Same(e, t.ancestor, u)
    ensures RecordBase(e, t, if u.Node? && u.id < |e.heap| && e.heap[u.id].IRecord? then Some(u) else None)
  {
    hide Image, Content;
    if t.ancestor != Prim(NOTYPE) {
      RecordNode(d, st, e, t.ancestor, u);
    }
  }

  lemma {:induction false} AncestorLater(e: Env, e': Env, t: Type, base: Option<Ref>)
    requires t.Record? && RecordBase(e, t, base) && Later(e, e')
    ensures RecordBase(e', t, base)
  {
    if base.Some? {
      SameLater(e, e', t.ancestor, base.value);
    }
  }

  lemma {:induction false} RecordBuilt(e: Env, e': Env, t: Type, ext: bool, x: Option<nat>, j: nat, base: Option<Ref>, fields: seq<IField>)
    requires t.Record? && RecordBase(e, t, base) && SameFields(e, t.fields, fields, ext) && Later(e, e') && j == |e.heap| && j !in e'.open
    requires e' == Alloc(e, IRecord(base, fields, t.size)) && forall y :: y in e'.phi ==> e'.phi[y] != j
    ensures Built(e', t, ext, x, j)
  {
    hide Same, SameFields, Later;
    AncestorLater(e, e', t, base);
    FieldsLater(e, e', t.fields, fields, ext);
  }

  lemma {:induction false} ArrayStep(d: Defs, st: St, body: Type, anonymous: bool, ext: bool)
    requires body.Array?
    ensures var (st1, out) := WType(d, st, body.elem, false);
      WBody(d, st, body, anonymous, ext) == (st1, out + [Int(body.length), Int(body.size)])
  {
    hide WType;
  }

  lemma {:induction false} ArrayText(file: seq<Datum>, pos: nat, out: seq<Datum>, length: int, size: int)
    requires Stands(file, pos, out + [Int(length), Int(size)])
    ensures Stands(file, pos, out) && pos + |out| + 2 <= |file|
    ensures file[pos + |out|] == Int(length) && file[pos + |out| + 1] == Int(size)
  {
    Split(file, pos, out, [Int(length), Int(size)]);
    assert file[pos + |out|..pos + |out| + 2] == [Int(length), Int(size)];
  }

  lemma {:induction false} RecordStep(d: Defs, st: St, body: Type, anonymous: bool, ext: bool)
    requires body.Record?
    ensures var (st1, out) := WType(d, st, body.ancestor, false);
      var (st2, rest) := WFields(d, st1, body.fields, 1, ext, 0);
      && WBody(d, st, body, anonymous, ext) == (st2, out + [Char(if anonymous then 0 else -1), Int(|body.fields|), Int(body.size)] + rest)
      && (st2.clean ==> st1.clean)
      && |WBody(d, st, body, anonymous, ext).1| == |out| + 3 + |rest|
  {
    hide WType, WFields;
  }

  lemma {:induction false} RecordText(file: seq<Datum>, pos: nat, out: seq<Datum>, exno: int, count: int, size: int, rest: seq<Datum>)
    requires Stands(file, pos, out + [Char(exno), Int(count), Int(size)] + rest)
    ensures Stands(file, pos, out) && Stands(file, pos + |out| + 3, rest)
    ensures file[pos + |out|] == Char(exno) && file[pos + |out| + 1] == Int(count) && file[pos + |out| + 2] == Int(size)
  {
    Split(file, pos, out + [Char(exno), Int(count), Int(size)], rest);
    Split(file, pos, out, [Char(exno), Int(count), Int(size)]);
    assert file[pos + |out|..pos + |out| + 3] == [Char(exno), Int(count), Int(size)];
  }

  lemma {:induction false} Unmoved(d: Defs, st: St, e: Env)
    requires Image(d, st, e)
    ensures Later(e, e) && Forth(st, st)
  {
    hide Later;
    LaterReflexive(st, e);
  }

  lemma {:induction false} FieldRead(e: Env, f: Field, u: IField, ext: bool)
    requires u.name == FieldName(f, ext) && u.index == f.seqId && Same(e, f.typ, u.typ)
    ensures SameField(e, f, u, ext)
  {
  }

  lemma {:induction false} NoTypeOk(d: Defs)
    ensures TypeOk(d, Prim(NOTYPE))
  {
  }

  lemma {:induction false} NoTypeOnly(e: Env, t: Type, u: Ref)
    requires Same(e, t, u)
    ensures u == Basic(NOTYPE) <==> t == Prim(NOTYPE)
  {
  }

  // What stands at the head of a list of parameters.
  lemma {:induction false} ParamsHead(d: Defs, st: St, ps: seq<Parameter>, i: nat, file: seq<Datum>, pos: nat)
    requires i <= |ps| && Stands(file, pos, WParams(d, st, ps[i..]).1)
    ensures pos < |file| && file[pos].Char? && (file[pos].c == 0 <==> i == |ps|)
    ensures i == |ps| ==> WParams(d, st, ps[i..]) == (st, [Char(0)])
    ensures i < |ps| ==> var (st1, out) := WParam(d, st, ps[i]);
      var rest := WParams(d, st1, ps[i + 1..]);
      && Stands(file, pos + 1, [Char(if ps[i].isVar then 0 else 1)] + out) && Stands(file, pos + 2 + |out|, rest.1)
      && WParams(d, st, ps[i..]).0 == rest.0 && |WParams(d, st, ps[i..]).1| == 2 + |out| + |rest.1|
  {
    hide WParam;
    if i < |ps| {
      ParamsStep(d, st, ps, i);
      var (st1, out) := WParam(d, st, ps[i]);
      var rest := WParams(d, st1, ps[i + 1..]).1;
      hide WParams;
      var c := Char(if ps[i].isVar then 0 else 1);
      assert [Char(PARAMETER_NODE), c] + out + rest == [Char(PARAMETER_NODE)] + (([c] + out) + rest);
      First(file, pos, Char(PARAMETER_NODE), ([c] + out) + rest);
      Split(file, pos + 1, [c] + out, rest);
    } else {
      assert ps[i..] == [];
      assert file[pos..pos + 1][0] == Char(0);
    }
  }

  lemma {:induction false} NoFields(e: Env, fs: seq<Field>, ext: bool)
    ensures SameFields(e, fs[..0], [], ext)
  {
  }

  lemma {:induction false} MoreFields(e: Env, e': Env, fs: seq<Field>, us: seq<IField>, i: nat, u: IField, ext: bool)
    requires i < |fs| && SameFields(e, fs[..i], us, ext) && Later(e, e') && SameField(e', fs[i], u, ext)
    ensures SameFields(e', fs[..i + 1], us + [u], ext)
  {
    hide Later, SameField;
    FieldsLater(e, e', fs[..i], us, ext);
    assert forall k :: 0 <= k < i ==> fs[..i + 1][k] == fs[..i][k] && (us + [u])[k] == us[k];
  }

  // From position p on stands the text of the fields from the i-th on, after which the
  // writer is in state last and the text is over at end.
  ghost predicate FieldsFrom(
    d: Defs, st: St, fs: seq<Field>, i: nat, ext: bool, at: nat, file: seq<Datum>, p: nat, last: St, end: int)
  {
    && i <= |fs| && last.clean && Stands(file, p, WFields(d, st, fs[i..], i + 1, ext, at).1)
    && WFields(d, st, fs[i..], i + 1, ext, at).0 == last && p + |WFields(d, st, fs[i..], i + 1, ext, at).1| == end
  }

  lemma {:induction false} AllFields(d: Defs, st: St, fs: seq<Field>, ext: bool, file: seq<Datum>, pos: nat)
    requires Stands(file, pos, WFields(d, st, fs, 1, ext, 0).1) && WFields(d, st, fs, 1, ext, 0).0.clean
    ensures var (last, out) := WFields(d, st, fs, 1, ext, 0); FieldsFrom(d, st, fs, 0, ext, 0, file, pos, last, pos + |out|)
  {
    hide WFields;
    assert fs[0..] == fs;
  }

  lemma {:induction false} FieldsHead(
    d: Defs, st: St, fs: seq<Field>, i: nat, ext: bool, at: nat, file: seq<Datum>, p: nat, last: St, end: int)
    requires FieldsFrom(d, st, fs, i, ext, at, file, p, last, end)
    ensures p < |file| && file[p].Char? && (file[p].c == 0 <==> i == |fs|)
    ensures i == |fs| ==> st == last && p + 1 == end
    ensures i < |fs| ==> var (st1, out) := WField(d, st, fs[i]);
      && st1.clean && Stands(file, p + 1, [Int(i + 1), Str(FieldName(fs[i], ext))] + out + [Int(at)])
      && FieldsFrom(d, st1, fs, i + 1, ext, at + fs[i].size, file, p + 4 + |out|, last, end)
  {
    hide WField, FieldName;
    if i < |fs| {
      FieldsStep(d, st, fs, i, ext, at);
      var (st1, out) := WField(d, st, fs[i]);
      var rest := WFields(d, st1, fs[i + 1..], i + 2, ext, at + fs[i].size).1;
      hide WFields;
      var mine := [Int(i + 1), Str(FieldName(fs[i], ext))] + out + [Int(at)];
      assert [Char(FIELD_NODE), Int(i + 1), Str(FieldName(fs[i], ext))] + out + [Int(at)] + rest == [Char(FIELD_NODE)] + (mine + rest);
      First(file, p, Char(FIELD_NODE), mine + rest);
      Split(file, p + 1, mine, rest);
    } else {
      assert fs[i..] == [];
      assert file[p..p + 1][0] == Char(0);
    }
  }

  lemma {:induction false} FieldText(file: seq<Datum>, pos: nat, num: int, name: string, out: seq<Datum>, at: int)
    requires Stands(file, pos, [Int(num), Str(name)] + out + [Int(at)])
    ensures pos + 2 + |out| < |file| && file[pos].Int? && file[pos + 1] == Str(name) && file[pos + 2 + |out|].Int?
    ensures Stands(file, pos + 2, out)
  {
    Split(file, pos, [Int(num), Str(name)] + out, [Int(at)]);
    Split(file, pos, [Int(num), Str(name)], out);
    assert file[pos..pos + 2] == [Int(num), Str(name)];
    assert file[pos + 2 + |out|..pos + 2 + |out| + 1][0] == Int(at);
  }

  // ---------- declarations ----------

  predicate Exportable(decl: Decl) {
    decl.node in {PROCEDURE_NODE, VARIABLE_NODE, TYPE_NODE}
  }

  // The export number behind a variable.
  function Mark(decl: Decl): seq<Datum> {
    if decl.node == VARIABLE_NODE then [Char(-1)] else []
  }

  ghost predicate SameDecl(e: Env, decl: Decl, u: IDecl) {
    u.node == decl.node && u.name == decl.name && Same(e, decl.typ, u.typ)
  }

  lemma {:induction false} DeclText(file: seq<Datum>, pos: nat, decl: Decl, out: seq<Datum>)
    requires Stands(file, pos, [Str(decl.name)] + out + Mark(decl))
    ensures pos + 1 + |out| + |Mark(decl)| <= |file| && file[pos] == Str(decl.name) && Stands(file, pos + 1, out)
    ensures decl.node == VARIABLE_NODE ==> file[pos + 1 + |out|] == Char(-1)
  {
    Split(file, pos, [Str(decl.name)] + out, Mark(decl));
    First(file, pos, Str(decl.name), out);
    assert file[pos + 1 + |out|..pos + 1 + |out| + |Mark(decl)|] == Mark(decl);
    assert decl.node == VARIABLE_NODE ==> Mark(decl)[0] == Char(-1);
  }

  lemma {:induction false} NothingLeft(d: Defs, e: Env, t: Type, typ: Option<Ref>, ptr: Option<nat>)
    requires typ.Some? && Same(e, t, typ.value)
    ensures Given(d, e, t, typ, ptr, e.open)
  {
  }

  lemma {:induction false} NothingYet(d: Defs, e: Env, t: Type, ptr: Option<nat>, open: set<nat>)
    requires ptr.Some? && e.open == open - {ptr.value} && t.Named? && t.id in e.pend && e.pend[t.id] == ptr.value
    ensures Given(d, e, t, None, ptr, open)
  {
  }

  const NOTHING: Env := Env([], map[], map[], map[], map[], map[], {}, {})

  lemma {:induction false} StartsEmpty(d: Defs)
    ensures Image(d, EMPTY, NOTHING)
  {
  }

  // From position p on stands the text of the declarations from the i-th on, after which
  // the writer is in state last and the file is over.
  ghost predicate DeclsFrom(d: Defs, st: St, ds: seq<Decl>, i: nat, file: seq<Datum>, p: nat, last: St) {
    && i <= |ds| && last.clean && (forall k :: 0 <= k < |ds| ==> Exportable(ds[k]))
    && Stands(file, p, WDecls(d, st, ds[i..]).1)
    && WDecls(d, st, ds[i..]).0 == last && p + |WDecls(d, st, ds[i..]).1| == |file|
  }

  lemma {:induction false} AllDecls(d: Defs, ds: seq<Decl>, file: seq<Datum>)
    requires file == WDecls(d, EMPTY, ds).1 && WDecls(d, EMPTY, ds).0.clean && forall k :: 0 <= k < |ds| ==> Exportable(ds[k])
    ensures DeclsFrom(d, EMPTY, ds, 0, file, 0, WDecls(d, EMPTY, ds).0)
  {
    hide WDecls;
    assert ds[0..] == ds;
  }

  lemma {:induction false} DeclsHead(d: Defs, st: St, ds: seq<Decl>, i: nat, file: seq<Datum>, p: nat, last: St)
    requires DeclsFrom(d, st, ds, i, file, p, last)
    ensures p < |file| && file[p].Char? && (file[p].c == 0 <==> i == |ds|)
    ensures i == |ds| ==> st == last && p + 1 == |file|
    ensures i < |ds| ==> var (st1, out) := WType(d, st, ds[i].typ, false);
      && file[p].c == ds[i].node && Exportable(ds[i]) && st1.clean && Stands(file, p + 1, [Str(ds[i].name)] + out + Mark(ds[i]))
      && DeclsFrom(d, st1, ds, i + 1, file, p + 2 + |out| + |Mark(ds[i])|, last)
  {
    hide WType;
    if i < |ds| {
      DeclsStep(d, st, ds, i);
      var (st1, out) := WType(d, st, ds[i].typ, false);
      var rest := WDecls(d, st1, ds[i + 1..]).1;
      hide WDecls;
      var mine := [Str(ds[i].name)] + out + Mark(ds[i]);
      assert [Char(ds[i].node), Str(ds[i].name)] + out + Mark(ds[i]) + rest == [Char(ds[i].node)] + (mine + rest);
      First(file, p, Char(ds[i].node), mine + rest);
      Split(file, p + 1, mine, rest);
    } else {
      assert ds[i..] == [];
      assert file[p..p + 1][0] == Char(0);
    }
  }

  ghost predicate SameDecls(e: Env, ds: seq<Decl>, us: seq<IDecl>) {
    |ds| == |us| && forall k :: 0 <= k < |ds| ==> SameDecl(e, ds[k], us[k])
  }

  lemma {:induction false} NoDecls(e: Env, ds: seq<Decl>)
    ensures SameDecls(e, ds[..0], [])
  {
  }

  lemma {:induction false} MoreDecls(e: Env, e': Env, ds: seq<Decl>, us: seq<IDecl>, i: nat, vs: seq<IDecl>)
    requires i < |ds| && SameDecls(e, ds[..i], us) && Later(e, e')
    requires |vs| == i + 1 && vs[..i] == us && SameDecl(e', ds[i], vs[i])
    ensures SameDecls(e', ds[..i + 1], vs)
  {
    hide Later, Same;
    forall k | 0 <= k < i ensures SameDecl(e', ds[..i + 1][k], vs[k]) {
      assert SameDecl(e, ds[..i][k], us[k]) && vs[k] == us[k];
      SameLater(e, e', ds[k].typ, us[k].typ);
    }
  }

  // The types among the first n declarations can be looked up in the module's scope, and
  // nothing else.
  ghost predicate InScope(ds: seq<Decl>, n: nat, us: seq<IDecl>, scope: map<string, Ref>) {
    && n <= |ds| && n <= |us|
    && (forall k :: 0 <= k < n && ds[k].node == TYPE_NODE ==> ds[k].name in scope && scope[ds[k].name] == us[k].typ)
    && forall x :: x in scope ==> exists k :: 0 <= k < n && ds[k].node == TYPE_NODE && ds[k].name == x
  }

  ghost predicate DistinctNames(ds: seq<Decl>) {
    forall i, j :: 0 <= i < j < |ds| ==> ds[i].name != ds[j].name
  }

  lemma {:induction false} NamesDiffer(ds: seq<Decl>)
    requires forall i, j :: 0 <= i < j < |ds| ==> ds[i].name != ds[j].name
    ensures DistinctNames(ds)
  {
  }

  lemma {:induction false} NoneInScope(ds: seq<Decl>, us: seq<IDecl>)
    ensures InScope(ds, 0, us, map[])
  {
  }

  lemma {:induction false} NotInScope(ds: seq<Decl>, n: nat, us: seq<IDecl>, scope: map<string, Ref>)
    requires n < |ds| && InScope(ds, n, us, scope) && DistinctNames(ds)
    ensures ds[n].name !in scope
  {
  }

  lemma {:induction false} MoreInScope(ds: seq<Decl>, n: nat, us: seq<IDecl>, scope: map<string, Ref>, us': seq<IDecl>, scope': map<string, Ref>)
    requires n < |ds| && InScope(ds, n, us, scope) && ds[n].name !in scope && |us| == n
    requires |us'| == n + 1 && us'[..n] == us
    requires scope' == if ds[n].node == TYPE_NODE then scope[ds[n].name := us'[n].typ] else scope
    ensures InScope(ds, n + 1, us', scope')
  {
    assert forall k :: 0 <= k < n ==> us'[k] == us[k];
  }

  // The result of an import, without the importer's tables: the named types have distinct
  // nodes, every node holds what its type says, no base is missing but those of the orphans,
  // and the declarations are those that were exported.
  ghost predicate Mirrors(d: Defs, heap: seq<INode>, phi: map<nat, nat>, orphans: set<nat>, ds: seq<Decl>, us: seq<IDecl>) {
    var e := Settled(heap, phi, orphans);
    && Injective(phi)
    && (forall x :: x in phi ==> x in d && Content(e, d[x].body, phi[x], d[x].external))
    && (forall j :: j in orphans ==> j < |heap| && heap[j] == IPointer(None))
    && SameDecls(e, ds, us)
  }

  function Settled(heap: seq<INode>, phi: map<nat, nat>, orphans: set<nat>): Env {
    Env(heap, map[], map[], map[], phi, map[], {}, orphans)
  }

  // The pointers that have no base when the file has been read.
  ghost function Baseless(e: Env): set<nat> {
    e.orphans + e.pend.Values
  }

  // The reader is left with forward references if and only if some record that was waited
  // for is not in the file, or some number is lost; and with pointers without a base if and
  // only if some record is not in the file, or some pointer gave way to another.
  lemma {:induction false} Finished(d: Defs, st: St, e: Env)
    requires Image(d, st, e)
    ensures e.fwds != map[] <==> st.pending != {} || st.lost != {}
    ensures Baseless(e) == {} <==> st.pending == {} && st.whole
    ensures forall j :: j in Baseless(e) ==> j < |e.heap| && e.heap[j] == IPointer(None)
  {
    hide Books, Tables, Nodes, Declared, Injective;
    ForwardsLeft(st, e);
    assert forall b :: b in e.pend ==> Waits(st, e, b);
    hide Waits;
    if st.pending != {} {
      var b :| b in st.pending;
      assert b in e.pend && e.pend[b] in e.pend.Values;
    }
  }

  lemma {:induction false} ForwardsLeft(st: St, e: Env)
    requires Waiting(st, e)
    ensures e.fwds != map[] <==> st.pending != {} || st.lost != {}
  {
    hide Orphaned, Injective;
    assert (forall r :: r !in e.fwds) ==> e.fwds == map[];
    if e.fwds != map[] && st.lost == {} {
      var r :| r in e.fwds;
      SomebodyWaits(st, e, r);
    }
    if st.pending != {} {
      var b :| b in st.pending;
      assert b in e.pend && Waits(st, e, b);
    }
  }

  lemma {:induction false} NothingOpen(d: Defs, st: St, e: Env, ds: seq<Decl>, us: seq<IDecl>)
    requires Image(d, st, e) && e.open == {}
    requires SameDecls(e, ds, us)
    ensures Mirrors(d, e.heap, e.phi, Baseless(e), ds, us)
  {
    hide Books, Declared, Same, Content, Later, Injective, Baseless;
    var e' := Settled(e.heap, e.phi, Baseless(e));
    Finished(d, st, e);
    assert Later(e, e') by { SettledLater(st, e); }
    forall x | x in e.phi ensures x in d && Content(e', d[x].body, e.phi[x], d[x].external) {
      assert Filled(d, e, x);
      ContentLater(e, e', d[x].body, e.phi[x], d[x].external);
    }
    forall k | 0 <= k < |ds| ensures SameDecl(e', ds[k], us[k]) {
      SameLater(e, e', ds[k].typ, us[k].typ);
    }
  }

  lemma {:induction false} SettledLater(st: St, e: Env)
    requires Waiting(st, e) && e.open == {}
    ensures Later(e, Settled(e.heap, e.phi, Baseless(e)))
  {
    forall b | b in e.pend && e.pend[b] < |e.heap| ensures GivenUp(e, Settled(e.heap, e.phi, Baseless(e)), b) {
      assert Waits(st, e, b) && e.pend[b] in e.pend.Values;
    }
  }

  class Importer {
    const file: seq<Datum>
    const self: string
    var pos: nat
    var heap: seq<INode>
    var xrefs: map<int, Ref>
    var fwds: map<int, nat>
    // Type declarations, of other modules and of the module that is read.
    var symbols: map<(string, string), Ref>
    var scope: map<string, Ref>
    var decls: seq<IDecl>
    var failed: bool

    ghost var phi: map<nat, nat>
    ghost var pend: map<nat, nat>
    ghost var open: set<nat>
    ghost var orphans: set<nat>

    constructor (file: seq<Datum>, self: string)
      ensures this.file == file && this.self == self && pos == 0 && decls == [] && scope == map[] && !failed
      ensures E() == NOTHING
    {
      this.file, this.self := file, self;
      pos, heap, xrefs, fwds, symbols, scope, decls, failed := 0, [], map[], map[], map[], map[], [], false;
      phi, pend, open, orphans := map[], map[], {}, {};
    }

    ghost function E(): Env
      reads this`heap, this`xrefs, this`fwds, this`symbols, this`phi, this`pend, this`open, this`orphans
    {
      Env(heap, xrefs, fwds, symbols, phi, pend, open, orphans)
    }

    // Types of other modules are not this module's.
    ghost predicate Fits(d: Defs) {
      DefsOk(d) && forall x :: x in d && d[x].external ==> d[x].modul != self
    }

    lemma FitsDefs(d: Defs, t: Type)
      requires Fits(d)
      ensures DefsOk(d)
      ensures ExternalOf(d, t) ==> t.Named? && t.id in d && d[t.id].external && d[t.id].modul != self
      ensures t.Named? && t.id in d && d[t.id].external ==> ExternalOf(d, t)
    {
    }

    method ReadChar() returns (c: int)
      requires pos < |file| && file[pos].Char?
      modifies this`pos
      ensures pos == old(pos) + 1 && c == file[old(pos)].c
    {
      c := file[pos].c;
      pos := pos + 1;
    }

    method ReadInt() returns (i: int)
      requires pos < |file| && file[pos].Int?
      modifies this`pos
      ensures pos == old(pos) + 1 && i == file[old(pos)].i
    {
      i := file[pos].i;
      pos := pos + 1;
    }

    method ReadString() returns (s: string)
      requires pos < |file| && file[pos].Str?
      modifies this`pos
      ensures pos == old(pos) + 1 && s == file[old(pos)].s
    {
      s := file[pos].s;
      pos := pos + 1;
    }

    function Lookup(modul: string, name: string): Option<Ref>
      reads this`symbols, this`scope
    {
      if modul == self then
        if name in scope then Some(scope[name]) else None
      else
        if (modul, name) in symbols then Some(symbols[(modul, name)]) else None
    }

    // readType (SymbolImporter.cpp:157-225)
    method ReadType(ghost d: Defs, ghost st: St, ghost t: Type, decl: Option<Ref>, ptr: Option<nat>) returns (typ: Option<Ref>)
      requires Fits(d) && TypeOk(d, t) && Image(d, st, E()) && decl == None
      requires ptr.Some? ==> IsRecord(d, t) && Owns(d, E(), ptr.value, t)
      requires Stands(file, pos, W(d, st, t, ptr.Some?).1) && W(d, st, t, ptr.Some?).0.clean
      modifies this`pos, this`heap, this`xrefs, this`fwds, this`symbols, this`failed, this`phi, this`pend, this`open, this`orphans
      ensures Image(d, W(d, st, t, ptr.Some?).0, E()) && Later(old(E()), E()) && Forth(st, W(d, st, t, ptr.Some?).0)
      ensures pos == old(pos) + |W(d, st, t, ptr.Some?).1| <= |file| && failed == old(failed)
      ensures Given(d, E(), t, typ, ptr, old(open))
      decreases |file| - pos, 0
    {
      hide W, Image, Later, Forth, Owns, Same, DefsOk, TypeOk, IsRecord, WBody, Stands;
      ghost var text := W(d, st, t, ptr.Some?).1;
      ghost var (st2, out) := if IsBody(BodyOf(d, t)) then WBody(d, Entered(st, IdOf(t)), BodyOf(d, t), !t.Named?, ExternalOf(d, t)) else (st, []);
      assert Books(d, st) by { Parts(d, st, E()); }
      if IsReference(d, st, t, ptr.Some?) {
        ReferenceText(d, st, t, ptr.Some?);
        assert text == [Char(-ReferenceTo(st, t))] + [];
        First(file, pos, Char(-ReferenceTo(st, t)), []);
      } else {
        DefinitionText(d, st, t, ptr.Some?);
        FrontText(d, st, t);
        assert text == [Front(d, st, t)[0]] + text[1..];
        First(file, pos, Front(d, st, t)[0], text[1..]);
      }
      var ch := ReadChar();
      if ch < 0 {
        typ := ReadReference(d, st, t, ch, ptr);
      } else {
        typ := ReadDefinition(d, st, t, ch, decl, st2, out);
      }
    }

    method ReadReference(ghost d: Defs, ghost st: St, ghost t: Type, ch: int, ptr: Option<nat>) returns (typ: Option<Ref>)
      requires Fits(d) && TypeOk(d, t) && Image(d, st, E()) && IsReference(d, st, t, ptr.Some?)
      requires ptr.Some? ==> IsRecord(d, t) && Owns(d, E(), ptr.value, t)
      requires W(d, st, t, ptr.Some?).0.clean && -128 < ch < 0 && ch == -ReferenceTo(st, t)
      modifies this`fwds, this`failed, this`pend, this`open, this`orphans
      ensures Image(d, W(d, st, t, ptr.Some?).0, E()) && Later(old(E()), E()) && Forth(st, W(d, st, t, ptr.Some?).0)
      ensures failed == old(failed) && Given(d, E(), t, typ, ptr, old(open))
    {
      hide W, Fits, Content, Same, Awaits, Owns, TypeOk, IsRecord, Numbered, Num, Image, Later, Books, Forth, Given, Resolved;
      ghost var st' := W(d, st, t, ptr.Some?).0;
      var ref := -ch % 256;
      ReferenceResolves(d, st, E(), t, ptr.Some?);
      typ := Resolve(d, st, st', t, ref, ptr);
    }

    // What stands under the number (SymbolImporter.cpp:164-178).
    method Resolve(ghost d: Defs, ghost st: St, ghost st': St, ghost t: Type, ref: nat, ptr: Option<nat>) returns (typ: Option<Ref>)
      requires Image(d, st, E()) && Resolved(d, st, E(), t, ref, ptr.Some?, st') && (ptr.Some? ==> Owns(d, E(), ptr.value, t))
      modifies this`fwds, this`failed, this`pend, this`open, this`orphans
      ensures Image(d, st', E()) && Later(old(E()), E()) && Forth(st, st')
      ensures failed == old(failed) && Given(d, E(), t, typ, ptr, old(open))
    {
      hide Content, Same, Awaits, Owns, Numbered, Num, Image, Later, Books, Forth, Given, Resolved, GetXRef;
      ghost var e := E();
      Unmoved(d, st, e);
      ResolvedCases(d, st, e, t, ref, ptr.Some?, st');
      typ := if ref == NOTYPE then Some(Basic(NOTYPE)) else GetXRef(xrefs, ref);
      if typ.Some? {
        NothingLeft(d, e, t, typ, ptr);
        return;
      }
      // A type that is neither known nor may be waited for is an error.
      failed := failed || ptr.None?;
      if ptr.Some? {
        Await(d, st, st', t.id, ref, ptr.value);
      }
    }

    // A forward reference (SymbolImporter.cpp:173-176)
    method Await(ghost d: Defs, ghost st: St, ghost st': St, ghost b: nat, ref: int, ptr: nat)
      requires Image(d, st, E()) && Books(d, st') && Awaits(st, st', b) && b !in phi && Owns(d, E(), ptr, Named(b))
      requires Numbered(st', b) && ref == Num(st', b)
      modifies this`fwds, this`pend, this`open, this`orphans
      ensures Image(d, st', E()) && Later(old(E()), E())
      ensures Given(d, E(), Named(b), None, Some(ptr), old(open))
    {
      hide Image, Books, Awaits, Owns, Later, Waiter;
      WaitKeeps(d, st, st', E(), b, ptr);
      ghost var e := E();
      fwds := fwds[ref := ptr];
      orphans := orphans + Waiter(e, b);
      pend, open := pend[b := ptr], open - {ptr};
      assert E() == Wait(e, ref, b, ptr);
      NothingYet(d, E(), Named(b), Some(ptr), e.open);
    }

    // The rest of readType, from a definition's first character on (SymbolImporter.cpp:180-225).
    method ReadDefinition(ghost d: Defs, ghost st: St, ghost t: Type, ch: int, decl: Option<Ref>, ghost st2: St, ghost out: seq<Datum>)
      returns (typ: Option<Ref>)
      requires Fits(d) && TypeOk(d, t) && !t.Prim? && Image(d, st, E()) && decl == None && TypeOk(d, BodyOf(d, t))
      requires (t.Named? ==> t.id in d && t.id !in st.xrefs) && Entered(st, IdOf(t)).clean && IsBody(BodyOf(d, t))
      requires (st2, out) == WBody(d, Entered(st, IdOf(t)), BodyOf(d, t), !t.Named?, ExternalOf(d, t)) && st2.clean
      requires 0 < pos <= |file| && file[pos - 1] == Char(ch)
      requires Stands(file, pos - 1, Front(d, st, t) + ([Char(Kind(BodyOf(d, t)))] + out))
      modifies this`pos, this`heap, this`xrefs, this`fwds, this`symbols, this`failed, this`phi, this`pend, this`open, this`orphans
      ensures Image(d, if t.Named? then Leave(st2, t.id) else st2, E()) && Later(old(E()), E())
      ensures Forth(st, if t.Named? then Leave(st2, t.id) else st2)
      ensures pos == old(pos) + |Front(d, st, t)| + |out| <= |file| && failed == old(failed)
      ensures typ.Some? && Same(E(), t, typ.value) && open == old(open)
      decreases |file| - pos, 4
    {
      hide Image, Later, Forth, Same, TypeOk, WBody, Stands, Fits, DefsOk, Built, Front, Kind, Entered, BodyOf, Leave;
      hide Books, ExternalOf, IsBody, Content, Starts, Enter;
      ghost var e0 := E();
      assert Books(d, st) by { Parts(d, st, e0); }
      FitsDefs(d, t);
      var ref, modul, name, found, kind := ReadHead(d, st, t, ch, decl, out);
      var built := ReadContent(d, st, BodyOf(d, t), ExternalOf(d, t), IdOf(t), ref, kind);
      ghost var e1 := E();
      typ := Conclude(d, st, st2, t, ref, modul, name, built, found);
      LaterTransitive(e0, e1, E());
    }

    // A type that is declared already is used instead of what was read (SymbolImporter.cpp:202-224).
    method Conclude(ghost d: Defs, ghost st: St, ghost st2: St, ghost t: Type,
                    ref: int, modul: string, name: string, built: Option<nat>, found: Option<Ref>)
      returns (typ: Option<Ref>)
      requires DefsOk(d) && TypeOk(d, t) && !t.Prim? && Image(d, st2, E()) && found == None && built.Some?
      requires Built(E(), BodyOf(d, t), ExternalOf(d, t), IdOf(t), built.value)
      requires Forth(Entered(st, IdOf(t)), st2) && Books(d, st)
      requires if t.Named? then t.id !in st.xrefs && ref == Enter(st, t.id).xrefs[t.id] else ref == 0
      requires if ExternalOf(d, t) then modul == d[t.id].modul && modul != "" && name == d[t.id].name else modul == ""
      modifies this`heap, this`xrefs, this`fwds, this`symbols, this`phi, this`pend
      ensures Image(d, if t.Named? then Leave(st2, t.id) else st2, E()) && Later(old(E()), E())
      ensures Forth(st, if t.Named? then Leave(st2, t.id) else st2)
      ensures typ.Some? && Same(E(), t, typ.value)
    {
      hide DefsOk, TypeOk, Image, Later, Same, Built, Leave, BodyOf, Books, Entered, Forth, Enter;
      if found.Some? {
        typ := found;
      } else if built.None? {
        typ := None;
      } else {
        EnteredStays(d, st, t, st2, ref);
        LeaveForth(d, st, t, st2);
        typ := Register(d, st2, t, ref, modul, name, built.value);
      }
    }

    // Number, origin and kind, which stand in front of the body (SymbolImporter.cpp:180-192).
    method ReadHead(ghost d: Defs, ghost st: St, ghost t: Type, ch: int, decl: Option<Ref>, ghost out: seq<Datum>)
      returns (ref: int, modul: string, name: string, found: Option<Ref>, kind: int)
      requires Fits(d) && !t.Prim? && Image(d, st, E()) && decl == None
      requires (t.Named? ==> t.id in d && t.id !in st.xrefs) && Entered(st, IdOf(t)).clean && IsBody(BodyOf(d, t))
      requires 0 < pos <= |file| && file[pos - 1] == Char(ch)
      requires Stands(file, pos - 1, Front(d, st, t) + ([Char(Kind(BodyOf(d, t)))] + out))
      modifies this`pos
      ensures pos == old(pos) + |Front(d, st, t)| && Stands(file, pos, out) && kind == Kind(BodyOf(d, t)) && found == None
      ensures Starts(d, st, BodyOf(d, t), ExternalOf(d, t), IdOf(t), ref)
      ensures if t.Named? then ref == Enter(st, t.id).xrefs[t.id] else ref == 0
      ensures if ExternalOf(d, t) then modul == d[t.id].modul && modul != "" && name == d[t.id].name else modul == ""
    {
      hide Image, Stands, Fits, DefsOk, Front, Kind, Entered, BodyOf, Books, Declared, ExternalOf, IsBody, Enter;
      assert Books(d, st) && Declared(d, st, E()) by { Parts(d, st, E()); }
      FitsDefs(d, t);
      Split(file, pos - 1, Front(d, st, t), [Char(Kind(BodyOf(d, t)))] + out);
      First(file, pos - 1 + |Front(d, st, t)|, Char(Kind(BodyOf(d, t))), out);
      FrontRead(d, st, E(), t, file, pos - 1);
      ref, modul, name, found := ReadOrigin(ch, decl, ExternalOf(d, t));
      kind := ReadChar();
      StartsNamed(d, st, t, ref);
    }

    // The number of a named type, and the name it has in another module.
    method ReadOrigin(ch: int, decl: Option<Ref>, ghost ext: bool) returns (ref: int, modul: string, name: string, found: Option<Ref>)
      requires ch > 0 ==> pos < |file| && file[pos].Str? && (ext <==> file[pos].s != "")
      requires ch > 0 && ext ==> pos + 1 < |file| && file[pos + 1].Str?
      requires ch == 0 ==> !ext
      requires ch >= 0
      modifies this`pos
      ensures pos == old(pos) + (if ch == 0 then 0 else if ext then 2 else 1) && ref == ch
      ensures if ext then modul == file[old(pos)].s && name == file[old(pos) + 1].s && found == Lookup(modul, name)
              else modul == "" && found == decl
    {
      ref, modul, name, found := 0, "", "", decl;
      if ch > 0 {
        ref := ch;
        modul := ReadString();
        if modul != "" {
          name := ReadString();
          found := Lookup(modul, name);
        }
      }
    }

    // Declaring, numbering and answering (SymbolImporter.cpp:202-224).
    method Register(ghost d: Defs, ghost st: St, ghost t: Type, ref: int, modul: string, name: string, j: nat)
      returns (typ: Option<Ref>)
      requires DefsOk(d) && TypeOk(d, t) && !t.Prim? && Image(d, st, E())
      requires Built(E(), BodyOf(d, t), ExternalOf(d, t), IdOf(t), j)
      requires if t.Named? then t.id in st.xrefs && t.id !in st.done && ref == st.xrefs[t.id] else ref == 0
      requires if ExternalOf(d, t) then modul == d[t.id].modul && modul != "" && name == d[t.id].name else modul == ""
      modifies this`heap, this`xrefs, this`fwds, this`symbols, this`phi, this`pend
      ensures Image(d, if t.Named? then Leave(st, t.id) else st, E()) && Later(old(E()), E())
      ensures typ == Some(Node(j)) && Same(E(), t, Node(j))
    {
      hide DefsOk, TypeOk, Image, Later, Same, Built, Leave, BodyOf, IdOf, Registered;
      ghost var e := E();
      RegisterKeeps(d, st, e, t, ref, j);
      if modul != "" {
        symbols := symbols[(modul, name) := Node(j)];
      }
      xrefs := xrefs[ref := Node(j)];
      if ref in fwds {
        heap := heap[fwds[ref] := IPointer(Some(Node(j)))];
        fwds := fwds - {ref};
      }
      if t.Named? {
        phi, pend := phi[t.id := j], pend - {t.id};
      }
      RegisteredShape(d, e, t, ref, j);
      assert E() == Registered(d, e, t, ref, j);
      typ := Some(Node(j));
    }

    method ReadContent(ghost d: Defs, ghost st: St, ghost body: Type, ghost ext: bool, ghost x: Option<nat>, ref: int, kind: int)
      returns (node: Option<nat>)
      requires Fits(d) && IsBody(body) && TypeOk(d, body) && Image(d, st, E()) && kind == Kind(body)
      requires Starts(d, st, body, ext, x, ref)
      requires Stands(file, pos, WBody(d, Entered(st, x), body, x.None?, ext).1) && WBody(d, Entered(st, x), body, x.None?, ext).0.clean
      modifies this`pos, this`heap, this`xrefs, this`fwds, this`symbols, this`failed, this`phi, this`pend, this`open, this`orphans
      ensures Image(d, WBody(d, Entered(st, x), body, x.None?, ext).0, E())
      ensures Later(old(E()), E()) && Forth(Entered(st, x), WBody(d, Entered(st, x), body, x.None?, ext).0)
      ensures pos == old(pos) + |WBody(d, Entered(st, x), body, x.None?, ext).1| <= |file| && failed == old(failed)
      ensures node.Some? && Built(E(), body, ext, x, node.value) && open == old(open)
      decreases |file| - pos, 3
    {
      hide Fits, Image, Later, Forth, TypeOk, WBody, Stands, Built, Starts, Entered;
      assert Kind(body) == kind && IsBody(body);
      node := None;
      if kind != POINTER_TYPE {
        StartsPlain(d, st, E(), body, ext, x, ref);
      }
      if kind == ARRAY_TYPE {
        node := ReadArrayType(d, Entered(st, x), body, ext, x);
      } else if kind == POINTER_TYPE {
        node := ReadPointerType(d, st, body, ext, x, ref);
      } else if kind == PROCEDURE_TYPE {
        node := ReadProcedureType(d, Entered(st, x), body, ext, x);
      } else if kind == RECORD_TYPE {
        node := ReadRecordType(d, Entered(st, x), body, ext, x);
      }
    }

    // readArrayType (SymbolImporter.cpp:227-248)
    method ReadArrayType(ghost d: Defs, ghost st: St, ghost body: Type, ghost ext: bool, ghost x: Option<nat>)
      returns (node: Option<nat>)
      requires Fits(d) && body.Array? && TypeOk(d, body) && Image(d, st, E())
      requires Stands(file, pos, WBody(d, st, body, x.None?, ext).1) && WBody(d, st, body, x.None?, ext).0.clean
      modifies this`pos, this`heap, this`xrefs, this`fwds, this`symbols, this`failed, this`phi, this`pend, this`open, this`orphans
      ensures Image(d, WBody(d, st, body, x.None?, ext).0, E())
      ensures Later(old(E()), E()) && Forth(st, WBody(d, st, body, x.None?, ext).0)
      ensures pos == old(pos) + |WBody(d, st, body, x.None?, ext).1| <= |file| && failed == old(failed)
      ensures node.Some? && Built(E(), body, ext, x, node.value) && open == old(open)
      decreases |file| - pos, 2
    {
      hide Fits, Image, Later, Forth, Same, TypeOk, Stands, Built, WType, WBody;
      assert TypeOk(d, body.elem) by { PartsOk(d, body); }
      ghost var e0 := E();
      ArrayStep(d, st, body, x.None?, ext);
      ArrayText(file, pos, WType(d, st, body.elem, false).1, body.length, body.size);
      var typ := ReadType(d, st, body.elem, None, None);
      var types := [typ.value];
      var length := ReadInt();
      var lengths := [length];
      if typ.value.Node? && typ.value.id < |heap| && heap[typ.value.id].IArray? {
        lengths := lengths + heap[typ.value.id].lengths;
        types := types + heap[typ.value.id].types;
      }
      var size := ReadInt();
      ghost var e1 := E();
      assert lengths == [length] + Lengths(heap, typ.value) && types == [typ.value] + Types(heap, typ.value);
      node := NewNode(d, WType(d, st, body.elem, false).0, IArray(lengths, types, size));
      LaterTransitive(e0, e1, E());
      ArrayBuilt(e1, E(), body, ext, x, node.value, typ.value);
    }

    method NewNode(ghost d: Defs, ghost st: St, n: INode) returns (node: Option<nat>)
      requires Image(d, st, E())
      modifies this`heap
      ensures E() == Alloc(old(E()), n) && Image(d, st, E()) && Later(old(E()), E())
      ensures node == Some(|old(heap)|) && node.value !in open && forall y :: y in phi ==> phi[y] != node.value
    {
      hide Image, Later;
      AllocKeeps(d, st, E(), n);
      heap := heap + [n];
      node := Some(|heap| - 1);
      assert E() == Alloc(old(E()), n);
    }

    // readPointerType (SymbolImporter.cpp:250-259)
    method ReadPointerType(ghost d: Defs, ghost st: St, ghost body: Type, ghost ext: bool, ghost x: Option<nat>, ref: int)
      returns (node: Option<nat>)
      requires Fits(d) && body.Pointer? && TypeOk(d, body) && Image(d, st, E()) && Starts(d, st, body, ext, x, ref)
      requires Stands(file, pos, WBody(d, Entered(st, x), body, x.None?, ext).1) && WBody(d, Entered(st, x), body, x.None?, ext).0.clean
      modifies this`pos, this`heap, this`xrefs, this`fwds, this`symbols, this`failed, this`phi, this`pend, this`open, this`orphans
      ensures Image(d, WBody(d, Entered(st, x), body, x.None?, ext).0, E())
      ensures Later(old(E()), E()) && Forth(Entered(st, x), WBody(d, Entered(st, x), body, x.None?, ext).0)
      ensures pos == old(pos) + |WBody(d, Entered(st, x), body, x.None?, ext).1| <= |file| && failed == old(failed)
      ensures node.Some? && Built(E(), body, ext, x, node.value) && open == old(open)
      decreases |file| - pos, 2
    {
      hide Fits, Image, Later, Forth, Same, TypeOk, Stands, WType, WBase, Starts, Owns, Entered, Content, IsRecord, Built;
      assert TypeOk(d, body.base) && IsRecord(d, body.base) by { PartsOk(d, body); }
      ghost var e0, st1 := E(), Entered(st, x);
      OpenKeeps(d, st, e0, body, ext, x, ref);
      var ptr := |heap|;
      heap := heap + [IPointer(None)];
      xrefs := xrefs[ref := Node(ptr)];
      open := open + {ptr};
      if x.Some? {
        phi := phi[x.value := ptr];
      }
      ghost var e1 := E();
      assert e1 == OpenPointer(e0, ref, x);
      assert W(d, st1, body.base, true) == WBody(d, st1, body, x.None?, ext);
      var base := ReadType(d, st1, body.base, None, Some(ptr));
      ghost var e2, st2 := E(), WBase(d, st1, body.base).0;
      LaterTransitive(e0, e1, e2);
      if base.Some? {
        PointerSet(d, st1, e1, st2, e2, body.base, base.value, ptr, ext, x);
        heap := heap[ptr := IPointer(base)];
        open := open - {ptr};
        assert E() == SetBase(e2, ptr, base.value);
        LaterTransitive(e0, e2, E());
      } else {
        PointerWaits(d, st1, e1, st2, e2, body.base, ptr, ext, x);
      }
      assert open == e0.open;
      node := Some(ptr);
    }

    // readProcedureType (SymbolImporter.cpp:261-284)
    method ReadProcedureType(ghost d: Defs, ghost st: St, ghost body: Type, ghost ext: bool, ghost x: Option<nat>)
      returns (node: Option<nat>)
      requires Fits(d) && body.Procedure? && TypeOk(d, body) && Image(d, st, E())
      requires Stands(file, pos, WBody(d, st, body, x.None?, ext).1) && WBody(d, st, body, x.None?, ext).0.clean
      modifies this`pos, this`heap, this`xrefs, this`fwds, this`symbols, this`failed, this`phi, this`pend, this`open, this`orphans
      ensures Image(d, WBody(d, st, body, x.None?, ext).0, E())
      ensures Later(old(E()), E()) && Forth(st, WBody(d, st, body, x.None?, ext).0)
      ensures pos == old(pos) + |WBody(d, st, body, x.None?, ext).1| <= |file| && failed == old(failed)
      ensures node.Some? && Built(E(), body, ext, x, node.value) && open == old(open)
      decreases |file| - pos, 2
    {
      hide Fits, Image, Later, Forth, Same, TypeOk, Stands, Built, WType, WParams, SameParams, ParamsOk;
      assert TypeOk(d, body.ret) && ParamsOk(d, body.params) by { PartsOk(d, body); }
      ghost var e0, st1, out := E(), WType(d, st, body.ret, false).0, WType(d, st, body.ret, false).1;
      ghost var st2 := WParams(d, st1, body.params).0;
      Split(file, pos, out, WParams(d, st1, body.params).1);
      var ret := ReadType(d, st, body.ret, None, None);
      ghost var e1 := E();
      var params := ReadParameters(d, st1, body.params);
      ghost var e2 := E();
      node := NewNode(d, st2, IProcedure(ret.value, params));
      ForthTransitive(st, st1, st2);
      LaterTransitive(e0, e1, e2);
      LaterTransitive(e0, e2, E());
      SameLater(e1, e2, body.ret, ret.value);
      ProcedureBuilt(e2, E(), body, ext, x, node.value, ret.value, params);
    }

    // readRecordType (SymbolImporter.cpp:286-322)
    method ReadRecordType(ghost d: Defs, ghost st: St, ghost body: Type, ghost ext: bool, ghost x: Option<nat>)
      returns (node: Option<nat>)
      requires Fits(d) && body.Record? && TypeOk(d, body) && Image(d, st, E())
      requires Stands(file, pos, WBody(d, st, body, x.None?, ext).1) && WBody(d, st, body, x.None?, ext).0.clean
      modifies this`pos, this`heap, this`xrefs, this`fwds, this`symbols, this`failed, this`phi, this`pend, this`open, this`orphans
      ensures Image(d, WBody(d, st, body, x.None?, ext).0, E())
      ensures Later(old(E()), E()) && Forth(st, WBody(d, st, body, x.None?, ext).0)
      ensures pos == old(pos) + |WBody(d, st, body, x.None?, ext).1| <= |file| && failed == old(failed)
      ensures node.Some? && Built(E(), body, ext, x, node.value) && open == old(open)
      decreases |file| - pos, 2
    {
      hide Fits, Image, Later, Forth, Same, TypeOk, Stands, Built, WType, WFields, SameFields, FieldsOk, RecordBase, IsRecord, WBody;
      assert TypeOk(d, body.ancestor) && FieldsOk(d, body.fields) by { PartsOk(d, body); }
      ghost var e0 := E();
      ghost var (st1, out) := WType(d, st, body.ancestor, false);
      ghost var (st2, rest) := WFields(d, st1, body.fields, 1, ext, 0);
      RecordStep(d, st, body, x.None?, ext);
      RecordText(file, pos, out, if x.None? then 0 else -1, |body.fields|, body.size, rest);
      var base := ReadAncestor(d, st, body);
      ghost var e1 := E();
      var exno := ReadChar();
      var count := ReadInt();
      var size := ReadInt();
      var fields := ReadFields(d, st1, body.fields, ext);
      ForthTransitive(st, st1, st2);
      LaterTransitive(e0, e1, E());
      AncestorLater(e1, E(), body, base);
      ghost var e2 := E();
      node := NewRecord(d, st2, body, ext, x, base, fields, size);
      LaterTransitive(e0, e2, E());
    }

    method ReadAncestor(ghost d: Defs, ghost st: St, ghost body: Type) returns (base: Option<Ref>)
      requires Fits(d) && body.Record? && TypeOk(d, body) && Image(d, st, E())
      requires Stands(file, pos, WType(d, st, body.ancestor, false).1) && WType(d, st, body.ancestor, false).0.clean
      modifies this`pos, this`heap, this`xrefs, this`fwds, this`symbols, this`failed, this`phi, this`pend, this`open, this`orphans
      ensures Image(d, WType(d, st, body.ancestor, false).0, E())
      ensures Later(old(E()), E()) && Forth(st, WType(d, st, body.ancestor, false).0)
      ensures pos == old(pos) + |WType(d, st, body.ancestor, false).1| <= |file| && failed == old(failed)
      ensures RecordBase(E(), body, base) && open == old(open)
      decreases |file| - pos, 1
    {
      hide Fits, Image, Later, Forth, Same, TypeOk, Stands, WType, RecordBase, IsRecord;
      assert TypeOk(d, body.ancestor) by { PartsOk(d, body); }
      var typ := ReadType(d, st, body.ancestor, None, None);
      base := if typ.value.Node? && typ.value.id < |heap| && heap[typ.value.id].IRecord? then typ else None;
      AncestorRead(d, WType(d, st, body.ancestor, false).0, E(), body, typ.value);
    }

    method NewRecord(ghost d: Defs, ghost st: St, ghost body: Type, ghost ext: bool, ghost x: Option<nat>,
                     base: Option<Ref>, fields: seq<IField>, size: int)
      returns (node: Option<nat>)
      requires Image(d, st, E()) && body.Record? && size == body.size
      requires RecordBase(E(), body, base) && SameFields(E(), body.fields, fields, ext)
      modifies this`heap
      ensures Image(d, st, E()) && Later(old(E()), E())
      ensures node.Some? && Built(E(), body, ext, x, node.value)
    {
      hide Image, Later, RecordBase, SameFields, Built;
      ghost var e := E();
      node := NewNode(d, st, IRecord(base, fields, size));
      RecordBuilt(e, E(), body, ext, x, node.value, base, fields);
    }

    // The parameters, up to the terminator (SymbolImporter.cpp:265-282).
    method ReadParameters(ghost d: Defs, ghost st: St, ghost ps: seq<Parameter>) returns (us: seq<IParam>)
      requires Fits(d) && ParamsOk(d, ps) && Image(d, st, E())
      requires Stands(file, pos, WParams(d, st, ps).1) && WParams(d, st, ps).0.clean
      modifies this`pos, this`heap, this`xrefs, this`fwds, this`symbols, this`failed, this`phi, this`pend, this`open, this`orphans
      ensures Image(d, WParams(d, st, ps).0, E()) && Later(old(E()), E()) && Forth(st, WParams(d, st, ps).0)
      ensures pos == old(pos) + |WParams(d, st, ps).1| <= |file| && failed == old(failed) && open == old(open)
      ensures SameParams(E(), ps, us)
      decreases |file| - pos, 1
    {
      hide Fits, Image, Later, Forth, Same, ParamsOk, Stands, WParams, WParam, SameParam, E;
      ghost var e0, all, cur, i := E(), WParams(d, st, ps), st, 0;
      assert ps[0..] == ps;
      Unmoved(d, st, e0);
      ParamsHead(d, st, ps, 0, file, pos);
      us := [];
      var typ: Option<Ref> := None;
      var index: nat := 0;
      var ch := ReadChar();
      while ch != 0
        invariant i <= |ps| && |us| == i && cur.clean && old(pos) < pos <= |file|
        invariant Image(d, cur, E()) && Later(e0, E()) && Forth(st, cur) && open == old(open) && failed == old(failed)
        invariant Stands(file, pos - 1, WParams(d, cur, ps[i..]).1) && file[pos - 1] == Char(ch)
        invariant WParams(d, cur, ps[i..]).0 == all.0
        invariant pos - 1 + |WParams(d, cur, ps[i..]).1| == old(pos) + |all.1|
        invariant forall k :: 0 <= k < i ==> SameParam(E(), ps[k], us[k])
        invariant i > 0 ==> typ.Some? && Same(E(), ps[i - 1].typ, typ.value) && index == ps[i - 1].seqId
        decreases |ps| - i
      {
        ghost var e := E();
        ParamsHead(d, cur, ps, i, file, pos - 1);
        var param;
        param, typ, index := ReadParameter(d, cur, ps, i, typ, index);
        ForthTransitive(st, cur, WParam(d, cur, ps[i]).0);
        LaterTransitive(e0, e, E());
        forall k | 0 <= k < i ensures SameParam(E(), ps[k], us[k]) {
          ParamLater(e, E(), ps[k], us[k]);
        }
        cur := WParam(d, cur, ps[i]).0;
        us := us + [param];
        i := i + 1;
        ParamsHead(d, cur, ps, i, file, pos);
        ch := ReadChar();
      }
      ParamsHead(d, cur, ps, i, file, pos - 1);
    }

    method ReadParameter(ghost d: Defs, ghost st: St, ghost ps: seq<Parameter>, ghost i: nat, typ: Option<Ref>, index: nat)
      returns (param: IParam, cur: Option<Ref>, next: nat)
      requires Fits(d) && i < |ps| && ParamsOk(d, ps) && Image(d, st, E()) && WParam(d, st, ps[i]).0.clean
      requires Stands(file, pos, [Char(if ps[i].isVar then 0 else 1)] + WParam(d, st, ps[i]).1)
      requires i > 0 ==> typ.Some? && Same(E(), ps[i - 1].typ, typ.value) && index == ps[i - 1].seqId
      modifies this`pos, this`heap, this`xrefs, this`fwds, this`symbols, this`failed, this`phi, this`pend, this`open, this`orphans
      ensures Image(d, WParam(d, st, ps[i]).0, E()) && Later(old(E()), E()) && Forth(st, WParam(d, st, ps[i]).0)
      ensures pos == old(pos) + 1 + |WParam(d, st, ps[i]).1| <= |file| && failed == old(failed) && open == old(open)
      ensures SameParam(E(), ps[i], param) && cur == Some(param.typ) && Same(E(), ps[i].typ, param.typ) && next == ps[i].seqId
      decreases |file| - pos, 0
    {
      hide Fits, Image, Later, Forth, Content, Stands, TypeOk, Same;
      ghost var p := ps[i];
      ghost var written := if p.seqId == 0 then p.typ else Prim(NOTYPE);
      assert ParamOk(d, p) && TypeOk(d, Prim(NOTYPE)) by { NoTypeOk(d); }
      assert WParam(d, st, p) == W(d, st, written, false);
      First(file, pos, Char(if p.isVar then 0 else 1), WParam(d, st, p).1);
      var isVar := ReadChar();
      ghost var e := E();
      var read := ReadType(d, st, written, None, None);
      NoTypeOnly(E(), written, read.value);
      if i > 0 { SameLater(e, E(), ps[i - 1].typ, typ.value); }
      if read.Some? && read.value != Basic(NOTYPE) {
        cur, next := read, 0;
      } else {
        cur, next := typ, index + 1;
      }
      param := IParam(isVar == 0, cur.value, next);
    }

    // The fields, up to the terminator (SymbolImporter.cpp:297-318).
    method ReadFields(ghost d: Defs, ghost st: St, ghost fs: seq<Field>, ghost ext: bool) returns (us: seq<IField>)
      requires Fits(d) && FieldsOk(d, fs) && Image(d, st, E())
      requires Stands(file, pos, WFields(d, st, fs, 1, ext, 0).1) && WFields(d, st, fs, 1, ext, 0).0.clean
      modifies this`pos, this`heap, this`xrefs, this`fwds, this`symbols, this`failed, this`phi, this`pend, this`open, this`orphans
      ensures Image(d, WFields(d, st, fs, 1, ext, 0).0, E()) && Later(old(E()), E()) && Forth(st, WFields(d, st, fs, 1, ext, 0).0)
      ensures pos == old(pos) + |WFields(d, st, fs, 1, ext, 0).1| <= |file| && failed == old(failed) && open == old(open)
      ensures SameFields(E(), fs, us, ext)
      decreases |file| - pos, 1
    {
      hide Fits, Image, Later, Forth, Same, FieldsOk, Stands, WFields, WField, SameField, SameFields, FieldName, FieldsFrom, E;
      ghost var e0, last, cur, i := E(), WFields(d, st, fs, 1, ext, 0).0, st, 0;
      ghost var end := pos + |WFields(d, st, fs, 1, ext, 0).1|;
      ghost var at: nat := 0;
      AllFields(d, st, fs, ext, file, pos);
      Unmoved(d, st, e0);
      FieldsHead(d, st, fs, 0, ext, 0, file, pos, last, end);
      us := [];
      NoFields(E(), fs, ext);
      var typ: Option<Ref> := None;
      var index: nat := 0;
      var ch := ReadChar();
      while ch != 0
        invariant i <= |fs| && old(pos) < pos <= |file| && file[pos - 1] == Char(ch)
        invariant Image(d, cur, E()) && Later(e0, E()) && Forth(st, cur) && open == old(open) && failed == old(failed)
        invariant FieldsFrom(d, cur, fs, i, ext, at, file, pos - 1, last, end)
        invariant SameFields(E(), fs[..i], us, ext)
        invariant i > 0 ==> typ.Some? && Same(E(), fs[i - 1].typ, typ.value) && index == fs[i - 1].seqId
        decreases |fs| - i
      {
        ghost var e := E();
        FieldsHead(d, cur, fs, i, ext, at, file, pos - 1, last, end);
        var field;
        field, typ, index := ReadField(d, cur, fs, i, ext, at, typ, index);
        ForthTransitive(st, cur, WField(d, cur, fs[i]).0);
        LaterTransitive(e0, e, E());
        MoreFields(e, E(), fs, us, i, field, ext);
        cur := WField(d, cur, fs[i]).0;
        at := at + fs[i].size;
        us := us + [field];
        i := i + 1;
        FieldsHead(d, cur, fs, i, ext, at, file, pos, last, end);
        ch := ReadChar();
      }
      FieldsHead(d, cur, fs, i, ext, at, file, pos - 1, last, end);
      assert fs[..|fs|] == fs;
    }

    method ReadField(
      ghost d: Defs, ghost st: St, ghost fs: seq<Field>, ghost i: nat, ghost ext: bool, ghost at: nat, typ: Option<Ref>, index: nat)
      returns (field: IField, cur: Option<Ref>, next: nat)
      requires Fits(d) && i < |fs| && FieldsOk(d, fs) && Image(d, st, E()) && WField(d, st, fs[i]).0.clean
      requires Stands(file, pos, [Int(i + 1), Str(FieldName(fs[i], ext))] + WField(d, st, fs[i]).1 + [Int(at)])
      requires i > 0 ==> typ.Some? && Same(E(), fs[i - 1].typ, typ.value) && index == fs[i - 1].seqId
      modifies this`pos, this`heap, this`xrefs, this`fwds, this`symbols, this`failed, this`phi, this`pend, this`open, this`orphans
      ensures Image(d, WField(d, st, fs[i]).0, E()) && Later(old(E()), E()) && Forth(st, WField(d, st, fs[i]).0)
      ensures pos == old(pos) + 3 + |WField(d, st, fs[i]).1| <= |file| && failed == old(failed) && open == old(open)
      ensures SameField(E(), fs[i], field, ext) && cur == Some(field.typ) && Same(E(), fs[i].typ, field.typ) && next == fs[i].seqId
      decreases |file| - pos, 0
    {
      hide Fits, Image, Later, Forth, Content, Stands, TypeOk, FieldName, Same, SameField;
      ghost var f := fs[i];
      ghost var written := if f.seqId == 0 then f.typ else Prim(NOTYPE);
      assert FieldOk(d, f) && TypeOk(d, Prim(NOTYPE)) by { NoTypeOk(d); }
      assert WField(d, st, f) == W(d, st, written, false);
      FieldText(file, pos, i + 1, FieldName(f, ext), WField(d, st, f).1, at);
      var num := ReadInt();
      var name := ReadString();
      ghost var e := E();
      var read := ReadType(d, st, written, None, None);
      NoTypeOnly(E(), written, read.value);
      if i > 0 { SameLater(e, E(), fs[i - 1].typ, typ.value); }
      if read.value != Basic(NOTYPE) {
        cur, next := read, 0;
      } else {
        cur, next := typ, index + 1;
      }
      var offset := ReadInt();
      field := IField(name, cur.value, next);
      FieldRead(E(), f, field, ext);
    }

    // readDeclaration (SymbolImporter.cpp:79-155), for types, variables and procedures
    method ReadDeclaration(ghost d: Defs, ghost st: St, nodeType: int, ghost decl: Decl)
      requires Fits(d) && TypeOk(d, decl.typ) && Image(d, st, E()) && open == {} && Exportable(decl) && nodeType == decl.node
      requires Stands(file, pos, [Str(decl.name)] + WType(d, st, decl.typ, false).1 + Mark(decl)) && WType(d, st, decl.typ, false).0.clean
      requires decl.name !in scope
      modifies this
      ensures Image(d, WType(d, st, decl.typ, false).0, E()) && Later(old(E()), E()) && Forth(st, WType(d, st, decl.typ, false).0) && open == {}
      ensures pos == old(pos) + 1 + |WType(d, st, decl.typ, false).1| + |Mark(decl)| <= |file| && failed == old(failed)
      ensures decls != [] && scope == if decl.node == TYPE_NODE then old(scope)[decl.name := decls[|decls| - 1].typ] else old(scope)
      ensures |decls| == |old(decls)| + 1 && decls[..|old(decls)|] == old(decls) && SameDecl(E(), decl, decls[|old(decls)|])
    {
      hide Fits, Image, Later, Forth, Same, TypeOk, Stands, WType;
      ghost var out := WType(d, st, decl.typ, false).1;
      DeclText(file, pos, decl, out);
      var name := ReadString();
      var found := Lookup(self, name);
      var typ := ReadType(d, st, decl.typ, found, None);
      if nodeType == TYPE_NODE && found.None? {
        scope := scope[name := typ.value];
      } else if nodeType == VARIABLE_NODE {
        var exno := ReadChar();
      }
      decls := decls + [IDecl(nodeType, name, typ.value)];
    }

    // read (SymbolImporter.cpp:51-76), after the header: it fails just when some record
    // that a pointer waits for was never written, and otherwise declares an image of ds.
    method Read(ghost d: Defs, ghost ds: seq<Decl>)
      requires Fits(d) && pos == 0 && E() == NOTHING && decls == [] && scope == map[] && !failed
      requires (forall i :: 0 <= i < |ds| ==> Exportable(ds[i]) && TypeOk(d, ds[i].typ))
      requires forall i, j :: 0 <= i < j < |ds| ==> ds[i].name != ds[j].name
      requires file == WDecls(d, EMPTY, ds).1 && WDecls(d, EMPTY, ds).0.clean
      modifies this
      ensures var st := WDecls(d, EMPTY, ds).0;
        && (failed <==> st.pending != {} || st.lost != {})
        && (orphans == {} <==> st.pending == {} && st.whole)
      ensures pos == |file| && open == {} && xrefs == map[] && fwds == map[]
      ensures InScope(ds, |ds|, decls, scope)
      ensures Mirrors(d, heap, phi, orphans, ds, decls)
    {
      hide Fits, Image, Later, Same, Forth, TypeOk, Stands, WType, WDecls, Mirrors;
      ReadDeclarations(d, ds);
      ghost var st, e := WDecls(d, EMPTY, ds).0, E();
      Finished(d, st, e);
      NothingOpen(d, st, e, ds, decls);
      orphans := Baseless(e);
      xrefs := map[];
      if fwds != map[] {
        failed := true;
        fwds := map[];
      }
    }

    // The loop over the declarations (SymbolImporter.cpp:52-61).
    method ReadDeclarations(ghost d: Defs, ghost ds: seq<Decl>)
      requires Fits(d) && pos == 0 && E() == NOTHING && decls == [] && scope == map[] && !failed
      requires (forall i :: 0 <= i < |ds| ==> Exportable(ds[i]) && TypeOk(d, ds[i].typ))
      requires forall i, j :: 0 <= i < j < |ds| ==> ds[i].name != ds[j].name
      requires file == WDecls(d, EMPTY, ds).1 && WDecls(d, EMPTY, ds).0.clean
      modifies this
      ensures Image(d, WDecls(d, EMPTY, ds).0, E()) && pos == |file| && open == {} && !failed
      ensures SameDecls(E(), ds, decls) && InScope(ds, |ds|, decls, scope)
    {
      hide Fits, Image, Later, Same, Forth, TypeOk, Stands, WType, WDecls, DeclsFrom, SameDecls, SameDecl, Exportable, Mark, InScope, DistinctNames;
      assert DistinctNames(ds) by { NamesDiffer(ds); }
      NoneInScope(ds, decls);
      ghost var cur, i, last := EMPTY, 0, WDecls(d, EMPTY, ds).0;
      StartsEmpty(d);
      AllDecls(d, ds, file);
      NoDecls(E(), ds);
      DeclsHead(d, cur, ds, 0, file, 0, last);
      var ch := ReadChar();
      while ch != 0
        invariant i <= |ds| && 0 < pos <= |file| && file[pos - 1] == Char(ch) && !failed && open == {}
        invariant Image(d, cur, E()) && SameDecls(E(), ds[..i], decls) && |decls| == i
        invariant DeclsFrom(d, cur, ds, i, file, pos - 1, last)
        invariant InScope(ds, i, decls, scope)
        decreases |ds| - i
      {
        ghost var e, was, names := E(), decls, scope;
        DeclsHead(d, cur, ds, i, file, pos - 1, last);
        NotInScope(ds, i, decls, scope);
        ReadDeclaration(d, cur, ch, ds[i]);
        MoreDecls(e, E(), ds, was, i, decls);
        MoreInScope(ds, i, was, names, decls, scope);
        cur := WType(d, cur, ds[i].typ, false).0;
        i := i + 1;
        DeclsHead(d, cur, ds, i, file, pos, last);
        ch := ReadChar();
      }
      DeclsHead(d, cur, ds, i, file, pos - 1, last);
      assert ds[..|ds|] == ds;
    }
  }
}
