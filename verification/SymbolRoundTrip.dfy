// Reading a symbol file back: what a compilation sees of an imported type is what the
// exporting compilation saw of it.
module SymbolRoundTrip {
  import opened Wrappers
  import opened SymbolFormat
  import opened SymbolImage
  import SymbolExporter
  import PlannedModules
  import SymbolImporter

  // What can be seen of a type by following it to some depth.
  datatype View =
    | Cut
    | NoBase
    | Basis(kind: nat)
    | ArrayView(length: int, size: int, elem: View)
    | PointerView(base: View)
    | ProcedureView(ret: View, params: seq<ParamView>)
    | RecordView(ancestor: View, size: int, fields: seq<FieldView>)

  datatype ParamView = ParamView(isVar: bool, index: nat, typ: View)
  datatype FieldView = FieldView(name: string, index: nat, typ: View)

  // The exported side. Names of hidden fields are not seen.
  ghost function Exported(d: Defs, t: Type, n: nat): View
    requires DefsOk(d) && TypeOk(d, t)
    decreases n, 1
  {
    if n == 0 then Cut
    else if t.Prim? then Basis(t.kind)
    else if t.Named? then ExportedBody(d, d[t.id].body, d[t.id].external, n)
    else ExportedBody(d, t, false, n)
  }

  ghost function ExportedBody(d: Defs, t: Type, external: bool, n: nat): View
    requires DefsOk(d) && TypeOk(d, t) && IsBody(t) && n > 0
    decreases n, 0
  {
    match t
    case Array(length, size, elem) => ArrayView(length, size, Exported(d, elem, n - 1))
    case Pointer(base) => PointerView(Exported(d, base, n - 1))
    case Procedure(ret, params) =>
      ProcedureView(Exported(d, ret, n - 1), ParamsSeen(d, params, n - 1))
    case Record(ancestor, size, fields) =>
      RecordView(if ancestor == Prim(NOTYPE) then NoBase else Exported(d, ancestor, n - 1), size,
        FieldsSeen(d, fields, external, n - 1))
  }

  ghost function ParamsSeen(d: Defs, ps: seq<Parameter>, n: nat): (r: seq<ParamView>)
    requires DefsOk(d) && ParamsOk(d, ps)
    ensures |r| == |ps|
    decreases n, 2
  {
    seq(|ps|, i requires 0 <= i < |ps| => ParamView(ps[i].isVar, ps[i].seqId, (ParamIsOk(d, ps, i); Exported(d, ps[i].typ, n))))
  }

  ghost function FieldsSeen(d: Defs, fs: seq<Field>, external: bool, n: nat): (r: seq<FieldView>)
    requires DefsOk(d) && FieldsOk(d, fs)
    ensures |r| == |fs|
    decreases n, 2
  {
    seq(|fs|, i requires 0 <= i < |fs| =>
      FieldView(if fs[i].exported || external then fs[i].name else "_", fs[i].seqId, (FieldIsOk(d, fs, i); Exported(d, fs[i].typ, n))))
  }

  lemma {:induction false} ParamIsOk(d: Defs, ps: seq<Parameter>, i: nat)
    requires ParamsOk(d, ps) && i < |ps|
    ensures TypeOk(d, ps[i].typ)
  {
  }

  lemma {:induction false} FieldIsOk(d: Defs, fs: seq<Field>, i: nat)
    requires FieldsOk(d, fs) && i < |fs|
    ensures TypeOk(d, fs[i].typ)
  {
  }

  // The imported side.
  function Imported(heap: seq<INode>, u: Ref, n: nat): View
    decreases n, 1
  {
    if n == 0 then Cut
    else if u.Basic? then Basis(u.kind)
    else if u.id < |heap| then ImportedNode(heap, heap[u.id], n)
    else NoBase
  }

  function ImportedNode(heap: seq<INode>, node: INode, n: nat): View
    requires n > 0
    decreases n, 0
  {
    match node
    case IArray(lengths, types, size) =>
      if lengths == [] || types == [] then NoBase else ArrayView(lengths[0], size, Imported(heap, types[0], n - 1))
    case IPointer(base) => PointerView(if base.None? then NoBase else Imported(heap, base.value, n - 1))
    case IProcedure(ret, params) =>
      ProcedureView(Imported(heap, ret, n - 1), ParamsFound(heap, params, n - 1))
    case IRecord(ancestor, fields, size) =>
      RecordView(if ancestor.None? then NoBase else Imported(heap, ancestor.value, n - 1), size, FieldsFound(heap, fields, n - 1))
  }

  function ParamsFound(heap: seq<INode>, us: seq<IParam>, n: nat): (r: seq<ParamView>)
    ensures |r| == |us|
    decreases n, 2
  {
    seq(|us|, i requires 0 <= i < |us| => ParamView(us[i].isVar, us[i].index, Imported(heap, us[i].typ, n)))
  }

  function FieldsFound(heap: seq<INode>, us: seq<IField>, n: nat): (r: seq<FieldView>)
    ensures |r| == |us|
    decreases n, 2
  {
    seq(|us|, i requires 0 <= i < |us| => FieldView(us[i].name, us[i].index, Imported(heap, us[i].typ, n)))
  }

  ghost predicate AllFilled(d: Defs, e: Env) {
    e.pend == map[] && e.orphans == {} && forall x :: x in e.phi ==> x in d && Content(e, d[x].body, e.phi[x], d[x].external)
  }

  // To any depth, through all cycles, both sides look the same.
  lemma {:induction false} SameViews(d: Defs, e: Env, t: Type, u: Ref, n: nat)
    requires DefsOk(d) && TypeOk(d, t) && AllFilled(d, e) && Same(e, t, u)
    ensures Exported(d, t, n) == Imported(e.heap, u, n)
    decreases n, 1
  {
    hide DefsOk, TypeOk, Content, ExportedBody, ImportedNode;
    if n > 0 && !t.Prim? {
      if t.Named? {
        assert IsBody(d[t.id].body) && TypeOk(d, d[t.id].body) by { NamedOk(d, t); }
        SameBodyViews(d, e, d[t.id].body, e.phi[t.id], d[t.id].external, n);
      } else {
        SameBodyViews(d, e, t, u.id, false, n);
      }
    }
  }

  lemma {:induction false} NamedOk(d: Defs, t: Type)
    requires DefsOk(d) && TypeOk(d, t) && t.Named?
    ensures t.id in d && IsBody(d[t.id].body) && TypeOk(d, d[t.id].body)
  {
  }

  lemma {:induction false} SameBodyViews(d: Defs, e: Env, t: Type, j: nat, external: bool, n: nat)
    requires DefsOk(d) && TypeOk(d, t) && IsBody(t) && AllFilled(d, e) && Content(e, t, j, external) && n > 0
    ensures j < |e.heap| && ExportedBody(d, t, external, n) == ImportedNode(e.heap, e.heap[j], n)
    decreases n, 0
  {
    hide DefsOk, AllFilled, Same, Exported, Imported, TypeOk, ParamsOk, FieldsOk, ParamsSeen, FieldsSeen, ParamsFound, FieldsFound;
    SymbolImporter.PartsOk(d, t);
    match t
    case Array(_, _, elem) =>
      SameViews(d, e, elem, e.heap[j].types[0], n - 1);
    case Pointer(base) =>
      NobodyWaits(d, e);
      SameViews(d, e, base, e.heap[j].base.value, n - 1);
    case Procedure(ret, params) =>
      SameViews(d, e, ret, e.heap[j].ret, n - 1);
      SameParamViews(d, e, params, e.heap[j].params, n - 1);
    case Record(ancestor, _, fields) =>
      if ancestor != Prim(NOTYPE) {
        SameViews(d, e, ancestor, e.heap[j].ancestor.value, n - 1);
      }
      SameFieldViews(d, e, fields, e.heap[j].fields, external, n - 1);
  }

  lemma {:induction false} SameParamViews(d: Defs, e: Env, ps: seq<Parameter>, us: seq<IParam>, n: nat)
    requires DefsOk(d) && ParamsOk(d, ps) && AllFilled(d, e) && SameParams(e, ps, us)
    ensures ParamsSeen(d, ps, n) == ParamsFound(e.heap, us, n)
    decreases n, 2
  {
    hide DefsOk, ParamsOk, AllFilled, Same, Exported, Imported;
    forall i | 0 <= i < |ps| ensures ParamsSeen(d, ps, n)[i] == ParamsFound(e.heap, us, n)[i] {
      ParamIsOk(d, ps, i);
      assert SameParam(e, ps[i], us[i]);
      SameViews(d, e, ps[i].typ, us[i].typ, n);
    }
  }

  lemma {:induction false} SameFieldViews(d: Defs, e: Env, fs: seq<Field>, us: seq<IField>, external: bool, n: nat)
    requires DefsOk(d) && FieldsOk(d, fs) && AllFilled(d, e) && SameFields(e, fs, us, external)
    ensures FieldsSeen(d, fs, external, n) == FieldsFound(e.heap, us, n)
    decreases n, 2
  {
    hide DefsOk, FieldsOk, AllFilled, Same, Exported, Imported;
    forall i | 0 <= i < |fs| ensures FieldsSeen(d, fs, external, n)[i] == FieldsFound(e.heap, us, n)[i] {
      FieldIsOk(d, fs, i);
      assert SameField(e, fs[i], us[i], external);
      SameViews(d, e, fs[i].typ, us[i].typ, n);
    }
  }

  lemma {:induction false} NobodyWaits(d: Defs, e: Env)
    requires AllFilled(d, e)
    ensures e.pend == map[] && e.orphans == {}
  {
  }

  // Every declaration of a mirrored module looks as it was exported, if no base is missing.
  lemma {:induction false} MirrorsLookAlike(
    d: Defs, heap: seq<INode>, phi: map<nat, nat>, ds: seq<Decl>, us: seq<SymbolImporter.IDecl>, k: nat, n: nat)
    requires DefsOk(d) && SymbolImporter.Mirrors(d, heap, phi, {}, ds, us) && k < |ds| && TypeOk(d, ds[k].typ)
    ensures k < |us| && us[k].name == ds[k].name && Exported(d, ds[k].typ, n) == Imported(heap, us[k].typ, n)
  {
    hide DefsOk, TypeOk, Content, Same;
    SameViews(d, SymbolImporter.Settled(heap, phi, {}), ds[k].typ, us[k].typ, n);
  }

  // Every field of a named record comes back, under its name if that is to be seen.
  lemma {:induction false} FieldsComeBack(
    d: Defs, heap: seq<INode>, phi: map<nat, nat>, orphans: set<nat>, ds: seq<Decl>, us: seq<SymbolImporter.IDecl>, x: nat, i: nat)
    requires SymbolImporter.Mirrors(d, heap, phi, orphans, ds, us) && x in phi && x in d && d[x].body.Record?
    requires i < |d[x].body.fields|
    ensures phi[x] < |heap| && heap[phi[x]].IRecord? && |heap[phi[x]].fields| == |d[x].body.fields|
    ensures var f, u := d[x].body.fields[i], heap[phi[x]].fields[i];
      u.name == (if f.exported || d[x].external then f.name else "_") && u.index == f.seqId
  {
    var e := SymbolImporter.Settled(heap, phi, orphans);
    RecordFields(e, d[x].body, phi[x], d[x].external);
    hide SymbolImporter.Mirrors, Content, Same;
    assert SameField(e, d[x].body.fields[i], heap[phi[x]].fields[i], d[x].external);
  }

  lemma {:induction false} RecordFields(e: Env, t: Type, j: nat, external: bool)
    requires Content(e, t, j, external) && t.Record?
    ensures j < |e.heap| && e.heap[j].IRecord? && SameFields(e, t.fields, e.heap[j].fields, external)
  {
  }

  // Types are shared as before: two declarations of named types have one type after the
  // import just when they had one before.
  lemma {:induction false} MirrorsShareAlike(
    d: Defs, heap: seq<INode>, phi: map<nat, nat>, orphans: set<nat>, ds: seq<Decl>, us: seq<SymbolImporter.IDecl>, k: nat, l: nat)
    requires SymbolImporter.Mirrors(d, heap, phi, orphans, ds, us) && k < |ds| && l < |ds| && ds[k].typ.Named? && ds[l].typ.Named?
    ensures us[k].typ == us[l].typ <==> ds[k].typ == ds[l].typ
  {
  }

  // Export, then import. Where the writing stays clean, all comes back but the bases of
  // some pointers, which are there if and only if every record that was waited for was
  // written and no pointer gave way to another. The import reports an error if and only if
  // such a record was not written or a number was lost.
  method WriteAndRead(d: Defs, ds: seq<Decl>, self: string) returns (importer: SymbolImporter.Importer)
    requires DefsOk(d) && (forall x :: x in d && d[x].external ==> d[x].modul != self)
    requires forall i :: 0 <= i < |ds| ==> SymbolImporter.Exportable(ds[i]) && TypeOk(d, ds[i].typ)
    requires forall i, j :: 0 <= i < j < |ds| ==> ds[i].name != ds[j].name
    requires WDecls(d, EMPTY, ds).0.clean
    ensures importer.file == WDecls(d, EMPTY, ds).1
    ensures SymbolImporter.Mirrors(d, importer.heap, importer.phi, importer.orphans, ds, importer.decls)
    ensures var st := WDecls(d, EMPTY, ds).0;
      && (importer.orphans == {} <==> st.pending == {} && st.whole)
      && (importer.failed <==> st.pending != {} || st.lost != {})
  {
    hide DefsOk, TypeOk, WDecls, SymbolImporter.Mirrors;
    var exporter := new SymbolExporter.Exporter(d);
    exporter.Write(ds);
    importer := new SymbolImporter.Importer(exporter.file, self);
    assert exporter.file == WDecls(d, EMPTY, ds).1;
    importer.Read(d, ds);
  }

  // The same from the types alone: a module with a plan, all of whose records are declared,
  // comes back whole.
  method WriteAndReadPlanned(d: Defs, ds: seq<Decl>, self: string, ghost plan: PlannedModules.Plan) returns (importer: SymbolImporter.Importer)
    requires DefsOk(d) && (forall x :: x in d && d[x].external ==> d[x].modul != self)
    requires forall i :: 0 <= i < |ds| ==> SymbolImporter.Exportable(ds[i]) && TypeOk(d, ds[i].typ)
    requires forall i, j :: 0 <= i < j < |ds| ==> ds[i].name != ds[j].name
    requires PlannedModules.PlanOk(d, ds, plan) && PlannedModules.RecordsDeclared(d, ds)
    ensures !importer.failed && SymbolImporter.Mirrors(d, importer.heap, importer.phi, {}, ds, importer.decls)
  {
    hide DefsOk, TypeOk, WDecls, SymbolImporter.Mirrors, PlannedModules.PlanOk, PlannedModules.RecordsDeclared;
    PlannedModules.PlannedIsClean(d, ds, plan);
    importer := WriteAndRead(d, ds, self);
  }
}
