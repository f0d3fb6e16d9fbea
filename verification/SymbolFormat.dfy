// The types a module exports and the text of its symbol file
// (lib/data/symtab/SymbolExporter.cpp, lib/data/symtab/SymbolFile.cpp).
module SymbolFormat {
  // What the file holds, value by value.
  datatype Datum = Char(c: int) | Int(i: int) | Str(s: string)

  // Kinds of types (lib/data/ast/TypeNode.h:24-40).
  const NOTYPE: nat := 1
  const ARRAY_TYPE: nat := 6
  const POINTER_TYPE: nat := 7
  const PROCEDURE_TYPE: nat := 8
  const RECORD_TYPE: nat := 9
  const SET: nat := 10
  const STRING: nat := 19
  const TYPE: nat := 20

  // Kinds of nodes (lib/data/ast/Node.h:18-28).
  const PROCEDURE_NODE: nat := 3
  const FIELD_NODE: nat := 15
  const PARAMETER_NODE: nat := 16
  const VARIABLE_NODE: nat := 17
  const TYPE_NODE: nat := 19

  // A type. A named type is a reference to its definition, so that the graph may be
  // cyclic; an anonymous one belongs to the place where it is written.
  datatype Type =
    | Prim(kind: nat)
    | Named(id: nat)
    | Array(length: nat, size: nat, elem: Type)
    | Pointer(base: Type)
    | Procedure(ret: Type, params: seq<Parameter>)
    | Record(ancestor: Type, size: nat, fields: seq<Field>)

  // seqId counts the names of one declaration that share a type.
  datatype Parameter = Parameter(typ: Type, isVar: bool, seqId: nat)
  datatype Field = Field(name: string, exported: bool, typ: Type, seqId: nat, size: nat)

  datatype Def = Def(modul: string, name: string, external: bool, body: Type)
  type Defs = map<nat, Def>

  datatype Decl = Decl(node: nat, name: string, typ: Type)

  predicate IsBody(t: Type) {
    !t.Prim? && !t.Named?
  }

  function Kind(t: Type): nat
    requires IsBody(t)
  {
    match t
    case Array(_, _, _) => ARRAY_TYPE
    case Pointer(_) => POINTER_TYPE
    case Procedure(_, _) => PROCEDURE_TYPE
    case Record(_, _, _) => RECORD_TYPE
  }

  // A number as a signed byte.
  function ToInt8(n: int): (c: int)
    ensures -128 <= c < 128 && (c - n) % 256 == 0
  {
    (n + 128) % 256 - 128
  }

  // ---------- what the language guarantees of types ----------

  ghost predicate TypeOk(d: Defs, t: Type)
    decreases t, 1
  {
    match t
    case Prim(k) => k == NOTYPE || SET <= k <= STRING
    case Named(x) => x in d
    case Array(_, _, elem) => TypeOk(d, elem)
    case Pointer(base) => TypeOk(d, base) && IsRecord(d, base)
    case Procedure(ret, params) => TypeOk(d, ret) && ParamsOk(d, params)
    case Record(ancestor, _, fields) => TypeOk(d, ancestor) && (ancestor == Prim(NOTYPE) || IsRecord(d, ancestor)) && FieldsOk(d, fields)
  }

  predicate IsRecord(d: Defs, t: Type) {
    t.Record? || (t.Named? && t.id in d && d[t.id].body.Record?)
  }

  ghost predicate ParamsOk(d: Defs, ps: seq<Parameter>)
    decreases ps, 0
  {
    && (forall i :: 0 <= i < |ps| ==> ParamOk(d, ps[i]))
    && forall i :: 0 <= i < |ps| && ps[i].seqId != 0 ==>
         i > 0 && ps[i].seqId == ps[i - 1].seqId + 1 && ps[i].typ == ps[i - 1].typ
  }

  ghost predicate ParamOk(d: Defs, p: Parameter)
    decreases p, 0
  {
    TypeOk(d, p.typ) && p.typ != Prim(NOTYPE)
  }

  ghost predicate FieldsOk(d: Defs, fs: seq<Field>)
    decreases fs, 0
  {
    && (forall i :: 0 <= i < |fs| ==> FieldOk(d, fs[i]))
    && forall i :: 0 <= i < |fs| && fs[i].seqId != 0 ==>
         i > 0 && fs[i].seqId == fs[i - 1].seqId + 1 && fs[i].typ == fs[i - 1].typ
  }

  ghost predicate FieldOk(d: Defs, f: Field)
    decreases f, 0
  {
    TypeOk(d, f.typ) && f.typ != Prim(NOTYPE)
  }

  predicate SameOrigin(a: Def, b: Def) {
    a.external && b.external && a.modul == b.modul && a.name == b.name
  }

  // Definitions are structured; types of other modules are told apart by their names.
  ghost predicate DefsOk(d: Defs) {
    && (forall x :: x in d ==> IsBody(d[x].body) && TypeOk(d, d[x].body) && (d[x].external ==> d[x].modul != ""))
    && (forall x, y :: x in d && y in d && SameOrigin(d[x], d[y]) ==> x == y)
  }

  // ---------- the writer ----------

  // The exporter's counter and tables. The rest keeps the books of the proof: finished
  // types, records that some pointer waits for, numbers of forward references that gave way
  // to another number, whether no pointer gave way to another that waits for the same
  // record, and whether the reader will be able to follow.
  datatype St = St(
    xref: nat, xrefs: map<nat, nat>, fwds: map<nat, nat>,
    done: set<nat>, pending: set<nat>, lost: set<nat>, whole: bool, clean: bool)

  const EMPTY: St := St(TYPE + 1, map[], map[], {}, {}, {}, true, true)

  // A type already in the table is referred to by its number.
  function Refer(d: Defs, st: St, x: nat, asBase: bool): (r: St)
    requires x in d
    ensures r.xrefs == st.xrefs && (r.clean ==> st.clean)
  {
    if x in st.done || d[x].body.Pointer? then st
    else if asBase then st.(pending := st.pending + {x}, whole := st.whole && x !in st.pending)
    else st.(clean := false)
  }

  // A new entry in the table, under the number a forward reference has reserved, or the next.
  function Enter(st: St, x: nat): (r: St)
    ensures r.xrefs.Keys == st.xrefs.Keys + {x} && (r.clean ==> st.clean)
  {
    if x in st.fwds then st.(xrefs := st.xrefs[x := st.fwds[x]])
    else st.(xrefs := st.xrefs[x := st.xref], xref := st.xref + 1, clean := st.clean && st.xref <= 127)
  }

  function Reserve(st: St, x: nat): (r: St)
    ensures r.xrefs == st.xrefs && (r.clean ==> st.clean)
  {
    st.(fwds := st.fwds[x := st.xref], xref := st.xref + 1,
        pending := st.pending + {x}, lost := st.lost + (if x in st.fwds && x !in st.xrefs then {st.fwds[x]} else {}),
        whole := st.whole && x !in st.pending, clean := st.clean && st.xref <= 127)
  }

  function Leave(st: St, x: nat): (r: St)
    ensures r.xrefs == st.xrefs && (r.clean ==> st.clean)
  {
    st.(done := st.done + {x}, pending := st.pending - {x})
  }

  function Origin(def: Def): seq<Datum> {
    if def.external then [Str(def.modul), Str(def.name)] else [Str("")]
  }

  // writeType (SymbolExporter.cpp:105-165); asBase marks the base of a pointer.
  function WType(d: Defs, st: St, t: Type, asBase: bool): (r: (St, seq<Datum>))
    ensures st.xrefs.Keys <= r.0.xrefs.Keys && (r.0.clean ==> st.clean)
    decreases d.Keys - st.xrefs.Keys, t, 2
  {
    match t
    case Prim(k) => (st, [Char(0 - k)])
    case Named(x) =>
      if x !in d then (st.(clean := false), [])
      else if x in st.xrefs then (Refer(d, st, x, asBase), [Char(ToInt8(-(st.xrefs[x] as int)))])
      else
        var st1 := Enter(st, x);
        assert x in d.Keys - st.xrefs.Keys && x !in d.Keys - st1.xrefs.Keys;
        if IsBody(d[x].body) then
          var (st2, out) := WBody(d, st1, d[x].body, false, d[x].external);
          (Leave(st2, x), [Char(ToInt8(st1.xrefs[x]))] + Origin(d[x]) + [Char(Kind(d[x].body))] + out)
        else (st.(clean := false), [])
    case _ =>
      var (st1, out) := WBody(d, st, t, true, false);
      (st1, [Char(0), Char(Kind(t))] + out)
  }

  function WBody(d: Defs, st: St, t: Type, anonymous: bool, external: bool): (r: (St, seq<Datum>))
    requires IsBody(t)
    ensures st.xrefs.Keys <= r.0.xrefs.Keys && (r.0.clean ==> st.clean)
    decreases d.Keys - st.xrefs.Keys, t, 1
  {
    match t
    case Array(length, size, elem) =>
      var (st1, out) := WType(d, st, elem, false);
      (st1, out + [Int(length), Int(size)])
    case Pointer(base) => WBase(d, st, base)
    case Procedure(ret, params) =>
      var (st1, out) := WType(d, st, ret, false);
      var (st2, more) := WParams(d, st1, params);
      (st2, out + more)
    case Record(ancestor, size, fields) =>
      var (st1, out) := WType(d, st, ancestor, false);
      var (st2, more) := WFields(d, st1, fields, 1, external, 0);
      (st2, out + [Char(if anonymous then 0 else -1), Int(|fields|), Int(size)] + more)
  }

  // writePointerType (SymbolExporter.cpp:176-187)
  function WBase(d: Defs, st: St, base: Type): (r: (St, seq<Datum>))
    ensures st.xrefs.Keys <= r.0.xrefs.Keys && (r.0.clean ==> st.clean)
    decreases d.Keys - st.xrefs.Keys, base, 3
  {
    if base.Named? && base.id in d && !d[base.id].external && base.id !in st.xrefs then
      (Reserve(st, base.id), [Char(-ToInt8(st.xref))])
    else WType(d, st, base, true)
  }

  // Only the first of several names that share a type is written with it.
  function WParam(d: Defs, st: St, p: Parameter): (r: (St, seq<Datum>))
    ensures st.xrefs.Keys <= r.0.xrefs.Keys && (r.0.clean ==> st.clean)
    decreases d.Keys - st.xrefs.Keys, p, 0
  {
    if p.seqId == 0 then WType(d, st, p.typ, false) else (st, [Char(0 - NOTYPE)])
  }

  // The parameters, then a terminator (SymbolExporter.cpp:189-195, 237-250).
  function WParams(d: Defs, st: St, ps: seq<Parameter>): (r: (St, seq<Datum>))
    ensures st.xrefs.Keys <= r.0.xrefs.Keys && (r.0.clean ==> st.clean)
    decreases d.Keys - st.xrefs.Keys, ps, 0
  {
    if ps == [] then (st, [Char(0)])
    else
      var (st1, out) := WParam(d, st, ps[0]);
      var (st2, rest) := WParams(d, st1, ps[1..]);
      (st2, [Char(PARAMETER_NODE), Char(if ps[0].isVar then 0 else 1)] + out + rest)
  }

  function FieldName(f: Field, external: bool): string {
    if f.exported || external then f.name else "_"
  }

  function WField(d: Defs, st: St, f: Field): (r: (St, seq<Datum>))
    ensures st.xrefs.Keys <= r.0.xrefs.Keys && (r.0.clean ==> st.clean)
    decreases d.Keys - st.xrefs.Keys, f, 0
  {
    if f.seqId == 0 then WType(d, st, f.typ, false) else (st, [Char(0 - NOTYPE)])
  }

  // The fields from number num on, then a terminator (SymbolExporter.cpp:211-234).
  function WFields(d: Defs, st: St, fs: seq<Field>, num: nat, external: bool, offset: nat): (r: (St, seq<Datum>))
    ensures st.xrefs.Keys <= r.0.xrefs.Keys && (r.0.clean ==> st.clean)
    decreases d.Keys - st.xrefs.Keys, fs, 0
  {
    if fs == [] then (st, [Char(0)])
    else
      var (st1, out) := WField(d, st, fs[0]);
      var (st2, rest) := WFields(d, st1, fs[1..], num + 1, external, offset + fs[0].size);
      (st2, [Char(FIELD_NODE), Int(num), Str(FieldName(fs[0], external))] + out + [Int(offset)] + rest)
  }

  // writeDeclaration for types, variables and procedures, then the terminator of the
  // file (SymbolExporter.cpp:37-42, 52-103).
  function WDecls(d: Defs, st: St, ds: seq<Decl>): (r: (St, seq<Datum>))
    ensures r.0.clean ==> st.clean
    decreases ds
  {
    if ds == [] then (st, [Char(0)])
    else
      var (st1, out) := WType(d, st, ds[0].typ, false);
      var (st2, rest) := WDecls(d, st1, ds[1..]);
      (st2, [Char(ds[0].node), Str(ds[0].name)] + out + (if ds[0].node == VARIABLE_NODE then [Char(-1)] else []) + rest)
  }

  // ---------- the layout in numbers ----------

  // Types without a name: 0, the kind, and what the kind has.
  lemma {:induction false} TypeLayout(d: Defs, st: St, t: Type)
    ensures t.Prim? ==> WType(d, st, t, false).1 == [Char(0 - t.kind)]
    ensures t.Array? ==> WType(d, st, t, false).1 == [Char(0), Char(6)] + (WType(d, st, t.elem, false).1 + [Int(t.length), Int(t.size)])
    ensures t.Pointer? ==> WType(d, st, t, false).1 == [Char(0), Char(7)] + WBase(d, st, t.base).1
    ensures t.Procedure? ==> var (st1, out) := WType(d, st, t.ret, false);
      WType(d, st, t, false).1 == [Char(0), Char(8)] + (out + WParams(d, st1, t.params).1)
    ensures t.Record? ==> var (st1, out) := WType(d, st, t.ancestor, false);
      WType(d, st, t, false).1
      == [Char(0), Char(9)] + (out + [Char(0), Int(|t.fields|), Int(t.size)] + WFields(d, st1, t.fields, 1, false, 0).1)
  {
    hide WParams, WFields, WBase;
  }

  // A named type: its number, the module and the name if it is another module's, the kind
  // and what the kind has; numbers start at 21.
  lemma {:induction false} DefinitionLayout(d: Defs, st: St, x: nat)
    requires x in d && x !in st.xrefs && IsBody(d[x].body)
    ensures var num := if x in st.fwds then st.fwds[x] else st.xref;
      var kind := if d[x].body.Array? then 6 else if d[x].body.Pointer? then 7 else if d[x].body.Procedure? then 8 else 9;
      WType(d, st, Named(x), false).1
      == [Char(ToInt8(num))] + (if d[x].external then [Str(d[x].modul), Str(d[x].name)] else [Str("")]) + [Char(kind)]
         + WBody(d, Enter(st, x), d[x].body, false, d[x].external).1
    ensures EMPTY.xref == 21
  {
    hide WBody;
  }

  // Parameters start with 16 and fields with 15; what they share with the one before is 1.
  lemma {:induction false} PartLayout(d: Defs, st: St, p: Parameter, f: Field, num: nat, external: bool, offset: nat)
    ensures WParams(d, st, [p]).1
      == [Char(16), Char(if p.isVar then 0 else 1)] + (if p.seqId == 0 then WType(d, st, p.typ, false).1 else [Char(-1)]) + [Char(0)]
    ensures WFields(d, st, [f], num, external, offset).1
      == [Char(15), Int(num), Str(if f.exported || external then f.name else "_")]
         + (if f.seqId == 0 then WType(d, st, f.typ, false).1 else [Char(-1)]) + [Int(offset)] + [Char(0)]
  {
    hide WType;
    assert [p][1..] == [] && [f][1..] == [];
  }

  // A declaration: its kind, its name and its type; variables (17) have a mark behind them.
  lemma {:induction false} DeclLayout(d: Defs, st: St, decl: Decl)
    ensures WDecls(d, st, [decl]).1
      == [Char(decl.node), Str(decl.name)] + WType(d, st, decl.typ, false).1 + (if decl.node == 17 then [Char(-1)] else []) + [Char(0)]
    ensures PROCEDURE_NODE == 3 && TYPE_NODE == 19
  {
    hide WType;
    assert [decl][1..] == [];
  }

  // ---------- the spec functions, one element at a time ----------

  lemma {:induction false} ParamsStep(d: Defs, st: St, ps: seq<Parameter>, i: nat)
    requires i < |ps|
    ensures var (st1, out) := WParam(d, st, ps[i]);
      var (st2, rest) := WParams(d, st1, ps[i + 1..]);
      WParams(d, st, ps[i..]) == (st2, [Char(PARAMETER_NODE), Char(if ps[i].isVar then 0 else 1)] + out + rest)
  {
  }

  lemma {:induction false} NoMoreParams(d: Defs, st: St, ps: seq<Parameter>)
    ensures WParams(d, st, ps[|ps|..]) == (st, [Char(0)])
  {
  }

  lemma {:induction false} FieldsStep(d: Defs, st: St, fs: seq<Field>, i: nat, external: bool, offset: nat)
    requires i < |fs|
    ensures var (st1, out) := WField(d, st, fs[i]);
      var (st2, rest) := WFields(d, st1, fs[i + 1..], i + 2, external, offset + fs[i].size);
      WFields(d, st, fs[i..], i + 1, external, offset)
        == (st2, [Char(FIELD_NODE), Int(i + 1), Str(FieldName(fs[i], external))] + out + [Int(offset)] + rest)
  {
  }

  lemma {:induction false} NoMoreFields(d: Defs, st: St, fs: seq<Field>, external: bool, offset: nat)
    ensures WFields(d, st, fs[|fs|..], |fs| + 1, external, offset) == (st, [Char(0)])
  {
  }

  lemma {:induction false} DeclsStep(d: Defs, st: St, ds: seq<Decl>, i: nat)
    requires i < |ds|
    ensures var (st1, out) := WType(d, st, ds[i].typ, false);
      var (st2, rest) := WDecls(d, st1, ds[i + 1..]);
      WDecls(d, st, ds[i..])
        == (st2, [Char(ds[i].node), Str(ds[i].name)] + out + (if ds[i].node == VARIABLE_NODE then [Char(-1)] else []) + rest)
  {
  }

  lemma {:induction false} NoMoreDecls(d: Defs, st: St, ds: seq<Decl>)
    ensures WDecls(d, st, ds[|ds|..]) == (st, [Char(0)])
  {
  }
}
