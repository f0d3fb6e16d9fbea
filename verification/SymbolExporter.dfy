// The exporter (lib/data/symtab/SymbolExporter.cpp): it appends to the file and keeps
// its counter and its two tables up to date.
module SymbolExporter {
  import opened SymbolFormat

  class Exporter {
    const d: Defs
    var file: seq<Datum>
    var xref: nat
    var xrefs: map<nat, nat>
    var fwds: map<nat, nat>

    // The same tables, with the books of the proof.
    ghost var books: St

    constructor (d: Defs)
      ensures this.d == d && file == [] && books == EMPTY && Valid()
    {
      this.d := d;
      file, xref, xrefs, fwds := [], TYPE + 1, map[], map[];
      books := EMPTY;
    }

    ghost predicate Valid()
      reads this
    {
      xref == books.xref && xrefs == books.xrefs && fwds == books.fwds
    }

    // writeType (SymbolExporter.cpp:105-165)
    method WriteType(t: Type, ghost asBase: bool)
      requires Valid() && DefsOk(d) && TypeOk(d, t)
      modifies this
      ensures Valid()
      ensures books == WType(d, old(books), t, asBase).0
      ensures file == old(file) + WType(d, old(books), t, asBase).1
      decreases d.Keys - books.xrefs.Keys, t, 2
    {
      hide WBody, Enter, Leave, Origin, DefsOk;
      if t.Prim? {
        file := file + [Char(0 - t.kind)];
        return;
      }
      if t.Named? && t.id in xrefs {
        file := file + [Char(ToInt8(-(xrefs[t.id] as int)))];
        books := Refer(d, books, t.id, asBase);
        return;
      }
      if t.Named? {
        WriteDefinition(t.id);
      } else {
        file := file + [Char(0), Char(Kind(t))];
        WriteBody(t, true, false);
      }
    }

    // A named type that is not in the table yet (SymbolExporter.cpp:124-142).
    method WriteDefinition(x: nat)
      requires Valid() && DefsOk(d) && x in d && x !in xrefs
      modifies this
      ensures Valid()
      ensures books == WType(d, old(books), Named(x), false).0
      ensures file == old(file) + WType(d, old(books), Named(x), false).1
      decreases d.Keys - books.xrefs.Keys, Named(x), 1
    {
      hide WType, WBody, Enter, DefsOk, TypeOk;
      ghost var st1 := Enter(books, x);
      DefinitionStep(d, books, x);
      var ref := Number(x);
      var origin := if d[x].external then [Str(d[x].modul), Str(d[x].name)] else [Str("")];
      var front := [Char(ToInt8(ref))] + origin + [Char(Kind(d[x].body))];
      file := file + front;
      WriteBody(d[x].body, false, d[x].external);
      books := Leave(books, x);
      Append(old(file), front, WBody(d, st1, d[x].body, false, d[x].external).1);
    }

    // A new entry in the table (SymbolExporter.cpp:126-136).
    method Number(x: nat) returns (ref: nat)
      requires Valid() && x !in xrefs
      modifies this`xref, this`xrefs, this`books
      ensures Valid() && books == Enter(old(books), x) && x in books.xrefs && ref == books.xrefs[x]
    {
      if x in fwds {
        ref := fwds[x];
      } else {
        ref := xref;
        xref := xref + 1;
      }
      xrefs := xrefs[x := ref];
      books := Enter(books, x);
    }

    // writeArrayType, writePointerType, writeProcedureType and writeRecordType
    // (SymbolExporter.cpp:167-235)
    method WriteBody(t: Type, anonymous: bool, external: bool)
      requires Valid() && DefsOk(d) && IsBody(t) && TypeOk(d, t)
      modifies this
      ensures Valid()
      ensures books == WBody(d, old(books), t, anonymous, external).0
      ensures file == old(file) + WBody(d, old(books), t, anonymous, external).1
      decreases d.Keys - books.xrefs.Keys, t, 1
    {
      hide WType, WParams, WFields, WBase, TypeOk;
      BodyPartsOk(d, t);
      match t {
        case Array(length, size, elem) =>
          WriteType(elem, false);
          file := file + [Int(length), Int(size)];
        case Pointer(base) =>
          WriteBase(base);
        case Procedure(ret, params) =>
          WriteType(ret, false);
          WriteParams(params);
        case Record(ancestor, size, fields) =>
          WriteType(ancestor, false);
          file := file + [Char(if anonymous then 0 else -1), Int(|fields|), Int(size)];
          WriteFields(fields, external);
      }
    }

    method WriteBase(base: Type)
      requires Valid() && DefsOk(d) && TypeOk(d, base) && IsRecord(d, base)
      modifies this
      ensures Valid()
      ensures books == WBase(d, old(books), base).0
      ensures file == old(file) + WBase(d, old(books), base).1
      decreases d.Keys - books.xrefs.Keys, base, 3
    {
      if base.Named? && !d[base.id].external && base.id !in xrefs {
        file := file + [Char(-ToInt8(xref))];
        fwds := fwds[base.id := xref];
        xref := xref + 1;
        books := Reserve(books, base.id);
      } else {
        WriteType(base, true);
      }
    }

    method WriteParams(params: seq<Parameter>)
      requires Valid() && DefsOk(d) && ParamsOk(d, params)
      modifies this
      ensures Valid()
      ensures books == WParams(d, old(books), params).0
      ensures file == old(file) + WParams(d, old(books), params).1
      decreases d.Keys - books.xrefs.Keys, params, 1
    {
      hide WParams, WParam, ParamOk;
      ghost var all := WParams(d, books, params);
      assert params[0..] == params;
      for i := 0 to |params|
        invariant Valid() && old(books).xrefs.Keys <= books.xrefs.Keys
        invariant all.0 == WParams(d, books, params[i..]).0
        invariant old(file) + all.1 == file + WParams(d, books, params[i..]).1
      {
        var p := params[i];
        ghost var before, st := file, books;
        ParamsStep(d, st, params, i);
        file := file + [Char(PARAMETER_NODE), Char(if p.isVar then 0 else 1)];
        WriteParam(p);
        Append(before, [Char(PARAMETER_NODE), Char(if p.isVar then 0 else 1)], WParam(d, st, p).1);
        Append(before, [Char(PARAMETER_NODE), Char(if p.isVar then 0 else 1)] + WParam(d, st, p).1, WParams(d, books, params[i + 1..]).1);
      }
      NoMoreParams(d, books, params);
      file := file + [Char(0)];
    }

    method WriteParam(p: Parameter)
      requires Valid() && DefsOk(d) && ParamOk(d, p)
      modifies this
      ensures Valid()
      ensures books == WParam(d, old(books), p).0 && file == old(file) + WParam(d, old(books), p).1
      decreases d.Keys - books.xrefs.Keys, p, 0
    {
      if p.seqId == 0 {
        WriteType(p.typ, false);
      } else {
        file := file + [Char(0 - NOTYPE)];
      }
    }

    method WriteFields(fields: seq<Field>, external: bool)
      requires Valid() && DefsOk(d) && FieldsOk(d, fields)
      modifies this
      ensures Valid()
      ensures books == WFields(d, old(books), fields, 1, external, 0).0
      ensures file == old(file) + WFields(d, old(books), fields, 1, external, 0).1
      decreases d.Keys - books.xrefs.Keys, fields, 1
    {
      hide WFields, WField, FieldOk, FieldName;
      ghost var all := WFields(d, books, fields, 1, external, 0);
      var offset: nat := 0;
      assert fields[0..] == fields;
      for i := 0 to |fields|
        invariant Valid() && old(books).xrefs.Keys <= books.xrefs.Keys
        invariant all.0 == WFields(d, books, fields[i..], i + 1, external, offset).0
        invariant old(file) + all.1 == file + WFields(d, books, fields[i..], i + 1, external, offset).1
      {
        var f := fields[i];
        ghost var before, st := file, books;
        FieldsStep(d, st, fields, i, external, offset);
        file := file + [Char(FIELD_NODE), Int(i + 1), Str(FieldName(f, external))];
        WriteField(f);
        file := file + [Int(offset)];
        offset := offset + f.size;
        ghost var piece := [Char(FIELD_NODE), Int(i + 1), Str(FieldName(f, external))];
        Append(before, piece, WField(d, st, f).1);
        Append(before, piece + WField(d, st, f).1, [Int(offset - f.size)]);
        Append(before, piece + WField(d, st, f).1 + [Int(offset - f.size)], WFields(d, books, fields[i + 1..], i + 2, external, offset).1);
      }
      NoMoreFields(d, books, fields, external, offset);
      file := file + [Char(0)];
    }

    method WriteField(f: Field)
      requires Valid() && DefsOk(d) && FieldOk(d, f)
      modifies this
      ensures Valid()
      ensures books == WField(d, old(books), f).0 && file == old(file) + WField(d, old(books), f).1
      decreases d.Keys - books.xrefs.Keys, f, 0
    {
      if f.seqId == 0 {
        WriteType(f.typ, false);
      } else {
        file := file + [Char(0 - NOTYPE)];
      }
    }

    // write (SymbolExporter.cpp:9-50), without the header
    method Write(decls: seq<Decl>)
      requires Valid() && DefsOk(d) && forall i :: 0 <= i < |decls| ==> TypeOk(d, decls[i].typ)
      modifies this
      ensures Valid()
      ensures books == WDecls(d, old(books), decls).0
      ensures file == old(file) + WDecls(d, old(books), decls).1
    {
      hide WType, TypeOk, DefsOk, WDecls;
      ghost var all := WDecls(d, books, decls);
      assert decls[0..] == decls;
      for i := 0 to |decls|
        invariant Valid()
        invariant all.0 == WDecls(d, books, decls[i..]).0
        invariant old(file) + all.1 == file + WDecls(d, books, decls[i..]).1
      {
        ghost var before, st := file, books;
        DeclsStep(d, st, decls, i);
        file := file + [Char(decls[i].node), Str(decls[i].name)];
        WriteType(decls[i].typ, false);
        if decls[i].node == VARIABLE_NODE {
          file := file + [Char(-1)];
        }
        ghost var piece, tail := [Char(decls[i].node), Str(decls[i].name)], if decls[i].node == VARIABLE_NODE then [Char(-1)] else [];
        ghost var out := WType(d, st, decls[i].typ, false).1;
        Append(before, piece, out);
        Append(before, piece + out, tail);
        assert file == before + (piece + out + tail);
        Append(before, piece + out + tail, WDecls(d, books, decls[i + 1..]).1);
      }
      NoMoreDecls(d, books, decls);
      file := file + [Char(0)];
    }
  }

  lemma {:induction false} Append(a: seq<Datum>, b: seq<Datum>, c: seq<Datum>)
    ensures a + b + c == a + (b + c)
  {
  }

  lemma {:induction false} BodyPartsOk(d: Defs, t: Type)
    requires IsBody(t) && TypeOk(d, t)
    ensures t.Array? ==> TypeOk(d, t.elem)
    ensures t.Pointer? ==> TypeOk(d, t.base) && IsRecord(d, t.base)
    ensures t.Procedure? ==> TypeOk(d, t.ret) && ParamsOk(d, t.params)
    ensures t.Record? ==> TypeOk(d, t.ancestor) && FieldsOk(d, t.fields)
  {
  }

  lemma {:induction false} DefinitionStep(d: Defs, st: St, x: nat)
    requires DefsOk(d) && x in d && x !in st.xrefs
    ensures IsBody(d[x].body) && TypeOk(d, d[x].body)
    ensures x in d.Keys - st.xrefs.Keys && x !in d.Keys - Enter(st, x).xrefs.Keys
    ensures d.Keys - Enter(st, x).xrefs.Keys < d.Keys - st.xrefs.Keys
    ensures var st1 := Enter(st, x);
      var (st2, out) := WBody(d, st1, d[x].body, false, d[x].external);
      WType(d, st, Named(x), false)
        == (Leave(st2, x), [Char(ToInt8(st1.xrefs[x]))] + Origin(d[x]) + [Char(Kind(d[x].body))] + out)
  {
    assert IsBody(d[x].body) && TypeOk(d, d[x].body);
    hide WBody, DefsOk, TypeOk;
  }
}
