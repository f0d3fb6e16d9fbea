// Which forward references of a symbol file are ever defined: what is true of every run of
// the writer, whether the reader can follow it or not.
module ForwardNumbers {
  import opened SymbolFormat
  import opened SymbolImage

  // Every number below xref belongs to one type, or is lost.
  ghost predicate Sound(numbers: map<nat, nat>, xref: nat, lost: set<nat>) {
    && TYPE < xref && Injective(numbers)
    && (forall x :: x in numbers ==> TYPE < numbers[x] < xref && numbers[x] !in lost)
    && (forall n :: n in lost ==> TYPE < n < xref)
    && (forall n :: TYPE < n < xref && n !in lost ==> n in numbers.Values)
  }

  function Numbers(st: St): map<nat, nat> {
    st.fwds + st.xrefs
  }

  // A run that stays whole loses no number.
  ghost predicate Accounts(st: St) {
    && Sound(Numbers(st), st.xref, st.lost)
    && (forall x :: x in st.fwds && x !in st.xrefs ==> x in st.pending)
    && (st.whole ==> st.lost == {})
  }

  // The books stay in order, and what is lost stays lost.
  ghost predicate Onward(st: St, st': St) {
    Accounts(st) ==> Accounts(st') && st.lost <= st'.lost && st.xref <= st'.xref
  }

  lemma {:induction false} NextNumber(numbers: map<nat, nat>, xref: nat, lost: set<nat>, x: nat)
    requires Sound(numbers, xref, lost)
    ensures Sound(numbers[x := xref], xref + 1, lost + if x in numbers then {numbers[x]} else {})
  {
    var numbers' := numbers[x := xref];
    assert numbers'[x] in numbers'.Values;
    forall n | n in numbers.Values && (x !in numbers || n != numbers[x]) ensures n in numbers'.Values {
      var y :| y in numbers && numbers[y] == n;
      assert numbers'[y] == n;
    }
  }

  lemma {:induction false} EnterOnward(st: St, x: nat)
    requires x !in st.xrefs
    ensures Onward(st, Enter(st, x))
  {
    hide Sound;
    if Accounts(st) {
      if x in st.fwds {
        assert Numbers(Enter(st, x)) == Numbers(st);
      } else {
        NextNumber(Numbers(st), st.xref, st.lost, x);
        assert Numbers(Enter(st, x)) == Numbers(st)[x := st.xref];
        assert x !in Numbers(st) && st.lost + {} == st.lost;
      }
    }
  }

  // A record that waits under a number and is reserved again loses the number, and
  // nothing else is lost.
  lemma {:induction false} ReserveLoses(st: St, x: nat)
    requires x !in st.xrefs
    ensures Onward(st, Reserve(st, x))
    ensures Reserve(st, x).lost == st.lost + if x in st.fwds then {st.fwds[x]} else {}
  {
    hide Sound;
    if Accounts(st) {
      NextNumber(Numbers(st), st.xref, st.lost, x);
      assert Numbers(Reserve(st, x)) == Numbers(st)[x := st.xref];
    }
  }

  lemma {:induction false} SameNumbers(st: St, st': St)
    requires st'.xref == st.xref && st'.xrefs == st.xrefs && st'.fwds == st.fwds && st'.lost == st.lost
    requires (st'.whole ==> st.whole) && forall x :: x in st.pending && x !in st.xrefs ==> x in st'.pending
    ensures Onward(st, st')
  {
    hide Sound;
  }

  // ---------- every step of the writer ----------

  lemma {:induction false} TypeOnward(d: Defs, st: St, t: Type, asBase: bool)
    ensures Onward(st, WType(d, st, t, asBase).0)
    decreases d.Keys - st.xrefs.Keys, t, 2
  {
    hide Onward, WBody;
    match t
    case Prim(_) => SameNumbers(st, st);
    case Named(x) =>
      if x !in d {
        SameNumbers(st, st.(clean := false));
      } else if x in st.xrefs {
        SameNumbers(st, Refer(d, st, x, asBase));
      } else {
        var st1 := Enter(st, x);
        if IsBody(d[x].body) {
          EnterOnward(st, x);
          assert x in d.Keys - st.xrefs.Keys && x !in d.Keys - st1.xrefs.Keys;
          BodyOnward(d, st1, d[x].body, false, d[x].external);
          var st2 := WBody(d, st1, d[x].body, false, d[x].external).0;
          SameNumbers(st2, Leave(st2, x));
          Then(st1, st2, Leave(st2, x));
          Then(st, st1, Leave(st2, x));
        } else {
          SameNumbers(st, st.(clean := false));
        }
      }
    case _ => BodyOnward(d, st, t, true, false);
  }

  lemma {:induction false} Then(a: St, b: St, c: St)
    requires Onward(a, b) && Onward(b, c)
    ensures Onward(a, c)
  {
    hide Accounts;
  }

  lemma {:induction false} BodyOnward(d: Defs, st: St, t: Type, anonymous: bool, external: bool)
    requires IsBody(t)
    ensures Onward(st, WBody(d, st, t, anonymous, external).0)
    decreases d.Keys - st.xrefs.Keys, t, 1
  {
    hide Onward, WType, WBase, WParams, WFields;
    match t
    case Array(_, _, elem) => TypeOnward(d, st, elem, false);
    case Pointer(base) => BaseOnward(d, st, base);
    case Procedure(ret, params) =>
      var st1 := WType(d, st, ret, false).0;
      TypeOnward(d, st, ret, false);
      ParamsOnward(d, st1, params);
      Then(st, st1, WParams(d, st1, params).0);
    case Record(ancestor, _, fields) =>
      var st1 := WType(d, st, ancestor, false).0;
      TypeOnward(d, st, ancestor, false);
      FieldsOnward(d, st1, fields, 1, external, 0);
      Then(st, st1, WFields(d, st1, fields, 1, external, 0).0);
  }

  lemma {:induction false} BaseOnward(d: Defs, st: St, base: Type)
    ensures Onward(st, WBase(d, st, base).0)
    decreases d.Keys - st.xrefs.Keys, base, 3
  {
    hide Onward, WType;
    if base.Named? && base.id in d && !d[base.id].external && base.id !in st.xrefs {
      ReserveLoses(st, base.id);
    } else {
      TypeOnward(d, st, base, true);
    }
  }

  lemma {:induction false} ParamOnward(d: Defs, st: St, p: Parameter)
    ensures Onward(st, WParam(d, st, p).0)
    decreases d.Keys - st.xrefs.Keys, p, 0
  {
    hide Onward, WType;
    if p.seqId == 0 { TypeOnward(d, st, p.typ, false); } else { SameNumbers(st, st); }
  }

  lemma {:induction false} FieldOnward(d: Defs, st: St, f: Field)
    ensures Onward(st, WField(d, st, f).0)
    decreases d.Keys - st.xrefs.Keys, f, 0
  {
    hide Onward, WType;
    if f.seqId == 0 { TypeOnward(d, st, f.typ, false); } else { SameNumbers(st, st); }
  }

  lemma {:induction false} ParamsOnward(d: Defs, st: St, ps: seq<Parameter>)
    ensures Onward(st, WParams(d, st, ps).0)
    decreases d.Keys - st.xrefs.Keys, ps, 0
  {
    hide Onward, WParam;
    if ps == [] {
      SameNumbers(st, st);
    } else {
      ParamOnward(d, st, ps[0]);
      var st1 := WParam(d, st, ps[0]).0;
      ParamsOnward(d, st1, ps[1..]);
      Then(st, st1, WParams(d, st1, ps[1..]).0);
    }
  }

  lemma {:induction false} FieldsOnward(d: Defs, st: St, fs: seq<Field>, num: nat, external: bool, offset: nat)
    ensures Onward(st, WFields(d, st, fs, num, external, offset).0)
    decreases d.Keys - st.xrefs.Keys, fs, 0
  {
    hide Onward, WField;
    if fs == [] {
      SameNumbers(st, st);
    } else {
      FieldOnward(d, st, fs[0]);
      var st1 := WField(d, st, fs[0]).0;
      FieldsOnward(d, st1, fs[1..], num + 1, external, offset + fs[0].size);
      Then(st, st1, WFields(d, st1, fs[1..], num + 1, external, offset + fs[0].size).0);
    }
  }

  lemma {:induction false} DeclsOnward(d: Defs, st: St, ds: seq<Decl>)
    ensures Onward(st, WDecls(d, st, ds).0)
    decreases ds
  {
    hide Onward, WType;
    if ds == [] {
      SameNumbers(st, st);
    } else {
      var st1 := WType(d, st, ds[0].typ, false).0;
      TypeOnward(d, st, ds[0].typ, false);
      DeclsOnward(d, st1, ds[1..]);
      Then(st, st1, WDecls(d, st1, ds[1..]).0);
    }
  }

  // ---------- what is defined in the end ----------

  lemma {:induction false} EmptyAccounts()
    ensures Accounts(EMPTY)
  {
  }

  // Once lost, a number is never defined, whatever is written afterwards.
  lemma {:induction false} LostIsNeverDefined(d: Defs, st: St, ds: seq<Decl>, n: nat)
    requires Accounts(st) && n in st.lost
    ensures n !in WDecls(d, st, ds).0.xrefs.Values
  {
    hide WDecls;
    DeclsOnward(d, st, ds);
    var st' := WDecls(d, st, ds).0;
    assert forall x :: x in st'.xrefs ==> x in Numbers(st') && Numbers(st')[x] == st'.xrefs[x];
  }

  // In any module, every number that is given out is defined if and only if no record was
  // given a second number while it waited under a first, and every record that was given
  // one is written. A whole run loses nothing.
  lemma {:induction false} AllDefinedIff(d: Defs, ds: seq<Decl>)
    ensures var st := WDecls(d, EMPTY, ds).0;
      && ((forall n :: TYPE < n < st.xref ==> n in st.xrefs.Values) <==> st.lost == {} && forall x :: x in st.fwds ==> x in st.xrefs)
      && (st.whole ==> st.lost == {})
  {
    hide WDecls;
    var st := WDecls(d, EMPTY, ds).0;
    DeclsOnward(d, EMPTY, ds);
    EmptyAccounts();
    var numbers := Numbers(st);
    assert forall x :: x in st.xrefs ==> x in numbers && numbers[x] == st.xrefs[x];
    if forall n :: TYPE < n < st.xref ==> n in st.xrefs.Values {
      forall x | x in st.fwds ensures x in st.xrefs {
        assert x in numbers && numbers[x] in st.xrefs.Values;
      }
      assert forall n :: n in st.lost ==> n in st.xrefs.Values;
    }
    if st.lost == {} && forall x :: x in st.fwds ==> x in st.xrefs {
      assert numbers == st.xrefs;
    }
  }
}
