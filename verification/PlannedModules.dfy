// Modules whose symbol file the reader can follow: a condition on the types alone.
module PlannedModules {
  import opened SymbolFormat

  // The order of declaration, in which types are used after they are declared except as
  // bases of pointers; for each record of the module the one place that uses it as the base
  // of a pointer before it is written: a definition, or declaration k as -1 - k; a
  // declaration before which a type is not written; and one after which it is finished.
  datatype Plan = Plan(rank: nat -> nat, owner: nat -> int, entered: nat -> int, finished: nat -> int)

  predicate Local(d: Defs, x: nat) {
    x in d && !d[x].external
  }

  ghost predicate Before(plan: Plan, z: nat, c: int) {
    c >= 0 ==> plan.rank(z) < plan.rank(c)
  }

  // The declaration in which place c can be reached.
  function Time(plan: Plan, c: int): int {
    if c >= 0 then plan.entered(c) else -1 - c
  }

  // What is written at place c uses only earlier types, and itself if it is a pointer.
  ghost predicate Ordered(d: Defs, plan: Plan, c: int, t: Type)
    decreases t, 0
  {
    match t
    case Prim(_) => true
    case Named(z) => z in d && ((Before(plan, z, c) && plan.entered(z) <= Time(plan, c)) || (z == c && d[z].body.Pointer?))
    case Array(_, _, elem) => Ordered(d, plan, c, elem)
    case Pointer(base) => BaseOrdered(d, plan, c, base)
    case Procedure(ret, params) => Ordered(d, plan, c, ret) && forall i :: 0 <= i < |params| ==> Ordered(d, plan, c, params[i].typ)
    case Record(ancestor, _, fields) => Ordered(d, plan, c, ancestor) && forall i :: 0 <= i < |fields| ==> Ordered(d, plan, c, fields[i].typ)
  }

  ghost predicate BaseOrdered(d: Defs, plan: Plan, c: int, base: Type)
    decreases base, 1
  {
    (base.Named? && Local(d, base.id)) || Ordered(d, plan, c, base)
  }

  // The records of the module that are written as bases of pointers.
  function Bases(d: Defs, t: Type): multiset<nat>
    decreases t, 0
  {
    match t
    case Prim(_) => multiset{}
    case Named(_) => multiset{}
    case Array(_, _, elem) => Bases(d, elem)
    case Pointer(base) => BasesOfBase(d, base)
    case Procedure(ret, params) => Bases(d, ret) + BasesOfParams(d, params)
    case Record(ancestor, _, fields) => Bases(d, ancestor) + BasesOfFields(d, fields)
  }

  function BasesOfBase(d: Defs, base: Type): multiset<nat>
    decreases base, 1
  {
    if base.Named? && Local(d, base.id) then multiset{base.id} else Bases(d, base)
  }

  function BasesOfParam(d: Defs, p: Parameter): multiset<nat>
    decreases p, 0
  {
    if p.seqId == 0 then Bases(d, p.typ) else multiset{}
  }

  function BasesOfParams(d: Defs, ps: seq<Parameter>): multiset<nat>
    decreases ps, 0
  {
    if ps == [] then multiset{} else BasesOfParam(d, ps[0]) + BasesOfParams(d, ps[1..])
  }

  function BasesOfField(d: Defs, f: Field): multiset<nat>
    decreases f, 0
  {
    if f.seqId == 0 then Bases(d, f.typ) else multiset{}
  }

  function BasesOfFields(d: Defs, fs: seq<Field>): multiset<nat>
    decreases fs, 0
  {
    if fs == [] then multiset{} else BasesOfField(d, fs[0]) + BasesOfFields(d, fs[1..])
  }

  // Each of the bases is a finished record by then, or has its one early use here.
  ghost predicate Owned(d: Defs, plan: Plan, c: int, bases: multiset<nat>) {
    forall x :: x in bases ==>
      x in d && d[x].body.Record? && (plan.finished(x) < Time(plan, c) || (bases[x] == 1 && plan.owner(x) == c))
  }

  ghost predicate PlaceOk(d: Defs, plan: Plan, c: int, t: Type) {
    Ordered(d, plan, c, t) && Owned(d, plan, c, Bases(d, t))
  }

  // Numbers up to 127 suffice for 107 definitions.
  ghost predicate PlanOk(d: Defs, ds: seq<Decl>, plan: Plan) {
    && Size(d.Keys) <= 107
    && (forall y :: y in d ==> IsBody(d[y].body) && PlaceOk(d, plan, y, d[y].body))
    && (forall k :: 0 <= k < |ds| ==> PlaceOk(d, plan, -1 - k, ds[k].typ))
    && (forall x :: x in d ==> plan.finished(x) >= 0 && (plan.finished(x) < |ds| ==> ds[plan.finished(x)].typ == Named(x)))
  }

  // ---------- what each step of the writer keeps ----------

  // Place c has been reached, where declaration now is being written.
  predicate Begun(st: St, now: int, c: int) {
    if c >= 0 then c in st.xrefs else -1 - c <= now
  }

  function Size(s: set<nat>): nat {
    |s|
  }

  // Each type has at most one number, so that none is given out beyond 127.
  ghost predicate Counted(d: Defs, st: St) {
    && st.xrefs.Keys <= d.Keys && st.fwds.Keys <= d.Keys
    && st.xref == TYPE + 1 + Size(st.xrefs.Keys + st.fwds.Keys)
  }

  ghost predicate Awaited(d: Defs, plan: Plan, now: int, st: St) {
    && st.done <= st.xrefs.Keys
    && (forall x :: x in st.fwds && x !in st.xrefs ==> x in st.pending)
    && (forall x :: x in st.pending ==> x in d && d[x].body.Record? && Local(d, x) && x !in st.done && Begun(st, now, plan.owner(x)))
  }

  // The declarations before this one have finished what they should.
  ghost predicate Finished(d: Defs, plan: Plan, now: int, st: St) {
    forall x :: x in d && plan.finished(x) < now ==> x in st.done
  }

  ghost predicate Tidy(d: Defs, plan: Plan, now: int, st: St) {
    st.clean && st.whole && st.lost == {} && Counted(d, st) && Awaited(d, plan, now, st) && Finished(d, plan, now, st)
  }

  // Types that are still being written were declared no earlier than place c.
  ghost predicate Unfinished(plan: Plan, c: int, st: St) {
    forall u :: u in st.xrefs && u !in st.done ==> !Before(plan, u, c)
  }

  ghost predicate Ready(d: Defs, plan: Plan, now: int, c: int, st: St, bases: multiset<nat>) {
    && Tidy(d, plan, now, st) && Unfinished(plan, c, st) && Begun(st, now, c) && Time(plan, c) <= now && Owned(d, plan, c, bases)
    && forall x :: x in bases ==> x !in st.pending
  }

  // Nothing is left unfinished, and only records of these bases and of new types wait.
  ghost predicate Written(d: Defs, plan: Plan, now: int, c: int, st: St, st': St, bases: multiset<nat>) {
    && Tidy(d, plan, now, st') && st.xrefs.Keys <= st'.xrefs.Keys
    && (forall u :: u in st'.xrefs && u !in st'.done ==> u in st.xrefs && u !in st.done)
    && (forall x :: x in st'.pending && x !in st.pending ==>
          (plan.owner(x) == c && x in bases) || (plan.owner(x) >= 0 && plan.owner(x) !in st.xrefs))
  }

  lemma {:induction false} StillReady(d: Defs, plan: Plan, now: int, c: int, st: St, st1: St, a: multiset<nat>, b: multiset<nat>)
    requires Ready(d, plan, now, c, st, a + b) && Written(d, plan, now, c, st, st1, a)
    ensures Ready(d, plan, now, c, st1, b)
  {
    hide Tidy;
    assert forall x :: x in b ==> x in a + b && (a + b)[x] == a[x] + b[x];
    forall x | x in b ensures x !in st1.pending {
      if plan.finished(x) < Time(plan, c) { NotAwaited(d, plan, now, st1, x); }
    }
  }

  // Nothing waits for a finished record.
  lemma {:induction false} NotAwaited(d: Defs, plan: Plan, now: int, st: St, x: nat)
    requires Tidy(d, plan, now, st) && x in d && plan.finished(x) < now
    ensures x in st.done && x in st.xrefs && x !in st.pending
  {
    hide Counted;
  }

  lemma {:induction false} PartReady(d: Defs, plan: Plan, now: int, c: int, st: St, a: multiset<nat>, b: multiset<nat>)
    requires Ready(d, plan, now, c, st, a + b)
    ensures Ready(d, plan, now, c, st, a)
  {
    hide Tidy;
    assert forall x :: x in a ==> x in a + b && (a + b)[x] == a[x] + b[x];
  }

  lemma {:induction false} BothWritten(
    d: Defs, plan: Plan, now: int, c: int, st: St, st1: St, st2: St, a: multiset<nat>, b: multiset<nat>)
    requires Written(d, plan, now, c, st, st1, a) && Written(d, plan, now, c, st1, st2, b)
    ensures Written(d, plan, now, c, st, st2, a + b)
  {
    hide Tidy;
  }

  lemma {:induction false} NothingWritten(d: Defs, plan: Plan, now: int, c: int, st: St, bases: multiset<nat>)
    requires Ready(d, plan, now, c, st, bases)
    ensures Written(d, plan, now, c, st, st, bases)
  {
    hide Tidy;
  }

  // There is a number below 128 for one more type.
  lemma {:induction false} OneMore(d: Defs, st: St, x: nat, st': St)
    requires Size(d.Keys) <= 107 && Counted(d, st) && x in d && x !in st.xrefs && x !in st.fwds
    requires st'.xrefs.Keys + st'.fwds.Keys == st.xrefs.Keys + st.fwds.Keys + {x} && st'.xref == st.xref + 1
    ensures st.xref <= 127 && Counted(d, st')
  {
    var numbered := st.xrefs.Keys + st.fwds.Keys;
    assert numbered + {x} <= d.Keys;
    SubsetSize(numbered + {x}, d.Keys);
    OneLarger(numbered, x);
    hide Size;
    assert st'.xrefs.Keys <= numbered + {x} && st'.fwds.Keys <= numbered + {x};
  }

  lemma {:induction false} OneLarger(s: set<nat>, x: nat)
    requires x !in s
    ensures Size(s + {x}) == Size(s) + 1
  {
  }

  lemma {:induction false} SubsetSize(a: set<nat>, b: set<nat>)
    requires a <= b
    ensures Size(a) <= Size(b)
  {
    assert b == a + (b - a);
  }

  lemma {:induction false} SameCounted(d: Defs, st: St, st': St)
    requires Counted(d, st) && st'.xref == st.xref
    requires st'.xrefs.Keys + st'.fwds.Keys == st.xrefs.Keys + st.fwds.Keys
    ensures Counted(d, st')
  {
    var numbered := st'.xrefs.Keys + st'.fwds.Keys;
    assert numbered <= d.Keys && st'.xrefs.Keys <= numbered && st'.fwds.Keys <= numbered;
  }

  lemma {:induction false} EnterParts(st: St, x: nat)
    ensures var st' := Enter(st, x);
      && st'.xrefs.Keys == st.xrefs.Keys + {x} && st'.fwds == st.fwds && st'.done == st.done && st'.pending == st.pending
      && st'.whole == st.whole && st'.lost == st.lost
      && (x in st.fwds ==> st'.xref == st.xref && st'.clean == st.clean)
      && (x !in st.fwds ==> st'.xref == st.xref + 1 && st'.clean == (st.clean && st.xref <= 127))
  {
  }

  lemma {:induction false} EnterCounted(d: Defs, st: St, x: nat)
    requires Size(d.Keys) <= 107 && Counted(d, st) && x in d && x !in st.xrefs
    ensures Counted(d, Enter(st, x)) && Enter(st, x).clean == st.clean
  {
    hide Counted, Enter, Size;
    EnterParts(st, x);
    var st' := Enter(st, x);
    if x in st.fwds {
      assert st'.xrefs.Keys + st'.fwds.Keys == st.xrefs.Keys + st.fwds.Keys;
      SameCounted(d, st, st');
    } else {
      assert st'.xrefs.Keys + st'.fwds.Keys == st.xrefs.Keys + st.fwds.Keys + {x};
      OneMore(d, st, x, st');
    }
  }

  lemma {:induction false} PlanAt(d: Defs, ds: seq<Decl>, plan: Plan, x: nat)
    requires PlanOk(d, ds, plan) && x in d
    ensures Size(d.Keys) <= 107 && IsBody(d[x].body) && PlaceOk(d, plan, x, d[x].body)
  {
  }

  lemma {:induction false} EnterReady(d: Defs, ds: seq<Decl>, plan: Plan, now: int, c: int, st: St, x: nat)
    requires PlanOk(d, ds, plan) && Ready(d, plan, now, c, st, multiset{}) && x in d && x !in st.xrefs
    requires Before(plan, x, c) && plan.entered(x) <= Time(plan, c)
    ensures IsBody(d[x].body) && Ready(d, plan, now, x, Enter(st, x), Bases(d, d[x].body)) && Ordered(d, plan, x, d[x].body)
  {
    hide PlanOk, Ordered, Bases, Counted, Enter, Local, Size;
    PlanAt(d, ds, plan, x);
    EnterCounted(d, st, x);
    EnterParts(st, x);
    assert Tidy(d, plan, now, Enter(st, x));
  }

  lemma {:induction false} LeaveWritten(d: Defs, plan: Plan, now: int, c: int, st: St, x: nat, st2: St, bases: multiset<nat>)
    requires Ready(d, plan, now, c, st, multiset{}) && x in d && x !in st.xrefs
    requires Written(d, plan, now, x, Enter(st, x), st2, bases)
    ensures Written(d, plan, now, c, st, Leave(st2, x), multiset{})
  {
    hide Counted, Enter, Local, Size, Before;
    EnterParts(st, x);
    assert st2.xrefs.Keys + st2.fwds.Keys == Leave(st2, x).xrefs.Keys + Leave(st2, x).fwds.Keys;
    LeaveCounted(d, st2, x);
    assert x in st2.xrefs;
    assert Awaited(d, plan, now, Leave(st2, x));
    hide Awaited;
  }

  lemma {:induction false} LeaveCounted(d: Defs, st: St, x: nat)
    requires Counted(d, st)
    ensures Counted(d, Leave(st, x))
  {
  }

  lemma {:induction false} ReserveCounted(d: Defs, st: St, x: nat)
    requires Size(d.Keys) <= 107 && Counted(d, st) && x in d && x !in st.xrefs && x !in st.fwds && x !in st.pending
    ensures Counted(d, Reserve(st, x)) && Reserve(st, x).clean == st.clean
    ensures Reserve(st, x).whole == st.whole && Reserve(st, x).lost == st.lost
  {
    hide Size;
    var st' := Reserve(st, x);
    assert st'.xrefs.Keys + st'.fwds.Keys == st.xrefs.Keys + st.fwds.Keys + {x};
    hide Counted;
    OneMore(d, st, x, st');
  }

  lemma {:induction false} ReserveWritten(d: Defs, plan: Plan, now: int, c: int, st: St, x: nat)
    requires Size(d.Keys) <= 107 && Ready(d, plan, now, c, st, multiset{x}) && Local(d, x) && x !in st.xrefs
    ensures Written(d, plan, now, c, st, Reserve(st, x), multiset{x})
  {
    hide Counted, Size;
    assert x in multiset{x};
    if plan.finished(x) < Time(plan, c) { NotAwaited(d, plan, now, st, x); }
    ReserveCounted(d, st, x);
    assert Awaited(d, plan, now, Reserve(st, x));
  }

  // A type in the table that is mentioned outside a pointer, or as an external base.
  lemma {:induction false} ReferStays(d: Defs, plan: Plan, now: int, c: int, st: St, x: nat, asBase: bool)
    requires Ready(d, plan, now, c, st, multiset{}) && x in d && x in st.xrefs
    requires Before(plan, x, c) || (x == c && d[x].body.Pointer?)
    ensures Refer(d, st, x, asBase) == st
  {
    hide Tidy;
  }

  // A record in the table that is the base of a pointer.
  lemma {:induction false} ReferBaseWritten(d: Defs, plan: Plan, now: int, c: int, st: St, x: nat)
    requires Ready(d, plan, now, c, st, multiset{x}) && x in st.xrefs && Local(d, x)
    ensures Written(d, plan, now, c, st, Refer(d, st, x, true), multiset{x})
  {
    hide Counted, Size, Begun;
    assert x in multiset{x};
    if x in st.done {
      NothingWritten(d, plan, now, c, st, multiset{x});
    } else {
      if plan.finished(x) < Time(plan, c) { NotAwaited(d, plan, now, st, x); }
      SameCounted(d, st, Refer(d, st, x, true));
      SameBegun(st, Refer(d, st, x, true), now);
      assert Awaited(d, plan, now, Refer(d, st, x, true));
    }
  }

  lemma {:induction false} SameBegun(st: St, st': St, now: int)
    requires st'.xrefs == st.xrefs
    ensures forall c :: Begun(st', now, c) <==> Begun(st, now, c)
  {
  }

  // ---------- the whole writer ----------

  lemma {:induction false} TypeWritten(d: Defs, ds: seq<Decl>, plan: Plan, now: int, c: int, st: St, t: Type, asBase: bool)
    requires PlanOk(d, ds, plan) && Ordered(d, plan, c, t) && Ready(d, plan, now, c, st, Bases(d, t))
    ensures Written(d, plan, now, c, st, WType(d, st, t, asBase).0, Bases(d, t))
    decreases d.Keys - st.xrefs.Keys, t, 2
  {
    hide PlanOk, Ready, Written, WBody, Before, Refer, Enter, Leave, Local;
    match t
    case Prim(_) => NothingWritten(d, plan, now, c, st, Bases(d, t));
    case Named(x) =>
      if x in st.xrefs {
        ReferStays(d, plan, now, c, st, x, asBase);
        NothingWritten(d, plan, now, c, st, Bases(d, t));
      } else {
        var st1 := Enter(st, x);
        BeforeHere(d, plan, now, c, st, x);
        EnterReady(d, ds, plan, now, c, st, x);
        assert x in d.Keys - st.xrefs.Keys && x !in d.Keys - st1.xrefs.Keys;
        BodyWritten(d, ds, plan, now, x, st1, d[x].body, false, d[x].external);
        LeaveWritten(d, plan, now, c, st, x, WBody(d, st1, d[x].body, false, d[x].external).0, Bases(d, d[x].body));
      }
    case _ => BodyWritten(d, ds, plan, now, c, st, t, true, false);
  }

  // A type that is not in the table yet is not the one being written.
  lemma {:induction false} BeforeHere(d: Defs, plan: Plan, now: int, c: int, st: St, x: nat)
    requires Ready(d, plan, now, c, st, multiset{}) && x !in st.xrefs && ((Before(plan, x, c) && plan.entered(x) <= Time(plan, c)) || x == c)
    ensures Before(plan, x, c) && plan.entered(x) <= Time(plan, c)
  {
  }

  lemma {:induction false} BodyWritten(
    d: Defs, ds: seq<Decl>, plan: Plan, now: int, c: int, st: St, t: Type, anonymous: bool, external: bool)
    requires PlanOk(d, ds, plan) && IsBody(t) && Ordered(d, plan, c, t) && Ready(d, plan, now, c, st, Bases(d, t))
    ensures Written(d, plan, now, c, st, WBody(d, st, t, anonymous, external).0, Bases(d, t))
    decreases d.Keys - st.xrefs.Keys, t, 1
  {
    hide PlanOk, Ready, Written, WType, WBase, WParams, WFields, BasesOfBase, BasesOfParams, BasesOfFields;
    match t
    case Array(_, _, elem) => TypeWritten(d, ds, plan, now, c, st, elem, false);
    case Pointer(base) => BaseWritten(d, ds, plan, now, c, st, base);
    case Procedure(ret, params) =>
      var st1, a, b := WType(d, st, ret, false).0, Bases(d, ret), BasesOfParams(d, params);
      PartReady(d, plan, now, c, st, a, b);
      TypeWritten(d, ds, plan, now, c, st, ret, false);
      StillReady(d, plan, now, c, st, st1, a, b);
      ParamsWritten(d, ds, plan, now, c, st1, params);
      BothWritten(d, plan, now, c, st, st1, WParams(d, st1, params).0, a, b);
    case Record(ancestor, _, fields) =>
      var st1, a, b := WType(d, st, ancestor, false).0, Bases(d, ancestor), BasesOfFields(d, fields);
      PartReady(d, plan, now, c, st, a, b);
      TypeWritten(d, ds, plan, now, c, st, ancestor, false);
      StillReady(d, plan, now, c, st, st1, a, b);
      FieldsWritten(d, ds, plan, now, c, st1, fields, 1, external, 0);
      BothWritten(d, plan, now, c, st, st1, WFields(d, st1, fields, 1, external, 0).0, a, b);
  }

  lemma {:induction false} BaseWritten(d: Defs, ds: seq<Decl>, plan: Plan, now: int, c: int, st: St, base: Type)
    requires PlanOk(d, ds, plan) && BaseOrdered(d, plan, c, base) && Ready(d, plan, now, c, st, BasesOfBase(d, base))
    ensures Written(d, plan, now, c, st, WBase(d, st, base).0, BasesOfBase(d, base))
    decreases d.Keys - st.xrefs.Keys, base, 3
  {
    hide PlanOk, Ready, Written, Reserve, Refer;
    if base.Named? && Local(d, base.id) {
      if base.id in st.xrefs {
        ReferBaseWritten(d, plan, now, c, st, base.id);
      } else {
        SizeOk(d, ds, plan);
        ReserveWritten(d, plan, now, c, st, base.id);
      }
    } else {
      TypeWritten(d, ds, plan, now, c, st, base, true);
    }
  }

  lemma {:induction false} SizeOk(d: Defs, ds: seq<Decl>, plan: Plan)
    requires PlanOk(d, ds, plan)
    ensures Size(d.Keys) <= 107
  {
  }

  lemma {:induction false} ParamWritten(d: Defs, ds: seq<Decl>, plan: Plan, now: int, c: int, st: St, p: Parameter)
    requires PlanOk(d, ds, plan) && Ordered(d, plan, c, p.typ) && Ready(d, plan, now, c, st, BasesOfParam(d, p))
    ensures Written(d, plan, now, c, st, WParam(d, st, p).0, BasesOfParam(d, p))
    decreases d.Keys - st.xrefs.Keys, p, 0
  {
    hide PlanOk, Ready, Written, WType, Bases;
    if p.seqId == 0 {
      TypeWritten(d, ds, plan, now, c, st, p.typ, false);
    } else {
      NothingWritten(d, plan, now, c, st, multiset{});
    }
  }

  lemma {:induction false} ParamsWritten(d: Defs, ds: seq<Decl>, plan: Plan, now: int, c: int, st: St, ps: seq<Parameter>)
    requires PlanOk(d, ds, plan) && Ready(d, plan, now, c, st, BasesOfParams(d, ps))
    requires forall i :: 0 <= i < |ps| ==> Ordered(d, plan, c, ps[i].typ)
    ensures Written(d, plan, now, c, st, WParams(d, st, ps).0, BasesOfParams(d, ps))
    decreases d.Keys - st.xrefs.Keys, ps, 0
  {
    hide PlanOk, Ready, Written, Ordered, WParam, BasesOfParam;
    if ps == [] {
      NothingWritten(d, plan, now, c, st, multiset{});
    } else {
      var st1, a, b := WParam(d, st, ps[0]).0, BasesOfParam(d, ps[0]), BasesOfParams(d, ps[1..]);
      PartReady(d, plan, now, c, st, a, b);
      ParamWritten(d, ds, plan, now, c, st, ps[0]);
      StillReady(d, plan, now, c, st, st1, a, b);
      ParamsWritten(d, ds, plan, now, c, st1, ps[1..]);
      BothWritten(d, plan, now, c, st, st1, WParams(d, st1, ps[1..]).0, a, b);
    }
  }

  lemma {:induction false} FieldWritten(d: Defs, ds: seq<Decl>, plan: Plan, now: int, c: int, st: St, f: Field)
    requires PlanOk(d, ds, plan) && Ordered(d, plan, c, f.typ) && Ready(d, plan, now, c, st, BasesOfField(d, f))
    ensures Written(d, plan, now, c, st, WField(d, st, f).0, BasesOfField(d, f))
    decreases d.Keys - st.xrefs.Keys, f, 0
  {
    hide PlanOk, Ready, Written, WType, Bases;
    if f.seqId == 0 {
      TypeWritten(d, ds, plan, now, c, st, f.typ, false);
    } else {
      NothingWritten(d, plan, now, c, st, multiset{});
    }
  }

  lemma {:induction false} FieldsWritten(d: Defs, ds: seq<Decl>, plan: Plan, now: int, c: int, st: St, fs: seq<Field>, num: nat, external: bool, offset: nat)
    requires PlanOk(d, ds, plan) && Ready(d, plan, now, c, st, BasesOfFields(d, fs))
    requires forall i :: 0 <= i < |fs| ==> Ordered(d, plan, c, fs[i].typ)
    ensures Written(d, plan, now, c, st, WFields(d, st, fs, num, external, offset).0, BasesOfFields(d, fs))
    decreases d.Keys - st.xrefs.Keys, fs, 0
  {
    hide PlanOk, Ready, Written, Ordered, WField, BasesOfField;
    if fs == [] {
      NothingWritten(d, plan, now, c, st, multiset{});
    } else {
      var st1, a, b := WField(d, st, fs[0]).0, BasesOfField(d, fs[0]), BasesOfFields(d, fs[1..]);
      PartReady(d, plan, now, c, st, a, b);
      FieldWritten(d, ds, plan, now, c, st, fs[0]);
      StillReady(d, plan, now, c, st, st1, a, b);
      FieldsWritten(d, ds, plan, now, c, st1, fs[1..], num + 1, external, offset + fs[0].size);
      BothWritten(d, plan, now, c, st, st1, WFields(d, st1, fs[1..], num + 1, external, offset + fs[0].size).0, a, b);
    }
  }

  // ---------- whole modules ----------

  // Between declarations nothing is unfinished.
  ghost predicate AtRest(d: Defs, plan: Plan, now: int, st: St) {
    Tidy(d, plan, now, st) && st.xrefs.Keys <= st.done && forall x :: x in d && plan.finished(x) <= now ==> x in st.done
  }

  lemma {:induction false} DeclReady(d: Defs, plan: Plan, k: nat, st: St, bases: multiset<nat>)
    requires AtRest(d, plan, k - 1, st) && Owned(d, plan, -1 - k, bases)
    ensures Ready(d, plan, k, -1 - k, st, bases)
  {
    hide Counted, Local;
  }

  lemma {:induction false} DeclWritten(d: Defs, ds: seq<Decl>, plan: Plan, k: nat, st: St)
    requires PlanOk(d, ds, plan) && k < |ds| && AtRest(d, plan, k - 1, st)
    ensures AtRest(d, plan, k, WType(d, st, ds[k].typ, false).0)
  {
    hide Ready, Ordered, Bases, WType, Owned, Counted, Awaited;
    assert PlaceOk(d, plan, -1 - k, ds[k].typ);
    DeclReady(d, plan, k, st, Bases(d, ds[k].typ));
    TypeWritten(d, ds, plan, k, -1 - k, st, ds[k].typ, false);
    var st' := WType(d, st, ds[k].typ, false).0;
    forall x | x in d && plan.finished(x) == k ensures x in st'.xrefs {
      NowEntered(d, st, x);
    }
  }

  lemma {:induction false} NowEntered(d: Defs, st: St, x: nat)
    requires x in d && IsBody(d[x].body)
    ensures x in WType(d, st, Named(x), false).0.xrefs
  {
    hide WBody;
  }

  lemma {:induction false} DeclsWritten(d: Defs, ds: seq<Decl>, plan: Plan, k: nat, st: St)
    requires PlanOk(d, ds, plan) && k <= |ds| && AtRest(d, plan, k - 1, st)
    ensures AtRest(d, plan, |ds| - 1, WDecls(d, st, ds[k..]).0)
    decreases |ds| - k
  {
    hide PlanOk, AtRest, WType;
    if k < |ds| {
      DeclWritten(d, ds, plan, k, st);
      DeclsStep(d, st, ds, k);
      hide WDecls;
      DeclsWritten(d, ds, plan, k + 1, WType(d, st, ds[k].typ, false).0);
    }
  }

  lemma {:induction false} NameEntered(d: Defs, st: St, ds: seq<Decl>, k: nat)
    requires k < |ds| && ds[k].typ.Named? && ds[k].typ.id in d && IsBody(d[ds[k].typ.id].body)
    ensures ds[k].typ.id in WDecls(d, st, ds).0.xrefs
    decreases ds
  {
    hide WType;
    var st1 := WType(d, st, ds[0].typ, false).0;
    if k == 0 {
      NowEntered(d, st, ds[0].typ.id);
      DeclsGrow(d, st1, ds[1..]);
    } else {
      NameEntered(d, st1, ds[1..], k - 1);
    }
  }

  lemma {:induction false} DeclsGrow(d: Defs, st: St, ds: seq<Decl>)
    ensures st.xrefs.Keys <= WDecls(d, st, ds).0.xrefs.Keys
    decreases ds
  {
    hide WType;
    if ds != [] { DeclsGrow(d, WType(d, st, ds[0].typ, false).0, ds[1..]); }
  }

  // Every record of the module is declared.
  ghost predicate RecordsDeclared(d: Defs, ds: seq<Decl>) {
    forall x :: x in d && !d[x].external && d[x].body.Record? ==> exists k :: 0 <= k < |ds| && ds[k].typ == Named(x)
  }

  // A module with a plan is written cleanly, so that the reader can follow, and no pointer
  // gives way to another; if all its records are declared, each pointer gets its base.
  lemma {:induction false} PlannedIsClean(d: Defs, ds: seq<Decl>, plan: Plan)
    requires DefsOk(d) && PlanOk(d, ds, plan)
    ensures var st := WDecls(d, EMPTY, ds).0; st.clean && st.whole && st.lost == {}
    ensures RecordsDeclared(d, ds) ==> WDecls(d, EMPTY, ds).0.pending == {}
  {
    hide DefsOk, PlanOk, WDecls, Size;
    var st := WDecls(d, EMPTY, ds).0;
    assert ds[0..] == ds;
    EmptyRests(d, ds, plan);
    DeclsWritten(d, ds, plan, 0, EMPTY);
    if RecordsDeclared(d, ds) {
      forall x | x in st.pending ensures false {
        var k :| 0 <= k < |ds| && ds[k].typ == Named(x);
        StructuredAt(d, x);
        NameEntered(d, EMPTY, ds, k);
      }
    }
  }

  lemma {:induction false} EmptyRests(d: Defs, ds: seq<Decl>, plan: Plan)
    requires PlanOk(d, ds, plan)
    ensures AtRest(d, plan, -1, EMPTY)
  {
    assert EMPTY.xrefs.Keys + EMPTY.fwds.Keys == {};
  }

  lemma {:induction false} StructuredAt(d: Defs, x: nat)
    requires DefsOk(d) && x in d
    ensures IsBody(d[x].body)
  {
  }

  // A list: P is a pointer to R, and R a record with a field next of type P.
  const LIST: Defs := map[
    0 := Def("", "P", false, Pointer(Named(1))),
    1 := Def("", "R", false, Record(Prim(NOTYPE), 8, [Field("next", true, Named(0), 0, 8)]))]

  const P_R: seq<Decl> := [Decl(TYPE_NODE, "P", Named(0)), Decl(TYPE_NODE, "R", Named(1))]

  const LIST_PLAN: Plan := Plan(x => x, x => 0, x => x, x => x)

  // A cyclic module with a plan: its file is read back whole.
  lemma {:induction false} ListIsPlanned()
    ensures DefsOk(LIST) && forall i :: 0 <= i < |P_R| ==> TypeOk(LIST, P_R[i].typ)
    ensures PlanOk(LIST, P_R, LIST_PLAN) && RecordsDeclared(LIST, P_R)
    ensures var st := WDecls(LIST, EMPTY, P_R).0; st.clean && st.whole && st.pending == {} && st.lost == {}
  {
    hide WDecls, DefsOk, TypeOk, PlaceOk;
    ListTypesOk();
    ListPlaces();
    assert LIST.Keys == {0, 1} && Size({0, 1}) == 2;
    assert P_R[1].typ == Named(1);
    PlannedIsClean(LIST, P_R, LIST_PLAN);
  }

  lemma {:induction false} ListPlaces()
    ensures PlaceOk(LIST, LIST_PLAN, 0, LIST[0].body) && PlaceOk(LIST, LIST_PLAN, 1, LIST[1].body)
    ensures forall k :: 0 <= k < 2 ==> PlaceOk(LIST, LIST_PLAN, -1 - k, P_R[k].typ)
  {
    var fields := LIST[1].body.fields;
    assert BasesOfFields(LIST, fields[1..]) == multiset{};
    assert Bases(LIST, LIST[1].body) == multiset{};
  }

  lemma {:induction false} ListTypesOk()
    ensures DefsOk(LIST) && forall i :: 0 <= i < |P_R| ==> TypeOk(LIST, P_R[i].typ)
  {
    var fields := LIST[1].body.fields;
    assert FieldOk(LIST, fields[0]) && FieldsOk(LIST, fields);
    assert TypeOk(LIST, LIST[0].body) && TypeOk(LIST, LIST[1].body);
  }
}
