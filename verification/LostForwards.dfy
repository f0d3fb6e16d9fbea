// Two pointers to one record: where the import of a module loses a base, with and without
// saying so, and where not.
module LostForwards {
  import opened Wrappers
  import opened SymbolFormat
  import SymbolRoundTrip
  import opened SymbolImage
  import SymbolImporter
  import ForwardNumbers
  import PlannedModules

  // P and Q, pointers to a record R.
  const TWO_POINTERS: Defs := map[
    0 := Def("", "P", false, Pointer(Named(2))),
    1 := Def("", "Q", false, Pointer(Named(2))),
    2 := Def("", "R", false, Record(Prim(NOTYPE), 0, []))]

  const P_TYPE: Decl := Decl(TYPE_NODE, "P", Named(0))
  const Q_TYPE: Decl := Decl(TYPE_NODE, "Q", Named(1))
  const R_TYPE: Decl := Decl(TYPE_NODE, "R", Named(2))

  lemma {:induction false} TwoPointersAreTypes()
    ensures DefsOk(TWO_POINTERS) && forall i: nat :: i < 3 ==> TypeOk(TWO_POINTERS, Named(i))
  {
  }

  // ---------- R first ----------

  const R_P_Q: seq<Decl> := [R_TYPE, P_TYPE, Q_TYPE]

  function Place(x: nat): int {
    if x == 2 then 0 else x + 1
  }

  const R_FIRST: PlannedModules.Plan := PlannedModules.Plan(x => if x == 2 then 0 else x + 1, x => 0, Place, Place)

  // Where R is declared before both, the module has a plan, and is read back whole.
  lemma {:induction false} RecordFirstIsPlanned()
    ensures PlannedModules.PlanOk(TWO_POINTERS, R_P_Q, R_FIRST) && PlannedModules.RecordsDeclared(TWO_POINTERS, R_P_Q)
    ensures var st := WDecls(TWO_POINTERS, EMPTY, R_P_Q).0; st.clean && st.whole && st.pending == {} && st.lost == {}
  {
    hide *;
    TwoPointersAreTypes();
    RecordFirstPlan();
    PlannedModules.PlannedIsClean(TWO_POINTERS, R_P_Q, R_FIRST);
  }

  lemma {:induction false} RecordFirstPlan()
    ensures PlannedModules.PlanOk(TWO_POINTERS, R_P_Q, R_FIRST) && PlannedModules.RecordsDeclared(TWO_POINTERS, R_P_Q)
  {
    hide PlannedModules.PlaceOk, PlannedModules.Size;
    RecordFirstPlaces();
    ThreeTypes();
    assert R_P_Q[0].typ == Named(2);
  }

  lemma {:induction false} ThreeTypes()
    ensures TWO_POINTERS.Keys == {0, 1, 2} && PlannedModules.Size(TWO_POINTERS.Keys) == 3
  {
    assert TWO_POINTERS.Keys == {0, 1, 2};
  }

  lemma {:induction false} RecordFirstPlaces()
    ensures forall y: nat :: y < 3 ==> PlannedModules.PlaceOk(TWO_POINTERS, R_FIRST, y, TWO_POINTERS[y].body)
    ensures forall k: nat :: k < 3 ==> PlannedModules.PlaceOk(TWO_POINTERS, R_FIRST, -1 - k, R_P_Q[k].typ)
  {
    PointerPlace(0);
    PointerPlace(1);
    hide Place;
    assert PlannedModules.PlaceOk(TWO_POINTERS, R_FIRST, 2, TWO_POINTERS[2].body);
    forall k: nat | k < 3 ensures PlannedModules.PlaceOk(TWO_POINTERS, R_FIRST, -1 - k, R_P_Q[k].typ) {
      DeclPlace(k);
    }
  }

  lemma {:induction false} PointerPlace(y: nat)
    requires y < 2
    ensures PlannedModules.PlaceOk(TWO_POINTERS, R_FIRST, y, TWO_POINTERS[y].body)
  {
    assert PlannedModules.Bases(TWO_POINTERS, TWO_POINTERS[y].body) == multiset{2};
  }

  lemma {:induction false} DeclPlace(k: nat)
    requires k < 3
    ensures PlannedModules.PlaceOk(TWO_POINTERS, R_FIRST, -1 - k, R_P_Q[k].typ)
  {
  }

  // ---------- R last ----------

  const P_Q_R: seq<Decl> := [P_TYPE, Q_TYPE, R_TYPE]

  const P_TEXT: seq<Datum> := [Char(19), Str("P"), Char(21), Str(""), Char(7), Char(-22)]
  const Q_TEXT: seq<Datum> := [Char(19), Str("Q"), Char(23), Str(""), Char(7), Char(-24)]
  const R_TEXT: seq<Datum> :=
    [Char(19), Str("R"), Char(24), Str(""), Char(9), Char(-1), Char(-1), Int(0), Int(0), Char(0), Char(0)]

  // A pointer to a record that is not written yet.
  lemma {:induction false} PointerText(d: Defs, st: St, x: nat, b: nat, num: nat)
    requires x in d && !d[x].external && d[x].body == Pointer(Named(b)) && b in d && !d[b].external && b != x
    requires x !in st.xrefs && x !in st.fwds && b !in st.xrefs && num == st.xref < 127
    ensures WType(d, st, Named(x), false) == (Leave(Reserve(Enter(st, x), b), x), [Char(num), Str(""), Char(POINTER_TYPE), Char(-1 - num)])
  {
    var st1 := Enter(st, x);
    assert WBase(d, st1, Named(b)) == (Reserve(st1, b), [Char(-1 - num)]);
    assert WBody(d, st1, Pointer(Named(b)), false, false) == (Reserve(st1, b), [Char(-1 - num)]);
    hide WBody, WBase;
    assert WType(d, st, Named(x), false)
        == (Leave(Reserve(st1, b), x), [Char(ToInt8(st1.xrefs[x]))] + [Str("")] + [Char(POINTER_TYPE)] + [Char(-1 - num)]);
    assert ToInt8(st1.xrefs[x]) == num;
    assert [Char(num)] + [Str("")] + [Char(POINTER_TYPE)] + [Char(-1 - num)] == [Char(num), Str(""), Char(POINTER_TYPE), Char(-1 - num)];
  }

  // R itself, under the number that was kept for it last.
  lemma {:induction false} RecordText(d: Defs, st: St)
    requires 2 in d && d[2] == TWO_POINTERS[2] && 2 !in st.xrefs && 2 in st.fwds && st.fwds[2] == 24
    ensures WDecls(d, st, [R_TYPE]) == (Leave(Enter(st, 2), 2), R_TEXT)
  {
    RecordBody(d, Enter(st, 2));
    hide WBody;
    var st2, out := Leave(Enter(st, 2), 2), [Char(24), Str(""), Char(9), Char(-1), Char(-1), Int(0), Int(0), Char(0)];
    assert WType(d, st, Named(2), false) == (st2, [Char(24)] + [Str("")] + [Char(9)] + [Char(-1), Char(-1), Int(0), Int(0), Char(0)]);
    assert [Char(24)] + [Str("")] + [Char(9)] + [Char(-1), Char(-1), Int(0), Int(0), Char(0)] == out;
    hide WType;
    assert WDecls(d, st2, []) == (st2, [Char(0)]);
    DeclsStep(d, st, [R_TYPE], 0);
    assert [R_TYPE][0..] == [R_TYPE] && [R_TYPE][1..] == [];
    assert [Char(19), Str("R")] + out + [] + [Char(0)] == R_TEXT;
  }

  lemma {:induction false} RecordBody(d: Defs, st: St)
    ensures WBody(d, st, Record(Prim(NOTYPE), 0, []), false, false) == (st, [Char(-1), Char(-1), Int(0), Int(0), Char(0)])
  {
    assert WFields(d, st, [], 1, false, 0) == (st, [Char(0)]);
    assert WType(d, st, Prim(NOTYPE), false) == (st, [Char(-1)]);
    assert [Char(-1)] + [Char(-1), Int(0), Int(0)] + [Char(0)] == [Char(-1), Char(-1), Int(0), Int(0), Char(0)];
  }

  lemma {:induction false} WholeText()
    ensures var p := Leave(Reserve(Enter(EMPTY, 0), 2), 0);
      var q := Leave(Reserve(Enter(p, 1), 2), 1);
      WDecls(TWO_POINTERS, EMPTY, P_Q_R) == (Leave(Enter(q, 2), 2), P_TEXT + Q_TEXT + R_TEXT)
  {
    hide WType, WDecls;
    var d := TWO_POINTERS;
    var p := Leave(Reserve(Enter(EMPTY, 0), 2), 0);
    var q := Leave(Reserve(Enter(p, 1), 2), 1);
    PointerText(d, EMPTY, 0, 2, 21);
    PointerText(d, p, 1, 2, 23);
    RecordText(d, q);
    hide Enter, Reserve, Leave;
    DeclsStep(d, EMPTY, P_Q_R, 0);
    DeclsStep(d, p, P_Q_R, 1);
    assert P_Q_R[0..] == P_Q_R && P_Q_R[2..] == [R_TYPE];
    TextsJoin(R_TEXT);
  }

  lemma {:induction false} TextsJoin(rest: seq<Datum>)
    ensures [Char(19), Str("Q")] + [Char(23), Str(""), Char(POINTER_TYPE), Char(-24)] + [] + rest == Q_TEXT + rest
    ensures [Char(19), Str("P")] + [Char(21), Str(""), Char(POINTER_TYPE), Char(-22)] + [] + (Q_TEXT + rest) == P_TEXT + Q_TEXT + rest
  {
  }

  // Where R is declared after both, the second forward reference takes a new number, R is
  // written under it, and nothing is ever written under the number that P was given.
  lemma {:induction false} FirstForwardIsLost()
    ensures DefsOk(TWO_POINTERS) && forall i :: 0 <= i < |P_Q_R| ==> TypeOk(TWO_POINTERS, P_Q_R[i].typ)
    ensures var (st, text) := WDecls(TWO_POINTERS, EMPTY, P_Q_R);
      && st.clean && !st.whole && st.pending == {} && st.lost == {22} && 22 !in st.xrefs.Values
      && text == P_TEXT + Q_TEXT + R_TEXT
    ensures Char(-22) in P_TEXT && Char(22) !in P_TEXT + Q_TEXT + R_TEXT
  {
    hide WDecls, DefsOk, TypeOk, IsBody;
    TwoPointersAreTypes();
    WholeText();
    assert P_TEXT[5] == Char(-22);
  }

  // So the importer reports the file as an error, and P is left without a base.
  method ImportFirstForward(self: string) returns (importer: SymbolImporter.Importer)
    ensures importer.file == P_TEXT + Q_TEXT + R_TEXT && importer.failed && importer.orphans != {}
    ensures forall j :: j in importer.orphans ==> j < |importer.heap| && importer.heap[j] == IPointer(None)
  {
    hide DefsOk, TypeOk, WDecls;
    FirstForwardIsLost();
    assert forall x :: x in TWO_POINTERS ==> !TWO_POINTERS[x].external;
    importer := SymbolRoundTrip.WriteAndRead(TWO_POINTERS, P_Q_R, self);
  }

  // ---------- both within R ----------

  const LEFT: Field := Field("left", true, Pointer(Named(0)), 0, 8)
  const RIGHT: Field := Field("right", true, Pointer(Named(0)), 0, 8)

  // A tree: a record R with two fields that point to R.
  const TREE: Defs := map[0 := Def("", "R", false, Record(Prim(NOTYPE), 16, [LEFT, RIGHT]))]

  const ONLY_R: seq<Decl> := [Decl(TYPE_NODE, "R", Named(0))]

  lemma {:induction false} TreeIsType()
    ensures DefsOk(TREE) && TypeOk(TREE, Named(0))
  {
    assert TypeOk(TREE, Pointer(Named(0)));
    assert FieldOk(TREE, LEFT) && FieldOk(TREE, RIGHT) && FieldsOk(TREE, [LEFT, RIGHT]);
    assert TypeOk(TREE, TREE[0].body);
  }

  // A pointer to the record that is being written refers to its number.
  lemma {:induction false} PointerInside(st: St)
    requires st.xrefs == map[0 := 21] && st.done == {}
    ensures WType(TREE, st, Pointer(Named(0)), false)
         == (st.(pending := st.pending + {0}, whole := st.whole && 0 !in st.pending), [Char(0), Char(POINTER_TYPE), Char(-21)])
  {
    assert WBase(TREE, st, Named(0)) == (Refer(TREE, st, 0, true), [Char(-21)]);
    assert WBody(TREE, st, Pointer(Named(0)), true, false) == WBase(TREE, st, Named(0));
    assert [Char(0), Char(POINTER_TYPE)] + [Char(-21)] == [Char(0), Char(POINTER_TYPE), Char(-21)];
  }

  const INSIDE: St := Enter(EMPTY, 0)
  const LEFT_WAITS: St := INSIDE.(pending := {0})
  const RIGHT_WAITS: St := LEFT_WAITS.(whole := false)

  lemma {:induction false} FieldsInside()
    ensures WFields(TREE, INSIDE, [LEFT, RIGHT], 1, false, 0).0 == RIGHT_WAITS
  {
    hide WType, WFields;
    assert INSIDE.xrefs == map[0 := 21] && INSIDE.pending + {0} == LEFT_WAITS.pending == LEFT_WAITS.pending + {0};
    PointerInside(INSIDE);
    PointerInside(LEFT_WAITS);
    assert WField(TREE, INSIDE, LEFT).0 == LEFT_WAITS && WField(TREE, LEFT_WAITS, RIGHT).0 == RIGHT_WAITS;
    FieldsStep(TREE, INSIDE, [LEFT, RIGHT], 0, false, 0);
    FieldsStep(TREE, LEFT_WAITS, [LEFT, RIGHT], 1, false, 8);
    NoMoreFields(TREE, RIGHT_WAITS, [LEFT, RIGHT], false, 16);
    assert [LEFT, RIGHT][0..] == [LEFT, RIGHT];
  }

  lemma {:induction false} TreeWritten()
    ensures WDecls(TREE, EMPTY, ONLY_R).0 == Leave(RIGHT_WAITS, 0)
  {
    hide WFields;
    FieldsInside();
    assert WType(TREE, INSIDE, Prim(NOTYPE), false).0 == INSIDE;
    assert WBody(TREE, INSIDE, TREE[0].body, false, false).0 == RIGHT_WAITS;
    hide WBody;
    assert WType(TREE, EMPTY, Named(0), false).0 == Leave(RIGHT_WAITS, 0);
    hide WType;
    DeclsStep(TREE, EMPTY, ONLY_R, 0);
    NoMoreDecls(TREE, Leave(RIGHT_WAITS, 0), ONLY_R);
    assert ONLY_R[0..] == ONLY_R;
  }

  // All numbers of the file are defined, and the reader can follow; but the second pointer
  // takes the place of the first.
  lemma {:induction false} SecondTakesPlace()
    ensures var st := WDecls(TREE, EMPTY, ONLY_R).0;
      && st.clean && !st.whole && st.pending == {} && st.lost == {}
      && forall n :: TYPE < n < st.xref ==> n in st.xrefs.Values
  {
    hide WDecls;
    TreeWritten();
    ForwardNumbers.AllDefinedIff(TREE, ONLY_R);
  }

  // So the import reports nothing, and one of the two pointers has no base.
  method ImportTree(self: string) returns (importer: SymbolImporter.Importer)
    ensures !importer.failed && importer.orphans != {}
    ensures forall j :: j in importer.orphans ==> j < |importer.heap| && importer.heap[j] == IPointer(None)
  {
    hide DefsOk, TypeOk, WDecls;
    TreeIsType();
    SecondTakesPlace();
    importer := SymbolRoundTrip.WriteAndRead(TREE, ONLY_R, self);
  }
}
