// CASE statements: the checks on labels (lib/sema/Sema.cpp:625-767) and the choice that
// the generated code makes (lib/codegen/llvm/LLVMIRBuilder.cpp:821-860).
module CaseLabels {
  import opened Wrappers
  import opened Words
  import opened RecordTypes
  import Structured

  // ---------- labels of a numeric CASE ----------

  datatype Label = One(n: int) | Range(lower: int, upper: int)

  predicate Lists(l: Label, v: int) {
    match l
    case One(n) => v == n
    case Range(lower, upper) => lower <= v <= upper
  }

  predicate Rising(l: Label) {
    l.Range? ==> l.lower < l.upper
  }

  // No value is listed by two labels.
  ghost predicate Apart(labels: seq<Label>) {
    forall i, j, v :: 0 <= i < j < |labels| && Lists(labels[i], v) ==> !Lists(labels[j], v)
  }

  // The values of the labels, where the ranges rise.
  ghost predicate AreListed(labels: seq<Label>, values: set<int>) {
    forall v :: v in values <==> exists i :: 0 <= i < |labels| && Rising(labels[i]) && Lists(labels[i], v)
  }

  // Sema::onCaseLabel
  method OnCaseLabel(labels: seq<Label>) returns (values: set<int>, ok: bool)
    ensures AreListed(labels, values)
    ensures ok <==> (forall i :: 0 <= i < |labels| ==> Rising(labels[i])) && Apart(labels)
  {
    values, ok := {}, true;
    for k := 0 to |labels|
      invariant AreListed(labels[..k], values)
      invariant ok <==> (forall i :: 0 <= i < k ==> Rising(labels[i])) && Apart(labels[..k])
    {
      ghost var before := values;
      var l, unseen := labels[k], true;
      if l.Range? {
        if l.upper > l.lower {
          values, unseen := AddRange(values, l.lower, l.upper);
        }
      } else {
        unseen := l.n !in values;
        values := values + {l.n};
      }
      ok := ok && Rising(l) && unseen;
      OneMoreLabel(labels, k, before, values, unseen);
    }
    assert labels[..|labels|] == labels;
  }

  // The loop over a range (Sema.cpp:714-720)
  method AddRange(values: set<int>, lower: int, upper: int) returns (r: set<int>, unseen: bool)
    requires lower < upper
    ensures forall v :: v in r <==> v in values || lower <= v <= upper
    ensures unseen <==> forall v :: lower <= v <= upper ==> v !in values
  {
    r, unseen := values, true;
    for value := lower to upper + 1
      invariant forall v :: v in r <==> v in values || lower <= v < value
      invariant unseen <==> forall v :: lower <= v < value ==> v !in values
    {
      if value in r {
        unseen := false;
      }
      r := r + {value};
    }
  }

  lemma {:induction false} OneMoreLabel(labels: seq<Label>, k: nat, before: set<int>, after: set<int>, unseen: bool)
    requires k < |labels| && AreListed(labels[..k], before)
    requires forall v :: v in after <==> v in before || (Rising(labels[k]) && Lists(labels[k], v))
    requires Rising(labels[k]) ==> (unseen <==> forall v :: Lists(labels[k], v) ==> v !in before)
    ensures AreListed(labels[..k + 1], after)
    ensures (forall i :: 0 <= i < k ==> Rising(labels[i])) && Rising(labels[k]) ==>
      (Apart(labels[..k + 1]) <==> Apart(labels[..k]) && unseen)
  {
    var before', after' := labels[..k], labels[..k + 1];
    assert forall i :: 0 <= i < k ==> after'[i] == before'[i];
    assert after'[k] == labels[k];
    forall v ensures v in after <==> exists i :: 0 <= i < |after'| && Rising(after'[i]) && Lists(after'[i], v) {
      if v in before {
        var i :| 0 <= i < |before'| && Rising(before'[i]) && Lists(before'[i], v);
        assert Rising(after'[i]) && Lists(after'[i], v);
      }
      if v in after && v !in before {
        assert Rising(after'[k]) && Lists(after'[k], v);
      }
      if exists i :: 0 <= i < |after'| && Rising(after'[i]) && Lists(after'[i], v) {
        var i :| 0 <= i < |after'| && Rising(after'[i]) && Lists(after'[i], v);
        if i < k { assert Rising(before'[i]) && Lists(before'[i], v); }
      }
    }
    if (forall i :: 0 <= i < k ==> Rising(labels[i])) && Rising(labels[k]) {
      ApartStep(labels, k, before, unseen);
    }
  }

  lemma {:induction false} ApartStep(labels: seq<Label>, k: nat, before: set<int>, unseen: bool)
    requires k < |labels| && AreListed(labels[..k], before) && forall i :: 0 <= i <= k ==> Rising(labels[i])
    requires unseen <==> forall v :: Lists(labels[k], v) ==> v !in before
    ensures Apart(labels[..k + 1]) <==> Apart(labels[..k]) && unseen
  {
    var before', after' := labels[..k], labels[..k + 1];
    assert forall i :: 0 <= i < k ==> after'[i] == before'[i] == labels[i];
    assert after'[k] == labels[k];
    if Apart(after') {
      forall v | Lists(labels[k], v) ensures v !in before {
        assert Lists(after'[k], v);
      }
      forall i, j, v | 0 <= i < j < k && Lists(before'[i], v) ensures !Lists(before'[j], v) {
        assert Lists(after'[i], v) && !Lists(after'[j], v);
      }
    }
    if Apart(before') && unseen {
      forall i, j, v | 0 <= i < j < k + 1 && Lists(after'[i], v) ensures !Lists(after'[j], v) {
        assert Lists(before'[i], v) && Rising(before'[i]);
        assert v in before;
        if j < k { assert !Lists(before'[j], v); }
      }
    }
  }

  // ---------- the cases of a numeric CASE ----------

  lemma {:induction false} Inhabited(s: set<int>)
    requires s != {}
    ensures exists v :: v in s
  {
    assert (forall v :: v !in s) ==> s == {};
  }

  ghost predicate Disjoint(cases: seq<set<int>>) {
    forall i, j :: 0 <= i < j < |cases| ==> cases[i] !! cases[j]
  }

  // The overlap check of Sema::onCaseOfEnd: a duplicate ends the case it is in.
  method OnCaseOfEnd(cases: seq<set<int>>) returns (ok: bool)
    ensures ok <==> Disjoint(cases)
  {
    ok := true;
    var labels: set<int> := {};
    for k := 0 to |cases|
      invariant ok <==> Disjoint(cases[..k])
      invariant ok ==> forall v :: v in labels <==> exists i :: 0 <= i < k && v in cases[i]
    {
      var rest, added := cases[k], labels;
      var clash := false;
      while rest != {} && !clash
        invariant rest <= cases[k]
        invariant forall v :: v in added <==> v in labels || v in cases[k] - rest
        invariant !clash ==> (cases[k] - rest) !! labels
        invariant clash ==> !(cases[k] !! labels)
        decreases rest, !clash
      {
        Inhabited(rest);
        var l :| l in rest;
        if l in labels {
          clash := true;
        } else {
          added := added + {l};
          rest := rest - {l};
        }
      }
      CaseStep(cases, k, labels, ok);
      ok := ok && !clash;
      labels := added;
    }
    assert cases[..|cases|] == cases;
  }

  lemma {:induction false} CaseStep(cases: seq<set<int>>, k: nat, labels: set<int>, ok: bool)
    requires k < |cases| && (ok <==> Disjoint(cases[..k]))
    requires ok ==> forall v :: v in labels <==> exists i :: 0 <= i < k && v in cases[i]
    ensures Disjoint(cases[..k + 1]) <==> ok && cases[k] !! labels
  {
    var before', after' := cases[..k], cases[..k + 1];
    assert forall i :: 0 <= i < k ==> after'[i] == before'[i] == cases[i];
    if Disjoint(after') {
      forall i, j | 0 <= i < j < k ensures before'[i] !! before'[j] {
        assert after'[i] !! after'[j];
      }
      forall v | v in cases[k] ensures v !in labels {
        assert forall i :: 0 <= i < k ==> after'[i] !! after'[k];
      }
    }
    if ok && cases[k] !! labels {
      forall i, j | 0 <= i < j < k + 1 ensures after'[i] !! after'[j] {
        if j < k {
          assert before'[i] !! before'[j];
        } else {
          forall v | v in after'[i] ensures v !in after'[k] {
            assert v in cases[i];
          }
        }
      }
    }
  }

  // ---------- the switch ----------

  // The table of createNumericTestCase: labels in the width of the case expression, each
  // with the case it leads to.
  method NumericTable(cases: seq<set<int>>, w: nat) returns (table: set<(int, nat)>)
    requires w > 0
    ensures forall v, i: nat :: (v, i) in table <==> i < |cases| && exists l :: l in cases[i] && Wrap(l, w) == v
  {
    table := {};
    for k := 0 to |cases|
      invariant forall v, i: nat :: (v, i) in table <==> i < k && exists l :: l in cases[i] && Wrap(l, w) == v
    {
      var rest := cases[k];
      ghost var before := table;
      while rest != {}
        invariant rest <= cases[k]
        invariant forall v, i: nat :: (v, i) in table <==>
          (v, i) in before || (i == k && exists l :: l in cases[k] - rest && Wrap(l, w) == v)
        decreases rest
      {
        Inhabited(rest);
        var l :| l in rest;
        ghost var was := table;
        table := table + {(Wrap(l, w), k)};
        TableStep(was, before, table, cases[k], rest, l, k, w);
        rest := rest - {l};
      }
      assert cases[k] - rest == cases[k];
    }
  }

  lemma {:induction false} TableStep(
    was: set<(int, nat)>, before: set<(int, nat)>, table: set<(int, nat)>, values: set<int>, rest: set<int>, l: int, k: nat, w: nat)
    requires w > 0 && rest <= values && l in rest && table == was + {(Wrap(l, w), k)}
    requires forall v, i: nat :: (v, i) in was <==>
      (v, i) in before || (i == k && exists m :: m in values - rest && Wrap(m, w) == v)
    ensures forall v, i: nat :: (v, i) in table <==>
      (v, i) in before || (i == k && exists m :: m in values - (rest - {l}) && Wrap(m, w) == v)
  {
    hide Wrap;
    forall v, i: nat
      ensures (v, i) in table <==>
        (v, i) in before || (i == k && exists m :: m in values - (rest - {l}) && Wrap(m, w) == v)
    {
      if (v, i) in was && (v, i) !in before {
        var m :| m in values - rest && Wrap(m, w) == v;
        assert m in values - (rest - {l});
      }
      if (v, i) == (Wrap(l, w), k) {
        assert l in values - (rest - {l}) && Wrap(l, w) == v;
      }
      if i == k && exists m :: m in values - (rest - {l}) && Wrap(m, w) == v {
        var m :| m in values - (rest - {l}) && Wrap(m, w) == v;
        if m != l { assert m in values - rest; }
      }
    }
  }

  // The switch is right when it sends every word to the case that lists it, and to ELSE
  // when none does.
  ghost predicate SwitchRight(cases: seq<set<int>>, table: set<(int, nat)>, w: nat)
    requires w > 0
  {
    forall v, i: nat :: InWidth(v, w) ==> ((v, i) in table <==> i < |cases| && v in cases[i])
  }

  // That is so just when a label that does not fit the width is, cut to it, a label of the
  // same case.
  lemma {:induction false} SwitchRightIff(cases: seq<set<int>>, table: set<(int, nat)>, w: nat)
    requires w > 0
    requires forall v, i: nat :: (v, i) in table <==> i < |cases| && exists l :: l in cases[i] && Wrap(l, w) == v
    ensures SwitchRight(cases, table, w) <==> forall i, l :: 0 <= i < |cases| && l in cases[i] ==> Wrap(l, w) in cases[i]
  {
    if SwitchRight(cases, table, w) {
      forall i, l | 0 <= i < |cases| && l in cases[i] ensures Wrap(l, w) in cases[i] {
        assert (Wrap(l, w), i) in table;
        WrapFits(l, w);
      }
    }
    if forall i, l :: 0 <= i < |cases| && l in cases[i] ==> Wrap(l, w) in cases[i] {
      forall v, i: nat | InWidth(v, w) ensures (v, i) in table <==> i < |cases| && v in cases[i] {
        if i < |cases| && v in cases[i] {
          WrapFits(v, w);
          assert v in cases[i] && Wrap(v, w) == v;
        }
      }
    }
  }

  // Checked cases whose labels fit leave the switch no choice.
  lemma {:induction false} UniqueCase(cases: seq<set<int>>, table: set<(int, nat)>, w: nat, v: int, i: nat, j: nat)
    requires w > 0 && Disjoint(cases) && forall i, l :: 0 <= i < |cases| && l in cases[i] ==> InWidth(l, w)
    requires forall v, i: nat :: (v, i) in table <==> i < |cases| && exists l :: l in cases[i] && Wrap(l, w) == v
    requires (v, i) in table && (v, j) in table && InWidth(v, w)
    ensures i == j && v in cases[i]
  {
    forall k, l | 0 <= k < |cases| && l in cases[k] ensures Wrap(l, w) == l {
      WrapFits(l, w);
    }
    SwitchRightIff(cases, table, w);
    assert v in cases[i] && v in cases[j];
  }

  // A label beyond the type of the case expression passes the checks and is taken for
  // another value: no table of the code generator is right.
  lemma {:induction false} WideLabelIsTaken(table: set<(int, nat)>)
    requires forall v, i: nat :: (v, i) in table <==> i < 1 && exists l :: l in {65537} && Wrap(l, 16) == v
    ensures Disjoint([{65537}]) && (1, 0) in table && !SwitchRight([{65537}], table, 16)
  {
    Powers();
    hide Wrap;
    assert Wrap(65537, 16) == 1 && InWidth(1, 16) by { Wraps65537(); }
    assert 65537 in {65537};
  }

  lemma {:induction false} Wraps65537()
    ensures Wrap(65537, 16) == 1 && InWidth(1, 16)
  {
    Powers();
  }

  // ---------- checks and switch together ----------

  predicate ArmLists(arm: seq<Label>, v: int) {
    exists k :: 0 <= k < |arm| && Lists(arm[k], v)
  }

  // What the language demands of the labels: ranges rise, and no value is listed twice.
  ghost predicate LabelsOk(arms: seq<seq<Label>>) {
    && (forall i :: 0 <= i < |arms| ==> (forall k :: 0 <= k < |arms[i]| ==> Rising(arms[i][k])) && Apart(arms[i]))
    && (forall i, j, v :: 0 <= i < j < |arms| && ArmLists(arms[i], v) ==> !ArmLists(arms[j], v))
  }

  predicate LabelFits(l: Label, w: nat) {
    match l
    case One(n) => InWidth(n, w)
    case Range(lower, upper) => InWidth(lower, w) && InWidth(upper, w)
  }

  ghost predicate ListedBy(arms: seq<seq<Label>>, sets: seq<set<int>>) {
    |sets| == |arms| && forall i :: 0 <= i < |arms| ==> AreListed(arms[i], sets[i])
  }

  // A whole numeric CASE, from its labels to its switch. It is accepted if and only if the
  // labels are as the language demands; then, if they also fit the type of the case
  // expression, the switch sends every value to the case that lists it, and no other.
  method TranslateLabels(arms: seq<seq<Label>>, w: nat) returns (ok: bool, table: set<(int, nat)>)
    requires w > 0
    ensures ok <==> LabelsOk(arms)
    ensures ok && (forall i, k :: 0 <= i < |arms| && 0 <= k < |arms[i]| ==> LabelFits(arms[i][k], w)) ==>
      forall v, i: nat :: InWidth(v, w) ==> ((v, i) in table <==> i < |arms| && ArmLists(arms[i], v))
  {
    var sets, each := [], true;
    for i := 0 to |arms|
      invariant |sets| == i && forall k :: 0 <= k < i ==> AreListed(arms[k], sets[k])
      invariant each <==> forall m :: 0 <= m < i ==> (forall k :: 0 <= k < |arms[m]| ==> Rising(arms[m][k])) && Apart(arms[m])
    {
      var values, good := OnCaseLabel(arms[i]);
      sets, each := sets + [values], each && good;
    }
    ok := OnCaseOfEnd(sets);
    table := NumericTable(sets, w);
    if each {
      AllListed(arms, sets);
      if ok && forall i, k :: 0 <= i < |arms| && 0 <= k < |arms[i]| ==> LabelFits(arms[i][k], w) {
        SwitchListed(arms, sets, table, w);
      }
    }
    ok := ok && each;
  }

  lemma {:induction false} AllListed(arms: seq<seq<Label>>, sets: seq<set<int>>)
    requires ListedBy(arms, sets) && forall i, k :: 0 <= i < |arms| && 0 <= k < |arms[i]| ==> Rising(arms[i][k])
    ensures forall i, v :: 0 <= i < |arms| ==> (v in sets[i] <==> ArmLists(arms[i], v))
    ensures Disjoint(sets) <==> forall i, j, v :: 0 <= i < j < |arms| && ArmLists(arms[i], v) ==> !ArmLists(arms[j], v)
  {
    forall i, v | 0 <= i < |arms| ensures v in sets[i] <==> ArmLists(arms[i], v) {
      assert AreListed(arms[i], sets[i]);
    }
    if Disjoint(sets) {
      forall i, j, v | 0 <= i < j < |arms| && ArmLists(arms[i], v) ensures !ArmLists(arms[j], v) {
        assert sets[i] !! sets[j] && v in sets[i];
      }
    }
    if forall i, j, v :: 0 <= i < j < |arms| && ArmLists(arms[i], v) ==> !ArmLists(arms[j], v) {
      forall i, j | 0 <= i < j < |sets| ensures sets[i] !! sets[j] {
        forall v | v in sets[i] ensures v !in sets[j] {
          assert ArmLists(arms[i], v) && !ArmLists(arms[j], v);
        }
      }
    }
  }

  lemma {:induction false} SwitchListed(arms: seq<seq<Label>>, sets: seq<set<int>>, table: set<(int, nat)>, w: nat)
    requires w > 0 && ListedBy(arms, sets)
    requires forall i, k :: 0 <= i < |arms| && 0 <= k < |arms[i]| ==> Rising(arms[i][k]) && LabelFits(arms[i][k], w)
    requires forall v, i: nat :: (v, i) in table <==> i < |sets| && exists l :: l in sets[i] && Wrap(l, w) == v
    ensures forall v, i: nat :: InWidth(v, w) ==> ((v, i) in table <==> i < |arms| && ArmLists(arms[i], v))
  {
    AllListed(arms, sets);
    hide Wrap;
    forall i, l | 0 <= i < |sets| && l in sets[i] ensures Wrap(l, w) in sets[i] {
      var k :| 0 <= k < |arms[i]| && Lists(arms[i][k], l);
      assert LabelFits(arms[i][k], w);
      WrapFits(l, w);
    }
    SwitchRightIff(sets, table, w);
  }

  // Then the switch chooses as the structured statement does.
  lemma {:induction false} SwitchChooses(arms: seq<seq<Label>>, cases: seq<Structured.CaseArm>, table: set<(int, nat)>, v: int)
    requires LabelsOk(arms) && |cases| == |arms|
    requires forall i, u :: 0 <= i < |arms| ==> (u in cases[i].labels <==> ArmLists(arms[i], u))
    requires forall i: nat :: (v, i) in table <==> i < |arms| && ArmLists(arms[i], v)
    ensures forall i: nat :: (v, i) in table <==> Structured.ChooseCase(cases, v) == Some(i)
  {
    hide Apart, Rising, ArmLists;
    var c := Structured.ChooseCase(cases, v);
    forall i: nat ensures (v, i) in table <==> c == Some(i) {
      if (v, i) in table {
        assert v in cases[i].labels;
      }
    }
  }

  // ---------- CASE over types ----------

  // The first label that the dynamic type extends; a NIL variable has none.
  ghost predicate Takes(r: Forest, labels: seq<nat>, dyn: Option<nat>, k: nat)
    requires (dyn.Some? ==> dyn.value < |r|) && k <= |labels|
  {
    && (forall i :: 0 <= i < k ==> dyn.None? || !Extends(r, dyn.value, labels[i]))
    && (k < |labels| ==> dyn.Some? && Extends(r, dyn.value, labels[k]))
  }

  // createTypeTestCase: the tests run in the order of the labels; |labels| stands for ELSE.
  method TypeTestCase(r: Forest, tds: seq<Descriptor>, labels: seq<nat>, l: nat, dyn: Option<nat>) returns (k: nat)
    requires l < |r| && |tds| == |r| && forall i :: 0 <= i < |r| ==> Describes(r, tds[i], i)
    requires dyn.Some? ==> dyn.value < |r| && Extends(r, dyn.value, l)
    requires forall i :: 0 <= i < |labels| ==> labels[i] < |r| && r[labels[i]].hasId
    ensures k <= |labels| && Takes(r, labels, dyn, k) && (dyn.None? ==> k == |labels|)
  {
    k := 0;
    while k < |labels|
      invariant k <= |labels| && forall i :: 0 <= i < k ==> dyn.None? || !Extends(r, dyn.value, labels[i])
    {
      var holds := TestValue(r, tds, dyn, l, labels[k]);
      if holds {
        return;
      }
      k := k + 1;
    }
  }

  ghost predicate Subsumed(r: Forest, labels: seq<nat>, k: nat)
    requires k < |labels| && forall i :: 0 <= i < |labels| ==> labels[i] < |r|
  {
    exists i :: 0 <= i < k && Extends(r, labels[k], labels[i])
  }

  // The checks of Sema::onCaseOfEnd on type labels: an error for a type that occurs twice,
  // and a warning for one that extends an earlier one.
  method CheckTypeLabels(r: Forest, cases: seq<nat>) returns (ok: bool, warned: set<nat>)
    requires forall i :: 0 <= i < |cases| ==> cases[i] < |r|
    ensures ok <==> forall i, j :: 0 <= i < j < |cases| ==> cases[i] != cases[j]
    ensures ok ==> forall k: nat :: k in warned <==> k < |cases| && Subsumed(r, cases, k)
  {
    ok, warned := true, {};
    for k := 0 to |cases|
      invariant ok <==> forall i, j :: 0 <= i < j < k ==> cases[i] != cases[j]
      invariant ok ==> forall m: nat :: m in warned <==> m < k && Subsumed(r, cases, m)
    {
      var clash, subsumed := false, false;
      var i := 0;
      while i < k && !clash
        invariant 0 <= i <= k
        invariant clash ==> i < k && cases[i] == cases[k]
        invariant !clash ==> forall m :: 0 <= m < i ==> cases[m] != cases[k]
        invariant !clash ==> (subsumed <==> exists m :: 0 <= m < i && Extends(r, cases[k], cases[m]))
        decreases k - i, !clash
      {
        if cases[i] == cases[k] {
          clash := true;
        } else {
          if Extends(r, cases[k], cases[i]) {
            subsumed := true;
          }
          i := i + 1;
        }
      }
      ok := ok && !clash;
      if subsumed {
        warned := warned + {k};
      }
    }
  }

  // A label is never chosen just when the check warns of it.
  lemma {:induction false} WarnedIffUnreachable(r: Forest, labels: seq<nat>, k: nat)
    requires k < |labels| && forall i :: 0 <= i < |labels| ==> labels[i] < |r|
    ensures Subsumed(r, labels, k) <==>
      forall dyn: Option<nat> :: (dyn.Some? ==> dyn.value < |r|) ==> !Takes(r, labels, dyn, k)
  {
    if Subsumed(r, labels, k) {
      var i :| 0 <= i < k && Extends(r, labels[k], labels[i]);
      forall dyn: Option<nat> | dyn.Some? ==> dyn.value < |r| ensures !Takes(r, labels, dyn, k) {
        if dyn.Some? && Extends(r, dyn.value, labels[k]) {
          ExtendsTransitive(r, dyn.value, labels[k], labels[i]);
        }
      }
    } else {
      assert Takes(r, labels, Some(labels[k]), k);
    }
  }
}
