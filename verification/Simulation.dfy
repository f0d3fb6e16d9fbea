// The code of a statement does what the statement says, and stops only if it does.
module Simulation {
  import opened Wrappers
  import opened Structured
  import opened BlockGraph
  import opened Lowering

  // Where the machine stands after a statement with this outcome.
  ghost function Target(out: Outcome, q: Point, x: Option<nat>): Conf {
    match out
    case Normal(s) => AtPoint(q, s)
    case Exited(s) => if x.Some? then At(x.value, 0, s) else Stuck
    case Returned(s) => Done(s)
  }

  function Max(a: nat, b: nat): (r: nat)
    ensures r >= a && r >= b
  {
    if a < b then b else a
  }

  // ---------- single moves ----------

  lemma {:induction false} Then(g: Graph, a: Conf, m: nat, b: Conf, n: nat, c: Conf)
    requires Steps(g, a, m) == b && Steps(g, b, n) == c
    ensures Steps(g, a, m + n) == c
  {
    StepsAdd(g, a, m, n);
  }

  lemma {:induction false} NoStep(g: Graph, a: Conf)
    ensures Steps(g, a, 0) == a
  {
  }

  lemma {:induction false} OneStep(g: Graph, a: Conf)
    ensures Steps(g, a, 1) == Step(g, a)
  {
  }

  lemma {:induction false} ArmsShape(g: Graph, arms: seq<Arm>, p: Point, fs: seq<nat>, ts: seq<nat>, join: nat, x0: Option<nat>, x: Option<nat>, lo: nat)
    requires ArmsAt(g, arms, p, fs, ts, join, x0, x, lo)
    ensures |fs| == |arms| == |ts|
  {
  }

  lemma {:induction false} CasesShape(g: Graph, cases: seq<CaseArm>, ns: seq<nat>, join: nat, x: Option<nat>, lo: nat)
    requires CasesAt(g, cases, ns, join, x, lo)
    ensures |ns| == |cases|
  {
  }

  lemma {:induction false} ArmIs(g: Graph, arms: seq<Arm>, p: Point, fs: seq<nat>, ts: seq<nat>, join: nat, x0: Option<nat>, x: Option<nat>, lo: nat, i: nat)
    requires ArmsAt(g, arms, p, fs, ts, join, x0, x, lo) && i < |arms|
    ensures |fs| == |arms| == |ts|
    ensures TermIs(g, TestPoint(p, fs, i), CondBr(arms[i].cond, ts[i], fs[i]), lo)
    ensures BodyTo(g, arms[i].body, Start(ts[i]), join, if i == 0 then x0 else x, lo)
  {
  }

  lemma {:induction false} WalkArms(g: Graph, arms: seq<Arm>, p: Point, fs: seq<nat>, ts: seq<nat>, join: nat, x0: Option<nat>, x: Option<nat>, lo: nat, s: State, i: nat)
    requires |fs| == |arms| == |ts| && ArmsAt(g, arms, p, fs, ts, join, x0, x, lo)
    requires i <= |arms| && forall j :: 0 <= j < i ==> !arms[j].cond(s)
    ensures Steps(g, AtPoint(p, s), i) == AtPoint(TestPoint(p, fs, i), s)
  {
    hide ArmsAt, BodyTo, Steps;
    if i == 0 {
      NoStep(g, AtPoint(p, s));
    } else {
      WalkArms(g, arms, p, fs, ts, join, x0, x, lo, s, i - 1);
      ArmIs(g, arms, p, fs, ts, join, x0, x, lo, i - 1);
      OneStep(g, AtPoint(TestPoint(p, fs, i - 1), s));
      StepsAdd(g, AtPoint(p, s), i - 1, 1);
    }
  }

  // The tests lead to the body of the chosen arm.
  lemma {:induction false} WalkToBody(g: Graph, arms: seq<Arm>, p: Point, fs: seq<nat>, ts: seq<nat>, join: nat, x0: Option<nat>, x: Option<nat>, lo: nat, s: State)
    requires ArmsAt(g, arms, p, fs, ts, join, x0, x, lo) && |fs| == |arms| == |ts|
    ensures match Choose(arms, s)
      case None => Steps(g, AtPoint(p, s), |arms|) == AtPoint(TestPoint(p, fs, |fs|), s)
      case Some(i) =>
        && Steps(g, AtPoint(p, s), i + 1) == At(ts[i], 0, s)
        && BodyTo(g, arms[i].body, Start(ts[i]), join, if i == 0 then x0 else x, lo)
  {
    hide ArmsAt, BodyTo, Steps;
    var c := Choose(arms, s);
    if c.None? {
      WalkArms(g, arms, p, fs, ts, join, x0, x, lo, s, |arms|);
    } else {
      var i := c.value;
      WalkArms(g, arms, p, fs, ts, join, x0, x, lo, s, i);
      ArmIs(g, arms, p, fs, ts, join, x0, x, lo, i);
      OneStep(g, AtPoint(TestPoint(p, fs, i), s));
      StepsAdd(g, AtPoint(p, s), i, 1);
    }
  }

  lemma {:induction false} EntriesLookup(labels: seq<int>, n: nat, rest: seq<(int, nat)>, v: int, d: nat)
    ensures Lookup(Entries(labels, n) + rest, v, d) == if v in labels then n else Lookup(rest, v, d)
  {
    var es := Entries(labels, n);
    if labels == [] {
      assert es + rest == rest;
    } else {
      assert (es + rest)[1..] == Entries(labels[1..], n) + rest;
      EntriesLookup(labels[1..], n, rest, v, d);
      assert labels == [labels[0]] + labels[1..];
    }
  }

  // The switch sends each value to the block of the first case that lists it.
  lemma {:induction false} TableLookup(cases: seq<CaseArm>, ns: seq<nat>, v: int, d: nat)
    requires |cases| == |ns|
    ensures Lookup(Table(cases, ns), v, d) == match ChooseCase(cases, v) case Some(i) => ns[i] case None => d
  {
    if cases != [] {
      EntriesLookup(cases[0].labels, ns[0], Table(cases[1..], ns[1..]), v, d);
      TableLookup(cases[1..], ns[1..], v, d);
    }
  }

  lemma {:induction false} JumpingNeverFallsThrough(ss: seq<Stmt>, s: State, n: nat)
    requires JumpsOut(ss) && ExecSeq(true, ss, s, n).Some?
    ensures !ExecSeq(true, ss, s, n).value.Normal?
  {
    var i :| 0 <= i < |ss| && IsJump(ss[i]);
    if i > 0 {
      var r := Exec(true, ss[0], s, n).value;
      if r.Normal? {
        assert ss[1..][i - 1] == ss[i];
        JumpingNeverFallsThrough(ss[1..], r.s, n);
      }
    }
  }

  // ---------- from the statement to the machine ----------

  // If the statement ends with an outcome, so does its code.
  lemma {:induction false} Forward(g: Graph, st: Stmt, p: Point, q: Point, x: Option<nat>, lo: nat, s: State, n: nat) returns (m: nat)
    requires CodeAt(g, st, p, q, x, lo) && Exec(true, st, s, n).Some?
    ensures Exec(true, st, s, n).value.Exited? ==> x.Some?
    ensures Steps(g, AtPoint(p, s), m) == Target(Exec(true, st, s, n).value, q, x)
    decreases n, st, 2
  {
    hide BodyTo, Steps, Table, ElseAt, CasesAt, SeqAt, ArmsAt, ExecSeq, ExecFor, ForAt;
    var out := Exec(true, st, s, n).value;
    match st {
      case Assign(f) =>
        m := 1;
        OneStep(g, AtPoint(p, s));
      case If(arms, els) =>
        var fs: seq<nat>, ts: seq<nat> :|
          ArmsAt(g, arms, p, fs, ts, q.b, x, x, lo) && ElseAt(g, els, TestPoint(p, fs, |fs|), q.b, x, lo);
        ArmsShape(g, arms, p, fs, ts, q.b, x, x, lo);
        m := ForwardIf(g, st, p, fs, ts, q, x, lo, s, n);
      case Loop(body) =>
        var h: nat :| TermIs(g, p, Br(h), lo) && BodyTo(g, body, Start(h), h, Some(q.b), lo);
        OneStep(g, AtPoint(p, s));
        m := ForwardLoop(g, st, h, q, x, lo, s, n);
        Then(g, AtPoint(p, s), 1, At(h, 0, s), m, Target(out, q, x));
        m := 1 + m;
      case While(arms) =>
        var h: nat, fs: seq<nat>, ts: seq<nat> :|
          && TermIs(g, p, Br(h), lo)
          && ArmsAt(g, arms, Start(h), fs, ts, h, Some(q.b), x, lo)
          && TestPoint(Start(h), fs, |fs|) == q;
        ArmsShape(g, arms, Start(h), fs, ts, h, Some(q.b), x, lo);
        OneStep(g, AtPoint(p, s));
        m := ForwardWhile(g, st, h, fs, ts, q, x, lo, s, n);
        Then(g, AtPoint(p, s), 1, At(h, 0, s), m, Target(out, q, x));
        m := 1 + m;
      case Repeat(body, until) =>
        var h: nat, r: Point :|
          && TermIs(g, p, Br(h), lo)
          && SeqAt(g, body, Start(h), r, Some(q.b), lo)
          && (JumpsOut(body) || TermIs(g, r, CondBr(until, q.b, h), lo));
        OneStep(g, AtPoint(p, s));
        m := ForwardRepeat(g, st, h, r, q, x, lo, s, n);
        Then(g, AtPoint(p, s), 1, At(h, 0, s), m, Target(out, q, x));
        m := 1 + m;
      case For(_, _, _, _, _, _) =>
        var h: nat, r: Point :| ForAt(g, st, p, q, h, r, lo);
        m := ForwardForEntry(g, st, p, q, h, r, x, lo, s, n);
      case Case(selector, cases, els) =>
        var d: nat, ns: seq<nat> :|
          && CasesAt(g, cases, ns, q.b, x, lo)
          && TermIs(g, p, Switch(selector, d, Table(cases, ns)), lo)
          && ElseAt(g, els, Start(d), q.b, x, lo);
        CasesShape(g, cases, ns, q.b, x, lo);
        m := ForwardCase(g, st, p, d, ns, q, x, lo, s, n);
      case TypeCase(arms, els) =>
        var fs: seq<nat>, ts: seq<nat>, d: nat :|
          && ArmsAt(g, arms, p, fs, ts, q.b, x, x, lo)
          && TermIs(g, TestPoint(p, fs, |fs|), Br(d), lo)
          && ElseAt(g, els, Start(d), q.b, x, lo);
        ArmsShape(g, arms, p, fs, ts, q.b, x, x, lo);
        m := ForwardTypeCase(g, st, p, fs, ts, d, q, x, lo, s, n);
      case Exit =>
        m := 1;
        OneStep(g, AtPoint(p, s));
      case Return =>
        m := 1;
        OneStep(g, AtPoint(p, s));
    }
  }

  lemma {:induction false} ForwardIf(g: Graph, st: Stmt, p: Point, fs: seq<nat>, ts: seq<nat>, q: Point, x: Option<nat>, lo: nat, s: State, n: nat) returns (m: nat)
    requires st.If? && q.k == 0 && Exec(true, st, s, n).Some?
    requires |fs| == |st.arms| == |ts| && ArmsAt(g, st.arms, p, fs, ts, q.b, x, x, lo)
    requires ElseAt(g, st.els, TestPoint(p, fs, |fs|), q.b, x, lo)
    ensures Exec(true, st, s, n).value.Exited? ==> x.Some?
    ensures Steps(g, AtPoint(p, s), m) == Target(Exec(true, st, s, n).value, q, x)
    decreases n, st, 1
  {
    hide ArmsAt, ElseAt, BodyTo, Steps;
    var out, c := Exec(true, st, s, n).value, Choose(st.arms, s);
    WalkToBody(g, st.arms, p, fs, ts, q.b, x, x, lo, s);
    if c.Some? {
      m := ForwardBody(g, st.arms[c.value].body, Start(ts[c.value]), q.b, x, lo, s, n);
      Then(g, AtPoint(p, s), c.value + 1, At(ts[c.value], 0, s), m, Target(out, q, x));
      m := c.value + 1 + m;
    } else {
      m := ForwardElse(g, st.els, TestPoint(p, fs, |fs|), q.b, x, lo, s, n);
      Then(g, AtPoint(p, s), |fs|, AtPoint(TestPoint(p, fs, |fs|), s), m, Target(out, q, x));
      m := |fs| + m;
    }
  }

  lemma {:induction false} ForwardTypeCase(g: Graph, st: Stmt, p: Point, fs: seq<nat>, ts: seq<nat>, d: nat, q: Point, x: Option<nat>, lo: nat, s: State, n: nat) returns (m: nat)
    requires st.TypeCase? && q.k == 0 && Exec(true, st, s, n).Some?
    requires |fs| == |st.arms| == |ts| && ArmsAt(g, st.arms, p, fs, ts, q.b, x, x, lo)
    requires TermIs(g, TestPoint(p, fs, |fs|), Br(d), lo) && ElseAt(g, st.els, Start(d), q.b, x, lo)
    ensures Exec(true, st, s, n).value.Exited? ==> x.Some?
    ensures Steps(g, AtPoint(p, s), m) == Target(Exec(true, st, s, n).value, q, x)
    decreases n, st, 1
  {
    hide ArmsAt, ElseAt, BodyTo, Steps;
    var out, c := Exec(true, st, s, n).value, Choose(st.arms, s);
    WalkToBody(g, st.arms, p, fs, ts, q.b, x, x, lo, s);
    if c.Some? {
      m := ForwardBody(g, st.arms[c.value].body, Start(ts[c.value]), q.b, x, lo, s, n);
      Then(g, AtPoint(p, s), c.value + 1, At(ts[c.value], 0, s), m, Target(out, q, x));
      m := c.value + 1 + m;
    } else {
      OneStep(g, AtPoint(TestPoint(p, fs, |fs|), s));
      Then(g, AtPoint(p, s), |fs|, AtPoint(TestPoint(p, fs, |fs|), s), 1, At(d, 0, s));
      m := ForwardElse(g, st.els, Start(d), q.b, x, lo, s, n);
      Then(g, AtPoint(p, s), |fs| + 1, At(d, 0, s), m, Target(out, q, x));
      m := |fs| + 1 + m;
    }
  }

  lemma {:induction false} ForwardCase(g: Graph, st: Stmt, p: Point, d: nat, ns: seq<nat>, q: Point, x: Option<nat>, lo: nat, s: State, n: nat) returns (m: nat)
    requires st.Case? && q.k == 0 && Exec(true, st, s, n).Some?
    requires CasesAt(g, st.cases, ns, q.b, x, lo) && |ns| == |st.cases|
    requires TermIs(g, p, Switch(st.selector, d, Table(st.cases, ns)), lo) && ElseAt(g, st.els, Start(d), q.b, x, lo)
    ensures Exec(true, st, s, n).value.Exited? ==> x.Some?
    ensures Steps(g, AtPoint(p, s), m) == Target(Exec(true, st, s, n).value, q, x)
    decreases n, st, 1
  {
    hide ElseAt, BodyTo, Steps, Table;
    var out, c := Exec(true, st, s, n).value, ChooseCase(st.cases, st.selector(s));
    TableLookup(st.cases, ns, st.selector(s), d);
    OneStep(g, AtPoint(p, s));
    if c.Some? {
      m := ForwardBody(g, st.cases[c.value].body, Start(ns[c.value]), q.b, x, lo, s, n);
      Then(g, AtPoint(p, s), 1, At(ns[c.value], 0, s), m, Target(out, q, x));
    } else {
      m := ForwardElse(g, st.els, Start(d), q.b, x, lo, s, n);
      Then(g, AtPoint(p, s), 1, At(d, 0, s), m, Target(out, q, x));
    }
    m := 1 + m;
  }

  lemma {:induction false} ForwardElse(g: Graph, els: seq<Stmt>, p: Point, join: nat, x: Option<nat>, lo: nat, s: State, n: nat) returns (m: nat)
    requires ElseAt(g, els, p, join, x, lo) && ExecSeq(true, els, s, n).Some?
    ensures ExecSeq(true, els, s, n).value.Exited? ==> x.Some?
    ensures Steps(g, AtPoint(p, s), m) == Target(ExecSeq(true, els, s, n).value, Start(join), x)
    decreases n, els, 4
  {
    if els == [] {
      m := 0;
    } else {
      m := ForwardBody(g, els, p, join, x, lo, s, n);
    }
  }

  lemma {:induction false} ForwardBody(g: Graph, ss: seq<Stmt>, p: Point, target: nat, x: Option<nat>, lo: nat, s: State, n: nat) returns (m: nat)
    requires BodyTo(g, ss, p, target, x, lo) && ExecSeq(true, ss, s, n).Some?
    ensures ExecSeq(true, ss, s, n).value.Exited? ==> x.Some?
    ensures Steps(g, AtPoint(p, s), m) == Target(ExecSeq(true, ss, s, n).value, Start(target), x)
    ensures ExecSeq(true, ss, s, n).value.Normal? ==> m > 0
    decreases n, ss, 3
  {
    var q :| SeqAt(g, ss, p, q, x, lo) && (JumpsOut(ss) || TermIs(g, q, Br(target), lo));
    m := ForwardSeq(g, ss, p, q, x, lo, s, n);
    var out := ExecSeq(true, ss, s, n).value;
    if out.Normal? {
      if JumpsOut(ss) { JumpingNeverFallsThrough(ss, s, n); }
      OneStep(g, AtPoint(q, out.s));
      Then(g, AtPoint(p, s), m, AtPoint(q, out.s), 1, At(target, 0, out.s));
      m := m + 1;
    }
  }

  lemma {:induction false} ForwardSeq(g: Graph, ss: seq<Stmt>, p: Point, q: Point, x: Option<nat>, lo: nat, s: State, n: nat) returns (m: nat)
    requires SeqAt(g, ss, p, q, x, lo) && ExecSeq(true, ss, s, n).Some?
    ensures ExecSeq(true, ss, s, n).value.Exited? ==> x.Some?
    ensures Steps(g, AtPoint(p, s), m) == Target(ExecSeq(true, ss, s, n).value, q, x)
    decreases n, ss, 2
  {
    if ss == [] {
      m := 0;
    } else if IsJump(ss[0]) {
      m := Forward(g, ss[0], p, q, x, lo, s, n);
    } else {
      var r :| CodeAt(g, ss[0], p, r, x, lo) && SeqAt(g, ss[1..], r, q, x, lo);
      m := Forward(g, ss[0], p, r, x, lo, s, n);
      var out := Exec(true, ss[0], s, n).value;
      if out.Normal? {
        var k := ForwardSeq(g, ss[1..], r, q, x, lo, out.s, n);
        Then(g, AtPoint(p, s), m, AtPoint(r, out.s), k, Target(ExecSeq(true, ss, s, n).value, q, x));
        m := m + k;
      }
    }
  }

  // LOOP, from the head of its body.
  lemma {:induction false} ForwardLoop(g: Graph, st: Stmt, h: nat, q: Point, x: Option<nat>, lo: nat, s: State, n: nat) returns (m: nat)
    requires st.Loop? && BodyTo(g, st.body, Start(h), h, Some(q.b), lo) && q.k == 0 && Exec(true, st, s, n).Some?
    ensures !Exec(true, st, s, n).value.Exited?
    ensures Steps(g, At(h, 0, s), m) == Target(Exec(true, st, s, n).value, q, x)
    decreases n, st, 1
  {
    m := ForwardBody(g, st.body, Start(h), h, Some(q.b), lo, s, n);
    var out := ExecSeq(true, st.body, s, n).value;
    if out.Normal? {
      var k := ForwardLoop(g, st, h, q, x, lo, out.s, n - 1);
      Then(g, At(h, 0, s), m, At(h, 0, out.s), k, Target(Exec(true, st, s, n).value, q, x));
      m := m + k;
    }
  }

  lemma {:induction false} ForwardWhile(g: Graph, st: Stmt, h: nat, fs: seq<nat>, ts: seq<nat>, q: Point, x: Option<nat>, lo: nat, s: State, n: nat) returns (m: nat)
    requires st.While? && |fs| == |st.arms| == |ts| && ArmsAt(g, st.arms, Start(h), fs, ts, h, Some(q.b), x, lo) && q.k == 0
    requires TestPoint(Start(h), fs, |fs|) == q && Exec(true, st, s, n).Some?
    ensures Exec(true, st, s, n).value.Exited? ==> x.Some?
    ensures Steps(g, At(h, 0, s), m) == Target(Exec(true, st, s, n).value, q, x)
    decreases n, st, 1
  {
    hide ArmsAt, BodyTo, Steps;
    var c := Choose(st.arms, s);
    WalkToBody(g, st.arms, Start(h), fs, ts, h, Some(q.b), x, lo, s);
    if c.None? {
      m := |fs|;
    } else {
      var i := c.value;
      var y := if i == 0 then Some(q.b) else x;
      var k := ForwardBody(g, st.arms[i].body, Start(ts[i]), h, y, lo, s, n);
      var out := ExecSeq(true, st.arms[i].body, s, n).value;
      Then(g, At(h, 0, s), i + 1, At(ts[i], 0, s), k, Target(out, Start(h), y));
      m := i + 1 + k;
      if out.Normal? {
        var l := ForwardWhile(g, st, h, fs, ts, q, x, lo, out.s, n - 1);
        Then(g, At(h, 0, s), m, At(h, 0, out.s), l, Target(Exec(true, st, s, n).value, q, x));
        m := m + l;
      }
    }
  }

  lemma {:induction false} ForwardRepeat(g: Graph, st: Stmt, h: nat, r: Point, q: Point, x: Option<nat>, lo: nat, s: State, n: nat) returns (m: nat)
    requires st.Repeat? && SeqAt(g, st.body, Start(h), r, Some(q.b), lo) && q.k == 0
    requires JumpsOut(st.body) || TermIs(g, r, CondBr(st.until, q.b, h), lo)
    requires Exec(true, st, s, n).Some?
    ensures !Exec(true, st, s, n).value.Exited?
    ensures Steps(g, At(h, 0, s), m) == Target(Exec(true, st, s, n).value, q, x)
    decreases n, st, 1
  {
    m := ForwardSeq(g, st.body, Start(h), r, Some(q.b), lo, s, n);
    var out := ExecSeq(true, st.body, s, n).value;
    if out.Normal? {
      if JumpsOut(st.body) { JumpingNeverFallsThrough(st.body, s, n); }
      OneStep(g, AtPoint(r, out.s));
      var next := At(if st.until(out.s) then q.b else h, 0, out.s);
      Then(g, At(h, 0, s), m, AtPoint(r, out.s), 1, next);
      m := m + 1;
      if !st.until(out.s) {
        var k := ForwardRepeat(g, st, h, r, q, x, lo, out.s, n - 1);
        Then(g, At(h, 0, s), m, next, k, Target(Exec(true, st, s, n).value, q, x));
        m := m + k;
      }
    }
  }

  lemma {:induction false} ForwardForEntry(g: Graph, st: Stmt, p: Point, q: Point, h: nat, r: Point, x: Option<nat>, lo: nat, s: State, n: nat) returns (m: nat)
    requires st.For? && ForAt(g, st, p, q, h, r, lo) && q.k == 0 && Exec(true, st, s, n).Some?
    ensures !Exec(true, st, s, n).value.Exited?
    ensures Steps(g, AtPoint(p, s), m) == Target(Exec(true, st, s, n).value, q, x)
    decreases n, st, 1
  {
    var t := StartCounter(st)(s);
    var next := At(if InRange(st)(t) then h else q.b, 0, t);
    OneStep(g, AtPoint(p, s));
    OneStep(g, At(p.b, p.k + 1, t));
    Then(g, AtPoint(p, s), 1, At(p.b, p.k + 1, t), 1, next);
    m := 2;
    if InRange(st)(t) {
      var k := ForwardFor(g, st, p, q, h, r, x, lo, t, n);
      Then(g, AtPoint(p, s), 2, next, k, Target(Exec(true, st, s, n).value, q, x));
      m := 2 + k;
    }
  }

  // FOR, from the head of its body, with the counter in range.
  lemma {:induction false} ForwardFor(g: Graph, st: Stmt, p: Point, q: Point, h: nat, r: Point, x: Option<nat>, lo: nat, s: State, n: nat) returns (m: nat)
    requires st.For? && ForAt(g, st, p, q, h, r, lo) && q.k == 0
    requires InRange(st)(s) && ExecFor(true, st, s, n).Some?
    ensures !ExecFor(true, st, s, n).value.Exited?
    ensures Steps(g, At(h, 0, s), m) == Target(ExecFor(true, st, s, n).value, q, x)
    decreases n, st.body, 3
  {
    m := ForwardSeq(g, st.body, Start(h), r, Some(q.b), lo, s, n);
    var out := ExecSeq(true, st.body, s, n).value;
    if out.Normal? {
      if JumpsOut(st.body) { JumpingNeverFallsThrough(st.body, s, n); }
      var t := AdvanceCounter(st)(out.s);
      var next := At(if InRange(st)(t) then h else q.b, 0, t);
      OneStep(g, AtPoint(r, out.s));
      OneStep(g, At(r.b, r.k + 1, t));
      Then(g, At(h, 0, s), m, AtPoint(r, out.s), 1, At(r.b, r.k + 1, t));
      Then(g, At(h, 0, s), m + 1, At(r.b, r.k + 1, t), 1, next);
      m := m + 2;
      if InRange(st)(t) {
        var k := ForwardFor(g, st, p, q, h, r, x, lo, t, n - 1);
        Then(g, At(h, 0, s), m, next, k, Target(ExecFor(true, st, s, n).value, q, x));
        m := m + k;
      }
    }
  }
}
