// The code of a statement ends only if the statement does: whenever the machine,
// started at the code, comes to an end, the statement itself has an outcome.
module Reflection {
  import opened Wrappers
  import opened Structured
  import opened BlockGraph
  import opened Lowering
  import opened Simulation

  lemma {:induction false} Continue(g: Graph, a: Conf, k: nat, c: Conf, m: nat)
    requires Steps(g, a, k) == c && c.At? && Steps(g, a, m).Done?
    ensures k < m && Steps(g, c, m - k).Done?
  {
    RestOfRun(g, a, k, c, m);
  }

  lemma {:induction false} Ends(g: Graph, st: Stmt, p: Point, q: Point, x: Option<nat>, lo: nat, s: State, m: nat) returns (n: nat)
    requires CodeAt(g, st, p, q, x, lo) && Steps(g, AtPoint(p, s), m).Done?
    ensures Exec(true, st, s, n).Some?
    decreases m, st, 2
  {
    hide BodyTo, Steps, Table, ElseAt, CasesAt, SeqAt, ArmsAt, ExecSeq, ExecFor, ForAt;
    match st {
      case Assign(f) => n := 0;
      case If(arms, els) =>
        var fs: seq<nat>, ts: seq<nat> :|
          ArmsAt(g, arms, p, fs, ts, q.b, x, x, lo) && ElseAt(g, els, TestPoint(p, fs, |fs|), q.b, x, lo);
        ArmsShape(g, arms, p, fs, ts, q.b, x, x, lo);
        n := EndsIf(g, st, p, fs, ts, q, x, lo, s, m);
      case Loop(body) =>
        var h: nat :| TermIs(g, p, Br(h), lo) && BodyTo(g, body, Start(h), h, Some(q.b), lo);
        OneStep(g, AtPoint(p, s));
        Continue(g, AtPoint(p, s), 1, At(h, 0, s), m);
        n := EndsLoop(g, st, h, q, x, lo, s, m - 1);
      case While(arms) =>
        var h: nat, fs: seq<nat>, ts: seq<nat> :|
          && TermIs(g, p, Br(h), lo)
          && ArmsAt(g, arms, Start(h), fs, ts, h, Some(q.b), x, lo)
          && TestPoint(Start(h), fs, |fs|) == q;
        ArmsShape(g, arms, Start(h), fs, ts, h, Some(q.b), x, lo);
        OneStep(g, AtPoint(p, s));
        Continue(g, AtPoint(p, s), 1, At(h, 0, s), m);
        n := EndsWhile(g, st, h, fs, ts, q, x, lo, s, m - 1);
      case Repeat(body, until) =>
        var h: nat, r: Point :|
          && TermIs(g, p, Br(h), lo)
          && SeqAt(g, body, Start(h), r, Some(q.b), lo)
          && (JumpsOut(body) || TermIs(g, r, CondBr(until, q.b, h), lo));
        OneStep(g, AtPoint(p, s));
        Continue(g, AtPoint(p, s), 1, At(h, 0, s), m);
        n := EndsRepeat(g, st, h, r, q, x, lo, s, m - 1);
      case For(_, _, _, _, _, _) =>
        var h: nat, r: Point :| ForAt(g, st, p, q, h, r, lo);
        n := EndsForEntry(g, st, p, q, h, r, x, lo, s, m);
      case Case(selector, cases, els) =>
        var d: nat, ns: seq<nat> :|
          && CasesAt(g, cases, ns, q.b, x, lo)
          && TermIs(g, p, Switch(selector, d, Table(cases, ns)), lo)
          && ElseAt(g, els, Start(d), q.b, x, lo);
        CasesShape(g, cases, ns, q.b, x, lo);
        n := EndsCase(g, st, p, d, ns, q, x, lo, s, m);
      case TypeCase(arms, els) =>
        var fs: seq<nat>, ts: seq<nat>, d: nat :|
          && ArmsAt(g, arms, p, fs, ts, q.b, x, x, lo)
          && TermIs(g, TestPoint(p, fs, |fs|), Br(d), lo)
          && ElseAt(g, els, Start(d), q.b, x, lo);
        ArmsShape(g, arms, p, fs, ts, q.b, x, x, lo);
        n := EndsTypeCase(g, st, p, fs, ts, d, q, x, lo, s, m);
      case Exit => n := 0;
      case Return => n := 0;
    }
  }

  lemma {:induction false} EndsIf(g: Graph, st: Stmt, p: Point, fs: seq<nat>, ts: seq<nat>, q: Point, x: Option<nat>, lo: nat, s: State, m: nat) returns (n: nat)
    requires st.If? && Steps(g, AtPoint(p, s), m).Done?
    requires |fs| == |st.arms| == |ts| && ArmsAt(g, st.arms, p, fs, ts, q.b, x, x, lo)
    requires ElseAt(g, st.els, TestPoint(p, fs, |fs|), q.b, x, lo)
    ensures Exec(true, st, s, n).Some?
    decreases m, st, 1
  {
    hide ArmsAt, ElseAt, BodyTo, Steps;
    var c := Choose(st.arms, s);
    WalkToBody(g, st.arms, p, fs, ts, q.b, x, x, lo, s);
    if c.Some? {
      Continue(g, AtPoint(p, s), c.value + 1, At(ts[c.value], 0, s), m);
      n := EndsBody(g, st.arms[c.value].body, Start(ts[c.value]), q.b, x, lo, s, m - (c.value + 1));
    } else {
      Continue(g, AtPoint(p, s), |fs|, AtPoint(TestPoint(p, fs, |fs|), s), m);
      n := EndsElse(g, st.els, TestPoint(p, fs, |fs|), q.b, x, lo, s, m - |fs|);
    }
  }

  lemma {:induction false} EndsTypeCase(g: Graph, st: Stmt, p: Point, fs: seq<nat>, ts: seq<nat>, d: nat, q: Point, x: Option<nat>, lo: nat, s: State, m: nat) returns (n: nat)
    requires st.TypeCase? && Steps(g, AtPoint(p, s), m).Done?
    requires |fs| == |st.arms| == |ts| && ArmsAt(g, st.arms, p, fs, ts, q.b, x, x, lo)
    requires TermIs(g, TestPoint(p, fs, |fs|), Br(d), lo) && ElseAt(g, st.els, Start(d), q.b, x, lo)
    ensures Exec(true, st, s, n).Some?
    decreases m, st, 1
  {
    hide ArmsAt, ElseAt, BodyTo, Steps;
    var c := Choose(st.arms, s);
    WalkToBody(g, st.arms, p, fs, ts, q.b, x, x, lo, s);
    if c.Some? {
      Continue(g, AtPoint(p, s), c.value + 1, At(ts[c.value], 0, s), m);
      n := EndsBody(g, st.arms[c.value].body, Start(ts[c.value]), q.b, x, lo, s, m - (c.value + 1));
    } else {
      OneStep(g, AtPoint(TestPoint(p, fs, |fs|), s));
      Then(g, AtPoint(p, s), |fs|, AtPoint(TestPoint(p, fs, |fs|), s), 1, At(d, 0, s));
      Continue(g, AtPoint(p, s), |fs| + 1, At(d, 0, s), m);
      n := EndsElse(g, st.els, Start(d), q.b, x, lo, s, m - (|fs| + 1));
    }
  }

  lemma {:induction false} EndsCase(g: Graph, st: Stmt, p: Point, d: nat, ns: seq<nat>, q: Point, x: Option<nat>, lo: nat, s: State, m: nat) returns (n: nat)
    requires st.Case? && Steps(g, AtPoint(p, s), m).Done?
    requires CasesAt(g, st.cases, ns, q.b, x, lo) && |ns| == |st.cases|
    requires TermIs(g, p, Switch(st.selector, d, Table(st.cases, ns)), lo) && ElseAt(g, st.els, Start(d), q.b, x, lo)
    ensures Exec(true, st, s, n).Some?
    decreases m, st, 1
  {
    hide ElseAt, BodyTo, Steps, Table;
    var c := ChooseCase(st.cases, st.selector(s));
    TableLookup(st.cases, ns, st.selector(s), d);
    OneStep(g, AtPoint(p, s));
    if c.Some? {
      Continue(g, AtPoint(p, s), 1, At(ns[c.value], 0, s), m);
      n := EndsBody(g, st.cases[c.value].body, Start(ns[c.value]), q.b, x, lo, s, m - 1);
    } else {
      Continue(g, AtPoint(p, s), 1, At(d, 0, s), m);
      n := EndsElse(g, st.els, Start(d), q.b, x, lo, s, m - 1);
    }
  }

  lemma {:induction false} EndsElse(g: Graph, els: seq<Stmt>, p: Point, join: nat, x: Option<nat>, lo: nat, s: State, m: nat) returns (n: nat)
    requires ElseAt(g, els, p, join, x, lo) && Steps(g, AtPoint(p, s), m).Done?
    ensures ExecSeq(true, els, s, n).Some?
    decreases m, els, 4
  {
    if els == [] {
      n := 0;
    } else {
      n := EndsBody(g, els, p, join, x, lo, s, m);
    }
  }

  lemma {:induction false} EndsBody(g: Graph, ss: seq<Stmt>, p: Point, target: nat, x: Option<nat>, lo: nat, s: State, m: nat) returns (n: nat)
    requires BodyTo(g, ss, p, target, x, lo) && Steps(g, AtPoint(p, s), m).Done?
    ensures ExecSeq(true, ss, s, n).Some?
    decreases m, ss, 3
  {
    var q :| SeqAt(g, ss, p, q, x, lo) && (JumpsOut(ss) || TermIs(g, q, Br(target), lo));
    n := EndsSeq(g, ss, p, q, x, lo, s, m);
  }

  lemma {:induction false} EndsSeq(g: Graph, ss: seq<Stmt>, p: Point, q: Point, x: Option<nat>, lo: nat, s: State, m: nat) returns (n: nat)
    requires SeqAt(g, ss, p, q, x, lo) && Steps(g, AtPoint(p, s), m).Done?
    ensures ExecSeq(true, ss, s, n).Some?
    decreases m, ss, 2
  {
    hide Steps, CodeAt, Exec;
    if ss == [] {
      n := 0;
    } else if IsJump(ss[0]) {
      n := Ends(g, ss[0], p, q, x, lo, s, m);
      JumpOutcome(ss[0], s, n);
    } else {
      var r :| CodeAt(g, ss[0], p, r, x, lo) && SeqAt(g, ss[1..], r, q, x, lo);
      var a := Ends(g, ss[0], p, r, x, lo, s, m);
      var out := Exec(true, ss[0], s, a).value;
      if out.Normal? {
        var k := Forward(g, ss[0], p, r, x, lo, s, a);
        Continue(g, AtPoint(p, s), k, AtPoint(r, out.s), m);
        var b := EndsSeq(g, ss[1..], r, q, x, lo, out.s, m - k);
        n := Max(a, b);
        ExecMore(true, ss[0], s, a, n);
        ExecSeqMore(true, ss[1..], out.s, b, n);
      } else {
        n := a;
      }
    }
  }

  lemma {:induction false} JumpOutcome(st: Stmt, s: State, n: nat)
    requires IsJump(st)
    ensures Exec(true, st, s, n).Some? && !Exec(true, st, s, n).value.Normal?
  {
  }

  lemma {:induction false} EndsLoop(g: Graph, st: Stmt, h: nat, q: Point, x: Option<nat>, lo: nat, s: State, m: nat) returns (n: nat)
    requires st.Loop? && BodyTo(g, st.body, Start(h), h, Some(q.b), lo) && Steps(g, At(h, 0, s), m).Done?
    ensures Exec(true, st, s, n).Some?
    decreases m, st, 1
  {
    var a := EndsBody(g, st.body, Start(h), h, Some(q.b), lo, s, m);
    var out := ExecSeq(true, st.body, s, a).value;
    n := a + 1;
    if out.Normal? {
      var k := ForwardBody(g, st.body, Start(h), h, Some(q.b), lo, s, a);
      Continue(g, At(h, 0, s), k, At(h, 0, out.s), m);
      var b := EndsLoop(g, st, h, q, x, lo, out.s, m - k);
      n := Max(a, b) + 1;
      ExecMore(true, st, out.s, b, n - 1);
    }
    ExecSeqMore(true, st.body, s, a, n);
  }

  lemma {:induction false} EndsWhile(g: Graph, st: Stmt, h: nat, fs: seq<nat>, ts: seq<nat>, q: Point, x: Option<nat>, lo: nat, s: State, m: nat) returns (n: nat)
    requires st.While? && |fs| == |st.arms| == |ts| && ArmsAt(g, st.arms, Start(h), fs, ts, h, Some(q.b), x, lo)
    requires Steps(g, At(h, 0, s), m).Done?
    ensures Exec(true, st, s, n).Some?
    decreases m, st, 1
  {
    hide ArmsAt, BodyTo, Steps;
    var c := Choose(st.arms, s);
    WalkToBody(g, st.arms, Start(h), fs, ts, h, Some(q.b), x, lo, s);
    n := 1;
    if c.Some? {
      var i := c.value;
      var body, y := st.arms[i].body, if i == 0 then Some(q.b) else x;
      Continue(g, At(h, 0, s), i + 1, At(ts[i], 0, s), m);
      var a := EndsBody(g, body, Start(ts[i]), h, y, lo, s, m - (i + 1));
      var out := ExecSeq(true, body, s, a).value;
      n := a + 1;
      if out.Normal? {
        var k := ForwardBody(g, body, Start(ts[i]), h, y, lo, s, a);
        Continue(g, At(ts[i], 0, s), k, At(h, 0, out.s), m - (i + 1));
        var b := EndsWhile(g, st, h, fs, ts, q, x, lo, out.s, m - (i + 1) - k);
        n := Max(a, b) + 1;
        ExecMore(true, st, out.s, b, n - 1);
      }
      ExecSeqMore(true, body, s, a, n);
    }
  }

  lemma {:induction false} EndsRepeat(g: Graph, st: Stmt, h: nat, r: Point, q: Point, x: Option<nat>, lo: nat, s: State, m: nat) returns (n: nat)
    requires st.Repeat? && SeqAt(g, st.body, Start(h), r, Some(q.b), lo)
    requires JumpsOut(st.body) || TermIs(g, r, CondBr(st.until, q.b, h), lo)
    requires Steps(g, At(h, 0, s), m).Done?
    ensures Exec(true, st, s, n).Some?
    decreases m, st, 1
  {
    hide SeqAt, Steps;
    var a := EndsSeq(g, st.body, Start(h), r, Some(q.b), lo, s, m);
    var out := ExecSeq(true, st.body, s, a).value;
    n := a + 1;
    if out.Normal? && !st.until(out.s) {
      if JumpsOut(st.body) { JumpingNeverFallsThrough(st.body, s, a); }
      var k := ForwardSeq(g, st.body, Start(h), r, Some(q.b), lo, s, a);
      OneStep(g, AtPoint(r, out.s));
      Then(g, At(h, 0, s), k, AtPoint(r, out.s), 1, At(h, 0, out.s));
      Continue(g, At(h, 0, s), k + 1, At(h, 0, out.s), m);
      var b := EndsRepeat(g, st, h, r, q, x, lo, out.s, m - (k + 1));
      n := Max(a, b) + 1;
      ExecMore(true, st, out.s, b, n - 1);
    }
    ExecSeqMore(true, st.body, s, a, n);
  }

  lemma {:induction false} EndsForEntry(g: Graph, st: Stmt, p: Point, q: Point, h: nat, r: Point, x: Option<nat>, lo: nat, s: State, m: nat) returns (n: nat)
    requires st.For? && ForAt(g, st, p, q, h, r, lo) && Steps(g, AtPoint(p, s), m).Done?
    ensures Exec(true, st, s, n).Some?
    decreases m, st, 1
  {
    hide SeqAt, Steps;
    var t := StartCounter(st)(s);
    n := 1;
    if InRange(st)(t) {
      OneStep(g, AtPoint(p, s));
      OneStep(g, At(p.b, p.k + 1, t));
      Then(g, AtPoint(p, s), 1, At(p.b, p.k + 1, t), 1, At(h, 0, t));
      Continue(g, AtPoint(p, s), 2, At(h, 0, t), m);
      n := EndsFor(g, st, p, q, h, r, x, lo, t, m - 2);
    }
  }

  lemma {:induction false} EndsFor(g: Graph, st: Stmt, p: Point, q: Point, h: nat, r: Point, x: Option<nat>, lo: nat, s: State, m: nat) returns (n: nat)
    requires st.For? && ForAt(g, st, p, q, h, r, lo) && InRange(st)(s) && Steps(g, At(h, 0, s), m).Done?
    ensures ExecFor(true, st, s, n).Some?
    decreases m, st.body, 3
  {
    hide SeqAt, Steps;
    var a := EndsSeq(g, st.body, Start(h), r, Some(q.b), lo, s, m);
    var out := ExecSeq(true, st.body, s, a).value;
    n := a + 1;
    if out.Normal? {
      if JumpsOut(st.body) { JumpingNeverFallsThrough(st.body, s, a); }
      var t := AdvanceCounter(st)(out.s);
      n := a + 2;
      if InRange(st)(t) {
        var k := ForwardSeq(g, st.body, Start(h), r, Some(q.b), lo, s, a);
        OneStep(g, AtPoint(r, out.s));
        OneStep(g, At(r.b, r.k + 1, t));
        Then(g, At(h, 0, s), k, AtPoint(r, out.s), 1, At(r.b, r.k + 1, t));
        Then(g, At(h, 0, s), k + 1, At(r.b, r.k + 1, t), 1, At(h, 0, t));
        Continue(g, At(h, 0, s), k + 2, At(h, 0, t), m);
        var b := EndsFor(g, st, p, q, h, r, x, lo, t, m - (k + 2));
        n := Max(a, b) + 1;
        ExecForMore(true, st, t, b, n - 1);
      }
    }
    ExecSeqMore(true, st.body, s, a, n);
  }
}
