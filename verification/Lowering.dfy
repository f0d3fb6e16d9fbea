// What it means for a block graph to hold the code of a statement, and the proof that
// such a graph does what the statement says.
module Lowering {
  import opened Wrappers
  import opened Structured
  import opened BlockGraph

  // A place in the graph: a block, and how many of its instructions come before.
  datatype Point = Point(b: nat, k: nat)

  function Start(b: nat): Point {
    Point(b, 0)
  }

  function AtPoint(p: Point, s: State): Conf {
    At(p.b, p.k, s)
  }

  // ---------- the code of a statement ----------

  // Only blocks from lo on are looked at.
  ghost predicate InstrIs(g: Graph, p: Point, f: Update, lo: nat) {
    lo <= p.b < |g| && p.k < |g[p.b].code| && g[p.b].code[p.k] == f
  }

  ghost predicate TermIs(g: Graph, p: Point, t: Terminator, lo: nat) {
    lo <= p.b < |g| && |g[p.b].code| == p.k && g[p.b].term == Some(t)
  }

  // Statements whose code ends its block at once.
  predicate IsJump(st: Stmt) {
    st.Exit? || st.Return?
  }

  // The code of ss ends in a jump; what comes after the jump is dropped.
  predicate JumpsOut(ss: seq<Stmt>) {
    exists i :: 0 <= i < |ss| && IsJump(ss[i])
  }

  // The table of a switch: every label of case i leads to block ns[i].
  function Entries(labels: seq<int>, n: nat): seq<(int, nat)> {
    seq(|labels|, i requires 0 <= i < |labels| => (labels[i], n))
  }

  function Table(cases: seq<CaseArm>, ns: seq<nat>): seq<(int, nat)> {
    if cases == [] || ns == [] then [] else Entries(cases[0].labels, ns[0]) + Table(cases[1..], ns[1..])
  }

  // Where the test of arm i stands: the first at p, the others in the blocks fs.
  function TestPoint(p: Point, fs: seq<nat>, i: nat): Point
    requires i <= |fs|
  {
    if i == 0 then p else Start(fs[i - 1])
  }

  // The code of st runs from p to q; EXIT goes to block x.
  ghost predicate CodeAt(g: Graph, st: Stmt, p: Point, q: Point, x: Option<nat>, lo: nat)
    decreases st, 2
  {
    match st
    case Assign(f) => InstrIs(g, p, f, lo) && q == Point(p.b, p.k + 1)
    case If(arms, els) =>
      q.k == 0 && exists fs: seq<nat>, ts: seq<nat> ::
        ArmsAt(g, arms, p, fs, ts, q.b, x, x, lo) && ElseAt(g, els, TestPoint(p, fs, |fs|), q.b, x, lo)
    case Loop(body) =>
      q.k == 0 && exists h: nat ::
        TermIs(g, p, Br(h), lo) && BodyTo(g, body, Start(h), h, Some(q.b), lo)
    case While(arms) =>
      q.k == 0 && exists h: nat, fs: seq<nat>, ts: seq<nat> ::
        && TermIs(g, p, Br(h), lo)
        && ArmsAt(g, arms, Start(h), fs, ts, h, Some(q.b), x, lo)
        && TestPoint(Start(h), fs, |fs|) == q
    case Repeat(body, until) =>
      q.k == 0 && exists h: nat, r: Point ::
        && TermIs(g, p, Br(h), lo)
        && SeqAt(g, body, Start(h), r, Some(q.b), lo)
        && (JumpsOut(body) || TermIs(g, r, CondBr(until, q.b, h), lo))
    case For(_, _, _, _, _, _) => q.k == 0 && exists h: nat, r: Point :: ForAt(g, st, p, q, h, r, lo)
    case Case(selector, cases, els) =>
      q.k == 0 && exists d: nat, ns: seq<nat> ::
        && CasesAt(g, cases, ns, q.b, x, lo)
        && TermIs(g, p, Switch(selector, d, Table(cases, ns)), lo)
        && ElseAt(g, els, Start(d), q.b, x, lo)
    case TypeCase(arms, els) =>
      q.k == 0 && exists fs: seq<nat>, ts: seq<nat>, d: nat ::
        && ArmsAt(g, arms, p, fs, ts, q.b, x, x, lo)
        && TermIs(g, TestPoint(p, fs, |fs|), Br(d), lo)
        && ElseAt(g, els, Start(d), q.b, x, lo)
    case Exit => x.Some? && TermIs(g, p, Br(x.value), lo)
    case Return => TermIs(g, p, Ret, lo)
  }

  // The counter is started, the bound is tested, and the body in block h ends at r,
  // where the counter advances and the bound is tested again.
  ghost predicate ForAt(g: Graph, st: Stmt, p: Point, q: Point, h: nat, r: Point, lo: nat)
    requires st.For?
    decreases st, 1
  {
    && InstrIs(g, p, StartCounter(st), lo)
    && TermIs(g, Point(p.b, p.k + 1), CondBr(InRange(st), h, q.b), lo)
    && SeqAt(g, st.body, Start(h), r, Some(q.b), lo)
    && (JumpsOut(st.body) || (InstrIs(g, r, AdvanceCounter(st), lo)
                              && TermIs(g, Point(r.b, r.k + 1), CondBr(PastRange(st), q.b, h), lo)))
  }

  // The arms are tested one after the other; bodies go on to block join. The first body
  // exits to x0, the others to x.
  ghost predicate ArmsAt(g: Graph, arms: seq<Arm>, p: Point, fs: seq<nat>, ts: seq<nat>, join: nat, x0: Option<nat>, x: Option<nat>, lo: nat)
    decreases arms, 4
  {
    && |fs| == |arms| == |ts|
    && forall i :: 0 <= i < |arms| ==>
         && TermIs(g, TestPoint(p, fs, i), CondBr(arms[i].cond, ts[i], fs[i]), lo)
         && BodyTo(g, arms[i].body, Start(ts[i]), join, if i == 0 then x0 else x, lo)
  }

  ghost predicate CasesAt(g: Graph, cases: seq<CaseArm>, ns: seq<nat>, join: nat, x: Option<nat>, lo: nat)
    decreases cases, 4
  {
    && |ns| == |cases|
    && forall i :: 0 <= i < |cases| ==> BodyTo(g, cases[i].body, Start(ns[i]), join, x, lo)
  }

  // Without an ELSE part there is no block for it.
  ghost predicate ElseAt(g: Graph, els: seq<Stmt>, p: Point, join: nat, x: Option<nat>, lo: nat)
    decreases els, 4
  {
    if els == [] then p == Start(join) else BodyTo(g, els, p, join, x, lo)
  }

  // The code of ss starts at p and then goes on to block target.
  ghost predicate BodyTo(g: Graph, ss: seq<Stmt>, p: Point, target: nat, x: Option<nat>, lo: nat)
    decreases ss, 3
  {
    exists q :: SeqAt(g, ss, p, q, x, lo) && (JumpsOut(ss) || TermIs(g, q, Br(target), lo))
  }

  ghost predicate SeqAt(g: Graph, ss: seq<Stmt>, p: Point, q: Point, x: Option<nat>, lo: nat)
    decreases ss, 2
  {
    if ss == [] then q == p
    else if IsJump(ss[0]) then CodeAt(g, ss[0], p, q, x, lo)
    else exists r :: CodeAt(g, ss[0], p, r, x, lo) && SeqAt(g, ss[1..], r, q, x, lo)
  }

  // ---------- code survives later emission ----------

  // h is g with more blocks, longer open blocks and more terminators, from lo on.
  ghost predicate Grows(g: Graph, h: Graph, lo: nat) {
    && |g| <= |h|
    && forall b :: lo <= b < |g| ==> g[b].code <= h[b].code && (g[b].term.Some? ==> h[b] == g[b])
  }

  lemma {:induction false} CodeKept(g: Graph, h: Graph, st: Stmt, p: Point, q: Point, x: Option<nat>, lo: nat, l: nat)
    requires CodeAt(g, st, p, q, x, lo) && Grows(g, h, lo) && l <= lo
    ensures CodeAt(h, st, p, q, x, l)
    decreases st, 2
  {
    match st {
      case Assign(f) =>
      case If(arms, els) =>
        var fs: seq<nat>, ts: seq<nat> :|
          ArmsAt(g, arms, p, fs, ts, q.b, x, x, lo) && ElseAt(g, els, TestPoint(p, fs, |fs|), q.b, x, lo);
        ArmsKept(g, h, arms, p, fs, ts, q.b, x, x, lo, l);
        ElseKept(g, h, els, TestPoint(p, fs, |fs|), q.b, x, lo, l);
      case Loop(body) =>
        var b: nat :| TermIs(g, p, Br(b), lo) && BodyTo(g, body, Start(b), b, Some(q.b), lo);
        BodyKept(g, h, body, Start(b), b, Some(q.b), lo, l);
        assert TermIs(h, p, Br(b), l);
      case While(arms) =>
        var b: nat, fs: seq<nat>, ts: seq<nat> :|
          && TermIs(g, p, Br(b), lo)
          && ArmsAt(g, arms, Start(b), fs, ts, b, Some(q.b), x, lo)
          && TestPoint(Start(b), fs, |fs|) == q;
        ArmsKept(g, h, arms, Start(b), fs, ts, b, Some(q.b), x, lo, l);
        assert TermIs(h, p, Br(b), l);
      case Repeat(body, until) =>
        var b: nat, r: Point :|
          && TermIs(g, p, Br(b), lo)
          && SeqAt(g, body, Start(b), r, Some(q.b), lo)
          && (JumpsOut(body) || TermIs(g, r, CondBr(until, q.b, b), lo));
        SeqKept(g, h, body, Start(b), r, Some(q.b), lo, l);
        assert TermIs(h, p, Br(b), l);
      case For(_, _, _, _, _, _) =>
        var b: nat, r: Point :| ForAt(g, st, p, q, b, r, lo);
        SeqKept(g, h, st.body, Start(b), r, Some(q.b), lo, l);
        assert ForAt(h, st, p, q, b, r, l);
      case Case(selector, cases, els) =>
        var d: nat, ns: seq<nat> :|
          && CasesAt(g, cases, ns, q.b, x, lo)
          && TermIs(g, p, Switch(selector, d, Table(cases, ns)), lo)
          && ElseAt(g, els, Start(d), q.b, x, lo);
        CasesKept(g, h, cases, ns, q.b, x, lo, l);
        ElseKept(g, h, els, Start(d), q.b, x, lo, l);
        assert TermIs(h, p, Switch(selector, d, Table(cases, ns)), l);
      case TypeCase(arms, els) =>
        var fs: seq<nat>, ts: seq<nat>, d: nat :|
          && ArmsAt(g, arms, p, fs, ts, q.b, x, x, lo)
          && TermIs(g, TestPoint(p, fs, |fs|), Br(d), lo)
          && ElseAt(g, els, Start(d), q.b, x, lo);
        ArmsKept(g, h, arms, p, fs, ts, q.b, x, x, lo, l);
        ElseKept(g, h, els, Start(d), q.b, x, lo, l);
        assert TermIs(h, TestPoint(p, fs, |fs|), Br(d), l);
      case Exit =>
      case Return =>
    }
  }

  lemma {:induction false} ArmsKept(g: Graph, h: Graph, arms: seq<Arm>, p: Point, fs: seq<nat>, ts: seq<nat>, join: nat, x0: Option<nat>, x: Option<nat>, lo: nat, l: nat)
    requires ArmsAt(g, arms, p, fs, ts, join, x0, x, lo) && Grows(g, h, lo) && l <= lo
    ensures ArmsAt(h, arms, p, fs, ts, join, x0, x, l)
    decreases arms, 4
  {
    forall i | 0 <= i < |arms|
      ensures TermIs(h, TestPoint(p, fs, i), CondBr(arms[i].cond, ts[i], fs[i]), l)
      ensures BodyTo(h, arms[i].body, Start(ts[i]), join, if i == 0 then x0 else x, l)
    {
      BodyKept(g, h, arms[i].body, Start(ts[i]), join, if i == 0 then x0 else x, lo, l);
    }
  }

  lemma {:induction false} CasesKept(g: Graph, h: Graph, cases: seq<CaseArm>, ns: seq<nat>, join: nat, x: Option<nat>, lo: nat, l: nat)
    requires CasesAt(g, cases, ns, join, x, lo) && Grows(g, h, lo) && l <= lo
    ensures CasesAt(h, cases, ns, join, x, l)
    decreases cases, 4
  {
    forall i | 0 <= i < |cases| ensures BodyTo(h, cases[i].body, Start(ns[i]), join, x, l) {
      BodyKept(g, h, cases[i].body, Start(ns[i]), join, x, lo, l);
    }
  }

  lemma {:induction false} ElseKept(g: Graph, h: Graph, els: seq<Stmt>, p: Point, join: nat, x: Option<nat>, lo: nat, l: nat)
    requires ElseAt(g, els, p, join, x, lo) && Grows(g, h, lo) && l <= lo
    ensures ElseAt(h, els, p, join, x, l)
    decreases els, 4
  {
    if els != [] {
      BodyKept(g, h, els, p, join, x, lo, l);
    }
  }

  lemma {:induction false} BodyKept(g: Graph, h: Graph, ss: seq<Stmt>, p: Point, target: nat, x: Option<nat>, lo: nat, l: nat)
    requires BodyTo(g, ss, p, target, x, lo) && Grows(g, h, lo) && l <= lo
    ensures BodyTo(h, ss, p, target, x, l)
    decreases ss, 3
  {
    var q :| SeqAt(g, ss, p, q, x, lo) && (JumpsOut(ss) || TermIs(g, q, Br(target), lo));
    SeqKept(g, h, ss, p, q, x, lo, l);
  }

  lemma {:induction false} SeqKept(g: Graph, h: Graph, ss: seq<Stmt>, p: Point, q: Point, x: Option<nat>, lo: nat, l: nat)
    requires SeqAt(g, ss, p, q, x, lo) && Grows(g, h, lo) && l <= lo
    ensures SeqAt(h, ss, p, q, x, l)
    decreases ss, 2
  {
    if ss != [] {
      if IsJump(ss[0]) {
        CodeKept(g, h, ss[0], p, q, x, lo, l);
      } else {
        var r :| CodeAt(g, ss[0], p, r, x, lo) && SeqAt(g, ss[1..], r, q, x, lo);
        CodeKept(g, h, ss[0], p, r, x, lo, l);
        SeqKept(g, h, ss[1..], r, q, x, lo, l);
      }
    }
  }
}
