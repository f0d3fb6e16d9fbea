// FOR in terms of the other statements: FOR v := low TO high BY step DO body END is
// v := low; WHILE v has not passed high DO body; v := v + step END, with high evaluated
// anew before each round (LLVMIRBuilder.cpp:1580-1629).
module ForExpansion {
  import opened Wrappers
  import opened Structured
  import opened BlockGraph
  import opened Words
  import IRBuilder

  // ---------- one loop ----------

  function Value(s: State, v: string): int {
    if v in s then s[v] else 0
  }

  function Started(v: string, low: State -> int): Stmt {
    Assign((s: State) => s[v := low(s)])
  }

  function Advanced(v: string, bits: nat, step: int): Stmt {
    Assign((s: State) => s[v := Wrap(Value(s, v) + step, bits)])
  }

  function Within(v: string, high: State -> int, step: int): Test {
    (s: State) => if step > 0 then Value(s, v) <= high(s) else Value(s, v) >= high(s)
  }

  function AsWhile(v: string, bits: nat, low: State -> int, high: State -> int, step: int, body: seq<Stmt>): seq<Stmt> {
    [Started(v, low), While([Arm(Within(v, high, step), body + [Advanced(v, bits, step)])])]
  }

  // ---------- all loops ----------

  // The same program without FOR.
  function Expanded(st: Stmt): seq<Stmt>
    decreases st, 0
  {
    match st
    case If(arms, els) => [If(ExpandedArms(arms), ExpandedSeq(els))]
    case Loop(body) => [Loop(ExpandedSeq(body))]
    case While(arms) => [While(ExpandedArms(arms))]
    case Repeat(body, until) => [Repeat(ExpandedSeq(body), until)]
    case For(v, bits, low, high, step, body) => AsWhile(v, bits, low, high, step, ExpandedSeq(body))
    case Case(selector, cases, els) => [Case(selector, ExpandedCases(cases), ExpandedSeq(els))]
    case TypeCase(arms, els) => [TypeCase(ExpandedArms(arms), ExpandedSeq(els))]
    case _ => [st]
  }

  function ExpandedSeq(ss: seq<Stmt>): seq<Stmt>
    decreases ss, 0
  {
    if ss == [] then [] else Expanded(ss[0]) + ExpandedSeq(ss[1..])
  }

  function ExpandedArms(arms: seq<Arm>): (r: seq<Arm>)
    ensures |r| == |arms| && forall i :: 0 <= i < |arms| ==> r[i] == Arm(arms[i].cond, ExpandedSeq(arms[i].body))
    decreases arms, 0
  {
    if arms == [] then [] else [Arm(arms[0].cond, ExpandedSeq(arms[0].body))] + ExpandedArms(arms[1..])
  }

  function ExpandedCases(cases: seq<CaseArm>): (r: seq<CaseArm>)
    ensures |r| == |cases| && forall i :: 0 <= i < |cases| ==> r[i] == CaseArm(cases[i].labels, ExpandedSeq(cases[i].body))
    decreases cases, 0
  {
    if cases == [] then [] else [CaseArm(cases[0].labels, ExpandedSeq(cases[0].body))] + ExpandedCases(cases[1..])
  }

  lemma {:induction false} SameChoice(arms: seq<Arm>, s: State)
    ensures Choose(ExpandedArms(arms), s) == Choose(arms, s)
  {
    hide ExpandedSeq;
    if arms != [] {
      assert ExpandedArms(arms)[1..] == ExpandedArms(arms[1..]);
      SameChoice(arms[1..], s);
    }
  }

  lemma {:induction false} SameCase(cases: seq<CaseArm>, v: int)
    ensures ChooseCase(ExpandedCases(cases), v) == ChooseCase(cases, v)
  {
    hide ExpandedSeq;
    if cases != [] {
      assert ExpandedCases(cases)[1..] == ExpandedCases(cases[1..]);
      SameCase(cases[1..], v);
    }
  }

  // ---------- sequences ----------

  lemma {:induction false} OneAlone(leak: bool, st: Stmt, s: State, n: nat)
    ensures ExecSeq(leak, [st], s, n) == Exec(leak, st, s, n)
  {
    hide Exec;
  }

  lemma {:induction false} OneThen(leak: bool, a: seq<Stmt>, b: seq<Stmt>, s: State, n: nat)
    ensures ExecSeq(leak, a + b, s, n) ==
      match ExecSeq(leak, a, s, n)
      case Some(Normal(t)) => ExecSeq(leak, b, t, n)
      case r => r
    decreases |a|
  {
    hide Exec;
    if a == [] {
      assert a + b == b;
    } else {
      assert (a + b)[1..] == a[1..] + b;
      var r := Exec(leak, a[0], s, n);
      if r.Some? && r.value.Normal? { OneThen(leak, a[1..], b, r.value.s, n); }
    }
  }

  // ---------- the same runs ----------

  // Round for round, with any bound on the rounds, both programs give the same.
  lemma {:induction false} SameRun(leak: bool, st: Stmt, s: State, n: nat)
    ensures ExecSeq(leak, Expanded(st), s, n) == Exec(leak, st, s, n)
    decreases n, st, 3
  {
    match st
    case For(_, _, _, _, _, _) => SameFor(leak, st, s, n);
    case _ =>
      hide Exec, ExecSeq;
      assert Expanded(st) == [Expanded(st)[0]];
      OneAlone(leak, Expanded(st)[0], s, n);
      SameStatement(leak, st, s, n);
  }

  lemma {:induction false} SameStatement(leak: bool, st: Stmt, s: State, n: nat)
    requires !st.For?
    ensures Exec(leak, Expanded(st)[0], s, n) == Exec(leak, st, s, n)
    decreases n, st, 2
  {
    hide Choose, ChooseCase, ExecSeq, ExecFor;
    match st
    case Assign(_) =>
    case If(arms, els) =>
      SameChoice(arms, s);
      var c := Choose(arms, s);
      SameSeq(leak, if c.Some? then arms[c.value].body else els, s, n);
    case Loop(_) => SameLoop(leak, st, s, n);
    case While(_) => SameWhile(leak, st, s, n);
    case Repeat(_, _) => SameRepeat(leak, st, s, n);
    case Case(selector, cases, els) =>
      SameCase(cases, selector(s));
      var c := ChooseCase(cases, selector(s));
      SameSeq(leak, if c.Some? then cases[c.value].body else els, s, n);
    case TypeCase(arms, els) =>
      SameChoice(arms, s);
      var c := Choose(arms, s);
      SameSeq(leak, if c.Some? then arms[c.value].body else els, s, n);
    case Exit =>
    case Return =>
  }

  lemma {:induction false} SameLoop(leak: bool, st: Stmt, s: State, n: nat)
    requires st.Loop?
    ensures Exec(leak, Loop(ExpandedSeq(st.body)), s, n) == Exec(leak, st, s, n)
    decreases n, st, 0
  {
    hide Choose, ChooseCase, ExecSeq, ExecFor, ExpandedSeq;
    if n > 0 {
      SameSeq(leak, st.body, s, n);
      var r := ExecSeq(leak, st.body, s, n);
      if r.Some? && r.value.Normal? { SameLoop(leak, st, r.value.s, n - 1); }
    }
  }

  lemma {:induction false} SameWhile(leak: bool, st: Stmt, s: State, n: nat)
    requires st.While?
    ensures Exec(leak, While(ExpandedArms(st.arms)), s, n) == Exec(leak, st, s, n)
    decreases n, st, 0
  {
    hide Choose, ChooseCase, ExecSeq, ExecFor, ExpandedSeq, ExpandedArms;
    SameChoice(st.arms, s);
    var c := Choose(st.arms, s);
    if n > 0 && c.Some? {
      SameSeq(leak, st.arms[c.value].body, s, n);
      var r := ExecSeq(leak, st.arms[c.value].body, s, n);
      if r.Some? && r.value.Normal? { SameWhile(leak, st, r.value.s, n - 1); }
    }
  }

  lemma {:induction false} SameRepeat(leak: bool, st: Stmt, s: State, n: nat)
    requires st.Repeat?
    ensures Exec(leak, Repeat(ExpandedSeq(st.body), st.until), s, n) == Exec(leak, st, s, n)
    decreases n, st, 0
  {
    hide Choose, ChooseCase, ExecSeq, ExecFor, ExpandedSeq;
    if n > 0 {
      SameSeq(leak, st.body, s, n);
      var r := ExecSeq(leak, st.body, s, n);
      if r.Some? && r.value.Normal? && !st.until(r.value.s) { SameRepeat(leak, st, r.value.s, n - 1); }
    }
  }

  lemma {:induction false} SameSeq(leak: bool, ss: seq<Stmt>, s: State, n: nat)
    ensures ExecSeq(leak, ExpandedSeq(ss), s, n) == ExecSeq(leak, ss, s, n)
    decreases n, ss, 0
  {
    hide Exec, Expanded;
    if ss != [] {
      SameRun(leak, ss[0], s, n);
      OneThen(leak, Expanded(ss[0]), ExpandedSeq(ss[1..]), s, n);
      var r := Exec(leak, ss[0], s, n);
      if r.Some? && r.value.Normal? { SameSeq(leak, ss[1..], r.value.s, n); }
    }
  }

  lemma {:induction false} SameFor(leak: bool, st: Stmt, s: State, n: nat)
    requires st.For?
    ensures ExecSeq(leak, Expanded(st), s, n) == Exec(leak, st, s, n)
    decreases n, st, 1
  {
    hide ExecFor;
    var t := s[st.counter := st.low(s)];
    var start := Started(st.counter, st.low);
    assert Expanded(st) == [start] + [Rounds(st)] by { hide Exec; }
    OneAlone(leak, start, s, n);
    OneAlone(leak, Rounds(st), t, n);
    OneThen(leak, [start], [Rounds(st)], s, n);
    SameRounds(leak, st, t, n);
    assert StartCounter(st)(s) == t;
  }

  // The loop without its start.
  function Rounds(st: Stmt): Stmt
    requires st.For?
  {
    While([Arm(Within(st.counter, st.high, st.step), ExpandedSeq(st.body) + [Advanced(st.counter, st.bits, st.step)])])
  }

  lemma {:induction false} SameTest(st: Stmt, s: State)
    requires st.For?
    ensures Within(st.counter, st.high, st.step)(s) <==> InRange(st)(s)
  {
    assert Value(s, st.counter) == Get(s, st.counter);
    if st.step > 0 {
      assert InRange(st)(s) <==> Get(s, st.counter) <= st.high(s);
    } else {
      assert InRange(st)(s) <==> Get(s, st.counter) >= st.high(s);
    }
  }

  lemma {:induction false} SameRounds(leak: bool, st: Stmt, s: State, n: nat)
    requires st.For?
    ensures Exec(leak, Rounds(st), s, n) == ExecFor(leak, st, s, n)
    decreases n, st.body, 1
  {
    hide ExecSeq, ExpandedSeq, Wrap;
    var advance := Advanced(st.counter, st.bits, st.step);
    SameTest(st, s);
    if n > 0 && InRange(st)(s) {
      assert Choose(Rounds(st).arms, s) == Some(0);
      SameSeq(leak, st.body, s, n);
      OneThen(leak, ExpandedSeq(st.body), [advance], s, n);
      var r := ExecSeq(leak, st.body, s, n);
      if r.Some? && r.value.Normal? {
        OneAlone(leak, advance, r.value.s, n);
        assert Exec(leak, advance, r.value.s, n) == Some(Normal(AdvanceCounter(st)(r.value.s)));
        SameRounds(leak, st, AdvanceCounter(st)(r.value.s), n - 1);
      }
    }
  }

  // ---------- whole programs ----------

  ghost predicate EndsIn(leak: bool, ss: seq<Stmt>, s: State, o: Outcome) {
    exists n: nat :: ExecSeq(leak, ss, s, n) == Some(o)
  }

  // Statements end if and only if they do without FOR, and in the same outcome.
  lemma {:induction false} ExpansionAgrees(leak: bool, ss: seq<Stmt>, s: State, o: Outcome)
    ensures EndsIn(leak, ss, s, o) <==> EndsIn(leak, ExpandedSeq(ss), s, o)
  {
    hide ExecSeq, ExpandedSeq;
    if EndsIn(leak, ss, s, o) {
      var n: nat :| ExecSeq(leak, ss, s, n) == Some(o);
      SameSeq(leak, ss, s, n);
      assert ExecSeq(leak, ExpandedSeq(ss), s, n) == Some(o);
    }
    if EndsIn(leak, ExpandedSeq(ss), s, o) {
      var n: nat :| ExecSeq(leak, ExpandedSeq(ss), s, n) == Some(o);
      SameSeq(leak, ss, s, n);
    }
  }

  // A FOR loop ends in an outcome if and only if the WHILE loop does, for any bounds and body.
  lemma {:induction false} ForIsWhile(
    leak: bool, v: string, bits: nat, low: State -> int, high: State -> int, step: int, body: seq<Stmt>, s: State, o: Outcome)
    ensures EndsIn(leak, [For(v, bits, low, high, step, body)], s, o)
       <==> EndsIn(leak, AsWhile(v, bits, low, high, step, body), s, o)
  {
    hide EndsIn;
    var loop, plain := [For(v, bits, low, high, step, body)], AsWhile(v, bits, low, high, step, body);
    ExpansionAgrees(leak, loop, s, o);
    ExpansionAgrees(leak, plain, s, o);
    SameExpansion(v, bits, low, high, step, body);
  }

  lemma {:induction false} SameExpansion(v: string, bits: nat, low: State -> int, high: State -> int, step: int, body: seq<Stmt>)
    ensures ExpandedSeq(AsWhile(v, bits, low, high, step, body)) == ExpandedSeq([For(v, bits, low, high, step, body)])
  {
    var start, loop, last := Started(v, low), For(v, bits, low, high, step, body), Advanced(v, bits, step);
    var arm := Arm(Within(v, high, step), body + [last]);
    ExpandedEnd(body, last);
    ExpandedParts(start, [While([arm])]);
    ExpandedParts(While([arm]), []);
    ExpandedParts(loop, []);
    assert [While([arm])] + [] == [While([arm])] && [loop] + [] == [loop];
    assert [start] + [While([arm])] == AsWhile(v, bits, low, high, step, body);
    hide ExpandedSeq;
    assert ExpandedArms([arm]) == [Arm(arm.cond, ExpandedSeq(body) + [last])];
    assert Expanded(While([arm])) == [While(ExpandedArms([arm]))] && Expanded(start) == [start];
    assert Expanded(loop) == AsWhile(v, bits, low, high, step, ExpandedSeq(body));
  }

  lemma {:induction false} ExpandedParts(st: Stmt, rest: seq<Stmt>)
    ensures ExpandedSeq([st] + rest) == Expanded(st) + ExpandedSeq(rest) && ExpandedSeq([]) == []
  {
    assert ([st] + rest)[1..] == rest;
    hide Expanded;
  }

  lemma {:induction false} ExpandedEnd(ss: seq<Stmt>, last: Stmt)
    requires last.Assign?
    ensures ExpandedSeq(ss + [last]) == ExpandedSeq(ss) + [last]
  {
    if ss == [] {
      ExpandedParts(last, []);
      assert ss + [last] == [last] + [];
    } else {
      assert ss + [last] == [ss[0]] + (ss[1..] + [last]);
      ExpandedParts(ss[0], ss[1..] + [last]);
      ExpandedEnd(ss[1..], last);
    }
  }

  // The blocks for a program do what the program without FOR does.
  method LowerWithoutFor(body: seq<Stmt>) returns (g: Graph)
    requires IRBuilder.LowerableSeq(body, false)
    ensures forall b :: 0 <= b < |g| ==> g[b].term.Some?
    ensures forall s, t :: IRBuilder.MachineEnds(g, s, t) <==> IRBuilder.ProgramEnds(true, ExpandedSeq(body), s, t)
  {
    hide IRBuilder.LowerableSeq, IRBuilder.MachineEnds, ExecSeq, ExpandedSeq;
    g := IRBuilder.Lower(body);
    forall s, t ensures IRBuilder.ProgramEnds(true, body, s, t) <==> IRBuilder.ProgramEnds(true, ExpandedSeq(body), s, t) {
      forall n: nat ensures ExecSeq(true, ExpandedSeq(body), s, n) == ExecSeq(true, body, s, n) {
        SameSeq(true, body, s, n);
      }
    }
  }
}
