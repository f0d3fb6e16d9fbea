// Where EXIT goes: the emitted code against the language.
module LoopExits {
  import opened Wrappers
  import opened Structured
  import opened BlockGraph
  import opened IRBuilder

  // ss can end with an EXIT that no loop inside ss catches.
  predicate FreeExit(ss: seq<Stmt>)
    decreases ss, 0
  {
    exists i :: 0 <= i < |ss| && FreeExitOf(ss[i])
  }

  predicate FreeExitOf(st: Stmt)
    decreases st, 1
  {
    match st
    case If(arms, els) => (exists i :: 0 <= i < |arms| && FreeExit(arms[i].body)) || FreeExit(els)
    case Case(_, cases, els) => (exists i :: 0 <= i < |cases| && FreeExit(cases[i].body)) || FreeExit(els)
    case TypeCase(arms, els) => (exists i :: 0 <= i < |arms| && FreeExit(arms[i].body)) || FreeExit(els)
    case Exit => true
    case _ => false
  }

  // No ELSIF part of a WHILE has a free EXIT.
  predicate Contained(ss: seq<Stmt>)
    decreases ss, 0
  {
    forall i :: 0 <= i < |ss| ==> ContainedStmt(ss[i])
  }

  predicate ContainedStmt(st: Stmt)
    decreases st, 1
  {
    match st
    case If(arms, els) => (forall i :: 0 <= i < |arms| ==> Contained(arms[i].body)) && Contained(els)
    case Loop(body) => Contained(body)
    case While(arms) =>
      && (forall i :: 0 <= i < |arms| ==> Contained(arms[i].body))
      && (forall i :: 1 <= i < |arms| ==> !FreeExit(arms[i].body))
    case Repeat(body, _) => Contained(body)
    case For(_, _, _, _, _, body) => Contained(body)
    case Case(_, cases, els) => (forall i :: 0 <= i < |cases| ==> Contained(cases[i].body)) && Contained(els)
    case TypeCase(arms, els) => (forall i :: 0 <= i < |arms| ==> Contained(arms[i].body)) && Contained(els)
    case _ => true
  }

  // ---------- what can be lowered ----------

  // Every IF and WHILE has a condition.
  predicate Shaped(ss: seq<Stmt>)
    decreases ss, 0
  {
    forall i :: 0 <= i < |ss| ==> ShapedStmt(ss[i])
  }

  predicate ShapedStmt(st: Stmt)
    decreases st, 1
  {
    match st
    case If(arms, els) => arms != [] && (forall i :: 0 <= i < |arms| ==> Shaped(arms[i].body)) && Shaped(els)
    case Loop(body) => Shaped(body)
    case While(arms) => arms != [] && forall i :: 0 <= i < |arms| ==> Shaped(arms[i].body)
    case Repeat(body, _) => Shaped(body)
    case For(_, _, _, _, _, body) => Shaped(body)
    case Case(_, cases, els) => (forall i :: 0 <= i < |cases| ==> Shaped(cases[i].body)) && Shaped(els)
    case TypeCase(arms, els) => (forall i :: 0 <= i < |arms| ==> Shaped(arms[i].body)) && Shaped(els)
    case _ => true
  }

  // A contained program can be lowered if and only if no EXIT in it is outside all loops.
  lemma {:induction false} LowerableIff(ss: seq<Stmt>, inLoop: bool)
    requires Contained(ss)
    ensures LowerableSeq(ss, inLoop) <==> Shaped(ss) && (inLoop || !FreeExit(ss))
    decreases ss, 0
  {
    forall i | 0 <= i < |ss| ensures Lowerable(ss[i], inLoop) <==> ShapedStmt(ss[i]) && (inLoop || !FreeExitOf(ss[i])) {
      LowerableStmtIff(ss[i], inLoop);
    }
    hide Lowerable, ShapedStmt, FreeExitOf, Contained;
  }

  lemma {:induction false} LowerableStmtIff(st: Stmt, inLoop: bool)
    requires ContainedStmt(st)
    ensures Lowerable(st, inLoop) <==> ShapedStmt(st) && (inLoop || !FreeExitOf(st))
    decreases st, 1
  {
    hide LowerableSeq, Shaped, FreeExit, Contained;
    match st
    case If(arms, els) =>
      forall i | 0 <= i < |arms| ensures LowerableSeq(arms[i].body, inLoop) <==> Shaped(arms[i].body) && (inLoop || !FreeExit(arms[i].body)) {
        LowerableIff(arms[i].body, inLoop);
      }
      LowerableIff(els, inLoop);
    case Loop(body) => LowerableIff(body, true);
    case While(arms) =>
      forall i | 0 <= i < |arms| ensures LowerableSeq(arms[i].body, i == 0 || inLoop) <==> Shaped(arms[i].body) {
        LowerableIff(arms[i].body, i == 0 || inLoop);
      }
    case Repeat(body, _) => LowerableIff(body, true);
    case For(_, _, _, _, _, body) => LowerableIff(body, true);
    case Case(_, cases, els) =>
      forall i | 0 <= i < |cases| ensures LowerableSeq(cases[i].body, inLoop) <==> Shaped(cases[i].body) && (inLoop || !FreeExit(cases[i].body)) {
        LowerableIff(cases[i].body, inLoop);
      }
      LowerableIff(els, inLoop);
    case TypeCase(arms, els) =>
      forall i | 0 <= i < |arms| ensures LowerableSeq(arms[i].body, inLoop) <==> Shaped(arms[i].body) && (inLoop || !FreeExit(arms[i].body)) {
        LowerableIff(arms[i].body, inLoop);
      }
      LowerableIff(els, inLoop);
    case _ =>
  }

  // ---------- a statement without a free EXIT never ends in one ----------

  lemma {:induction false} ExitComesFromExit(ss: seq<Stmt>, s: State, n: nat)
    requires Contained(ss) && ExecSeq(true, ss, s, n).Some? && ExecSeq(true, ss, s, n).value.Exited?
    ensures FreeExit(ss)
    decreases n, ss, 0
  {
    var r := Exec(true, ss[0], s, n).value;
    if r.Normal? {
      ExitComesFromExit(ss[1..], r.s, n);
      var i :| 0 <= i < |ss[1..]| && FreeExitOf(ss[1..][i]);
      assert FreeExitOf(ss[i + 1]);
    } else {
      ExitComesFromExitOf(ss[0], s, n);
    }
  }

  lemma {:induction false} ExitComesFromExitOf(st: Stmt, s: State, n: nat)
    requires ContainedStmt(st) && Exec(true, st, s, n).Some? && Exec(true, st, s, n).value.Exited?
    ensures FreeExitOf(st)
    decreases n, st, 0
  {
    match st {
      case If(arms, els) =>
        var c := Choose(arms, s);
        ExitComesFromExit(if c.Some? then arms[c.value].body else els, s, n);
      case Loop(body) =>
        ExitComesFromExitOf(st, ExecSeq(true, body, s, n).value.s, n - 1);
      case While(arms) =>
        var i := Choose(arms, s).value;
        var r := ExecSeq(true, arms[i].body, s, n).value;
        if r.Normal? {
          ExitComesFromExitOf(st, r.s, n - 1);
        } else {
          ExitComesFromExit(arms[i].body, s, n);
        }
      case Repeat(body, _) =>
        ExitComesFromExitOf(st, ExecSeq(true, body, s, n).value.s, n - 1);
      case For(_, _, _, _, _, _) =>
        ForCatchesExit(true, st, StartCounter(st)(s), n);
      case Case(selector, cases, els) =>
        var c := ChooseCase(cases, selector(s));
        ExitComesFromExit(if c.Some? then cases[c.value].body else els, s, n);
      case TypeCase(arms, els) =>
        var c := Choose(arms, s);
        ExitComesFromExit(if c.Some? then arms[c.value].body else els, s, n);
      case Exit =>
    }
  }

  lemma {:induction false} ForCatchesExit(leak: bool, st: Stmt, s: State, n: nat)
    requires st.For? && ExecFor(leak, st, s, n).Some?
    ensures !ExecFor(leak, st, s, n).value.Exited?
    decreases n
  {
    if InRange(st)(s) {
      var r := ExecSeq(leak, st.body, s, n).value;
      if r.Normal? {
        ForCatchesExit(leak, st, AdvanceCounter(st)(r.s), n - 1);
      }
    }
  }

  // ---------- contained statements run as the language says ----------

  lemma {:induction false} ContainedAgree(ss: seq<Stmt>, s: State, n: nat)
    requires Contained(ss)
    ensures ExecSeq(true, ss, s, n) == ExecSeq(false, ss, s, n)
    decreases n, ss, 0
  {
    if ss != [] {
      ContainedAgreeStmt(ss[0], s, n);
      var r := Exec(true, ss[0], s, n);
      if r.Some? && r.value.Normal? {
        ContainedAgree(ss[1..], r.value.s, n);
      }
    }
  }

  lemma {:induction false} ContainedAgreeStmt(st: Stmt, s: State, n: nat)
    requires ContainedStmt(st)
    ensures Exec(true, st, s, n) == Exec(false, st, s, n)
    decreases n, st, 0
  {
    hide Choose, FreeExitOf;
    match st {
      case Assign(_) =>
      case If(arms, els) =>
        var c := Choose(arms, s);
        ContainedAgree(if c.Some? then arms[c.value].body else els, s, n);
      case Loop(body) =>
        if n > 0 {
          ContainedAgree(body, s, n);
          var r := ExecSeq(true, body, s, n);
          if r.Some? && r.value.Normal? { ContainedAgreeStmt(st, r.value.s, n - 1); }
        }
      case While(arms) =>
        var c := Choose(arms, s);
        if n > 0 && c.Some? {
          var body := arms[c.value].body;
          ContainedAgree(body, s, n);
          var r := ExecSeq(true, body, s, n);
          if r.Some? && r.value.Normal? { ContainedAgreeStmt(st, r.value.s, n - 1); }
          if r.Some? && r.value.Exited? { ExitComesFromExit(body, s, n); }
        }
      case Repeat(body, until) =>
        if n > 0 {
          ContainedAgree(body, s, n);
          var r := ExecSeq(true, body, s, n);
          if r.Some? && r.value.Normal? && !until(r.value.s) { ContainedAgreeStmt(st, r.value.s, n - 1); }
        }
      case For(_, _, _, _, _, _) => ContainedAgreeFor(st, StartCounter(st)(s), n);
      case Case(selector, cases, els) =>
        var c := ChooseCase(cases, selector(s));
        ContainedAgree(if c.Some? then cases[c.value].body else els, s, n);
      case TypeCase(arms, els) =>
        var c := Choose(arms, s);
        ContainedAgree(if c.Some? then arms[c.value].body else els, s, n);
      case Exit =>
      case Return =>
    }
  }

  lemma {:induction false} ContainedAgreeFor(st: Stmt, s: State, n: nat)
    requires st.For? && Contained(st.body)
    ensures ExecFor(true, st, s, n) == ExecFor(false, st, s, n)
    decreases n, st.body, 1
  {
    if n > 0 && InRange(st)(s) {
      ContainedAgree(st.body, s, n);
      var r := ExecSeq(true, st.body, s, n);
      if r.Some? && r.value.Normal? { ContainedAgreeFor(st, AdvanceCounter(st)(r.value.s), n - 1); }
    }
  }

  // The emitted graph of a program without such an EXIT ends exactly as the language says.
  lemma ContainedProgramsRunAsWritten(g: Graph, body: seq<Stmt>, s: State, t: State)
    requires Contained(body)
    requires MachineEnds(g, s, t) <==> ProgramEnds(true, body, s, t)
    ensures MachineEnds(g, s, t) <==> ProgramEnds(false, body, s, t)
  {
    if ProgramEnds(true, body, s, t) {
      var n: nat :| ExecSeq(true, body, s, n).Some? && ExecSeq(true, body, s, n).value.s == t;
      ContainedAgree(body, s, n);
    }
    if ProgramEnds(false, body, s, t) {
      var n: nat :| ExecSeq(false, body, s, n).Some? && ExecSeq(false, body, s, n).value.s == t;
      ContainedAgree(body, s, n);
    }
  }

  // Lowering such a program: the emitted graph does what the language says.
  method LowerContained(body: seq<Stmt>) returns (g: Graph)
    requires LowerableSeq(body, false) && Contained(body)
    ensures forall b :: 0 <= b < |g| ==> g[b].term.Some?
    ensures forall s, t :: MachineEnds(g, s, t) <==> ProgramEnds(false, body, s, t)
  {
    hide LowerableSeq, MachineEnds, ProgramEnds;
    g := Lower(body);
    forall s, t ensures MachineEnds(g, s, t) <==> ProgramEnds(false, body, s, t) {
      ContainedProgramsRunAsWritten(g, body, s, t);
    }
  }

  // ---------- exactly when a single WHILE goes wrong ----------

  // With contained bodies, a run of a WHILE loop as emitted differs from the language
  // exactly if it ends in an EXIT, which then leaves the enclosing loop. That takes an
  // ELSIF part with a free EXIT.
  lemma {:induction false} WhileLeaksIff(st: Stmt, s: State, n: nat)
    requires st.While? && forall i :: 0 <= i < |st.arms| ==> Contained(st.arms[i].body)
    requires Exec(true, st, s, n).Some?
    ensures Exec(true, st, s, n) != Exec(false, st, s, n) <==> Exec(true, st, s, n).value.Exited?
    ensures Exec(false, st, s, n).Some? && Exec(false, st, s, n).value.s == Exec(true, st, s, n).value.s
    ensures Exec(true, st, s, n) != Exec(false, st, s, n) ==> exists i :: 1 <= i < |st.arms| && FreeExit(st.arms[i].body)
    decreases n
  {
    var c := Choose(st.arms, s);
    if c.Some? {
      var body := st.arms[c.value].body;
      ContainedAgree(body, s, n);
      var r := ExecSeq(true, body, s, n).value;
      if r.Normal? {
        WhileLeaksIff(st, r.s, n - 1);
      } else if r.Exited? {
        ExitComesFromExit(body, s, n);
      }
    }
  }

  // A run from s differs from the language.
  ghost predicate Leaks(st: Stmt, s: State) {
    exists n: nat :: Exec(true, st, s, n).Some? && Exec(true, st, s, n) != Exec(false, st, s, n)
  }

  // In state s an ELSIF part is chosen, and its body ends in an EXIT.
  ghost predicate ExitsElsif(st: Stmt, s: State)
    requires st.While?
  {
    var c := Choose(st.arms, s);
    c.Some? && c.value > 0 && ExitsBody(st.arms[c.value].body, s)
  }

  ghost predicate ExitsBody(body: seq<Stmt>, s: State) {
    exists n: nat :: ExecSeq(true, body, s, n).Some? && ExecSeq(true, body, s, n).value.Exited?
  }

  // A WHILE can differ from the language if and only if in some state one round goes
  // through an ELSIF part and ends in an EXIT.
  lemma {:induction false} WhileCanLeakIff(st: Stmt)
    requires st.While? && forall i :: 0 <= i < |st.arms| ==> Contained(st.arms[i].body)
    ensures (exists s :: Leaks(st, s)) <==> exists s :: ExitsElsif(st, s)
  {
    if exists s :: Leaks(st, s) {
      var s :| Leaks(st, s);
      var n: nat :| Exec(true, st, s, n).Some? && Exec(true, st, s, n) != Exec(false, st, s, n);
      var t := LeakingRound(st, s, n);
    }
    if exists s :: ExitsElsif(st, s) {
      var s :| ExitsElsif(st, s);
      RoundLeaks(st, s);
    }
  }

  lemma {:induction false} LeakingRound(st: Stmt, s: State, n: nat) returns (t: State)
    requires st.While? && forall i :: 0 <= i < |st.arms| ==> Contained(st.arms[i].body)
    requires Exec(true, st, s, n).Some? && Exec(true, st, s, n) != Exec(false, st, s, n)
    ensures ExitsElsif(st, t)
    decreases n
  {
    var body := st.arms[Choose(st.arms, s).value].body;
    ContainedAgree(body, s, n);
    var r := ExecSeq(true, body, s, n).value;
    if r.Normal? {
      t := LeakingRound(st, r.s, n - 1);
    } else {
      t := s;
    }
  }

  lemma {:induction false} RoundLeaks(st: Stmt, s: State)
    requires st.While? && ExitsElsif(st, s) && Contained(st.arms[Choose(st.arms, s).value].body)
    ensures Leaks(st, s)
  {
    var body := st.arms[Choose(st.arms, s).value].body;
    var n: nat :| ExecSeq(true, body, s, n).Some? && ExecSeq(true, body, s, n).value.Exited?;
    ExecSeqMore(true, body, s, n, n + 1);
    ContainedAgree(body, s, n + 1);
    assert Exec(true, st, s, n + 1).Some? && Exec(true, st, s, n + 1) != Exec(false, st, s, n + 1);
  }

  // LOOP WHILE x > 1 DO x := 0 ELSIF x = 0 DO EXIT END; x := 5; EXIT END
  function Leaky(): seq<Stmt> {
    var elsif := While([Arm((s: State) => Get(s, "x") > 1, [Assign((s: State) => s["x" := 0])]),
                        Arm((s: State) => Get(s, "x") == 0, [Exit])]);
    [Loop([elsif, Assign((s: State) => s["x" := 5]), Exit])]
  }

  // The EXIT in the ELSIF part leaves the LOOP: the assignment behind the WHILE is skipped.
  lemma {:induction false} LeakyProgramDiffers()
    ensures LowerableSeq(Leaky(), false)
    ensures ExecSeq(true, Leaky(), map["x" := 0], 2) == Some(Normal(map["x" := 0]))
    ensures ExecSeq(false, Leaky(), map["x" := 0], 2) == Some(Normal(map["x" := 5]))
  {
    hide ExecSeq, Exec;
    LeakyIsLowerable();
    LeakyLoop(true);
    LeakyLoop(false);
    OneStatement(true, Leaky()[0], map["x" := 0], 2);
    OneStatement(false, Leaky()[0], map["x" := 0], 2);
    assert Leaky() == [Leaky()[0]];
  }

  lemma {:induction false} LeakyIsLowerable()
    ensures LowerableSeq(Leaky(), false)
  {
    var loop := Leaky()[0];
    assert LowerableArms(loop.body[0].arms, true, true);
    assert LowerableSeq(loop.body, true);
  }

  lemma {:induction false} OneStatement(leak: bool, st: Stmt, s: State, n: nat)
    ensures ExecSeq(leak, [st], s, n) == Exec(leak, st, s, n)
  {
    hide Exec;
    var r := Exec(leak, st, s, n);
    if r.Some? && r.value.Normal? {
      assert ExecSeq(leak, [st][1..], r.value.s, n) == Some(Normal(r.value.s));
    }
  }

  lemma {:induction false} LeakyWhile(leak: bool)
    ensures var s: State := map["x" := 0];
      Exec(leak, Leaky()[0].body[0], s, 2) == Some(if leak then Exited(s) else Normal(s))
  {
    var s: State := map["x" := 0];
    var inner := Leaky()[0].body[0];
    assert Choose(inner.arms[1..], s) == Some(0);
    assert Choose(inner.arms, s) == Some(1);
    assert inner.arms[1].body == [Exit];
    OneStatement(leak, Exit, s, 2);
    hide ExecSeq;
  }

  lemma {:induction false} LeakyLoop(leak: bool)
    ensures var s: State := map["x" := 0];
      Exec(leak, Leaky()[0], s, 2) == Some(Normal(if leak then s else map["x" := 5]))
  {
    var s: State := map["x" := 0];
    var t: State := s["x" := 5];
    assert t == map["x" := 5];
    var body := Leaky()[0].body;
    LeakyWhile(leak);
    OneStatement(leak, Exit, t, 2);
    assert body[1..] == [body[1], Exit] && body[1..][1..] == [Exit];
    assert Exec(leak, body[1], s, 2) == Some(Normal(t));
    assert ExecSeq(leak, body[1..], s, 2) == Some(Exited(t));
    assert ExecSeq(leak, body, s, 2) == Some(Exited(if leak then s else t));
    hide ExecSeq;
  }
}
