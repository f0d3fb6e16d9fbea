// Structured statements and what running them means.
module Structured {
  import opened Wrappers
  import opened Words

  // Variables hold integers; conditions and assignments are arbitrary functions of the store.
  type State = map<string, int>
  type Test = State -> bool
  type Update = State -> State

  datatype Stmt =
    | Assign(f: Update)
    | If(arms: seq<Arm>, els: seq<Stmt>)
    | Loop(body: seq<Stmt>)
    | While(arms: seq<Arm>)
    | Repeat(body: seq<Stmt>, until: Test)
    | For(counter: string, bits: nat, low: State -> int, high: State -> int, step: int, body: seq<Stmt>)
    | Case(selector: State -> int, cases: seq<CaseArm>, els: seq<Stmt>)
    | TypeCase(arms: seq<Arm>, els: seq<Stmt>)
    | Exit
    | Return

  // The first arm is the statement's own condition, the others its ELSIF parts.
  datatype Arm = Arm(cond: Test, body: seq<Stmt>)
  datatype CaseArm = CaseArm(labels: seq<int>, body: seq<Stmt>)

  datatype Outcome = Normal(s: State) | Exited(s: State) | Returned(s: State)

  // ---------- choosing an arm ----------

  // The first arm whose condition holds.
  function Choose(arms: seq<Arm>, s: State): (c: Option<nat>)
    ensures c.Some? ==> c.value < |arms| && arms[c.value].cond(s)
    ensures forall j :: 0 <= j < (if c.Some? then c.value else |arms|) ==> !arms[j].cond(s)
  {
    if arms == [] then None
    else if arms[0].cond(s) then Some(0)
    else match Choose(arms[1..], s)
      case None => None
      case Some(i) => Some(i + 1)
  }

  // The first case arm that lists v.
  function ChooseCase(cases: seq<CaseArm>, v: int): (c: Option<nat>)
    ensures c.Some? ==> c.value < |cases| && v in cases[c.value].labels
    ensures forall j :: 0 <= j < (if c.Some? then c.value else |cases|) ==> v !in cases[j].labels
  {
    if cases == [] then None
    else if v in cases[0].labels then Some(0)
    else match ChooseCase(cases[1..], v)
      case None => None
      case Some(i) => Some(i + 1)
  }

  // ---------- loop counters ----------

  function Get(s: State, x: string): int {
    if x in s then s[x] else 0
  }

  function StartCounter(st: Stmt): Update
    requires st.For?
  {
    (s: State) => s[st.counter := st.low(s)]
  }

  function AdvanceCounter(st: Stmt): Update
    requires st.For?
  {
    (s: State) => s[st.counter := Wrap(Get(s, st.counter) + st.step, st.bits)]
  }

  // The counter has not passed the upper bound, which is evaluated anew each time.
  function InRange(st: Stmt): Test
    requires st.For?
  {
    if st.step > 0 then (s: State) => Get(s, st.counter) <= st.high(s)
    else (s: State) => Get(s, st.counter) >= st.high(s)
  }

  function PastRange(st: Stmt): Test
    requires st.For?
  {
    if st.step > 0 then (s: State) => Get(s, st.counter) > st.high(s)
    else (s: State) => Get(s, st.counter) < st.high(s)
  }

  // ---------- running ----------

  // Running st from s with at most n rounds per loop nest; None means more are needed.
  // With leak, an EXIT in an ELSIF part of a WHILE loop leaves the loop around it, as
  // the emitted code has it; without, it leaves the WHILE loop itself.
  function Exec(leak: bool, st: Stmt, s: State, n: nat): Option<Outcome>
    decreases n, st, 0
  {
    match st
    case Assign(f) => Some(Normal(f(s)))
    case If(arms, els) =>
      (match Choose(arms, s)
       case Some(i) => ExecSeq(leak, arms[i].body, s, n)
       case None => ExecSeq(leak, els, s, n))
    case Loop(body) =>
      if n == 0 then None
      else (match ExecSeq(leak, body, s, n)
        case Some(Normal(t)) => Exec(leak, st, t, n - 1)
        case Some(Exited(t)) => Some(Normal(t))
        case r => r)
    case While(arms) =>
      if n == 0 then None
      else (match Choose(arms, s)
        case None => Some(Normal(s))
        case Some(i) =>
          match ExecSeq(leak, arms[i].body, s, n)
          case Some(Normal(t)) => Exec(leak, st, t, n - 1)
          case Some(Exited(t)) => if leak && i > 0 then Some(Exited(t)) else Some(Normal(t))
          case r => r)
    case Repeat(body, until) =>
      if n == 0 then None
      else (match ExecSeq(leak, body, s, n)
        case Some(Normal(t)) => if until(t) then Some(Normal(t)) else Exec(leak, st, t, n - 1)
        case Some(Exited(t)) => Some(Normal(t))
        case r => r)
    case For(_, _, _, _, _, _) => ExecFor(leak, st, StartCounter(st)(s), n)
    case Case(selector, cases, els) =>
      (match ChooseCase(cases, selector(s))
       case Some(i) => ExecSeq(leak, cases[i].body, s, n)
       case None => ExecSeq(leak, els, s, n))
    case TypeCase(arms, els) =>
      (match Choose(arms, s)
       case Some(i) => ExecSeq(leak, arms[i].body, s, n)
       case None => ExecSeq(leak, els, s, n))
    case Exit => Some(Exited(s))
    case Return => Some(Returned(s))
  }

  function ExecSeq(leak: bool, ss: seq<Stmt>, s: State, n: nat): Option<Outcome>
    decreases n, ss, 0
  {
    if ss == [] then Some(Normal(s))
    else match Exec(leak, ss[0], s, n)
      case Some(Normal(t)) => ExecSeq(leak, ss[1..], t, n)
      case r => r
  }

  // WHILE counter has not passed the bound DO body; advance END (Oberon-07 report, section 9.8).
  function ExecFor(leak: bool, st: Stmt, s: State, n: nat): Option<Outcome>
    requires st.For?
    decreases n, st.body, 1
  {
    if n == 0 then None
    else if !InRange(st)(s) then Some(Normal(s))
    else match ExecSeq(leak, st.body, s, n)
      case Some(Normal(t)) => ExecFor(leak, st, AdvanceCounter(st)(t), n - 1)
      case Some(Exited(t)) => Some(Normal(t))
      case r => r
  }

  // ---------- more rounds never change a result ----------

  lemma {:induction false} ExecMore(leak: bool, st: Stmt, s: State, n: nat, m: nat)
    requires Exec(leak, st, s, n).Some? && n <= m
    ensures Exec(leak, st, s, m) == Exec(leak, st, s, n)
    decreases n, st, 0
  {
    hide Choose, ChooseCase;
    match st {
      case Assign(_) =>
      case If(arms, els) =>
        var c := Choose(arms, s);
        ExecSeqMore(leak, if c.Some? then arms[c.value].body else els, s, n, m);
      case Loop(body) =>
        ExecSeqMore(leak, body, s, n, m);
        var r := ExecSeq(leak, body, s, n).value;
        if r.Normal? { ExecMore(leak, st, r.s, n - 1, m - 1); }
      case While(arms) =>
        var c := Choose(arms, s);
        if c.Some? {
          ExecSeqMore(leak, arms[c.value].body, s, n, m);
          var r := ExecSeq(leak, arms[c.value].body, s, n).value;
          if r.Normal? { ExecMore(leak, st, r.s, n - 1, m - 1); }
        }
      case Repeat(body, until) =>
        ExecSeqMore(leak, body, s, n, m);
        var r := ExecSeq(leak, body, s, n).value;
        if r.Normal? && !until(r.s) { ExecMore(leak, st, r.s, n - 1, m - 1); }
      case For(_, _, _, _, _, _) => ExecForMore(leak, st, StartCounter(st)(s), n, m);
      case Case(selector, cases, els) =>
        var c := ChooseCase(cases, selector(s));
        ExecSeqMore(leak, if c.Some? then cases[c.value].body else els, s, n, m);
      case TypeCase(arms, els) =>
        var c := Choose(arms, s);
        ExecSeqMore(leak, if c.Some? then arms[c.value].body else els, s, n, m);
      case Exit =>
      case Return =>
    }
  }

  lemma {:induction false} ExecSeqMore(leak: bool, ss: seq<Stmt>, s: State, n: nat, m: nat)
    requires ExecSeq(leak, ss, s, n).Some? && n <= m
    ensures ExecSeq(leak, ss, s, m) == ExecSeq(leak, ss, s, n)
    decreases n, ss, 0
  {
    if ss != [] {
      ExecMore(leak, ss[0], s, n, m);
      var r := Exec(leak, ss[0], s, n).value;
      if r.Normal? { ExecSeqMore(leak, ss[1..], r.s, n, m); }
    }
  }

  lemma {:induction false} ExecForMore(leak: bool, st: Stmt, s: State, n: nat, m: nat)
    requires st.For? && ExecFor(leak, st, s, n).Some? && n <= m
    ensures ExecFor(leak, st, s, m) == ExecFor(leak, st, s, n)
    decreases n, st.body, 1
  {
    if InRange(st)(s) {
      ExecSeqMore(leak, st.body, s, n, m);
      var r := ExecSeq(leak, st.body, s, n).value;
      if r.Normal? { ExecForMore(leak, st, AdvanceCounter(st)(r.s), n - 1, m - 1); }
    }
  }
}
