// Graphs of basic blocks and their execution: the part of LLVM the lowering uses.
module BlockGraph {
  import opened Wrappers
  import opened Structured

  // The terminators the lowering emits; a switch carries its table of cases.
  datatype Terminator =
    | Br(target: nat)
    | CondBr(cond: Test, yes: nat, no: nat)
    | Switch(selector: State -> int, default: nat, table: seq<(int, nat)>)
    | Ret

  datatype Block = Block(code: seq<Update>, term: Option<Terminator>)
  type Graph = seq<Block>

  datatype Conf = At(b: nat, k: nat, s: State) | Done(s: State) | Stuck

  // The switch goes to the block its table gives for the value.
  function Lookup(table: seq<(int, nat)>, v: int, default: nat): nat {
    if table == [] then default
    else if table[0].0 == v then table[0].1
    else Lookup(table[1..], v, default)
  }

  function Step(g: Graph, c: Conf): Conf {
    if !c.At? then c
    else if c.b >= |g| then Stuck
    else if c.k < |g[c.b].code| then At(c.b, c.k + 1, g[c.b].code[c.k](c.s))
    else match g[c.b].term
      case None => Stuck
      case Some(Br(t)) => At(t, 0, c.s)
      case Some(CondBr(cond, yes, no)) => At(if cond(c.s) then yes else no, 0, c.s)
      case Some(Switch(selector, default, table)) => At(Lookup(table, selector(c.s), default), 0, c.s)
      case Some(Ret) => Done(c.s)
  }

  function Steps(g: Graph, c: Conf, n: nat): Conf
    decreases n
  {
    if n == 0 then c else Steps(g, Step(g, c), n - 1)
  }

  lemma {:induction false} StepsAdd(g: Graph, c: Conf, m: nat, n: nat)
    ensures Steps(g, c, m + n) == Steps(g, Steps(g, c, m), n)
    decreases m
  {
    if m > 0 {
      StepsAdd(g, Step(g, c), m - 1, n);
    }
  }

  lemma {:induction false} DoneStays(g: Graph, s: State, n: nat)
    ensures Steps(g, Done(s), n) == Done(s) && Steps(g, Stuck, n) == Stuck
  {
    if n > 0 {
      DoneStays(g, s, n - 1);
    }
  }

  // A run that has reached c after m steps and ends within n still ends from c.
  lemma RestOfRun(g: Graph, a: Conf, m: nat, c: Conf, n: nat)
    requires Steps(g, a, m) == c && c.At? && Steps(g, a, n).Done?
    ensures m < n && Steps(g, c, n - m) == Steps(g, a, n)
  {
    if n <= m {
      StepsAdd(g, a, n, m - n);
      DoneStays(g, Steps(g, a, n).s, m - n);
    } else {
      StepsAdd(g, a, m, n - m);
    }
  }

  // A run ends in one state only.
  lemma EndIsUnique(g: Graph, a: Conf, m: nat, n: nat)
    requires Steps(g, a, m).Done? && Steps(g, a, n).Done?
    ensures Steps(g, a, m) == Steps(g, a, n)
  {
    if m <= n {
      StepsAdd(g, a, m, n - m);
      DoneStays(g, Steps(g, a, m).s, n - m);
    } else {
      StepsAdd(g, a, n, m - n);
      DoneStays(g, Steps(g, a, n).s, m - n);
    }
  }
}
