// The statement visitors of the code generator (lib/codegen/llvm/LLVMIRBuilder.cpp):
// they append to an insertion block, open new blocks and keep a stack of loop tails.
module IRBuilder {
  import opened Wrappers
  import opened Structured
  import opened BlockGraph
  import opened Lowering
  import opened Simulation
  import opened Reflection

  // EXIT occurs only where the stack of loop tails is not empty. The ELSIF parts of a
  // WHILE are visited after the loop's own tail has been popped.
  predicate Lowerable(st: Stmt, inLoop: bool)
    decreases st, 0
  {
    match st
    case If(arms, els) => arms != [] && LowerableArms(arms, inLoop, inLoop) && LowerableSeq(els, inLoop)
    case Loop(body) => LowerableSeq(body, true)
    case While(arms) => arms != [] && LowerableArms(arms, true, inLoop)
    case Repeat(body, _) => LowerableSeq(body, true)
    case For(_, _, _, _, _, body) => LowerableSeq(body, true)
    case Case(_, cases, els) =>
      (forall i :: 0 <= i < |cases| ==> LowerableSeq(cases[i].body, inLoop)) && LowerableSeq(els, inLoop)
    case TypeCase(arms, els) => LowerableArms(arms, inLoop, inLoop) && LowerableSeq(els, inLoop)
    case Exit => inLoop
    case _ => true
  }

  predicate LowerableArms(arms: seq<Arm>, first: bool, others: bool)
    decreases arms, 0
  {
    forall i :: 0 <= i < |arms| ==> LowerableSeq(arms[i].body, if i == 0 then first else others)
  }

  predicate LowerableSeq(ss: seq<Stmt>, inLoop: bool)
    decreases ss, 0
  {
    forall i :: 0 <= i < |ss| ==> Lowerable(ss[i], inLoop)
  }

  // ---------- what emission leaves alone ----------

  // Blocks that existed before are unchanged, except that block i may have got longer.
  ghost predicate Frame(g: Graph, i: nat, h: Graph) {
    && |g| <= |h| && i < |g|
    && (forall b :: 0 <= b < |g| && b != i ==> h[b] == g[b])
    && g[i].code <= h[i].code
  }

  // Of block i and the blocks from n on, all but those in open have a terminator.
  ghost predicate ClosedExcept(h: Graph, i: nat, n: nat, open: set<nat>) {
    forall b :: 0 <= b < |h| && (b == i || n <= b) && b !in open ==> h[b].term.Some?
  }

  lemma {:induction false} FrameGrows(g: Graph, i: nat, h: Graph, lo: nat)
    requires Frame(g, i, h) && g[i].term.None?
    ensures Grows(g, h, lo)
  {
  }

  lemma {:induction false} FrameThen(g: Graph, i: nat, h: Graph, j: nat, k: Graph)
    requires Frame(g, i, h) && Frame(h, j, k) && (j == i || |g| <= j)
    ensures Frame(g, i, k)
  {
  }

  function Top(tails: seq<nat>): Option<nat> {
    if tails == [] then None else Some(tails[|tails| - 1])
  }

  class Builder {
    var blocks: Graph
    var insert: nat
    var loopTails: seq<nat>

    constructor ()
      ensures blocks == [Block([], None)] && insert == 0 && loopTails == []
    {
      blocks, insert, loopTails := [Block([], None)], 0, [];
    }

    ghost predicate Valid()
      reads this`blocks, this`insert
    {
      insert < |blocks|
    }

    // The insertion block can still take code.
    ghost predicate Open()
      reads this`blocks, this`insert
    {
      Valid() && blocks[insert].term.None?
    }

    function Here(): Point
      requires Valid()
      reads this`blocks, this`insert
    {
      Point(insert, |blocks[insert].code|)
    }

    method CreateBlock() returns (b: nat)
      modifies this`blocks
      ensures b == |old(blocks)| && blocks == old(blocks) + [Block([], None)]
    {
      b := |blocks|;
      blocks := blocks + [Block([], None)];
    }

    method Emit(f: Update)
      requires Open()
      modifies this`blocks
      ensures |blocks| == |old(blocks)| && Open()
      ensures blocks == old(blocks)[insert := Block(old(blocks)[insert].code + [f], None)]
    {
      blocks := blocks[insert := blocks[insert].(code := blocks[insert].code + [f])];
    }

    // A block gets its one terminator.
    method Terminate(t: Terminator)
      requires Open()
      modifies this`blocks
      ensures |blocks| == |old(blocks)|
      ensures blocks == old(blocks)[insert := Block(old(blocks)[insert].code, Some(t))]
    {
      blocks := blocks[insert := blocks[insert].(term := Some(t))];
    }

    // ensureTerminator (LLVMIRBuilder.cpp:2488-2492)
    method EnsureTerminator(target: nat)
      requires Valid()
      modifies this`blocks
      ensures |blocks| == |old(blocks)| && blocks[insert].term.Some?
      ensures blocks == if old(blocks)[insert].term.Some? then old(blocks)
                        else old(blocks)[insert := Block(old(blocks)[insert].code, Some(Br(target)))]
    {
      if blocks[insert].term.None? {
        Terminate(Br(target));
      }
    }

    // The exit code of a body (LLVMIRBuilder.cpp:104-107)
    method EnsureReturn()
      requires Valid()
      modifies this`blocks
      ensures |blocks| == |old(blocks)|
      ensures blocks == if old(blocks)[insert].term.Some? then old(blocks)
                        else old(blocks)[insert := Block(old(blocks)[insert].code, Some(Ret))]
    {
      if blocks[insert].term.None? {
        Terminate(Ret);
      }
    }

    // addCase for every label of one case (LLVMIRBuilder.cpp:830-834)
    method AddCases(b: nat, labels: seq<int>, n: nat)
      requires b < |blocks| && blocks[b].term.Some? && blocks[b].term.value.Switch?
      modifies this`blocks
      ensures |blocks| == |old(blocks)|
      ensures var t := old(blocks)[b].term.value;
        blocks == old(blocks)[b := Block(old(blocks)[b].code, Some(Switch(t.selector, t.default, t.table + Entries(labels, n))))]
    {
      ghost var t := blocks[b].term.value;
      assert t.table + Entries(labels[..0], n) == t.table;
      for i := 0 to |labels|
        invariant |blocks| == |old(blocks)|
        invariant blocks == old(blocks)[b := Block(old(blocks)[b].code, Some(Switch(t.selector, t.default, t.table + Entries(labels[..i], n))))]
      {
        var term := blocks[b].term.value;
        blocks := blocks[b := blocks[b].(term := Some(term.(table := term.table + [(labels[i], n)])))];
        assert Entries(labels[..i + 1], n) == Entries(labels[..i], n) + [(labels[i], n)];
        assert t.table + Entries(labels[..i + 1], n) == t.table + Entries(labels[..i], n) + [(labels[i], n)];
      }
      assert labels[..|labels|] == labels;
    }

    // StatementSequenceNode (LLVMIRBuilder.cpp:1356-1364): statements up to the first
    // that ends the insertion block.
    method VisitSequence(ss: seq<Stmt>)
      requires Open() && LowerableSeq(ss, loopTails != [])
      modifies this
      ensures Valid() && loopTails == old(loopTails)
      ensures Frame(old(blocks), old(insert), blocks) && (insert == old(insert) || |old(blocks)| <= insert)
      ensures ClosedExcept(blocks, old(insert), |old(blocks)|, {insert})
      ensures JumpsOut(ss) <==> blocks[insert].term.Some?
      ensures SeqAt(blocks, ss, old(Here()), Here(), Top(loopTails), old(insert))
      decreases ss, 2
    {
      if ss == [] {
        return;
      }
      ghost var p, i := Here(), insert;
      Visit(ss[0]);
      if blocks[insert].term.Some? {
        assert IsJump(ss[0]);
        return;
      }
      ghost var g, r := blocks, Here();
      VisitSequence(ss[1..]);
      assert JumpsOut(ss) <==> JumpsOut(ss[1..]) by {
        assert forall j :: 0 <= j < |ss[1..]| ==> ss[1..][j] == ss[j + 1];
        assert forall j :: 1 <= j < |ss| ==> ss[j] == ss[1..][j - 1];
      }
      FrameGrows(g, r.b, blocks, i);
      CodeKept(g, blocks, ss[0], p, r, Top(loopTails), i, i);
      SeqKept(blocks, blocks, ss[1..], r, Here(), Top(loopTails), r.b, i);
      FrameThen(old(blocks), i, g, r.b, blocks);
    }

    // A sequence visited with its own loop tail on the stack.
    method VisitLoopBody(ss: seq<Stmt>, tail: nat)
      requires Open() && LowerableSeq(ss, true)
      modifies this
      ensures Valid() && loopTails == old(loopTails)
      ensures Frame(old(blocks), old(insert), blocks) && (insert == old(insert) || |old(blocks)| <= insert)
      ensures ClosedExcept(blocks, old(insert), |old(blocks)|, {insert})
      ensures JumpsOut(ss) <==> blocks[insert].term.Some?
      ensures SeqAt(blocks, ss, old(Here()), Here(), Some(tail), old(insert))
      decreases ss, 3
    {
      loopTails := loopTails + [tail];
      VisitSequence(ss);
      loopTails := loopTails[..|loopTails| - 1];
    }

    // A statement sequence that goes on to block target; within it EXIT leads to exit,
    // if given.
    method VisitBody(ss: seq<Stmt>, target: nat, exit: Option<nat>)
      requires Open() && LowerableSeq(ss, exit.Some? || loopTails != [])
      modifies this
      ensures Valid() && loopTails == old(loopTails)
      ensures Frame(old(blocks), old(insert), blocks)
      ensures ClosedExcept(blocks, old(insert), |old(blocks)|, {})
      ensures BodyTo(blocks, ss, old(Here()), target, if exit.Some? then exit else Top(loopTails), old(insert))
      decreases ss, 4
    {
      ghost var p, x := Here(), if exit.Some? then exit else Top(loopTails);
      if exit.Some? {
        VisitLoopBody(ss, exit.value);
      } else {
        VisitSequence(ss);
      }
      ghost var g, q := blocks, Here();
      EnsureTerminator(target);
      assert Grows(g, blocks, p.b);
      SeqKept(g, blocks, ss, p, q, x, p.b, p.b);
    }

    // One test and its body. Control goes on to block last if the test fails, or to a
    // fresh block, which becomes the insertion block.
    method VisitArm(arm: Arm, join: nat, last: Option<nat>, exit: Option<nat>) returns (ghost yes: nat, ghost no: nat)
      requires Open() && LowerableSeq(arm.body, exit.Some? || loopTails != [])
      requires last.Some? ==> last.value < |blocks| && last.value != insert && blocks[last.value] == Block([], None)
      modifies this
      ensures Open() && loopTails == old(loopTails) && Here() == Start(no)
      ensures Frame(old(blocks), old(insert), blocks)
      ensures if last.Some? then no == last.value else |old(blocks)| <= no
      ensures ClosedExcept(blocks, old(insert), |old(blocks)|, {no})
      ensures blocks[old(insert)] == Block(old(blocks)[old(insert)].code, Some(CondBr(arm.cond, yes, no)))
      ensures |old(blocks)| <= yes && BodyTo(blocks, arm.body, Start(yes), join, if exit.Some? then exit else Top(loopTails), yes)
      decreases arm, 4
    {
      hide BodyTo;
      var yesBlock := CreateBlock();
      var noBlock;
      if last.Some? {
        noBlock := last.value;
      } else {
        noBlock := CreateBlock();
      }
      Terminate(CondBr(arm.cond, yesBlock, noBlock));
      insert := yesBlock;
      VisitBody(arm.body, join, exit);
      insert := noBlock;
      yes, no := yesBlock, noBlock;
    }

    // The tests and bodies of IF, WHILE and the type CASE. Bodies go on to block join; if
    // all tests fail, control reaches block last, or a fresh block. The body of the first
    // arm exits to first, if given.
    method VisitArms(arms: seq<Arm>, join: nat, last: Option<nat>, first: Option<nat>) returns (ghost fs: seq<nat>, ghost ts: seq<nat>)
      requires Open() && LowerableArms(arms, first.Some? || loopTails != [], loopTails != [])
      requires last.Some? ==> arms != [] && last.value < |blocks| && last.value != insert && blocks[last.value] == Block([], None)
      modifies this
      ensures Valid() && loopTails == old(loopTails)
      ensures Frame(old(blocks), old(insert), blocks)
      ensures |fs| == |arms| && insert == TestPoint(old(Here()), fs, |fs|).b
      ensures ClosedExcept(blocks, old(insert), |old(blocks)|, {insert})
      ensures Open() && Here() == TestPoint(old(Here()), fs, |fs|)
      ensures if last.Some? then insert == last.value else insert == old(insert) || |old(blocks)| <= insert
      ensures ArmsAt(blocks, arms, old(Here()), fs, ts, join, if first.Some? then first else Top(loopTails), Top(loopTails), old(insert))
      decreases arms, 4
    {
      hide BodyTo, SeqAt, ArmsAt;
      ghost var p, x := Here(), Top(loopTails);
      ghost var x0 := if first.Some? then first else x;
      fs, ts := [], [];
      NoArms(blocks, arms, p, join, x0, x, insert);
      for i := 0 to |arms|
        invariant Valid() && loopTails == old(loopTails) && Open()
        invariant Frame(old(blocks), old(insert), blocks)
        invariant |fs| == i && Here() == TestPoint(p, fs, i)
        invariant insert == old(insert) || |old(blocks)| <= insert || (last.Some? && i == |arms| && insert == last.value)
        invariant last.Some? && i == |arms| ==> insert == last.value
        invariant ClosedExcept(blocks, old(insert), |old(blocks)|, {insert})
        invariant ArmsAt(blocks, arms[..i], p, fs, ts, join, x0, x, old(insert))
      {
        ghost var g0, t := blocks, insert;
        ghost var yes, no;
        yes, no := VisitArm(arms[i], join, if last.Some? && i + 1 == |arms| then last else None, if i == 0 then first else None);
        ArmAdded(g0, blocks, arms, i, p, fs, ts, yes, no, join, x0, x, old(insert));
        fs, ts := fs + [no], ts + [yes];
      }
      assert arms[..|arms|] == arms;
    }

    // The visitor of a single statement.
    method Visit(st: Stmt)
      requires Open() && Lowerable(st, loopTails != [])
      modifies this
      ensures Valid() && loopTails == old(loopTails)
      ensures Frame(old(blocks), old(insert), blocks) && (insert == old(insert) || |old(blocks)| <= insert)
      ensures ClosedExcept(blocks, old(insert), |old(blocks)|, {insert})
      ensures IsJump(st) <==> blocks[insert].term.Some?
      ensures CodeAt(blocks, st, old(Here()), Here(), Top(loopTails), old(insert))
      decreases st, 1
    {
      match st {
        case Assign(f) => Emit(f);
        case If(_, _) => VisitIf(st);
        case Loop(_) => VisitLoop(st);
        case While(_) => VisitWhile(st);
        case Repeat(_, _) => VisitRepeat(st);
        case For(_, _, _, _, _, _) => VisitFor(st);
        case Case(_, _, _) => VisitCase(st);
        case TypeCase(_, _) => VisitTypeCase(st);
        case Exit => Terminate(Br(loopTails[|loopTails| - 1]));
        case Return => Terminate(Ret);
      }
    }

    // IfThenElseNode (LLVMIRBuilder.cpp:1465-1501)
    method VisitIf(st: Stmt)
      requires st.If? && Open() && Lowerable(st, loopTails != [])
      modifies this
      ensures Valid() && loopTails == old(loopTails)
      ensures Frame(old(blocks), old(insert), blocks) && |old(blocks)| <= insert && Open()
      ensures ClosedExcept(blocks, old(insert), |old(blocks)|, {insert})
      ensures CodeAt(blocks, st, old(Here()), Here(), Top(loopTails), old(insert))
      decreases st, 0
    {
      hide ArmsAt, BodyTo, SeqAt, LowerableSeq, LowerableArms;
      ghost var p, x, i := Here(), Top(loopTails), insert;
      var tail := CreateBlock();
      ghost var fs, ts := VisitArms(st.arms, tail, if st.els == [] then Some(tail) else None, None);
      ghost var g, e := blocks, Here();
      if st.els != [] {
        VisitBody(st.els, tail, None);
        FrameGrows(g, e.b, blocks, i);
        ArmsKept(g, blocks, st.arms, p, fs, ts, tail, x, x, i, i);
        BodyKept(blocks, blocks, st.els, e, tail, x, e.b, i);
      }
      insert := tail;
      assert ElseAt(blocks, st.els, TestPoint(p, fs, |fs|), tail, x, i);
    }

    // LoopNode (LLVMIRBuilder.cpp:1505-1517)
    method VisitLoop(st: Stmt)
      requires st.Loop? && Open() && Lowerable(st, loopTails != [])
      modifies this
      ensures Valid() && loopTails == old(loopTails)
      ensures Frame(old(blocks), old(insert), blocks) && |old(blocks)| <= insert && Open()
      ensures ClosedExcept(blocks, old(insert), |old(blocks)|, {insert})
      ensures CodeAt(blocks, st, old(Here()), Here(), Top(loopTails), old(insert))
      decreases st, 0
    {
      ghost var p, i := Here(), insert;
      var body := CreateBlock();
      var tail := CreateBlock();
      Terminate(Br(body));
      insert := body;
      VisitBody(st.body, body, Some(tail));
      BodyKept(blocks, blocks, st.body, Start(body), body, Some(tail), body, i);
      insert := tail;
      assert TermIs(blocks, p, Br(body), i);
    }

    // WhileLoopNode (LLVMIRBuilder.cpp:1519-1559)
    method VisitWhile(st: Stmt)
      requires st.While? && Open() && Lowerable(st, loopTails != [])
      modifies this
      ensures Valid() && loopTails == old(loopTails)
      ensures Frame(old(blocks), old(insert), blocks) && |old(blocks)| <= insert && Open()
      ensures ClosedExcept(blocks, old(insert), |old(blocks)|, {insert})
      ensures CodeAt(blocks, st, old(Here()), Here(), Top(loopTails), old(insert))
      decreases st, 0
    {
      ghost var p, x, i := Here(), Top(loopTails), insert;
      var tail := CreateBlock();
      var body := CreateBlock();
      Terminate(Br(body));
      insert := body;
      ghost var fs, ts := VisitArms(st.arms, body, Some(tail), Some(tail));
      ArmsKept(blocks, blocks, st.arms, Start(body), fs, ts, body, Some(tail), x, body, i);
      assert TermIs(blocks, p, Br(body), i);
    }

    // RepeatLoopNode (LLVMIRBuilder.cpp:1561-1578)
    method VisitRepeat(st: Stmt)
      requires st.Repeat? && Open() && Lowerable(st, loopTails != [])
      modifies this
      ensures Valid() && loopTails == old(loopTails)
      ensures Frame(old(blocks), old(insert), blocks) && |old(blocks)| <= insert && Open()
      ensures ClosedExcept(blocks, old(insert), |old(blocks)|, {insert})
      ensures CodeAt(blocks, st, old(Here()), Here(), Top(loopTails), old(insert))
      decreases st, 0
    {
      hide SeqAt, CodeAt, LowerableSeq, JumpsOut;
      ghost var p, i := Here(), insert;
      var body := CreateBlock();
      var tail := CreateBlock();
      Terminate(Br(body));
      insert := body;
      ghost var g1 := blocks;
      VisitLoopBody(st.body, tail);
      ghost var g2, r := blocks, Here();
      if blocks[insert].term.None? {
        Terminate(CondBr(st.until, tail, body));
      }
      RepeatEmitted(g1, g2, blocks, st, p, tail, body, r, Top(loopTails));
      insert := tail;
    }

    // ForLoopNode (LLVMIRBuilder.cpp:1580-1629)
    method VisitFor(st: Stmt)
      requires st.For? && Open() && Lowerable(st, loopTails != [])
      modifies this
      ensures Valid() && loopTails == old(loopTails)
      ensures Frame(old(blocks), old(insert), blocks) && |old(blocks)| <= insert && Open()
      ensures ClosedExcept(blocks, old(insert), |old(blocks)|, {insert})
      ensures CodeAt(blocks, st, old(Here()), Here(), Top(loopTails), old(insert))
      decreases st, 0
    {
      hide SeqAt, LowerableSeq, JumpsOut, ForAt, StartCounter, PastRange;
      ghost var p, i := Here(), insert;
      Emit(StartCounter(st));
      var body := CreateBlock();
      var tail := CreateBlock();
      Terminate(CondBr(InRange(st), body, tail));
      insert := body;
      ghost var g1 := blocks;
      VisitLoopBody(st.body, tail);
      ghost var g2, r := blocks, Here();
      FinishFor(st, tail, body);
      ForEmitted(g1, g2, blocks, st, p, tail, body, r);
      insert := tail;
    }

    // The counter advances and the bound is tested (LLVMIRBuilder.cpp:1606-1627).
    method FinishFor(st: Stmt, tail: nat, body: nat)
      requires st.For? && Valid()
      modifies this`blocks
      ensures |blocks| == |old(blocks)| && blocks[insert].term.Some?
      ensures forall b :: 0 <= b < |blocks| && b != insert ==> blocks[b] == old(blocks)[b]
      ensures if old(blocks)[insert].term.Some? then blocks == old(blocks)
              else blocks[insert] == Block(old(blocks)[insert].code + [AdvanceCounter(st)], Some(CondBr(PastRange(st), tail, body)))
    {
      if blocks[insert].term.None? {
        Emit(AdvanceCounter(st));
        Terminate(CondBr(PastRange(st), tail, body));
      }
    }

    // The ELSE part of a CASE statement, if there is one (LLVMIRBuilder.cpp:1453-1457).
    method VisitElse(els: seq<Stmt>, dflt: nat, tail: nat)
      requires dflt < |blocks| && tail < |blocks| && blocks[dflt] == blocks[tail] == Block([], None)
      requires (els == [] <==> dflt == tail) && LowerableSeq(els, loopTails != [])
      modifies this
      ensures Open() && insert == tail && Here() == Start(tail) && loopTails == old(loopTails)
      ensures Frame(old(blocks), dflt, blocks)
      ensures ClosedExcept(blocks, dflt, |old(blocks)|, {tail})
      ensures ElseAt(blocks, els, Start(dflt), tail, Top(loopTails), dflt)
      decreases els, 5
    {
      if els != [] {
        insert := dflt;
        VisitBody(els, tail, None);
      }
      insert := tail;
    }

    // One case: its body in a new block, and its labels in the switch of block home
    // (LLVMIRBuilder.cpp:824-835).
    method VisitCaseArm(c: CaseArm, home: nat, tail: nat) returns (block: nat)
      requires home < |blocks| && LowerableSeq(c.body, loopTails != [])
      requires blocks[home].term.Some? && blocks[home].term.value.Switch?
      modifies this
      ensures Valid() && loopTails == old(loopTails)
      ensures block == |old(blocks)| < |blocks|
      ensures forall b :: 0 <= b < |old(blocks)| && b != home ==> blocks[b] == old(blocks)[b]
      ensures var t := old(blocks)[home].term.value;
        blocks[home] == Block(old(blocks)[home].code, Some(Switch(t.selector, t.default, t.table + Entries(c.labels, block))))
      ensures forall b :: |old(blocks)| <= b < |blocks| ==> blocks[b].term.Some?
      ensures BodyTo(blocks, c.body, Start(block), tail, Top(loopTails), block)
      decreases c, 5
    {
      hide BodyTo, Entries;
      block := CreateBlock();
      insert := block;
      VisitBody(c.body, tail, None);
      ghost var g := blocks;
      AddCases(home, c.labels, block);
      BodyKept(g, blocks, c.body, Start(block), tail, Top(loopTails), block, block);
    }

    // CaseOfNode with createNumericTestCase (LLVMIRBuilder.cpp:1437-1459, 821-836)
    method VisitCase(st: Stmt)
      requires st.Case? && Open() && Lowerable(st, loopTails != [])
      modifies this
      ensures Valid() && loopTails == old(loopTails)
      ensures Frame(old(blocks), old(insert), blocks) && |old(blocks)| <= insert && Open()
      ensures ClosedExcept(blocks, old(insert), |old(blocks)|, {insert})
      ensures CodeAt(blocks, st, old(Here()), Here(), Top(loopTails), old(insert))
      decreases st, 0
    {
      hide CasesAt, ElseAt, BodyTo, SeqAt, Table, Entries;
      ghost var p, x, b := Here(), Top(loopTails), insert;
      var tail := CreateBlock();
      var dflt := tail;
      if st.els != [] {
        dflt := CreateBlock();
      }
      var home := insert;
      Terminate(Switch(st.selector, dflt, []));
      ghost var base, ns, code := |blocks|, [], blocks[home].code;
      NoCases(blocks, st.cases, tail, x, base);
      for i := 0 to |st.cases|
        invariant Valid() && loopTails == old(loopTails) && |ns| == i && base <= |blocks|
        invariant Frame(old(blocks), b, blocks) && home == b < |blocks|
        invariant blocks[home] == Block(code, Some(Switch(st.selector, dflt, Table(st.cases[..i], ns))))
        invariant blocks[tail] == Block([], None) && blocks[dflt] == Block([], None)
        invariant ClosedExcept(blocks, b, |old(blocks)|, {tail, dflt})
        invariant CasesAt(blocks, st.cases[..i], ns, tail, x, base)
      {
        ghost var g := blocks;
        var block := VisitCaseArm(st.cases[i], home, tail);
        CaseAdded(g, blocks, st.cases, i, ns, block, tail, x, base);
        TableAppend(st.cases, i, ns, block);
        ns := ns + [block];
      }
      assert st.cases[..|st.cases|] == st.cases;
      ghost var g := blocks;
      VisitElse(st.els, dflt, tail);
      FrameGrows(g, dflt, blocks, base);
      CasesKept(g, blocks, st.cases, ns, tail, x, base, b);
      ElseKept(blocks, blocks, st.els, Start(dflt), tail, x, dflt, b);
      assert TermIs(blocks, p, Switch(st.selector, dflt, Table(st.cases, ns)), b);
    }

    // CaseOfNode with createTypeTestCase (LLVMIRBuilder.cpp:1437-1459, 838-860)
    method VisitTypeCase(st: Stmt)
      requires st.TypeCase? && Open() && Lowerable(st, loopTails != [])
      modifies this
      ensures Valid() && loopTails == old(loopTails)
      ensures Frame(old(blocks), old(insert), blocks) && |old(blocks)| <= insert && Open()
      ensures ClosedExcept(blocks, old(insert), |old(blocks)|, {insert})
      ensures CodeAt(blocks, st, old(Here()), Here(), Top(loopTails), old(insert))
      decreases st, 0
    {
      hide ArmsAt, BodyTo, SeqAt, LowerableSeq, LowerableArms, JumpsOut, CodeAt, ElseAt;
      ghost var p, x, i := Here(), Top(loopTails), insert;
      var tail := CreateBlock();
      var dflt := tail;
      if st.els != [] {
        dflt := CreateBlock();
      }
      ghost var fs, ts := VisitArms(st.arms, tail, None, None);
      ghost var g, e := blocks, Here();
      Terminate(Br(dflt));
      ghost var h := blocks;
      VisitElse(st.els, dflt, tail);
      FrameGrows(g, e.b, h, i);
      FrameGrows(h, dflt, blocks, i);
      TypeCaseEmitted(g, h, blocks, st, p, fs, ts, tail, dflt, x, i);
    }
  }

  // The body of a module or procedure (LLVMIRBuilder.cpp:100-107).
  method Lower(body: seq<Stmt>) returns (g: Graph)
    requires LowerableSeq(body, false)
    ensures forall b :: 0 <= b < |g| ==> g[b].term.Some?
    ensures forall s, t :: MachineEnds(g, s, t) <==> ProgramEnds(true, body, s, t)
  {
    var builder := new Builder();
    builder.VisitSequence(body);
    ghost var h, q := builder.blocks, builder.Here();
    builder.EnsureReturn();
    g := builder.blocks;
    SeqKept(h, g, body, Start(0), q, None, 0, 0);
    forall s, t ensures MachineEnds(g, s, t) <==> ProgramEnds(true, body, s, t) {
      LoweredAgrees(g, body, q, s, t);
    }
  }

  // The machine, started at the entry block, returns in state t.
  ghost predicate MachineEnds(g: Graph, s: State, t: State) {
    exists m: nat :: Steps(g, At(0, 0, s), m) == Done(t)
  }

  // The statements, run from s, come to an end in state t.
  ghost predicate ProgramEnds(leak: bool, body: seq<Stmt>, s: State, t: State) {
    exists n: nat :: ExecSeq(leak, body, s, n).Some? && ExecSeq(leak, body, s, n).value.s == t
  }

  lemma {:induction false} LoweredAgrees(g: Graph, body: seq<Stmt>, q: Point, s: State, t: State)
    requires SeqAt(g, body, Start(0), q, None, 0) && (JumpsOut(body) || TermIs(g, q, Ret, 0))
    ensures MachineEnds(g, s, t) <==> ProgramEnds(true, body, s, t)
  {
    if MachineEnds(g, s, t) {
      var m: nat :| Steps(g, At(0, 0, s), m) == Done(t);
      var n := EndsSeq(g, body, Start(0), q, None, 0, s, m);
      var k := RunsToEnd(g, body, q, s, n);
      EndIsUnique(g, At(0, 0, s), m, k);
    }
    if ProgramEnds(true, body, s, t) {
      var n: nat :| ExecSeq(true, body, s, n).Some? && ExecSeq(true, body, s, n).value.s == t;
      var k := RunsToEnd(g, body, q, s, n);
    }
  }

  lemma {:induction false} RunsToEnd(g: Graph, body: seq<Stmt>, q: Point, s: State, n: nat) returns (k: nat)
    requires SeqAt(g, body, Start(0), q, None, 0) && (JumpsOut(body) || TermIs(g, q, Ret, 0))
    requires ExecSeq(true, body, s, n).Some?
    ensures Steps(g, At(0, 0, s), k) == Done(ExecSeq(true, body, s, n).value.s)
  {
    k := ForwardSeq(g, body, Start(0), q, None, 0, s, n);
    var out := ExecSeq(true, body, s, n).value;
    if out.Normal? {
      if JumpsOut(body) { JumpingNeverFallsThrough(body, s, n); }
      OneStep(g, AtPoint(q, out.s));
      Then(g, At(0, 0, s), k, AtPoint(q, out.s), 1, Done(out.s));
      k := k + 1;
    }
  }

  lemma {:induction false} TableAppend(cases: seq<CaseArm>, i: nat, ns: seq<nat>, n: nat)
    requires i < |cases| && |ns| == i
    ensures Table(cases[..i + 1], ns + [n]) == Table(cases[..i], ns) + Entries(cases[i].labels, n)
    decreases i
  {
    var more := cases[..i + 1];
    if i == 0 {
      assert Table(more[1..], (ns + [n])[1..]) == [];
    } else {
      assert more[1..] == cases[1..][..i] && cases[..i][1..] == cases[1..][..i - 1];
      assert (ns + [n])[1..] == ns[1..] + [n];
      TableAppend(cases[1..], i - 1, ns[1..], n);
    }
  }

  // One case more, with its body in block n; only the switch, below lo, has changed.
  lemma {:induction false} CaseAdded(g: Graph, h: Graph, cases: seq<CaseArm>, i: nat, ns: seq<nat>, n: nat, join: nat, x: Option<nat>, lo: nat)
    requires i < |cases| && CasesAt(g, cases[..i], ns, join, x, lo)
    requires lo <= n && BodyTo(h, cases[i].body, Start(n), join, x, n)
    requires |g| <= |h| && forall b :: lo <= b < |g| ==> h[b] == g[b]
    ensures CasesAt(h, cases[..i + 1], ns + [n], join, x, lo)
  {
    hide BodyTo;
    CasesKept(g, h, cases[..i], ns, join, x, lo, lo);
    BodyKept(h, h, cases[i].body, Start(n), join, x, n, lo);
    var now := cases[..i + 1];
    forall j | 0 <= j <= i ensures BodyTo(h, now[j].body, Start((ns + [n])[j]), join, x, lo) {
      if j < i {
        assert now[j] == cases[..i][j];
      }
    }
  }

  // The head of a FOR loop was emitted into g1, its body into g2, and its end into g3.
  lemma {:induction false} ForEmitted(g1: Graph, g2: Graph, g3: Graph, st: Stmt, p: Point, tail: nat, body: nat, r: Point)
    requires st.For? && p.b < body < |g1| && g1[body].term.None? && r.b < |g2| && r.b != p.b
    requires g1[p.b].term == Some(CondBr(InRange(st), body, tail))
    requires |g1[p.b].code| == p.k + 1 && g1[p.b].code[p.k] == StartCounter(st)
    requires Frame(g1, body, g2) && SeqAt(g2, st.body, Start(body), r, Some(tail), body) && p.b <= r.b && r.k == |g2[r.b].code|
    requires |g3| == |g2| && forall b :: 0 <= b < |g2| && b != r.b ==> g3[b] == g2[b]
    requires JumpsOut(st.body) <==> g2[r.b].term.Some?
    requires if g2[r.b].term.Some? then g3 == g2
             else g3[r.b] == Block(g2[r.b].code + [AdvanceCounter(st)], Some(CondBr(PastRange(st), tail, body)))
    ensures ForAt(g3, st, p, Start(tail), body, r, p.b)
  {
    hide SeqAt, JumpsOut;
    SeqKept(g2, g3, st.body, Start(body), r, Some(tail), body, p.b);
  }

  lemma {:induction false} TypeCaseEmitted(
    g1: Graph, g2: Graph, g3: Graph, st: Stmt, p: Point, fs: seq<nat>, ts: seq<nat>, tail: nat, dflt: nat, x: Option<nat>, i: nat)
    requires st.TypeCase? && |fs| == |st.arms| && ArmsAt(g1, st.arms, p, fs, ts, tail, x, x, i)
    requires Grows(g1, g2, i) && Grows(g2, g3, i) && i <= dflt
    requires TermIs(g2, TestPoint(p, fs, |fs|), Br(dflt), i) && ElseAt(g3, st.els, Start(dflt), tail, x, dflt)
    ensures CodeAt(g3, st, p, Start(tail), x, i)
  {
    hide ArmsAt, BodyTo, SeqAt, ElseAt;
    ArmsKept(g1, g2, st.arms, p, fs, ts, tail, x, x, i, i);
    ArmsKept(g2, g3, st.arms, p, fs, ts, tail, x, x, i, i);
    ElseKept(g3, g3, st.els, Start(dflt), tail, x, dflt, i);
    assert TermIs(g3, TestPoint(p, fs, |fs|), Br(dflt), i);
  }

  lemma {:induction false} RepeatEmitted(g1: Graph, g2: Graph, g3: Graph, st: Stmt, p: Point, tail: nat, body: nat, r: Point, x: Option<nat>)
    requires st.Repeat? && p.b < body < |g1| && g1[body].term.None? && r.b < |g2| && r.b != p.b
    requires TermIs(g1, p, Br(body), p.b)
    requires Frame(g1, body, g2) && SeqAt(g2, st.body, Start(body), r, Some(tail), body) && p.b <= r.b && r.k == |g2[r.b].code|
    requires JumpsOut(st.body) <==> g2[r.b].term.Some?
    requires if g2[r.b].term.Some? then g3 == g2
             else g3 == g2[r.b := Block(g2[r.b].code, Some(CondBr(st.until, tail, body)))]
    ensures CodeAt(g3, st, p, Start(tail), x, p.b)
  {
    hide SeqAt, JumpsOut;
    SeqKept(g2, g3, st.body, Start(body), r, Some(tail), body, p.b);
    assert TermIs(g3, p, Br(body), p.b);
  }

  lemma {:induction false} NoArms(g: Graph, arms: seq<Arm>, p: Point, join: nat, x0: Option<nat>, x: Option<nat>, lo: nat)
    ensures ArmsAt(g, arms[..0], p, [], [], join, x0, x, lo)
  {
  }

  lemma {:induction false} NoCases(g: Graph, cases: seq<CaseArm>, join: nat, x: Option<nat>, lo: nat)
    ensures CasesAt(g, cases[..0], [], join, x, lo) && Table(cases[..0], []) == []
  {
  }

  // One arm more: its test ends a block of g, and its body was emitted into yes.
  lemma {:induction false} ArmAdded(g: Graph, h: Graph, arms: seq<Arm>, i: nat, p: Point, fs: seq<nat>, ts: seq<nat>, yes: nat, no: nat, join: nat, x0: Option<nat>, x: Option<nat>, lo: nat)
    requires i < |arms| && |fs| == i && ArmsAt(g, arms[..i], p, fs, ts, join, x0, x, lo)
    requires lo <= TestPoint(p, fs, i).b < |g| && Frame(g, TestPoint(p, fs, i).b, h)
    requires g[TestPoint(p, fs, i).b].term.None? && |g[TestPoint(p, fs, i).b].code| == TestPoint(p, fs, i).k
    requires h[TestPoint(p, fs, i).b] == Block(g[TestPoint(p, fs, i).b].code, Some(CondBr(arms[i].cond, yes, no)))
    requires lo <= yes && BodyTo(h, arms[i].body, Start(yes), join, if i == 0 then x0 else x, yes)
    ensures ArmsAt(h, arms[..i + 1], p, fs + [no], ts + [yes], join, x0, x, lo)
  {
    hide BodyTo, SeqAt, ArmsAt;
    FrameGrows(g, TestPoint(p, fs, i).b, h, lo);
    ArmsKept(g, h, arms[..i], p, fs, ts, join, x0, x, lo, lo);
    BodyKept(h, h, arms[i].body, Start(yes), join, if i == 0 then x0 else x, yes, lo);
    ArmAppended(h, arms, i, p, fs, ts, yes, no, join, x0, x, lo);
  }

  lemma {:induction false} ArmAppended(g: Graph, arms: seq<Arm>, i: nat, p: Point, fs: seq<nat>, ts: seq<nat>, yes: nat, no: nat, join: nat, x0: Option<nat>, x: Option<nat>, lo: nat)
    requires i < |arms| && |fs| == i && ArmsAt(g, arms[..i], p, fs, ts, join, x0, x, lo)
    requires TermIs(g, TestPoint(p, fs, i), CondBr(arms[i].cond, yes, no), lo)
    requires BodyTo(g, arms[i].body, Start(yes), join, if i == 0 then x0 else x, lo)
    ensures ArmsAt(g, arms[..i + 1], p, fs + [no], ts + [yes], join, x0, x, lo)
  {
    hide BodyTo, TermIs;
    var now, fs', ts' := arms[..i + 1], fs + [no], ts + [yes];
    forall j | 0 <= j <= i
      ensures TermIs(g, TestPoint(p, fs', j), CondBr(now[j].cond, ts'[j], fs'[j]), lo)
      ensures BodyTo(g, now[j].body, Start(ts'[j]), join, if j == 0 then x0 else x, lo)
    {
      assert TestPoint(p, fs', j) == TestPoint(p, fs, j);
      if j < i {
        assert now[j] == arms[..i][j];
      }
    }
  }
}
