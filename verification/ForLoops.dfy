// How often a FOR loop runs (lib/codegen/llvm/LLVMIRBuilder.cpp:1580-1629).
module ForLoops {
  import opened Wrappers
  import opened Structured
  import opened Numbers
  import opened Words

  // The number of values low, low + step, ... that do not pass high.
  function Rounds(low: int, high: int, step: int): nat
    requires step != 0
  {
    if step > 0 then (if high < low then 0 else (high - low) / step + 1)
    else (if low < high then 0 else (low - high) / (-step) + 1)
  }

  function Iterate(f: Update, k: nat, s: State): State {
    if k == 0 then s else Iterate(f, k - 1, f(s))
  }

  // The body always ends normally, has the effect f, and leaves the counter alone; the
  // bound is constant and the step fits the counter.
  ghost predicate Tame(leak: bool, st: Stmt, f: Update, high: int) {
    && st.For? && st.bits > 0 && st.step != 0 && InWidth(st.step, st.bits)
    && forall s :: BodyDoes(leak, st, s, f(s)) && Get(f(s), st.counter) == Get(s, st.counter) && st.high(s) == high
  }

  ghost predicate BodyDoes(leak: bool, st: Stmt, s: State, t: State)
    requires st.For?
  {
    exists b: nat :: ExecSeq(leak, st.body, s, b) == Some(Normal(t))
  }

  // From the test of the counter on, the loop ends in t.
  ghost predicate Gives(leak: bool, st: Stmt, s: State, t: State)
    requires st.For?
  {
    exists n: nat :: ExecFor(leak, st, s, n) == Some(Normal(t))
  }

  ghost predicate Ends(leak: bool, st: Stmt, s: State, o: Outcome) {
    exists n: nat :: Exec(leak, st, s, n) == Some(o)
  }

  // One round: the body, then the counter.
  function Round(st: Stmt, f: Update): Update
    requires st.For?
  {
    (s: State) => AdvanceCounter(st)(f(s))
  }

  lemma {:induction false} RoundsStep(low: int, high: int, step: int)
    requires step != 0 && if step > 0 then low <= high else low >= high
    ensures Rounds(low, high, step) == Rounds(low + step, high, step) + 1
  {
    if step > 0 {
      if low + step <= high {
        DivStep(high - low, step);
      } else {
        QuotientIs(high - low, step, 0, high - low);
      }
    } else {
      if low + step >= high {
        DivStep(low - high, -step);
      } else {
        QuotientIs(low - high, -step, 0, low - high);
      }
    }
  }

  lemma {:induction false} DivStep(a: int, d: int)
    requires d > 0 && a >= d
    ensures a / d == (a - d) / d + 1
  {
    var q, r := (a - d) / d, (a - d) % d;
    MulDistributes(q, 1, d);
    QuotientIs(a, d, q + 1, r);
  }

  // What it is to be tame, at one state.
  lemma {:induction false} OneRound(leak: bool, st: Stmt, f: Update, high: int, s: State) returns (b: nat)
    requires Tame(leak, st, f, high)
    ensures st.For? && st.bits > 0 && st.step != 0 && InWidth(st.step, st.bits)
    ensures ExecSeq(leak, st.body, s, b) == Some(Normal(f(s)))
    ensures InRange(st)(s) <==> if st.step > 0 then Get(s, st.counter) <= high else Get(s, st.counter) >= high
    ensures Get(Round(st, f)(s), st.counter) == Wrap(Get(s, st.counter) + st.step, st.bits)
  {
    assert BodyDoes(leak, st, s, f(s)) && Get(f(s), st.counter) == Get(s, st.counter) && st.high(s) == high;
    hide Tame, ExecSeq, InWidth, Get;
    b :| ExecSeq(leak, st.body, s, b) == Some(Normal(f(s)));
    CounterAdvanced(st, f(s));
    hide Wrap, BodyDoes;
  }

  lemma {:induction false} CounterAdvanced(st: Stmt, s: State)
    requires st.For?
    ensures Get(AdvanceCounter(st)(s), st.counter) == Wrap(Get(s, st.counter) + st.step, st.bits)
  {
    hide Wrap;
  }

  lemma {:induction false} ForAfter(leak: bool, st: Stmt, f: Update, high: int, s: State, n: nat)
    requires Tame(leak, st, f, high) && InRange(st)(s) && n > 0 && ExecFor(leak, st, s, n).Some?
    ensures ExecFor(leak, st, s, n) == ExecFor(leak, st, Round(st, f)(s), n - 1)
  {
    var b := OneRound(leak, st, f, high, s);
    hide Tame, InRange;
    if n <= b { ExecSeqMore(leak, st.body, s, n, b); } else { ExecSeqMore(leak, st.body, s, b, n); }
  }

  lemma {:induction false} RoundGives(leak: bool, st: Stmt, f: Update, high: int, s: State, t: State)
    requires Tame(leak, st, f, high) && InRange(st)(s) && Gives(leak, st, Round(st, f)(s), t)
    ensures Gives(leak, st, s, t)
  {
    var n: nat :| ExecFor(leak, st, Round(st, f)(s), n) == Some(Normal(t));
    var b := OneRound(leak, st, f, high, s);
    hide Tame, InRange;
    var m := if b > n then b else n;
    ExecSeqMore(leak, st.body, s, b, m + 1);
    ExecForMore(leak, st, Round(st, f)(s), n, m);
    assert ExecFor(leak, st, s, m + 1) == Some(Normal(t));
  }

  // Whatever the loop ends in has a counter past the bound.
  lemma {:induction false} EndsPast(leak: bool, st: Stmt, f: Update, high: int, s: State, n: nat)
    requires Tame(leak, st, f, high) && InWidth(Get(s, st.counter), st.bits) && ExecFor(leak, st, s, n).Some?
    ensures ExecFor(leak, st, s, n).value.Normal?
    ensures var t := ExecFor(leak, st, s, n).value.s; !InRange(st)(t) && InWidth(Get(t, st.counter), st.bits)
    decreases n
  {
    var b := OneRound(leak, st, f, high, s);
    hide Wrap, InWidth, ExecSeq, Tame, Round, InRange;
    if InRange(st)(s) {
      ForAfter(leak, st, f, high, s, n);
      WrapFits(Get(s, st.counter) + st.step, st.bits);
      hide ExecFor;
      EndsPast(leak, st, f, high, Round(st, f)(s), n - 1);
    }
  }

  lemma {:induction false} CounterAfter(leak: bool, st: Stmt, f: Update, high: int, s: State, k: nat)
    requires Tame(leak, st, f, high) && InWidth(Get(s, st.counter), st.bits)
    ensures Get(Iterate(Round(st, f), k, s), st.counter) == Wrap(Get(s, st.counter) + k * st.step, st.bits)
    decreases k
  {
    hide Wrap, InWidth, ExecSeq, Tame, Round, InRange, Get;
    var b := OneRound(leak, st, f, high, s);
    var v, step, w := Get(s, st.counter), st.step, st.bits;
    WrapFits(v, w);
    if k > 0 {
      WrapFits(v + step, w);
      CounterAfter(leak, st, f, high, Round(st, f)(s), k - 1);
      OneStepFirst(v, k, step, w);
    } else {
      assert v + k * step == v;
    }
  }

  lemma {:induction false} OneStepFirst(v: int, k: nat, step: int, w: nat)
    requires k > 0
    ensures Wrap(Wrap(v + step, w) + (k - 1) * step, w) == Wrap(v + k * step, w)
  {
    hide Wrap;
    WrapAdd(v + step, (k - 1) * step, w);
    MulDistributes(k - 1, 1, step);
  }

  // The last value is past the bound by less than a step; if it does not fit, then cut to
  // the width it is back in the range.
  lemma {:induction false} LastValue(v: int, high: int, step: int)
    requires step != 0
    ensures var x := v + Rounds(v, high, step) * step;
      if step > 0 then high < x <= MaxOf(v, high + step) else high > x >= MinOf(v, high + step)
    ensures Rounds(v, high, step) > 0 <==> if step > 0 then v <= high else v >= high
    decreases Rounds(v, high, step)
  {
    if if step > 0 then v <= high else v >= high {
      RoundsStep(v, high, step);
      LastValue(v + step, high, step);
      MulDistributes(Rounds(v + step, high, step), 1, step);
    }
  }

  function MaxOf(a: int, b: int): int {
    if a > b then a else b
  }

  function MinOf(a: int, b: int): int {
    if a < b then a else b
  }

  lemma {:induction false} AnyRounds(v: int, high: int, step: int)
    requires step != 0
    ensures Rounds(v, high, step) > 0 <==> if step > 0 then v <= high else v >= high
  {
    LastValue(v, high, step);
  }

  lemma {:induction false} LastWrapsBack(v: int, high: int, step: int, w: nat)
    requires w > 0 && step != 0 && InWidth(step, w) && InWidth(v, w) && !InWidth(v + Rounds(v, high, step) * step, w)
    ensures var x := Wrap(v + Rounds(v, high, step) * step, w); if step > 0 then x <= high else x >= high
  {
    hide Rounds;
    LastValue(v, high, step);
    var x := v + Rounds(v, high, step) * step;
    var k := WrapDiffers(x, w);
    WrapFits(x, w);
    HalfIs(w);
    hide Wrap, Half;
    if step > 0 { MulMonotone(1, k, Pow2(w)); } else { MulMonotone(k, -1, Pow2(w)); }
  }

  lemma {:induction false} Between(v: int, k: nat, step: int, w: nat)
    requires k > 0 && InWidth(v, w) && InWidth(v + k * step, w)
    ensures InWidth(v + step, w) && v + step + (k - 1) * step == v + k * step
  {
    hide Half;
    MulDistributes(k - 1, 1, step);
    if step > 0 { MulMonotone(0, k - 1, step); } else { MulMonotone(0, k - 1, -step); }
  }

  lemma {:induction false} RunsWhileItFits(leak: bool, st: Stmt, f: Update, high: int, s: State)
    requires Tame(leak, st, f, high) && InWidth(Get(s, st.counter), st.bits)
    ensures st.step != 0
    ensures var k := Rounds(Get(s, st.counter), high, st.step);
      InWidth(Get(s, st.counter) + k * st.step, st.bits) ==> Gives(leak, st, s, Iterate(Round(st, f), k, s))
    decreases if st.step != 0 then Rounds(Get(s, st.counter), high, st.step) else 0
  {
    hide Wrap, InWidth, ExecSeq, Tame, Round, InRange, Get, ExecFor, Rounds, Gives;
    var b := OneRound(leak, st, f, high, s);
    var v := Get(s, st.counter);
    var k := Rounds(v, high, st.step);
    AnyRounds(v, high, st.step);
    if k == 0 {
      EndsAtOnce(leak, st, s);
    } else if InWidth(v + k * st.step, st.bits) {
      RoundsStep(v, high, st.step);
      Between(v, k, st.step, st.bits);
      WrapFits(v + st.step, st.bits);
      RunsWhileItFits(leak, st, f, high, Round(st, f)(s));
      RoundGives(leak, st, f, high, s, Iterate(Round(st, f), k, s));
    }
  }

  lemma {:induction false} EndsAtOnce(leak: bool, st: Stmt, s: State)
    requires st.For? && !InRange(st)(s)
    ensures Gives(leak, st, s, s)
  {
    hide InRange;
    assert ExecFor(leak, st, s, 1) == Some(Normal(s));
  }

  lemma {:induction false} RunsIffItFits(leak: bool, st: Stmt, f: Update, high: int, s: State)
    requires Tame(leak, st, f, high) && InWidth(Get(s, st.counter), st.bits)
    ensures st.step != 0
    ensures var k := Rounds(Get(s, st.counter), high, st.step);
      Gives(leak, st, s, Iterate(Round(st, f), k, s)) <==> InWidth(Get(s, st.counter) + k * st.step, st.bits)
  {
    hide Wrap, ExecSeq, Tame, Round, InRange, Get, ExecFor, Iterate, Rounds, InWidth;
    var b := OneRound(leak, st, f, high, s);
    var v := Get(s, st.counter);
    var k := Rounds(v, high, st.step);
    var t, x := Iterate(Round(st, f), k, s), v + k * st.step;
    RunsWhileItFits(leak, st, f, high, s);
    if !InWidth(x, st.bits) && Gives(leak, st, s, t) {
      var n: nat :| ExecFor(leak, st, s, n) == Some(Normal(t));
      EndsPast(leak, st, f, high, s, n);
      CounterAfter(leak, st, f, high, s, k);
      hide Gives;
      LastWrapsBack(v, high, st.step, st.bits);
      var c := OneRound(leak, st, f, high, t);
      assert false;
    }
  }

  // FOR v := low TO high BY step ends after max(0, floor((high - low) / step) + 1) rounds
  // if and only if the value that the counter has then fits its type.
  lemma {:induction false} ForRunsItsRounds(leak: bool, st: Stmt, f: Update, high: int, s: State)
    requires Tame(leak, st, f, high) && InWidth(st.low(s), st.bits)
    ensures var k := Rounds(st.low(s), high, st.step);
      Ends(leak, st, s, Normal(Iterate(Round(st, f), k, s[st.counter := st.low(s)])))
      <==> InWidth(st.low(s) + k * st.step, st.bits)
  {
    var b := OneRound(leak, st, f, high, s);
    hide Tame, Rounds, Iterate, InWidth, Gives, Ends, Round;
    var start := s[st.counter := st.low(s)];
    RunsIffItFits(leak, st, f, high, start);
    ForStarts(leak, st, s, Iterate(Round(st, f), Rounds(st.low(s), high, st.step), start));
  }

  lemma {:induction false} ForStarts(leak: bool, st: Stmt, s: State, t: State)
    requires st.For?
    ensures Ends(leak, st, s, Normal(t)) <==> Gives(leak, st, s[st.counter := st.low(s)], t)
  {
    hide ExecFor;
    var start := s[st.counter := st.low(s)];
    forall n: nat ensures Exec(leak, st, s, n) == ExecFor(leak, st, start, n) {
      assert StartCounter(st)(s) == start;
    }
    hide Exec;
    if Ends(leak, st, s, Normal(t)) {
      var n: nat :| Exec(leak, st, s, n) == Some(Normal(t));
      assert ExecFor(leak, st, start, n) == Some(Normal(t));
    }
    if Gives(leak, st, start, t) {
      var n: nat :| ExecFor(leak, st, start, n) == Some(Normal(t));
      assert Exec(leak, st, s, n) == Some(Normal(t));
    }
  }

  // The counter wraps around silently: where no number lies past the bound the loop never
  // ends, however often its body is run.
  lemma ForToMaxNeverEnds(leak: bool, st: Stmt, f: Update, high: int, s: State, n: nat)
    requires Tame(leak, st, f, high) && InWidth(st.low(s), st.bits)
    requires if st.step > 0 then high >= MaxWord(st.bits) else high <= -MaxWord(st.bits) - 1
    ensures Exec(leak, st, s, n) == None
  {
    if Exec(leak, st, s, n).Some? {
      EndsPast(leak, st, f, high, StartCounter(st)(s), n);
    }
  }

  // Counting up or down by one, the loop ends exactly if some number lies past the bound.
  lemma {:induction false} ForByOneEndsIff(leak: bool, st: Stmt, f: Update, high: int, s: State)
    requires Tame(leak, st, f, high) && InWidth(st.low(s), st.bits) && st.step in {1, -1}
    ensures (exists o :: Ends(leak, st, s, o)) <==> if st.step > 0 then high < MaxWord(st.bits) else high > -MaxWord(st.bits) - 1
  {
    var b := OneRound(leak, st, f, high, s);
    hide Exec, Tame;
    if if st.step > 0 then high < MaxWord(st.bits) else high > -MaxWord(st.bits) - 1 {
      LastValue(st.low(s), high, st.step);
      ForRunsItsRounds(leak, st, f, high, s);
    } else {
      forall n: nat ensures Exec(leak, st, s, n) == None {
        ForToMaxNeverEnds(leak, st, f, high, s, n);
      }
    }
  }
}
