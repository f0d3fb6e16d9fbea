// computeFirstSets (utils/grammar/Validator.cpp:12-55).
module FirstSets {
  import opened Wrappers
  import opened Grammars

  type SetMap = map<Symbol, set<nat>>

  ghost predicate Covers(g: Grammar, first: SetMap) {
    && (forall t :: t in g.terminals ==> Terminal(t) in first && first[Terminal(t)] == {t})
    && (forall n :: n in g.nonterminals ==> NonTerminal(n) in first && first[NonTerminal(n)] <= g.terminals)
  }

  ghost predicate AllKnown(g: Grammar, a: seq<Symbol>) {
    forall i :: 0 <= i < |a| ==> Known(g, a[i])
  }

  // FIRST of a sequence of symbols; it holds ε exactly if every symbol is nullable.
  function FirstOf(first: SetMap, a: seq<Symbol>): set<nat>
    requires forall i :: 0 <= i < |a| ==> a[i] in first
  {
    if a == [] then {EPSILON}
    else if EPSILON in first[a[0]] then first[a[0]] - {EPSILON} + FirstOf(first, a[1..])
    else first[a[0]]
  }

  // The fixpoint condition: every production is accounted for.
  ghost predicate Closed(g: Grammar, first: SetMap)
    requires WellFormed(g) && Covers(g, first)
  {
    forall k :: 0 <= k < |g.productions| ==> ProductionClosed(g, first, k)
  }

  ghost predicate ProductionClosed(g: Grammar, first: SetMap, k: nat)
    requires WellFormed(g) && Covers(g, first) && k < |g.productions|
  {
    var p := g.productions[k];
    assert WellFormedProduction(g, p);
    FirstOf(first, p.body) <= first[NonTerminal(p.head)]
  }

  // The independent meaning of "t is in FIRST(a)", in terms of derivations only.
  ghost predicate InFirst(g: Grammar, a: seq<Symbol>, t: nat) {
    if t == EPSILON then Derives(g, a, []) else DerivesFormStarting(g, a, t)
  }

  // Every recorded terminal is there for a reason.
  ghost predicate Sound(g: Grammar, first: SetMap)
    requires Covers(g, first)
  {
    forall n, t :: n in g.nonterminals && t in first[NonTerminal(n)] ==> InFirst(g, [NonTerminal(n)], t)
  }

  ghost predicate Exact(g: Grammar, first: SetMap)
    requires Covers(g, first)
  {
    forall n, t :: n in g.nonterminals ==>
      (t in first[NonTerminal(n)] <==> InFirst(g, [NonTerminal(n)], t))
  }

  // ---------- soundness: one symbol after the other ----------

  lemma InFirstOfHead(g: Grammar, s: Symbol, rest: seq<Symbol>, t: nat)
    requires t != EPSILON
    requires DerivesFormStarting(g, [s], t)
    ensures DerivesFormStarting(g, [s] + rest, t)
  {
    var tail: seq<Symbol> :| Derives(g, [s], [Terminal(t)] + tail);
    DerivesInContext(g, [], [s], [Terminal(t)] + tail, rest);
    assert [] + [s] + rest == [s] + rest;
    assert [] + ([Terminal(t)] + tail) + rest == [Terminal(t)] + (tail + rest);
  }

  lemma InFirstOfTail(g: Grammar, s: Symbol, rest: seq<Symbol>, t: nat)
    requires Derives(g, [s], [])
    requires InFirst(g, rest, t)
    ensures InFirst(g, [s] + rest, t)
  {
    DerivesInContext(g, [], [s], [], rest);
    assert [] + [s] + rest == [s] + rest;
    assert [] + [] + rest == rest;
    if t == EPSILON {
      DerivesTransitive(g, [s] + rest, rest, []);
    } else {
      var tail: seq<Symbol> :| Derives(g, rest, [Terminal(t)] + tail);
      DerivesTransitive(g, [s] + rest, rest, [Terminal(t)] + tail);
    }
  }

  // Sets that are sound on symbols are sound on sequences.
  lemma {:induction false} FirstOfSound(g: Grammar, first: SetMap, a: seq<Symbol>, t: nat)
    requires WellFormed(g) && Covers(g, first) && Sound(g, first)
    requires AllKnown(g, a)
    requires t in FirstOf(first, a)
    ensures InFirst(g, Strip(a), t)
  {
    if a == [] {
      DerivesReflexive(g, []);
    } else {
      var s, rest := a[0], a[1..];
      assert Known(g, s);
      assert Strip(a) == (if s == Terminal(EPSILON) then [] else [s]) + Strip(rest);
      if t in first[s] && t != EPSILON {
        if s.Terminal? {
          DerivesReflexive(g, Strip(a));
          assert Strip(a) == [Terminal(t)] + Strip(rest);
        } else {
          InFirstOfHead(g, s, Strip(rest), t);
        }
      } else {
        FirstOfSound(g, first, rest, t);
        if s.NonTerminal? {
          assert EPSILON in first[s];
          InFirstOfTail(g, s, Strip(rest), t);
        } else {
          assert s == Terminal(EPSILON);
          assert Strip(a) == Strip(rest);
        }
      }
    }
  }

  // What one production contributes is justified by a derivation.
  lemma ContributionSound(g: Grammar, first: SetMap, k: nat, t: nat)
    requires WellFormed(g) && Covers(g, first) && Sound(g, first)
    requires k < |g.productions| && AllKnown(g, g.productions[k].body)
    requires t in FirstOf(first, g.productions[k].body)
    ensures InFirst(g, [NonTerminal(g.productions[k].head)], t)
  {
    var p := g.productions[k];
    var a, b := [NonTerminal(p.head)], Strip(p.body);
    FirstOfSound(g, first, p.body, t);
    DerivesByProduction(g, k);
    if t == EPSILON {
      DerivesTransitive(g, a, b, []);
    } else {
      var tail: seq<Symbol> :| Derives(g, b, [Terminal(t)] + tail);
      DerivesTransitive(g, a, b, [Terminal(t)] + tail);
    }
  }

  // ---------- completeness: rewriting never enlarges FIRST ----------

  lemma {:induction false} FirstOfConcat(g: Grammar, first: SetMap, a: seq<Symbol>, b: seq<Symbol>)
    requires Covers(g, first) && AllKnown(g, a) && AllKnown(g, b)
    ensures AllKnown(g, a + b)
    ensures FirstOf(first, a + b) ==
            if EPSILON in FirstOf(first, a) then FirstOf(first, a) - {EPSILON} + FirstOf(first, b)
            else FirstOf(first, a)
  {
    if a == [] {
      assert a + b == b;
    } else {
      assert a == [a[0]] + a[1..];
      assert (a + b)[1..] == a[1..] + b && (a + b)[0] == a[0];
      FirstOfConcat(g, first, a[1..], b);
    }
  }

  lemma {:induction false} FirstOfStrip(g: Grammar, first: SetMap, a: seq<Symbol>)
    requires WellFormed(g) && Covers(g, first) && AllKnown(g, a)
    ensures AllKnown(g, Strip(a))
    ensures FirstOf(first, Strip(a)) == FirstOf(first, a)
  {
    if a != [] {
      assert Known(g, a[0]);
      assert AllKnown(g, a[1..]);
      FirstOfStrip(g, first, a[1..]);
      if a[0] != Terminal(EPSILON) {
        assert ([a[0]] + Strip(a[1..]))[1..] == Strip(a[1..]);
      }
    }
  }

  lemma RewriteShrinksFirst(g: Grammar, first: SetMap, a: seq<Symbol>, i: nat, k: nat)
    requires WellFormed(g) && Covers(g, first) && Closed(g, first)
    requires AllKnown(g, a) && CanRewrite(g, a, i, k)
    ensures AllKnown(g, Rewrite(g, a, i, k))
    ensures FirstOf(first, Rewrite(g, a, i, k)) <= FirstOf(first, a)
  {
    var p := g.productions[k];
    assert WellFormedProduction(g, p);
    var u, v, body := a[..i], a[i + 1..], Strip(p.body);
    assert ProductionClosed(g, first, k);
    FirstOfStrip(g, first, p.body);
    assert a == u + ([a[i]] + v);
    FirstOfConcat(g, first, [a[i]], v);
    FirstOfConcat(g, first, u, [a[i]] + v);
    FirstOfConcat(g, first, body, v);
    FirstOfConcat(g, first, u, body + v);
    assert u + (body + v) == Rewrite(g, a, i, k);
    assert [a[i]][1..] == [];
    assert FirstOf(first, [a[i]]) == first[a[i]];
  }

  lemma {:induction false} DerivationShrinksFirst(g: Grammar, first: SetMap, a: seq<Symbol>, b: seq<Symbol>, n: nat)
    requires WellFormed(g) && Covers(g, first) && Closed(g, first)
    requires AllKnown(g, a) && DerivesIn(g, a, b, n)
    ensures AllKnown(g, b) && FirstOf(first, b) <= FirstOf(first, a)
    decreases n
  {
    hide FirstOf, Closed, Covers, AllKnown, WellFormed, Rewrite;
    if n > 0 {
      var c :| Step(g, a, c) && DerivesIn(g, c, b, n - 1);
      var i: nat, k: nat :| CanRewrite(g, a, i, k) && c == Rewrite(g, a, i, k);
      RewriteShrinksFirst(g, first, a, i, k);
      DerivationShrinksFirst(g, first, c, b, n - 1);
    }
  }

  // Closed sets miss nothing that any derivation can begin with.
  lemma ClosedIsComplete(g: Grammar, first: SetMap, a: seq<Symbol>, t: nat)
    requires WellFormed(g) && Covers(g, first) && Closed(g, first)
    requires AllKnown(g, a) && InFirst(g, a, t)
    ensures t in FirstOf(first, a)
  {
    if t == EPSILON {
      var n: nat :| DerivesIn(g, a, [], n);
      DerivationShrinksFirst(g, first, a, [], n);
    } else {
      var tail: seq<Symbol> :| Derives(g, a, [Terminal(t)] + tail);
      var n: nat :| DerivesIn(g, a, [Terminal(t)] + tail, n);
      DerivationShrinksFirst(g, first, a, [Terminal(t)] + tail, n);
      assert Known(g, ([Terminal(t)] + tail)[0]);
      assert t in FirstOf(first, [Terminal(t)] + tail);
    }
  }

  lemma ClosedAndSoundIsExact(g: Grammar, first: SetMap)
    requires WellFormed(g) && Covers(g, first) && Closed(g, first) && Sound(g, first)
    ensures Exact(g, first)
  {
    forall n, t | n in g.nonterminals && InFirst(g, [NonTerminal(n)], t)
      ensures t in first[NonTerminal(n)]
    {
      var a := [NonTerminal(n)];
      ClosedIsComplete(g, first, a, t);
      assert a[1..] == [];
    }
  }

  // ---------- the algorithm ----------

  ghost function Pairs(g: Grammar, first: SetMap): set<(nat, nat)>
    requires Covers(g, first)
  {
    set n, t | n in g.nonterminals && t in first[NonTerminal(n)] :: (n, t)
  }

  ghost function AllPairs(g: Grammar): set<(nat, nat)> {
    set n, t | n in g.nonterminals && t in g.terminals :: (n, t)
  }

  lemma PairsBounded(g: Grammar, first: SetMap)
    requires Covers(g, first)
    ensures Pairs(g, first) <= AllPairs(g)
  {
    forall n, t | n in g.nonterminals && t in first[NonTerminal(n)] ensures (n, t) in AllPairs(g) {
      assert t in g.terminals;
    }
  }

  // The contribution of one body (Validator.cpp:30-44): the loop walks over the
  // nullable prefix, collecting sets without ε, and adds ε if it reached the end.
  method FirstOfBody(g: Grammar, first: SetMap, body: seq<Symbol>) returns (rhs: set<nat>)
    requires WellFormed(g) && Covers(g, first)
    requires body != [] && AllKnown(g, body)
    ensures rhs == FirstOf(first, body)
  {
    assert Known(g, body[0]);
    var firstSet := first[body[0]];
    rhs := firstSet - {EPSILON};
    var i, k := 1, |body|;
    while EPSILON in firstSet && i < |body|
      invariant 1 <= i <= k
      invariant firstSet == first[body[i - 1]]
      invariant EPSILON !in rhs && firstSet - {EPSILON} <= rhs
      invariant FirstOf(first, body) ==
                if EPSILON in firstSet then rhs + FirstOf(first, body[i..]) else rhs
    {
      assert Known(g, body[i]);
      firstSet := first[body[i]];
      rhs := rhs + firstSet;
      rhs := rhs - {EPSILON};
      assert body[i..][1..] == body[i + 1..];
      i := i + 1;
    }
    if i == k && EPSILON in firstSet {
      assert body[i..] == [];
      rhs := rhs + {EPSILON};
    }
  }

  // One production (Validator.cpp:28-51): the set of the head grows, or the production is closed.
  method VisitProduction(g: Grammar, first: SetMap, k: nat) returns (next: SetMap, grown: bool)
    requires WellFormed(g) && Covers(g, first) && Sound(g, first) && k < |g.productions|
    ensures Covers(g, next) && Sound(g, next)
    ensures grown ==> Pairs(g, first) < Pairs(g, next)
    ensures !grown ==> next == first && ProductionClosed(g, first, k)
  {
    var p := g.productions[k];
    assert WellFormedProduction(g, p);
    var rhs := FirstOfBody(g, first, p.body);
    FirstOfInTerminals(g, first, p.body);
    var firstSet := first[NonTerminal(p.head)];
    rhs := rhs + firstSet;
    if |rhs| != |firstSet| {
      Growth(g, first, k, rhs);
      return first[NonTerminal(p.head) := rhs], true;
    }
    SameSize(firstSet, rhs);
    return first, false;
  }

  method ComputeFirstSets(g: Grammar) returns (first: SetMap)
    requires WellFormed(g)
    ensures Covers(g, first) && Closed(g, first) && Exact(g, first)
  {
    first := (map t | t in g.terminals :: Terminal(t) := {t})
           + (map n | n in g.nonterminals :: NonTerminal(n) := {});
    var changes := true;
    while changes
      invariant Covers(g, first) && Sound(g, first)
      invariant !changes ==> Closed(g, first)
      decreases AllPairs(g) - Pairs(g, first), changes
    {
      changes := false;
      ghost var before := first;
      for j := 0 to |g.productions|
        invariant Covers(g, first) && Sound(g, first)
        invariant changes ==> Pairs(g, before) < Pairs(g, first)
        invariant !changes ==> first == before && forall k :: 0 <= k < j ==> ProductionClosed(g, first, k)
      {
        var grown;
        first, grown := VisitProduction(g, first, j);
        changes := changes || grown;
      }
      PairsBounded(g, before);
      PairsBounded(g, first);
    }
    ClosedAndSoundIsExact(g, first);
  }

  lemma {:induction false} FirstOfInTerminals(g: Grammar, first: SetMap, a: seq<Symbol>)
    requires WellFormed(g) && Covers(g, first) && AllKnown(g, a)
    ensures FirstOf(first, a) <= g.terminals
  {
    if a != [] {
      assert Known(g, a[0]);
      FirstOfInTerminals(g, first, a[1..]);
    }
  }

  lemma SameSize(a: set<nat>, b: set<nat>)
    requires a <= b && |a| == |b|
    ensures a == b
  {
    assert |b| == |a| + |b - a|;
  }

  // Replacing one set by a larger justified one keeps the invariants and makes progress.
  lemma Growth(g: Grammar, first: SetMap, k: nat, rhs: set<nat>)
    requires WellFormed(g) && Covers(g, first) && Sound(g, first)
    requires k < |g.productions| && WellFormedProduction(g, g.productions[k])
    requires rhs == FirstOf(first, g.productions[k].body) + first[NonTerminal(g.productions[k].head)]
    requires rhs <= g.terminals && |rhs| != |first[NonTerminal(g.productions[k].head)]|
    ensures var next := first[NonTerminal(g.productions[k].head) := rhs];
      Covers(g, next) && Sound(g, next) && Pairs(g, first) < Pairs(g, next)
  {
    var p := g.productions[k];
    var next := first[NonTerminal(p.head) := rhs];
    forall t | t in rhs ensures InFirst(g, [NonTerminal(p.head)], t) {
      if t !in first[NonTerminal(p.head)] {
        ContributionSound(g, first, k, t);
      }
    }
    assert rhs == first[NonTerminal(p.head)] + (rhs - first[NonTerminal(p.head)]);
    var t :| t in rhs && t !in first[NonTerminal(p.head)];
    assert (p.head, t) in Pairs(g, next) && (p.head, t) !in Pairs(g, first);
  }

  // ---------- consequences ----------

  lemma SameProductionsDerive(g: Grammar, h: Grammar, a: seq<Symbol>, b: seq<Symbol>, n: nat)
    requires forall k :: 0 <= k < |g.productions| ==> g.productions[k] in h.productions
    requires DerivesIn(g, a, b, n)
    ensures DerivesIn(h, a, b, n)
    decreases n
  {
    if n > 0 {
      var c :| Step(g, a, c) && DerivesIn(g, c, b, n - 1);
      var i: nat, k: nat :| CanRewrite(g, a, i, k) && c == Rewrite(g, a, i, k);
      var m: nat :| m < |h.productions| && h.productions[m] == g.productions[k];
      assert CanRewrite(h, a, i, m) && c == Rewrite(h, a, i, m);
      assert Step(h, a, c);
      SameProductionsDerive(g, h, c, b, n - 1);
    }
  }

  lemma SameProductionsFirst(g: Grammar, h: Grammar, a: seq<Symbol>, t: nat)
    requires forall k :: 0 <= k < |g.productions| ==> g.productions[k] in h.productions
    requires InFirst(g, a, t)
    ensures InFirst(h, a, t)
  {
    if t == EPSILON {
      var n: nat :| DerivesIn(g, a, [], n);
      SameProductionsDerive(g, h, a, [], n);
    } else {
      var tail: seq<Symbol> :| Derives(g, a, [Terminal(t)] + tail);
      var n: nat :| DerivesIn(g, a, [Terminal(t)] + tail, n);
      SameProductionsDerive(g, h, a, [Terminal(t)] + tail, n);
    }
  }

  // The result does not depend on the order in which productions are visited.
  lemma FirstIsOrderIndependent(g: Grammar, h: Grammar, f1: SetMap, f2: SetMap, n: nat)
    requires g.nonterminals == h.nonterminals && g.terminals == h.terminals
    requires forall p :: p in g.productions <==> p in h.productions
    requires Covers(g, f1) && Exact(g, f1) && Covers(h, f2) && Exact(h, f2)
    requires n in g.nonterminals
    ensures f1[NonTerminal(n)] == f2[NonTerminal(n)]
  {
    forall t ensures t in f1[NonTerminal(n)] <==> t in f2[NonTerminal(n)] {
      var a := [NonTerminal(n)];
      if t in f1[NonTerminal(n)] { SameProductionsFirst(g, h, a, t); }
      if t in f2[NonTerminal(n)] { SameProductionsFirst(h, g, a, t); }
    }
  }
}
