// computeFirstPlusSets and checkBacktrackFree (utils/grammar/Validator.cpp:103-160),
// and what acceptance guarantees.
module BacktrackFree {
  import opened Wrappers
  import opened Grammars
  import opened FirstSets
  import opened FollowSets
  import opened FollowMeaning
  import opened FollowExact
  import opened ParseTrees

  // FIRST+ as the text books have it, ε aside.
  function Selects(first: SetMap, follow: FollowMap, p: Production): set<nat>
    requires p.head in follow && forall i :: 0 <= i < |p.body| ==> p.body[i] in first
  {
    Lookahead(first, p.body, follow[p.head]) - {EPSILON}
  }

  // A computed FIRST+ set agrees with the definition except for ε, which it holds
  // whenever the first symbol is nullable, even if the body is not.
  ghost predicate IsFirstPlus(g: Grammar, first: SetMap, follow: FollowMap, k: nat, plus: set<nat>)
    requires Ready(g, first, follow) && k < |g.productions|
  {
    BodyKnown(g, first, follow, k);
    var p := g.productions[k];
    && plus - {EPSILON} == Selects(first, follow, p)
    && (EPSILON in plus <==> EPSILON in first[p.body[0]])
  }

  ghost predicate AreFirstPlus(g: Grammar, first: SetMap, follow: FollowMap, plus: seq<set<nat>>)
    requires Ready(g, first, follow)
  {
    |plus| == |g.productions| && forall k: nat :: k < |plus| ==> IsFirstPlus(g, first, follow, k, plus[k])
  }

  method FirstPlusOfProduction(g: Grammar, first: SetMap, follow: FollowMap, k: nat) returns (plus: set<nat>)
    requires Ready(g, first, follow) && k < |g.productions|
    ensures IsFirstPlus(g, first, follow, k, plus)
  {
    BodyKnown(g, first, follow, k);
    var p := g.productions[k];
    plus := {};
    var i, count, epsilon := 0, |p.body|, true;
    while i < count && epsilon
      invariant i <= count
      invariant i == 0 ==> plus == {} && epsilon
      invariant i > 0 ==> (EPSILON in plus <==> EPSILON in first[p.body[0]])
      invariant i > 0 && epsilon ==> EPSILON in first[p.body[0]]
      invariant FirstOf(first, p.body) - {EPSILON} ==
                plus + (if epsilon then FirstOf(first, p.body[i..]) else {}) - {EPSILON}
      invariant EPSILON in FirstOf(first, p.body) <==> epsilon && EPSILON in FirstOf(first, p.body[i..])
    {
      var firstSet := first[p.body[i]];
      plus := plus + firstSet;
      if EPSILON in firstSet {
        plus := plus + {EPSILON};
        epsilon := true;
      } else {
        epsilon := false;
      }
      assert p.body[i..][1..] == p.body[i + 1..];
      i := i + 1;
    }
    if i == count && epsilon {
      assert p.body[i..] == [];
      plus := plus + follow[p.head];
      plus := plus + {EPSILON};
    }
  }

  method ComputeFirstPlusSets(g: Grammar, first: SetMap, follow: FollowMap) returns (plus: seq<set<nat>>)
    requires Ready(g, first, follow)
    ensures AreFirstPlus(g, first, follow, plus)
  {
    plus := [];
    for k := 0 to |g.productions|
      invariant |plus| == k && forall m: nat :: m < k ==> IsFirstPlus(g, first, follow, m, plus[m])
    {
      var p := FirstPlusOfProduction(g, first, follow, k);
      plus := plus + [p];
    }
  }

  ghost predicate Conflict(g: Grammar, plus: seq<set<nat>>, i: nat, j: nat)
    requires |plus| == |g.productions|
  {
    && i < |plus| && j < |plus| && i != j
    && g.productions[i].head == g.productions[j].head
    && plus[i] * plus[j] != {}
  }

  method CheckBacktrackFree(g: Grammar, plus: seq<set<nat>>) returns (free: bool, pair: (nat, nat))
    requires |plus| == |g.productions|
    ensures free <==> forall i: nat, j: nat :: !Conflict(g, plus, i, j)
    ensures !free ==> Conflict(g, plus, pair.0, pair.1)
  {
    pair := (0, 0);
    for outer := 0 to |g.productions|
      invariant forall i: nat, j: nat :: i < outer ==> !Conflict(g, plus, i, j)
    {
      for inner := 0 to |g.productions|
        invariant forall j: nat :: j < inner ==> !Conflict(g, plus, outer, j)
      {
        if inner != outer && g.productions[outer].head == g.productions[inner].head {
          var intersect := plus[outer] * plus[inner];
          if intersect != {} {
            assert Conflict(g, plus, outer, inner);
            return false, (outer, inner);
          }
        }
      }
    }
    return true, pair;
  }

  // The three computations have run.
  ghost predicate Analysed(g: Grammar, first: SetMap, follow: FollowMap, plus: seq<set<nat>>) {
    && WellFormed(g)
    && Covers(g, first) && Closed(g, first) && Exact(g, first)
    && LeastSolution(g, first, follow)
    && AreFirstPlus(g, first, follow, plus)
  }

  ghost predicate Accepted(g: Grammar, first: SetMap, follow: FollowMap, plus: seq<set<nat>>) {
    Analysed(g, first, follow, plus) && forall i: nat, j: nat :: !Conflict(g, plus, i, j)
  }

  // ---------- what the sets and the verdict mean ----------

  // The token t speaks for production k: it begins what the body derives, or stands behind
  // the head if the body derives nothing.
  ghost predicate SpeaksFor(g: Grammar, k: nat, t: nat)
    requires k < |g.productions|
  {
    var p := g.productions[k];
    t != EPSILON && (InFirst(g, Strip(p.body), t) || (Derives(g, Strip(p.body), []) && HasReason(g, p.head, t)))
  }

  ghost predicate StartsNullable(g: Grammar, k: nat)
    requires k < |g.productions|
  {
    var body := g.productions[k].body;
    body != [] && Derives(g, Strip([body[0]]), [])
  }

  // Two productions of one nonterminal that some token speaks for, or that both begin with
  // a nullable symbol.
  ghost predicate Clash(g: Grammar, i: nat, j: nat) {
    && i < |g.productions| && j < |g.productions| && i != j
    && g.productions[i].head == g.productions[j].head
    && ((StartsNullable(g, i) && StartsNullable(g, j)) || exists t :: SpeaksFor(g, i, t) && SpeaksFor(g, j, t))
  }

  lemma {:induction false} FirstOfExact(g: Grammar, first: SetMap, a: seq<Symbol>, t: nat)
    requires WellFormed(g) && Covers(g, first) && Closed(g, first) && Exact(g, first) && AllKnown(g, a)
    ensures forall i :: 0 <= i < |a| ==> a[i] in first
    ensures t in FirstOf(first, a) <==> InFirst(g, Strip(a), t)
  {
    assert forall i :: 0 <= i < |a| ==> Known(g, a[i]);
    FirstOfStrip(g, first, a);
    if t in FirstOf(first, a) { FirstOfSound(g, first, a, t); }
    if InFirst(g, Strip(a), t) { ClosedIsComplete(g, first, Strip(a), t); }
  }

  // FIRST+ of a production is what speaks for it, and ε if its first symbol is nullable.
  lemma {:induction false} FirstPlusIsExact(g: Grammar, first: SetMap, follow: FollowMap, plus: seq<set<nat>>, k: nat, t: nat)
    requires Analysed(g, first, follow, plus) && k < |plus|
    ensures k < |g.productions|
    ensures t != EPSILON ==> (t in plus[k] <==> SpeaksFor(g, k, t))
    ensures EPSILON in plus[k] <==> StartsNullable(g, k)
  {
    var p := g.productions[k];
    BodyKnown(g, first, follow, k);
    assert IsFirstPlus(g, first, follow, k, plus[k]);
    assert AllKnown(g, p.body) && AllKnown(g, [p.body[0]]);
    FirstOfExact(g, first, p.body, t);
    FirstOfExact(g, first, p.body, EPSILON);
    FirstOfExact(g, first, [p.body[0]], EPSILON);
    FollowIsExact(g, first, follow, p.head, t);
    assert EPSILON in FirstOf(first, [p.body[0]]) <==> EPSILON in first[p.body[0]] by { assert [p.body[0]][1..] == []; }
    assert InFirst(g, Strip(p.body), EPSILON) <==> Derives(g, Strip(p.body), []);
    assert InFirst(g, Strip([p.body[0]]), EPSILON) <==> Derives(g, Strip([p.body[0]]), []);
    assert p.head in g.nonterminals;
    hide FirstOf, Strip, Exact, Closed, InFirst, LeastSolution, HasReason, Derives;
    assert t != EPSILON ==> (t in plus[k] <==> t in Selects(first, follow, p));
  }

  // The verdict depends on the grammar alone.
  lemma {:induction false} AcceptedIff(g: Grammar, first: SetMap, follow: FollowMap, plus: seq<set<nat>>)
    requires Analysed(g, first, follow, plus)
    ensures Accepted(g, first, follow, plus) <==> forall i: nat, j: nat :: !Clash(g, i, j)
  {
    forall i: nat, j: nat ensures Conflict(g, plus, i, j) <==> Clash(g, i, j) {
      ConflictIff(g, first, follow, plus, i, j);
    }
    hide Analysed, Conflict, Clash;
    if !Accepted(g, first, follow, plus) {
      var i: nat, j: nat :| Conflict(g, plus, i, j);
      assert Clash(g, i, j);
    }
    if i: nat, j: nat :| Clash(g, i, j) {
      assert Conflict(g, plus, i, j);
    }
  }

  lemma {:induction false} ConflictIff(g: Grammar, first: SetMap, follow: FollowMap, plus: seq<set<nat>>, i: nat, j: nat)
    requires Analysed(g, first, follow, plus)
    ensures |plus| == |g.productions| && (Conflict(g, plus, i, j) <==> Clash(g, i, j))
  {
    assert AreFirstPlus(g, first, follow, plus);
    hide AreFirstPlus, SpeaksFor, StartsNullable;
    if i < |plus| && j < |plus| {
      forall t: nat ensures t in plus[i] * plus[j] <==>
        if t == EPSILON then StartsNullable(g, i) && StartsNullable(g, j) else SpeaksFor(g, i, t) && SpeaksFor(g, j, t)
      {
        FirstPlusIsExact(g, first, follow, plus, i, t);
        FirstPlusIsExact(g, first, follow, plus, j, t);
      }
      hide Analysed;
      if t: nat :| t in plus[i] * plus[j] {
        assert t == EPSILON || (SpeaksFor(g, i, t) && SpeaksFor(g, j, t));
      }
      if t: nat :| SpeaksFor(g, i, t) && SpeaksFor(g, j, t) {
        SpeaksForNoEpsilon(g, i, t);
        assert t in plus[i] * plus[j];
      }
      assert StartsNullable(g, i) && StartsNullable(g, j) ==> EPSILON in plus[i] * plus[j];
    }
  }

  lemma {:induction false} SpeaksForNoEpsilon(g: Grammar, k: nat, t: nat)
    requires k < |g.productions| && SpeaksFor(g, k, t)
    ensures t != EPSILON
  {
  }

  // The main program of the utility (utils/grammar/main.cpp:31-69).
  method Validate(g: Grammar) returns (free: bool, pair: (nat, nat), first: SetMap, follow: FollowMap, plus: seq<set<nat>>)
    requires WellFormed(g)
    ensures Analysed(g, first, follow, plus)
    ensures free <==> Accepted(g, first, follow, plus)
    ensures free <==> forall i: nat, j: nat :: !Clash(g, i, j)
    ensures !free ==> Conflict(g, plus, pair.0, pair.1)
  {
    first := ComputeFirstSets(g);
    follow := ComputeFollowSets(g, first);
    plus := ComputeFirstPlusSets(g, first, follow);
    free, pair := CheckBacktrackFree(g, plus);
    hide Clash;
    AcceptedIff(g, first, follow, plus);
  }

  // ---------- one token selects one production ----------

  // Production k can be the right choice in front of the token t.
  ghost predicate Fits(g: Grammar, k: nat, t: nat) {
    k < |g.productions| && t != EPSILON &&
    var body := Strip(g.productions[k].body);
    || InFirst(g, body, t)
    || (Derives(g, body, []) && (CanFollow(g, g.productions[k].head, t) || (t == EOF && CanEnd(g, g.productions[k].head))))
  }

  lemma FittingIsSelected(g: Grammar, first: SetMap, follow: FollowMap, plus: seq<set<nat>>, k: nat, t: nat)
    requires Accepted(g, first, follow, plus) && !EpsilonBehindNonTerminal(g)
    requires Fits(g, k, t)
    ensures t in plus[k]
  {
    var p := g.productions[k];
    BodyKnown(g, first, follow, k);
    assert IsFirstPlus(g, first, follow, k, plus[k]);
    FirstOfStrip(g, first, p.body);
    if InFirst(g, Strip(p.body), t) {
      ClosedIsComplete(g, first, Strip(p.body), t);
    } else {
      ClosedIsComplete(g, first, Strip(p.body), EPSILON);
      FollowIsSafe(g, first, follow, p.head, t);
    }
    assert t in Selects(first, follow, p);
  }

  // LL(1): whatever the next token, at most one production of a nonterminal fits.
  lemma AcceptedIsLL1(g: Grammar, first: SetMap, follow: FollowMap, plus: seq<set<nat>>, i: nat, j: nat, t: nat)
    requires Accepted(g, first, follow, plus) && !EpsilonBehindNonTerminal(g)
    requires Fits(g, i, t) && Fits(g, j, t) && g.productions[i].head == g.productions[j].head
    ensures i == j
  {
    FittingIsSelected(g, first, follow, plus, i, t);
    FittingIsSelected(g, first, follow, plus, j, t);
    assert t in plus[i] * plus[j];
    assert !Conflict(g, plus, i, j);
  }

  // ---------- one word has one tree ----------

  // The token a parser looks at when w is still to come.
  function Next(w: seq<nat>): nat {
    if w == [] then EOF else w[0]
  }

  lemma {:induction false} ForestFirst(g: Grammar, first: SetMap, follow: FollowMap, xs: seq<Tree>, roots: seq<Symbol>, rest: seq<nat>, fin: set<nat>)
    requires Ready(g, first, follow) && Closed(g, first)
    requires AllKnown(g, roots) && ValidForest(g, xs, roots)
    requires Next(rest) in fin
    ensures forall i :: 0 <= i < |roots| ==> roots[i] in first
    ensures Next(ForestYield(xs) + rest) in Lookahead(first, roots, fin)
    ensures EPSILON !in ForestYield(xs)
    ensures ForestYield(xs) == [] ==> EPSILON in FirstOf(first, roots)
    decreases xs
  {
    KnownInMaps(g, first, follow, roots);
    if xs == [] {
      assert ForestYield(xs) + rest == rest;
    } else {
      var y, tail := Yield(xs[0]), ForestYield(xs[1..]);
      TreeFirst(g, first, follow, xs[0]);
      ForestFirst(g, first, follow, xs[1..], roots[1..], rest, fin);
      assert y + tail + rest == y + (tail + rest);
    }
  }

  lemma {:induction false} TreeFirst(g: Grammar, first: SetMap, follow: FollowMap, x: Tree)
    requires Ready(g, first, follow) && Closed(g, first)
    requires Valid(g, x) && Known(g, Root(g, x))
    ensures Root(g, x) in first && EPSILON !in Yield(x)
    ensures if Yield(x) == [] then EPSILON in first[Root(g, x)] else Yield(x)[0] in first[Root(g, x)]
    decreases x
  {
    match x {
      case Leaf(_) =>
      case Node(k, kids) =>
        BodyKnown(g, first, follow, k);
        assert ProductionClosed(g, first, k);
        ForestFirst(g, first, follow, kids, g.productions[k].body, [], {EOF});
        assert ForestYield(kids) + [] == ForestYield(kids);
        if Yield(x) != [] {
          FirstTokenInFirst(g, first, follow, kids, g.productions[k].body);
        }
    }
  }

  lemma {:induction false} FirstTokenInFirst(g: Grammar, first: SetMap, follow: FollowMap, xs: seq<Tree>, roots: seq<Symbol>)
    requires Ready(g, first, follow) && Closed(g, first)
    requires AllKnown(g, roots) && ValidForest(g, xs, roots) && ForestYield(xs) != []
    ensures forall i :: 0 <= i < |roots| ==> roots[i] in first
    ensures ForestYield(xs)[0] in FirstOf(first, roots)
    decreases xs
  {
    KnownInMaps(g, first, follow, roots);
    TreeFirst(g, first, follow, xs[0]);
    if Yield(xs[0]) == [] {
      FirstTokenInFirst(g, first, follow, xs[1..], roots[1..]);
      ForestFirst(g, first, follow, xs[1..], roots[1..], [], {EOF});
    }
  }

  // In front of the rest r, the next token lies in FIRST+ of the production at the root.
  lemma NodeIsSelected(g: Grammar, first: SetMap, follow: FollowMap, plus: seq<set<nat>>, x: Tree, r: seq<nat>)
    requires Accepted(g, first, follow, plus)
    requires Valid(g, x) && x.Node? && g.productions[x.k].head in follow
    requires EPSILON !in follow[g.productions[x.k].head] && Next(r) in follow[g.productions[x.k].head]
    ensures Next(Yield(x) + r) in plus[x.k]
  {
    var p := g.productions[x.k];
    BodyKnown(g, first, follow, x.k);
    ForestFirst(g, first, follow, x.kids, p.body, r, follow[p.head]);
    assert IsFirstPlus(g, first, follow, x.k, plus[x.k]);
    var t := Next(Yield(x) + r);
    assert t in Selects(first, follow, p) || t == EPSILON;
  }

  lemma {:induction false} TreesAgree(g: Grammar, first: SetMap, follow: FollowMap, plus: seq<set<nat>>, x: Tree, y: Tree, r: seq<nat>, s: seq<nat>)
    requires Accepted(g, first, follow, plus) && !EpsilonBehindNonTerminal(g) && EpsilonFree(follow)
    requires Valid(g, x) && Valid(g, y) && Root(g, x) == Root(g, y) && Known(g, Root(g, x))
    requires Root(g, x).NonTerminal? ==> Next(r) in follow[Root(g, x).n] && Next(s) in follow[Root(g, x).n]
    requires Yield(x) + r == Yield(y) + s
    ensures x == y
    decreases x
  {
    if x.Node? {
      NodeIsSelected(g, first, follow, plus, x, r);
      NodeIsSelected(g, first, follow, plus, y, s);
      assert Next(Yield(x) + r) in plus[x.k] * plus[y.k];
      assert !Conflict(g, plus, x.k, y.k);
      ForestsAgree(g, first, follow, plus, x.k, 0, x.kids, y.kids, r, s);
    }
  }

  // What comes behind the nonterminal at position i is in its FOLLOW set.
  lemma NextInFollow(g: Grammar, first: SetMap, follow: FollowMap, k: nat, i: nat, xs: seq<Tree>, r: seq<nat>)
    requires Solution(g, first, follow) && Closed(g, first) && !EpsilonBehindNonTerminal(g) && EpsilonFree(follow)
    requires k < |g.productions| && i < |g.productions[k].body| && g.productions[k].body[i].NonTerminal?
    requires g.productions[k].head in follow && Next(r) in follow[g.productions[k].head]
    requires ValidForest(g, xs, g.productions[k].body[i + 1..])
    ensures g.productions[k].body[i].n in follow && Next(ForestYield(xs) + r) in follow[g.productions[k].body[i].n]
  {
    SuffixCovered(g, first, follow, k, i);
    ForestFirst(g, first, follow, xs, g.productions[k].body[i + 1..], r, follow[g.productions[k].head]);
  }

  lemma AcceptedFacts(g: Grammar, first: SetMap, follow: FollowMap, plus: seq<set<nat>>, k: nat)
    requires Accepted(g, first, follow, plus) && k < |g.productions|
    ensures Solution(g, first, follow) && Closed(g, first) && AllKnown(g, g.productions[k].body)
  {
  }

  lemma {:induction false} ForestsAgree(g: Grammar, first: SetMap, follow: FollowMap, plus: seq<set<nat>>, k: nat, i: nat, xs: seq<Tree>, ys: seq<Tree>, r: seq<nat>, s: seq<nat>)
    requires Accepted(g, first, follow, plus) && !EpsilonBehindNonTerminal(g) && EpsilonFree(follow)
    requires k < |g.productions| && i <= |g.productions[k].body| && g.productions[k].head in follow
    requires ValidForest(g, xs, g.productions[k].body[i..]) && ValidForest(g, ys, g.productions[k].body[i..])
    requires Next(r) in follow[g.productions[k].head] && Next(s) in follow[g.productions[k].head]
    requires ForestYield(xs) + r == ForestYield(ys) + s
    ensures xs == ys
    decreases xs
  {
    hide Accepted, Solution, Closed, Known, EpsilonBehindNonTerminal, EpsilonFree, Next, Yield;
    if xs != [] {
      var body := g.productions[k].body;
      AcceptedFacts(g, first, follow, plus, k);
      var r', s' := ForestYield(xs[1..]) + r, ForestYield(ys[1..]) + s;
      assert body[i..][1..] == body[i + 1..];
      if body[i].NonTerminal? {
        NextInFollow(g, first, follow, k, i, xs[1..], r);
        NextInFollow(g, first, follow, k, i, ys[1..], s);
      }
      assert ForestYield(xs) + r == Yield(xs[0]) + r' && ForestYield(ys) + s == Yield(ys[0]) + s';
      TreesAgree(g, first, follow, plus, xs[0], ys[0], r', s');
      assert r' == s' by {
        assert (Yield(xs[0]) + r')[|Yield(xs[0])|..] == r';
        assert (Yield(xs[0]) + s')[|Yield(xs[0])|..] == s';
      }
      ForestsAgree(g, first, follow, plus, k, i + 1, xs[1..], ys[1..], r, s);
      assert xs == [xs[0]] + xs[1..] && ys == [ys[0]] + ys[1..];
    }
  }

  // A grammar the validator accepts is unambiguous.
  lemma AcceptedIsUnambiguous(g: Grammar, first: SetMap, follow: FollowMap, plus: seq<set<nat>>, x: Tree, y: Tree, w: seq<nat>)
    requires Accepted(g, first, follow, plus) && !EpsilonBehindNonTerminal(g) && g.start.Some?
    requires TreeOf(g, x, g.start.value, w) && TreeOf(g, y, g.start.value, w)
    ensures x == y
  {
    FollowHoldsEpsilonIff(g, first, follow);
    assert Yield(x) + [] == Yield(y) + [];
    TreesAgree(g, first, follow, plus, x, y, [], []);
  }

  // Every derivable word of an accepted grammar has exactly one parse tree.
  lemma DerivableWordHasOneTree(g: Grammar, first: SetMap, follow: FollowMap, plus: seq<set<nat>>, w: seq<nat>)
    requires Accepted(g, first, follow, plus) && !EpsilonBehindNonTerminal(g) && g.start.Some?
    requires EPSILON !in w && Derives(g, [NonTerminal(g.start.value)], Terminals(w))
    ensures exists x :: TreeOf(g, x, g.start.value, w) && forall y :: TreeOf(g, y, g.start.value, w) ==> y == x
  {
    WordsAreYields(g, g.start.value, w);
    var x :| TreeOf(g, x, g.start.value, w);
    forall y | TreeOf(g, y, g.start.value, w) ensures y == x {
      AcceptedIsUnambiguous(g, first, follow, plus, x, y, w);
    }
  }

  // ---------- where the guarantee ends ----------

  // S = B ε B, B = c | ε
  const SAMPLE: Grammar := Grammar({EPSILON, EOF, 2}, {0, 1},
    [Production(0, [NonTerminal(1), Terminal(EPSILON), NonTerminal(1)]),
     Production(1, [Terminal(2)]), Production(1, [Terminal(EPSILON)])],
    Some(0))

  const SAMPLE_FIRST: SetMap := map[
    Terminal(EPSILON) := {EPSILON}, Terminal(EOF) := {EOF}, Terminal(2) := {2},
    NonTerminal(0) := {2, EPSILON}, NonTerminal(1) := {2, EPSILON}]

  const SAMPLE_FOLLOW: FollowMap := map[0 := {EOF}, 1 := {EOF, EPSILON}]

  const SAMPLE_PLUS: seq<set<nat>> := [{2, EPSILON, EOF}, {2}, {EPSILON, EOF}]

  lemma SampleShape()
    ensures WellFormed(SAMPLE) && Covers(SAMPLE, SAMPLE_FIRST)
    ensures forall k: nat :: k < 3 ==> AllKnown(SAMPLE, SAMPLE.productions[k].body)
    ensures Strip(SAMPLE.productions[0].body) == [NonTerminal(1), NonTerminal(1)]
    ensures Strip(SAMPLE.productions[1].body) == [Terminal(2)]
    ensures Strip(SAMPLE.productions[2].body) == []
    ensures forall k: nat :: k < 3 ==>
      FirstOf(SAMPLE_FIRST, SAMPLE.productions[k].body) == [{2, EPSILON}, {2}, {EPSILON}][k]
  {
    var b, e := NonTerminal(1), Terminal(EPSILON);
    var body := SAMPLE.productions[0].body;
    assert body[1..] == [e, b] && body[1..][1..] == [b] && [b][1..] == [];
    assert Strip([b]) == [b] && Strip([e, b]) == [b];
    assert FirstOf(SAMPLE_FIRST, [b]) == {2, EPSILON} && FirstOf(SAMPLE_FIRST, [e, b]) == {2, EPSILON};
    assert [Terminal(2)][1..] == [] && [e][1..] == [];
    forall k | 0 <= k < 3 ensures WellFormedProduction(SAMPLE, SAMPLE.productions[k]) {}
  }

  lemma SampleDerivations()
    ensures InFirst(SAMPLE, [NonTerminal(1)], 2) && InFirst(SAMPLE, [NonTerminal(1)], EPSILON)
    ensures InFirst(SAMPLE, [NonTerminal(0)], 2) && InFirst(SAMPLE, [NonTerminal(0)], EPSILON)
  {
    SampleShape();
    var g, s, b := SAMPLE, [NonTerminal(0)], NonTerminal(1);
    DerivesByProduction(g, 0);
    DerivesByProduction(g, 1);
    DerivesByProduction(g, 2);
    assert [Terminal(2)] == [Terminal(2)] + [];
    assert [b] + [b] == [b, b];
    InFirstOfTail(g, b, [b], EPSILON);
    InFirstOfHead(g, b, [b], 2);
    DerivesTransitive(g, s, [b, b], []);
    var tail: seq<Symbol> :| Derives(g, [b, b], [Terminal(2)] + tail);
    DerivesTransitive(g, s, [b, b], [Terminal(2)] + tail);
  }

  lemma SampleFirstExact()
    ensures WellFormed(SAMPLE) && Covers(SAMPLE, SAMPLE_FIRST)
    ensures Closed(SAMPLE, SAMPLE_FIRST) && Exact(SAMPLE, SAMPLE_FIRST)
  {
    SampleShape();
    SampleDerivations();
    forall k | 0 <= k < 3 ensures ProductionClosed(SAMPLE, SAMPLE_FIRST, k) {}
    ClosedAndSoundIsExact(SAMPLE, SAMPLE_FIRST);
  }

  lemma SampleFollowLeast()
    ensures LeastSolution(SAMPLE, SAMPLE_FIRST, SAMPLE_FOLLOW)
  {
    SampleShape();
    var body := SAMPLE.productions[0].body;
    assert body[1..][0] == Terminal(EPSILON) && body[3..] == [];
    assert Ready(SAMPLE, SAMPLE_FIRST, SAMPLE_FOLLOW);
    forall k: nat, i: nat | k < 3 && i < |SAMPLE.productions[k].body|
      ensures PositionClosed(SAMPLE, SAMPLE_FIRST, SAMPLE_FOLLOW, k, i)
    {}
    forall h | Solution(SAMPLE, SAMPLE_FIRST, h) ensures Included(SAMPLE_FOLLOW, h) {
      assert PositionClosed(SAMPLE, SAMPLE_FIRST, h, 0, 0) && PositionClosed(SAMPLE, SAMPLE_FIRST, h, 0, 2);
    }
  }

  lemma SamplePlus(k: nat)
    requires k < 3
    ensures Ready(SAMPLE, SAMPLE_FIRST, SAMPLE_FOLLOW)
    ensures IsFirstPlus(SAMPLE, SAMPLE_FIRST, SAMPLE_FOLLOW, k, SAMPLE_PLUS[k])
  {
    hide Closed, Exact, FirstOf, Strip;
    SampleShape();
    SampleFollowLeast();
    BodyKnown(SAMPLE, SAMPLE_FIRST, SAMPLE_FOLLOW, k);
  }

  lemma SampleAccepted()
    ensures Accepted(SAMPLE, SAMPLE_FIRST, SAMPLE_FOLLOW, SAMPLE_PLUS)
  {
    hide Closed, Exact, WellFormed, Covers, LeastSolution, Ready, IsFirstPlus;
    SampleFirstExact();
    SampleFollowLeast();
    SamplePlus(0);
    SamplePlus(1);
    SamplePlus(2);
  }

  // With ε written behind a nonterminal acceptance proves nothing: the sample grammar
  // is accepted, and the word c has two parse trees.
  lemma AcceptedButAmbiguous() returns (x: Tree, y: Tree)
    ensures Accepted(SAMPLE, SAMPLE_FIRST, SAMPLE_FOLLOW, SAMPLE_PLUS)
    ensures EpsilonBehindNonTerminal(SAMPLE)
    ensures TreeOf(SAMPLE, x, 0, [2]) && TreeOf(SAMPLE, y, 0, [2]) && x != y
  {
    SampleAccepted();
    assert EpsilonBehindAt(SAMPLE, 0, 0);
    SampleShape();
    var e, c := Leaf(EPSILON), Leaf(2);
    SampleForest([c]);
    SampleForest([e]);
    var read, skip := Node(1, [c]), Node(2, [e]);
    x := Node(0, [read, e, skip]);
    y := Node(0, [skip, e, read]);
    SampleForest([read]);
    SampleForest([skip]);
    var body := SAMPLE.productions[0].body;
    assert body[1..] == [Terminal(EPSILON), NonTerminal(1)] && body[1..][1..] == [NonTerminal(1)];
    assert [read, e, skip][1..] == [e, skip] && [e, skip][1..] == [skip];
    assert [skip, e, read][1..] == [e, read] && [e, read][1..] == [read];
    assert ValidForest(SAMPLE, [e, skip], body[1..]) && ValidForest(SAMPLE, [e, read], body[1..]);
    assert ForestYield([e, skip]) == [] && ForestYield([e, read]) == [2];
  }

  lemma SampleForest(xs: seq<Tree>)
    requires |xs| == 1 && Valid(SAMPLE, xs[0])
    ensures ValidForest(SAMPLE, xs, [Root(SAMPLE, xs[0])]) && ForestYield(xs) == Yield(xs[0])
  {
  }
}
