// What the FOLLOW sets mean: they hold every terminal a derivation from the start
// symbol can put behind a nonterminal, and ε only for one shape of body.
module FollowMeaning {
  import opened Wrappers
  import opened Grammars
  import opened FirstSets
  import opened FollowSets

  // Some body writes the terminal ε directly behind a nonterminal.
  ghost predicate EpsilonBehindNonTerminal(g: Grammar) {
    exists k: nat, i: nat :: EpsilonBehindAt(g, k, i)
  }

  ghost predicate EpsilonBehindAt(g: Grammar, k: nat, i: nat) {
    && k < |g.productions| && i + 1 < |g.productions[k].body|
    && g.productions[k].body[i].NonTerminal?
    && g.productions[k].body[i + 1] == Terminal(EPSILON)
  }

  // t stands directly behind n in some sentential form of the grammar.
  ghost predicate CanFollow(g: Grammar, n: nat, t: nat) {
    g.start.Some? && exists u: seq<Symbol>, v: seq<Symbol> ::
      Derives(g, [NonTerminal(g.start.value)], u + [NonTerminal(n), Terminal(t)] + v)
  }

  // n ends some sentential form of the grammar.
  ghost predicate CanEnd(g: Grammar, n: nat) {
    g.start.Some? && exists u: seq<Symbol> ::
      Derives(g, [NonTerminal(g.start.value)], u + [NonTerminal(n)])
  }

  // ---------- ε in FOLLOW ----------

  ghost predicate EpsilonFree(follow: FollowMap) {
    forall n :: n in follow ==> EPSILON !in follow[n]
  }

  // The map with every ε removed solves the inclusions as well.
  lemma WithoutEpsilonSolves(g: Grammar, first: SetMap, follow: FollowMap)
    requires Solution(g, first, follow) && !EpsilonBehindNonTerminal(g)
    ensures Solution(g, first, map n | n in follow :: follow[n] - {EPSILON})
  {
    var h := map n | n in follow :: follow[n] - {EPSILON};
    assert Ready(g, first, h);
    forall k: nat, i: nat | k < |g.productions| && i < |g.productions[k].body|
      ensures PositionClosed(g, first, h, k, i)
    {
      BodyKnown(g, first, follow, k);
      BodyKnown(g, first, h, k);
      var p := g.productions[k];
      if p.body[i].NonTerminal? {
        var suffix := p.body[i + 1..];
        assert !EpsilonBehindAt(g, k, i);
        TrailerMonotone(g, first, h, follow, p.head, suffix);
        assert PositionClosed(g, first, follow, k, i);
      }
    }
  }

  lemma {:induction false} TrailerMonotone(g: Grammar, first: SetMap, f: FollowMap, h: FollowMap, head: nat, suffix: seq<Symbol>)
    requires Ready(g, first, f) && Ready(g, first, h) && Included(f, h)
    requires head in f
    requires forall i :: 0 <= i < |suffix| ==> suffix[i] in first && (suffix[i].NonTerminal? ==> suffix[i].n in f)
    ensures Trailer(first, f, head, suffix) <= Trailer(first, h, head, suffix)
  {
    if suffix != [] {
      TrailerMonotone(g, first, f, h, head, suffix[1..]);
    }
  }

  // ε enters a FOLLOW set exactly if some body writes ε behind a nonterminal.
  lemma FollowHoldsEpsilonIff(g: Grammar, first: SetMap, follow: FollowMap)
    requires LeastSolution(g, first, follow)
    ensures EpsilonFree(follow) <==> !EpsilonBehindNonTerminal(g)
  {
    if EpsilonBehindNonTerminal(g) {
      var k: nat, i: nat :| EpsilonBehindAt(g, k, i);
      BodyKnown(g, first, follow, k);
      assert PositionClosed(g, first, follow, k, i);
      var body := g.productions[k].body;
      assert body[i + 1..][0] == Terminal(EPSILON);
      assert EPSILON in follow[body[i].n];
    } else {
      WithoutEpsilonSolves(g, first, follow);
      var h := map n | n in follow :: follow[n] - {EPSILON};
      assert Included(follow, h);
    }
  }

  // ---------- FOLLOW covers every derivation ----------

  // The terminals that may come first in a, or those of fin where a can vanish.
  function Lookahead(first: SetMap, a: seq<Symbol>, fin: set<nat>): set<nat>
    requires forall i :: 0 <= i < |a| ==> a[i] in first
  {
    var f := FirstOf(first, a);
    if EPSILON in f then f - {EPSILON} + fin else f
  }

  ghost predicate Clean(suffix: seq<Symbol>) {
    forall j :: 0 <= j < |suffix| && suffix[j] == Terminal(EPSILON) ==> j > 0 && suffix[j - 1].Terminal?
  }

  // The trailer covers what can really come next.
  lemma {:induction false} TrailerCovers(g: Grammar, first: SetMap, follow: FollowMap, head: nat, suffix: seq<Symbol>)
    requires Ready(g, first, follow) && EpsilonFree(follow) && head in follow
    requires AllKnown(g, suffix) && Clean(suffix)
    requires forall i :: 0 <= i < |suffix| ==> suffix[i] in first && (suffix[i].NonTerminal? ==> suffix[i].n in follow)
    ensures Lookahead(first, suffix, follow[head]) <= Trailer(first, follow, head, suffix)
  {
    if suffix != [] {
      var s, rest := suffix[0], suffix[1..];
      assert Known(g, s);
      if s.NonTerminal? && EPSILON in first[s] {
        assert forall j :: 0 <= j < |rest| ==> rest[j] == suffix[j + 1];
        assert Clean(rest);
        TrailerCovers(g, first, follow, head, rest);
      }
    }
  }

  // At every nonterminal of the form, FOLLOW holds all that can come next.
  ghost predicate PositionCovered(g: Grammar, first: SetMap, follow: FollowMap, a: seq<Symbol>, i: nat)
    requires Ready(g, first, follow) && AllKnown(g, a) && i < |a|
  {
    KnownInMaps(g, first, follow, a);
    a[i].NonTerminal? ==> Lookahead(first, a[i + 1..], {EOF}) <= follow[a[i].n]
  }

  ghost predicate FormCovered(g: Grammar, first: SetMap, follow: FollowMap, a: seq<Symbol>)
    requires Ready(g, first, follow) && AllKnown(g, a)
  {
    forall i: nat :: i < |a| ==> PositionCovered(g, first, follow, a, i)
  }

  lemma KnownInMaps(g: Grammar, first: SetMap, follow: FollowMap, a: seq<Symbol>)
    requires Ready(g, first, follow) && AllKnown(g, a)
    ensures forall i :: 0 <= i < |a| ==> a[i] in first && (a[i].NonTerminal? ==> a[i].n in follow)
  {
  }

  // Position j of a stripped body is some position i of the body itself.
  lemma {:induction false} StripPosition(body: seq<Symbol>, j: nat) returns (i: nat)
    requires j < |Strip(body)|
    ensures i < |body| && body[i] == Strip(body)[j]
    ensures Strip(body[i + 1..]) == Strip(body)[j + 1..]
  {
    if body[0] == Terminal(EPSILON) {
      i := StripPosition(body[1..], j);
      i := i + 1;
      assert body[i + 1..] == body[1..][i..];
    } else if j == 0 {
      i := 0;
    } else {
      i := StripPosition(body[1..], j - 1);
      i := i + 1;
      assert body[i + 1..] == body[1..][i..];
    }
  }

  // A nonterminal at position i of a body is followed by what its suffix offers.
  lemma SuffixCovered(g: Grammar, first: SetMap, follow: FollowMap, k: nat, i: nat)
    requires Solution(g, first, follow) && !EpsilonBehindNonTerminal(g) && EpsilonFree(follow)
    requires k < |g.productions| && i < |g.productions[k].body| && g.productions[k].body[i].NonTerminal?
    ensures AllKnown(g, g.productions[k].body)
    ensures g.productions[k].head in follow && g.productions[k].body[i].n in follow
    ensures (KnownInMaps(g, first, follow, g.productions[k].body);
      Lookahead(first, g.productions[k].body[i + 1..], follow[g.productions[k].head]) <= follow[g.productions[k].body[i].n])
  {
    var p := g.productions[k];
    BodyKnown(g, first, follow, k);
    KnownInMaps(g, first, follow, p.body);
    var suffix := p.body[i + 1..];
    assert PositionClosed(g, first, follow, k, i);
    forall m | 0 <= m < |suffix| && suffix[m] == Terminal(EPSILON)
      ensures m > 0 && suffix[m - 1].Terminal?
    {
      assert !EpsilonBehindAt(g, k, i + m);
    }
    TrailerCovers(g, first, follow, p.head, suffix);
  }

  lemma BodyPositionCovered(g: Grammar, first: SetMap, follow: FollowMap, k: nat, j: nat, fin: set<nat>)
    requires Solution(g, first, follow) && !EpsilonBehindNonTerminal(g) && EpsilonFree(follow)
    requires k < |g.productions| && j < |Strip(g.productions[k].body)|
    requires Strip(g.productions[k].body)[j].NonTerminal?
    requires g.productions[k].head in follow && fin <= follow[g.productions[k].head]
    ensures var body := Strip(g.productions[k].body);
      && (forall i :: 0 <= i < |body| ==> body[i] in first)
      && body[j].n in follow
      && Lookahead(first, body[j + 1..], fin) <= follow[body[j].n]
  {
    var p := g.productions[k];
    BodyKnown(g, first, follow, k);
    KnownInMaps(g, first, follow, p.body);
    var i := StripPosition(p.body, j);
    SuffixCovered(g, first, follow, k, i);
    FirstOfStrip(g, first, p.body[i + 1..]);
    FirstOfStrip(g, first, p.body);
  }

  lemma PositionBeforeCovered(g: Grammar, first: SetMap, follow: FollowMap, a: seq<Symbol>, i: nat, k: nat, j: nat)
    requires Ready(g, first, follow) && Closed(g, first)
    requires AllKnown(g, a) && CanRewrite(g, a, i, k) && AllKnown(g, Rewrite(g, a, i, k))
    requires j < i && PositionCovered(g, first, follow, a, j)
    ensures PositionCovered(g, first, follow, Rewrite(g, a, i, k), j)
  {
    var b, rest := Rewrite(g, a, i, k), a[j + 1..];
    KnownInMaps(g, first, follow, a);
    KnownInMaps(g, first, follow, b);
    assert AllKnown(g, rest) && CanRewrite(g, rest, i - j - 1, k);
    RewriteShrinksFirst(g, first, rest, i - j - 1, k);
    assert rest[..i - j - 1] == a[j + 1..i] && rest[i - j..] == a[i + 1..];
    assert b[j + 1..] == Rewrite(g, rest, i - j - 1, k);
    KnownInMaps(g, first, follow, b[j + 1..]);
  }

  lemma PositionInsideCovered(g: Grammar, first: SetMap, follow: FollowMap, a: seq<Symbol>, i: nat, k: nat, j: nat)
    requires Solution(g, first, follow) && !EpsilonBehindNonTerminal(g) && EpsilonFree(follow)
    requires AllKnown(g, a) && CanRewrite(g, a, i, k) && AllKnown(g, Rewrite(g, a, i, k))
    requires i <= j < i + |Strip(g.productions[k].body)| && PositionCovered(g, first, follow, a, i)
    ensures PositionCovered(g, first, follow, Rewrite(g, a, i, k), j)
  {
    var b, body, v := Rewrite(g, a, i, k), Strip(g.productions[k].body), a[i + 1..];
    KnownInMaps(g, first, follow, a);
    KnownInMaps(g, first, follow, b);
    assert b[j] == body[j - i];
    if b[j].NonTerminal? {
      BodyPositionCovered(g, first, follow, k, j - i, Lookahead(first, v, {EOF}));
      assert AllKnown(g, body) by {
        assert forall m :: 0 <= m < |body| ==> body[m] == b[i + m];
      }
      assert b[j + 1..] == body[j - i + 1..] + v;
      FirstOfConcat(g, first, body[j - i + 1..], v);
    }
  }

  lemma RewriteCovered(g: Grammar, first: SetMap, follow: FollowMap, a: seq<Symbol>, i: nat, k: nat)
    requires Solution(g, first, follow) && Closed(g, first)
    requires !EpsilonBehindNonTerminal(g) && EpsilonFree(follow)
    requires AllKnown(g, a) && CanRewrite(g, a, i, k) && FormCovered(g, first, follow, a)
    ensures AllKnown(g, Rewrite(g, a, i, k)) && FormCovered(g, first, follow, Rewrite(g, a, i, k))
  {
    RewriteShrinksFirst(g, first, a, i, k);
    var b, size := Rewrite(g, a, i, k), |Strip(g.productions[k].body)|;
    forall j: nat | j < |b| ensures PositionCovered(g, first, follow, b, j) {
      if j < i {
        PositionBeforeCovered(g, first, follow, a, i, k, j);
      } else if j < i + size {
        PositionInsideCovered(g, first, follow, a, i, k, j);
      } else {
        var m := j - size + 1;
        assert PositionCovered(g, first, follow, a, m);
        assert b[j + 1..] == a[m + 1..];
      }
    }
  }

  lemma {:induction false} DerivationCovered(g: Grammar, first: SetMap, follow: FollowMap, a: seq<Symbol>, b: seq<Symbol>, n: nat)
    requires Solution(g, first, follow) && Closed(g, first)
    requires !EpsilonBehindNonTerminal(g) && EpsilonFree(follow)
    requires AllKnown(g, a) && FormCovered(g, first, follow, a) && DerivesIn(g, a, b, n)
    ensures AllKnown(g, b) && FormCovered(g, first, follow, b)
    decreases n
  {
    hide Solution, Closed, FormCovered, AllKnown, EpsilonFree, EpsilonBehindNonTerminal, Rewrite;
    if n > 0 {
      var c :| Step(g, a, c) && DerivesIn(g, c, b, n - 1);
      var i: nat, k: nat :| CanRewrite(g, a, i, k) && c == Rewrite(g, a, i, k);
      RewriteCovered(g, first, follow, a, i, k);
      DerivationCovered(g, first, follow, c, b, n - 1);
    }
  }

  lemma StartFormCovered(g: Grammar, first: SetMap, follow: FollowMap, b: seq<Symbol>)
    requires Solution(g, first, follow) && Closed(g, first)
    requires !EpsilonBehindNonTerminal(g) && EpsilonFree(follow)
    requires g.start.Some? && Derives(g, [NonTerminal(g.start.value)], b)
    ensures AllKnown(g, b) && FormCovered(g, first, follow, b)
  {
    var a := [NonTerminal(g.start.value)];
    assert PositionCovered(g, first, follow, a, 0) by {
      assert a[1..] == [];
    }
    var n: nat :| DerivesIn(g, a, b, n);
    DerivationCovered(g, first, follow, a, b, n);
  }

  lemma {:induction false} FormsHoldNoEpsilon(g: Grammar, a: seq<Symbol>, b: seq<Symbol>, n: nat)
    requires DerivesIn(g, a, b, n) && Terminal(EPSILON) !in a
    ensures Terminal(EPSILON) !in b
    decreases n
  {
    if n > 0 {
      var c :| Step(g, a, c) && DerivesIn(g, c, b, n - 1);
      FormsHoldNoEpsilon(g, c, b, n - 1);
    }
  }

  // The computed sets contain every terminal, and the end of input, that can come
  // behind a nonterminal in a sentential form.
  lemma FollowIsSafe(g: Grammar, first: SetMap, follow: FollowMap, n: nat, t: nat)
    requires LeastSolution(g, first, follow) && Closed(g, first)
    requires !EpsilonBehindNonTerminal(g)
    ensures EpsilonFree(follow)
    ensures CanFollow(g, n, t) ==> n in follow && t in follow[n]
    ensures CanEnd(g, n) ==> n in follow && EOF in follow[n]
  {
    FollowHoldsEpsilonIff(g, first, follow);
    if CanFollow(g, n, t) {
      var u: seq<Symbol>, v: seq<Symbol> :|
        Derives(g, [NonTerminal(g.start.value)], u + [NonTerminal(n), Terminal(t)] + v);
      var b := u + [NonTerminal(n), Terminal(t)] + v;
      var m: nat :| DerivesIn(g, [NonTerminal(g.start.value)], b, m);
      FormsHoldNoEpsilon(g, [NonTerminal(g.start.value)], b, m);
      assert b[|u| + 1] == Terminal(t);
      StartFormCovered(g, first, follow, b);
      KnownInMaps(g, first, follow, b);
      assert PositionCovered(g, first, follow, b, |u|);
      assert b[|u|] == NonTerminal(n) && b[|u| + 1] == Terminal(t);
      assert Known(g, b[|u| + 1]);
      assert b[|u| + 1..][0] == Terminal(t);
    }
    if CanEnd(g, n) {
      var u: seq<Symbol> :| Derives(g, [NonTerminal(g.start.value)], u + [NonTerminal(n)]);
      var b := u + [NonTerminal(n)];
      StartFormCovered(g, first, follow, b);
      KnownInMaps(g, first, follow, b);
      assert PositionCovered(g, first, follow, b, |u|);
      assert b[|u| + 1..] == [];
    }
  }

  // Where a body does write ε behind a nonterminal, terminals get lost: in
  // S = B ε c, B = b the sets are least, c comes behind B, and c is not in FOLLOW(B).
  lemma EpsilonBehindLosesTerminals() returns (g: Grammar, first: SetMap, follow: FollowMap)
    ensures WellFormed(g) && EpsilonBehindNonTerminal(g)
    ensures Covers(g, first) && Closed(g, first) && LeastSolution(g, first, follow)
    ensures 1 in follow && CanFollow(g, 1, 3) && 3 !in follow[1]
  {
    var s, b := NonTerminal(0), NonTerminal(1);
    var p0 := Production(0, [b, Terminal(EPSILON), Terminal(3)]);
    var p1 := Production(1, [Terminal(2)]);
    g := Grammar({EPSILON, EOF, 2, 3}, {0, 1}, [p0, p1], Some(0));
    first := map[Terminal(EPSILON) := {EPSILON}, Terminal(EOF) := {EOF}, Terminal(2) := {2}, Terminal(3) := {3},
                 s := {2}, b := {2}];
    follow := map[0 := {EOF}, 1 := {EPSILON}];
    assert EpsilonBehindAt(g, 0, 0);
    forall k | 0 <= k < 2 ensures WellFormedProduction(g, g.productions[k]) {
      forall i | 0 <= i < |g.productions[k].body| ensures Known(g, g.productions[k].body[i]) {}
    }
    assert Ready(g, first, follow);
    forall k: nat, i: nat | k < 2 && i < |g.productions[k].body| ensures PositionClosed(g, first, follow, k, i) {
      assert p0.body[1..][0] == Terminal(EPSILON);
    }
    forall h | Solution(g, first, h) ensures Included(follow, h) {
      assert PositionClosed(g, first, h, 0, 0);
      assert p0.body[1..][0] == Terminal(EPSILON);
    }
    assert Strip([Terminal(3)]) == [Terminal(3)];
    assert p0.body[1..] == [Terminal(EPSILON), Terminal(3)] && p0.body[1..][1..] == [Terminal(3)];
    assert Strip(p0.body) == [b, Terminal(3)];
    DerivesByProduction(g, 0);
    assert [] + [b, Terminal(3)] + [] == [b, Terminal(3)];
  }
}
