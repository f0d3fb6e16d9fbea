// What FOLLOW holds, without the running trailer: the terminals that the productions give
// reason for, with derivations for FIRST and for the nullable symbols.
module FollowExact {
  import opened Wrappers
  import opened Grammars
  import opened FirstSets
  import opened FollowSets
  import opened FollowMeaning

  ghost predicate Nullable(g: Grammar, s: Symbol) {
    s.NonTerminal? && Derives(g, [s], [])
  }

  // t begins what s stands for; ε counts as a terminal of its own.
  ghost predicate Begins(g: Grammar, s: Symbol, t: nat) {
    if s.Terminal? then t == s.t else InFirst(g, [s], t)
  }

  // Within d steps there is reason for t behind n: n is the start symbol, and t the end of
  // the text; or some body has n, and behind it something that begins with t.
  ghost predicate Behind(g: Grammar, n: nat, t: nat, d: nat)
    decreases d, 1
  {
    || (g.start == Some(n) && t == EOF)
    || (d > 0 && SomePlace(g, n, t, d - 1))
  }

  ghost predicate SomePlace(g: Grammar, n: nat, t: nat, d: nat)
    decreases d, 4
  {
    exists k: nat, i: nat, m: nat :: Place(g, k, i, m, n, t, d)
  }

  // The body of production k has n at position i, and behind it, up to position m, t.
  ghost predicate Place(g: Grammar, k: nat, i: nat, m: nat, n: nat, t: nat, d: nat)
    decreases d, 3
  {
    k < |g.productions| && i < |g.productions[k].body| && g.productions[k].body[i] == NonTerminal(n) && Reaches(g, k, i + 1, m, t, d)
  }

  // From position j of production k on there are nullable nonterminals up to position m;
  // there t begins the symbol, or comes behind it if it is nullable, or behind the head at
  // the end. What is nullable does not let ε through.
  ghost predicate Reaches(g: Grammar, k: nat, j: nat, m: nat, t: nat, d: nat)
    requires k < |g.productions|
    decreases d, 2
  {
    var p := g.productions[k];
    && j <= m <= |p.body| && (forall i :: j <= i < m ==> Nullable(g, p.body[i])) && (m > j ==> t != EPSILON)
    && if m == |p.body| then Behind(g, p.head, t, d)
       else if Nullable(g, p.body[m]) then t != EPSILON && (Begins(g, p.body[m], t) || Behind(g, p.body[m].n, t, d))
       else Begins(g, p.body[m], t)
  }

  ghost predicate HasReason(g: Grammar, n: nat, t: nat) {
    exists d: nat :: Behind(g, n, t, d)
  }

  lemma {:induction false} FirstMeans(g: Grammar, first: SetMap, s: Symbol, t: nat)
    requires WellFormed(g) && Covers(g, first) && Exact(g, first) && Known(g, s)
    ensures s in first && (t in first[s] <==> Begins(g, s, t))
    ensures s.NonTerminal? ==> (EPSILON in first[s] <==> Nullable(g, s))
  {
  }

  // ---------- every reason is good ----------

  lemma {:induction false} ReasonHolds(g: Grammar, first: SetMap, follow: FollowMap, n: nat, t: nat, d: nat)
    requires Solution(g, first, follow) && Exact(g, first) && n in g.nonterminals && Behind(g, n, t, d)
    ensures t in follow[n]
    decreases d, 1
  {
    hide Exact, Reaches;
    if !(g.start == Some(n) && t == EOF) {
      var k: nat, i: nat, m: nat :| Place(g, k, i, m, n, t, d - 1);
      BodyKnown(g, first, follow, k);
      assert PositionClosed(g, first, follow, k, i);
      ReachHolds(g, first, follow, k, i + 1, m, t, d - 1);
    }
  }

  lemma {:induction false} ReachHolds(g: Grammar, first: SetMap, follow: FollowMap, k: nat, j: nat, m: nat, t: nat, d: nat)
    requires Solution(g, first, follow) && Exact(g, first) && k < |g.productions| && Reaches(g, k, j, m, t, d)
    ensures (BodyKnown(g, first, follow, k); t in Trailer(first, follow, g.productions[k].head, g.productions[k].body[j..]))
    decreases d, 2, m - j
  {
    BodyKnown(g, first, follow, k);
    var p := g.productions[k];
    if m == |p.body| == j {
      ReasonHolds(g, first, follow, p.head, t, d);
    } else {
      FirstMeans(g, first, p.body[j], t);
      assert p.body[j..][0] == p.body[j] && p.body[j..][1..] == p.body[j + 1..];
      hide Exact, Solution, Begins;
      if m > j {
        ReachHolds(g, first, follow, k, j + 1, m, t, d);
      } else if Nullable(g, p.body[j]) && !Begins(g, p.body[j], t) {
        ReasonHolds(g, first, follow, p.body[j].n, t, d);
      }
    }
  }

  // ---------- nothing else is in the least solution ----------

  ghost function Reasons(g: Grammar): FollowMap {
    map n | n in g.nonterminals :: set t | t in g.terminals && HasReason(g, n, t)
  }

  lemma {:induction false} MoreSteps(g: Grammar, n: nat, t: nat, d: nat, e: nat)
    requires Behind(g, n, t, d) && d <= e
    ensures Behind(g, n, t, e)
    decreases d
  {
    if !(g.start == Some(n) && t == EOF) {
      var k: nat, i: nat, m: nat :| Place(g, k, i, m, n, t, d - 1);
      var p := g.productions[k];
      assert Reaches(g, k, i + 1, m, t, d - 1);
      if m == |p.body| {
        MoreSteps(g, p.head, t, d - 1, e - 1);
      } else if Nullable(g, p.body[m]) && !Begins(g, p.body[m], t) {
        MoreSteps(g, p.body[m].n, t, d - 1, e - 1);
      }
      assert Place(g, k, i, m, n, t, e - 1);
    }
  }

  lemma {:induction false} TrailerReached(g: Grammar, first: SetMap, k: nat, j: nat, t: nat) returns (m: nat, d: nat)
    requires WellFormed(g) && Covers(g, first) && Exact(g, first) && Ready(g, first, Reasons(g))
    requires k < |g.productions| && j <= |g.productions[k].body|
    requires (BodyKnown(g, first, Reasons(g), k); t in Trailer(first, Reasons(g), g.productions[k].head, g.productions[k].body[j..]))
    ensures Reaches(g, k, j, m, t, d)
    decreases |g.productions[k].body| - j
  {
    var p, h := g.productions[k], Reasons(g);
    BodyKnown(g, first, h, k);
    m, d := j, 0;
    if j == |p.body| {
      assert HasReason(g, p.head, t);
      d :| Behind(g, p.head, t, d);
    } else {
      FirstMeans(g, first, p.body[j], t);
      assert p.body[j..][0] == p.body[j] && p.body[j..][1..] == p.body[j + 1..];
      hide Exact, Begins;
      if Nullable(g, p.body[j]) && !Begins(g, p.body[j], t) {
        if t in h[p.body[j].n] {
          assert HasReason(g, p.body[j].n, t);
          d :| Behind(g, p.body[j].n, t, d);
        } else {
          m, d := TrailerReached(g, first, k, j + 1, t);
        }
      }
    }
  }

  lemma {:induction false} ReasonsSolve(g: Grammar, first: SetMap)
    requires WellFormed(g) && Covers(g, first) && Exact(g, first)
    ensures Solution(g, first, Reasons(g))
  {
    hide Exact, Reaches;
    var h := Reasons(g);
    assert Ready(g, first, h);
    forall k: nat, i: nat | k < |g.productions| && i < |g.productions[k].body| ensures PositionClosed(g, first, h, k, i) {
      BodyKnown(g, first, h, k);
      var p := g.productions[k];
      if p.body[i].NonTerminal? {
        TrailerKnown(g, first, h, p.head, p.body[i + 1..]);
        forall t | t in Trailer(first, h, p.head, p.body[i + 1..]) ensures t in h[p.body[i].n] {
          var m, d := TrailerReached(g, first, k, i + 1, t);
          assert Place(g, k, i, m, p.body[i].n, t, d) && Behind(g, p.body[i].n, t, d + 1);
        }
      }
    }
    assert g.start.Some? ==> Behind(g, g.start.value, EOF, 0);
  }

  lemma {:induction false} TrailerKnown(g: Grammar, first: SetMap, follow: FollowMap, head: nat, suffix: seq<Symbol>)
    requires Ready(g, first, follow) && head in follow && AllKnown(g, suffix)
    requires forall i :: 0 <= i < |suffix| ==> suffix[i] in first && (suffix[i].NonTerminal? ==> suffix[i].n in follow)
    ensures Trailer(first, follow, head, suffix) <= g.terminals
  {
    if suffix != [] {
      assert Known(g, suffix[0]);
      TrailerKnown(g, first, follow, head, suffix[1..]);
    }
  }

  // FOLLOW is exact: t is in FOLLOW(n) if and only if there is reason for it.
  lemma {:induction false} FollowIsExact(g: Grammar, first: SetMap, follow: FollowMap, n: nat, t: nat)
    requires LeastSolution(g, first, follow) && Exact(g, first) && n in g.nonterminals
    ensures t in follow[n] <==> HasReason(g, n, t)
  {
    hide Exact, Behind;
    if HasReason(g, n, t) {
      var d: nat :| Behind(g, n, t, d);
      ReasonHolds(g, first, follow, n, t, d);
    }
    if t in follow[n] {
      ReasonsSolve(g, first);
      assert Included(follow, Reasons(g));
    }
  }
}
