// computeFollowSets (utils/grammar/Validator.cpp:57-101).
module FollowSets {
  import opened Wrappers
  import opened Grammars
  import opened FirstSets

  type FollowMap = map<nat, set<nat>>

  ghost predicate CoversNonTerminals(g: Grammar, follow: FollowMap) {
    && follow.Keys == g.nonterminals
    && forall n :: n in g.nonterminals ==> follow[n] <= g.terminals
  }

  ghost predicate Ready(g: Grammar, first: SetMap, follow: FollowMap) {
    WellFormed(g) && Covers(g, first) && CoversNonTerminals(g, follow)
  }

  // The running trailer after the symbols of a body suffix have been read from the
  // right. For a nullable nonterminal it keeps FOLLOW of that nonterminal as well:
  // the source merges it into the same set (Validator.cpp:78-79).
  function Trailer(first: SetMap, follow: FollowMap, head: nat, suffix: seq<Symbol>): set<nat>
    requires head in follow
    requires forall i :: 0 <= i < |suffix| ==> suffix[i] in first && (suffix[i].NonTerminal? ==> suffix[i].n in follow)
  {
    if suffix == [] then follow[head]
    else
      var s := suffix[0];
      if s.NonTerminal? && EPSILON in first[s] then
        Trailer(first, follow, head, suffix[1..]) + follow[s.n] + first[s] - {EPSILON}
      else first[s]
  }

  lemma BodyKnown(g: Grammar, first: SetMap, follow: FollowMap, k: nat)
    requires Ready(g, first, follow) && k < |g.productions|
    ensures var p := g.productions[k];
      && p.head in follow && p.body != []
      && forall i :: 0 <= i < |p.body| ==>
           Known(g, p.body[i]) && p.body[i] in first && (p.body[i].NonTerminal? ==> p.body[i].n in follow)
  {
  }

  // The inclusion that production k, position i, asks for.
  ghost predicate PositionClosed(g: Grammar, first: SetMap, follow: FollowMap, k: nat, i: nat)
    requires Ready(g, first, follow) && k < |g.productions| && i < |g.productions[k].body|
  {
    BodyKnown(g, first, follow, k);
    var p := g.productions[k];
    p.body[i].NonTerminal? ==> Trailer(first, follow, p.head, p.body[i + 1..]) <= follow[p.body[i].n]
  }

  ghost predicate FollowClosed(g: Grammar, first: SetMap, follow: FollowMap)
    requires Ready(g, first, follow)
  {
    forall k: nat, i: nat :: k < |g.productions| && i < |g.productions[k].body| ==> PositionClosed(g, first, follow, k, i)
  }

  // A solution of all inclusions, with the end of input after the start symbol.
  ghost predicate Solution(g: Grammar, first: SetMap, follow: FollowMap) {
    && Ready(g, first, follow)
    && FollowClosed(g, first, follow)
    && (g.start.Some? ==> EOF in follow[g.start.value])
  }

  ghost predicate Included(f: FollowMap, h: FollowMap) {
    f.Keys == h.Keys && forall n :: n in f ==> f[n] <= h[n]
  }

  ghost predicate BelowEverySolution(g: Grammar, first: SetMap, follow: FollowMap) {
    forall h :: Solution(g, first, h) ==> Included(follow, h)
  }

  ghost predicate LeastSolution(g: Grammar, first: SetMap, follow: FollowMap) {
    Solution(g, first, follow) && BelowEverySolution(g, first, follow)
  }

  // The trailer the loop holds before position i is no larger than that of any solution.
  ghost predicate TrailerBelow(g: Grammar, first: SetMap, lhs: set<nat>, k: nat, i: nat)
    requires k < |g.productions| && i <= |g.productions[k].body|
  {
    forall h :: Solution(g, first, h) ==>
      (BodyKnown(g, first, h, k);
       lhs <= Trailer(first, h, g.productions[k].head, g.productions[k].body[i..]))
  }

  ghost function FollowPairs(follow: FollowMap): set<(nat, nat)> {
    set n, t | n in follow && t in follow[n] :: (n, t)
  }

  lemma GrowthOfPairs(follow: FollowMap, n: nat, lhs: set<nat>)
    requires n in follow && follow[n] <= lhs && |lhs| != |follow[n]|
    ensures FollowPairs(follow) < FollowPairs(follow[n := lhs])
  {
    assert lhs == follow[n] + (lhs - follow[n]);
    var t :| t in lhs && t !in follow[n];
    assert (n, t) in FollowPairs(follow[n := lhs]) && (n, t) !in FollowPairs(follow);
  }

  // One symbol of a body, read right to left (Validator.cpp:74-96).
  method VisitSymbol(g: Grammar, first: SetMap, follow: FollowMap, k: nat, i: nat, trailer: set<nat>)
    returns (next: FollowMap, lhs: set<nat>, grown: bool)
    requires Ready(g, first, follow) && k < |g.productions| && i < |g.productions[k].body|
    requires trailer <= g.terminals
    requires BelowEverySolution(g, first, follow) && TrailerBelow(g, first, trailer, k, i + 1)
    ensures Ready(g, first, next) && lhs <= g.terminals
    ensures forall n :: n in follow ==> follow[n] <= next[n]
    ensures BelowEverySolution(g, first, next) && TrailerBelow(g, first, lhs, k, i)
    ensures grown ==> FollowPairs(follow) < FollowPairs(next)
    ensures !grown ==> next == follow
    ensures (BodyKnown(g, first, follow, k); BodyKnown(g, first, next, k);
      var p := g.productions[k];
      !grown && trailer == Trailer(first, follow, p.head, p.body[i + 1..]) ==>
        PositionClosed(g, first, follow, k, i) && lhs == Trailer(first, follow, p.head, p.body[i..]))
  {
    BodyKnown(g, first, follow, k);
    ghost var p := g.productions[k];
    assert p.body[i..][1..] == p.body[i + 1..];
    next, grown, lhs := follow, false, trailer;
    var symbol := g.productions[k].body[i];
    if symbol.NonTerminal? {
      var followSet := follow[symbol.n];
      lhs := lhs + followSet;
      forall h | Solution(g, first, h) ensures lhs <= h[symbol.n] {
        BodyKnown(g, first, h, k);
        assert PositionClosed(g, first, h, k, i);
        assert Included(follow, h);
      }
      if |lhs| != |followSet| {
        grown := true;
        GrowthOfPairs(follow, symbol.n, lhs);
        next := follow[symbol.n := lhs];
        forall h | Solution(g, first, h) ensures Included(next, h) {
          assert Included(follow, h);
        }
      } else {
        SameSize(followSet, lhs);
      }
      var firstSet := first[symbol];
      if EPSILON in firstSet {
        lhs := lhs + firstSet;
        lhs := lhs - {EPSILON};
      } else {
        lhs := firstSet;
      }
    } else {
      lhs := first[symbol];
    }
    forall h | Solution(g, first, h)
      ensures (BodyKnown(g, first, h, k); lhs <= Trailer(first, h, p.head, p.body[i..]))
    {
      BodyKnown(g, first, h, k);
      assert Included(follow, h);
      assert trailer <= Trailer(first, h, p.head, p.body[i + 1..]);
    }
  }

  method VisitProduction(g: Grammar, first: SetMap, follow: FollowMap, k: nat)
    returns (next: FollowMap, grown: bool)
    requires Ready(g, first, follow) && k < |g.productions| && BelowEverySolution(g, first, follow)
    ensures Ready(g, first, next) && BelowEverySolution(g, first, next)
    ensures forall n :: n in follow ==> follow[n] <= next[n]
    ensures grown ==> FollowPairs(follow) < FollowPairs(next)
    ensures !grown ==> next == follow && forall i: nat :: i < |g.productions[k].body| ==> PositionClosed(g, first, follow, k, i)
  {
    BodyKnown(g, first, follow, k);
    var p := g.productions[k];
    var lhs := follow[p.head];
    next, grown := follow, false;
    var count := |p.body|;
    assert p.body[count..] == [];
    forall h | Solution(g, first, h)
      ensures (BodyKnown(g, first, h, k); lhs <= Trailer(first, h, p.head, p.body[count..]))
    {
      BodyKnown(g, first, h, k);
      assert Included(follow, h);
    }
    for j := 0 to count
      invariant Ready(g, first, next) && BelowEverySolution(g, first, next)
      invariant forall n :: n in follow ==> follow[n] <= next[n]
      invariant lhs <= g.terminals && TrailerBelow(g, first, lhs, k, count - j)
      invariant grown ==> FollowPairs(follow) < FollowPairs(next)
      invariant !grown ==> next == follow
      invariant !grown ==> lhs == Trailer(first, follow, p.head, p.body[count - j..])
      invariant !grown ==> forall i: nat :: count - j <= i < count ==> PositionClosed(g, first, follow, k, i)
    {
      var more;
      next, lhs, more := VisitSymbol(g, first, next, k, count - j - 1, lhs);
      grown := grown || more;
    }
  }

  method ComputeFollowSets(g: Grammar, first: SetMap) returns (follow: FollowMap)
    requires WellFormed(g) && Covers(g, first)
    ensures LeastSolution(g, first, follow)
  {
    follow := map n | n in g.nonterminals :: {};
    if g.start.Some? {
      follow := follow[g.start.value := {EOF}];
    }
    var changes := true;
    while changes
      invariant Ready(g, first, follow) && BelowEverySolution(g, first, follow)
      invariant g.start.Some? ==> EOF in follow[g.start.value]
      invariant !changes ==> FollowClosed(g, first, follow)
      decreases AllPairs(g) - FollowPairs(follow), changes
    {
      changes := false;
      ghost var before := follow;
      for k := 0 to |g.productions|
        invariant Ready(g, first, follow) && BelowEverySolution(g, first, follow)
        invariant g.start.Some? ==> EOF in follow[g.start.value]
        invariant changes ==> FollowPairs(before) < FollowPairs(follow)
        invariant !changes ==> follow == before && forall m: nat, i: nat ::
          m < k && i < |g.productions[m].body| ==> PositionClosed(g, first, follow, m, i)
      {
        var grown;
        follow, grown := VisitProduction(g, first, follow, k);
        changes := changes || grown;
      }
    }
  }
}
