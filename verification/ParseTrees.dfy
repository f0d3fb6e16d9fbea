// Parse trees, and their agreement with derivations.
module ParseTrees {
  import opened Wrappers
  import opened Grammars

  // A leaf is a terminal; a node names the production it was built with.
  datatype Tree = Leaf(t: nat) | Node(k: nat, kids: seq<Tree>)

  ghost predicate Valid(g: Grammar, x: Tree) {
    match x
    case Leaf(_) => true
    case Node(k, kids) =>
      k < |g.productions| && ValidForest(g, kids, g.productions[k].body)
  }

  // The trees have the given roots, one by one.
  ghost predicate ValidForest(g: Grammar, xs: seq<Tree>, roots: seq<Symbol>) {
    && |xs| == |roots|
    && (xs != [] ==> Valid(g, xs[0]) && Root(g, xs[0]) == roots[0] && ValidForest(g, xs[1..], roots[1..]))
  }

  ghost function Root(g: Grammar, x: Tree): Symbol
    requires x.Node? ==> x.k < |g.productions|
  {
    match x
    case Leaf(t) => Terminal(t)
    case Node(k, _) => NonTerminal(g.productions[k].head)
  }

  function Yield(x: Tree): seq<nat> {
    match x
    case Leaf(t) => if t == EPSILON then [] else [t]
    case Node(_, kids) => ForestYield(kids)
  }

  function ForestYield(xs: seq<Tree>): seq<nat> {
    if xs == [] then [] else Yield(xs[0]) + ForestYield(xs[1..])
  }

  function Terminals(w: seq<nat>): (a: seq<Symbol>)
    ensures |a| == |w| && forall i :: 0 <= i < |w| ==> a[i] == Terminal(w[i])
  {
    seq(|w|, i requires 0 <= i < |w| => Terminal(w[i]))
  }

  // ---------- every tree is a derivation ----------

  lemma {:induction false} TreeDerives(g: Grammar, x: Tree)
    requires Valid(g, x)
    ensures Derives(g, Strip([Root(g, x)]), Terminals(Yield(x)))
    decreases x
  {
    match x {
      case Leaf(t) =>
        assert Strip([Terminal(t)]) == Terminals(Yield(x));
        DerivesReflexive(g, Terminals(Yield(x)));
      case Node(k, kids) =>
        var a := [Root(g, x)];
        assert Strip(a) == a;
        DerivesByProduction(g, k);
        ForestDerives(g, kids, g.productions[k].body);
        DerivesTransitive(g, a, Strip(g.productions[k].body), Terminals(Yield(x)));
    }
  }

  lemma {:induction false} ForestDerives(g: Grammar, xs: seq<Tree>, roots: seq<Symbol>)
    requires ValidForest(g, xs, roots)
    ensures Derives(g, Strip(roots), Terminals(ForestYield(xs)))
    decreases xs
  {
    hide Valid, Yield, Root, Derives, Terminals;
    if xs == [] {
      assert Terminals([]) == [];
      DerivesReflexive(g, []);
    } else {
      hide Strip;
      var w, v := Terminals(Yield(xs[0])), Terminals(ForestYield(xs[1..]));
      TreeDerives(g, xs[0]);
      ForestDerives(g, xs[1..], roots[1..]);
      assert roots == [roots[0]] + roots[1..];
      StripConcat([roots[0]], roots[1..]);
      DerivesConcat(g, Strip([roots[0]]), w, Strip(roots[1..]), v);
      TerminalsConcat(Yield(xs[0]), ForestYield(xs[1..]));
    }
  }

  lemma {:induction false} TerminalsConcat(u: seq<nat>, v: seq<nat>)
    ensures Terminals(u + v) == Terminals(u) + Terminals(v)
  {
  }

  // ---------- every derivation of a word is a tree ----------

  lemma {:induction false} ForestSplit(g: Grammar, xs: seq<Tree>, a: seq<Symbol>, b: seq<Symbol>)
    requires ValidForest(g, xs, a + b)
    ensures ValidForest(g, xs[..|a|], a) && ValidForest(g, xs[|a|..], b)
    ensures ForestYield(xs) == ForestYield(xs[..|a|]) + ForestYield(xs[|a|..])
  {
    hide Valid, Yield, Root;
    if a == [] {
      assert a + b == b && xs[0..] == xs;
    } else {
      assert (a + b)[1..] == a[1..] + b && (a + b)[0] == a[0];
      ForestSplit(g, xs[1..], a[1..], b);
      var us, vs := xs[..|a|], xs[|a|..];
      assert xs[1..][..|a| - 1] == us[1..] && xs[1..][|a| - 1..] == vs && us[0] == xs[0];
      Regrouped(Yield(xs[0]), ForestYield(us[1..]), ForestYield(vs));
    }
  }

  lemma {:induction false} Regrouped(u: seq<nat>, v: seq<nat>, w: seq<nat>)
    ensures u + v + w == u + (v + w)
  {
  }

  lemma {:induction false} ForestJoin(g: Grammar, xs: seq<Tree>, a: seq<Symbol>, ys: seq<Tree>, b: seq<Symbol>)
    requires ValidForest(g, xs, a) && ValidForest(g, ys, b)
    ensures ValidForest(g, xs + ys, a + b)
    ensures ForestYield(xs + ys) == ForestYield(xs) + ForestYield(ys)
  {
    hide Valid, Yield, Root;
    if xs == [] {
      assert xs + ys == ys && a + b == b;
    } else {
      ForestJoin(g, xs[1..], a[1..], ys, b);
      assert (xs + ys)[1..] == xs[1..] + ys && (a + b)[1..] == a[1..] + b;
      Regrouped(Yield(xs[0]), ForestYield(xs[1..]), ForestYield(ys));
    }
  }

  // Leaves for the ε terminals of a body are put back where they were stripped.
  lemma {:induction false} Unstrip(g: Grammar, xs: seq<Tree>, body: seq<Symbol>) returns (ys: seq<Tree>)
    requires ValidForest(g, xs, Strip(body))
    ensures ValidForest(g, ys, body) && ForestYield(ys) == ForestYield(xs)
  {
    if body == [] {
      ys := [];
    } else if body[0] == Terminal(EPSILON) {
      var rest := Unstrip(g, xs, body[1..]);
      ys := [Leaf(EPSILON)] + rest;
    } else {
      assert Strip(body)[1..] == Strip(body[1..]);
      var rest := Unstrip(g, xs[1..], body[1..]);
      ys := [xs[0]] + rest;
    }
  }

  lemma {:induction false} LeafForest(g: Grammar, w: seq<nat>) returns (xs: seq<Tree>)
    requires EPSILON !in w
    ensures ValidForest(g, xs, Terminals(w)) && ForestYield(xs) == w
  {
    if w == [] {
      xs := [];
    } else {
      assert Terminals(w)[1..] == Terminals(w[1..]);
      var rest := LeafForest(g, w[1..]);
      xs := [Leaf(w[0])] + rest;
    }
  }

  // The trees grown from one body are gathered under a node for their production.
  lemma GatherKids(g: Grammar, ys: seq<Tree>, k: nat) returns (xs: seq<Tree>)
    requires k < |g.productions| && ValidForest(g, ys, Strip(g.productions[k].body))
    ensures ValidForest(g, xs, [NonTerminal(g.productions[k].head)]) && ForestYield(xs) == ForestYield(ys)
  {
    var kids := Unstrip(g, ys, g.productions[k].body);
    var node := Node(k, kids);
    xs := [node];
    var roots := [NonTerminal(g.productions[k].head)];
    assert xs[1..] == [] && roots[1..] == [];
    assert ValidForest(g, xs[1..], roots[1..]) && Valid(g, node);
    assert ForestYield(xs[1..]) == [];
  }

  lemma Cut(g: Grammar, xs: seq<Tree>, a: seq<Symbol>, b: seq<Symbol>) returns (us: seq<Tree>, vs: seq<Tree>)
    requires ValidForest(g, xs, a + b)
    ensures ValidForest(g, us, a) && ValidForest(g, vs, b)
    ensures ForestYield(xs) == ForestYield(us) + ForestYield(vs)
  {
    ForestSplit(g, xs, a, b);
    us, vs := xs[..|a|], xs[|a|..];
  }

  lemma ForestUndoRewrite(g: Grammar, ys: seq<Tree>, u: seq<Symbol>, k: nat, v: seq<Symbol>) returns (xs: seq<Tree>)
    requires k < |g.productions| && ValidForest(g, ys, u + (Strip(g.productions[k].body) + v))
    ensures ValidForest(g, xs, u + ([NonTerminal(g.productions[k].head)] + v)) && ForestYield(xs) == ForestYield(ys)
  {
    var us, zs := Cut(g, ys, u, Strip(g.productions[k].body) + v);
    var bs, vs := Cut(g, zs, Strip(g.productions[k].body), v);
    var mid := GatherKids(g, bs, k);
    ForestJoin(g, mid, [NonTerminal(g.productions[k].head)], vs, v);
    ForestJoin(g, us, u, mid + vs, [NonTerminal(g.productions[k].head)] + v);
    xs := us + (mid + vs);
  }

  lemma RewriteParts(g: Grammar, a: seq<Symbol>, i: nat, k: nat)
    requires CanRewrite(g, a, i, k)
    ensures a == a[..i] + ([NonTerminal(g.productions[k].head)] + a[i + 1..])
    ensures Rewrite(g, a, i, k) == a[..i] + (Strip(g.productions[k].body) + a[i + 1..])
  {
  }

  lemma {:induction false} DerivationForest(g: Grammar, a: seq<Symbol>, w: seq<nat>, n: nat) returns (xs: seq<Tree>)
    requires DerivesIn(g, a, Terminals(w), n) && EPSILON !in w
    ensures ValidForest(g, xs, a) && ForestYield(xs) == w
    decreases n
  {
    if n == 0 {
      xs := LeafForest(g, w);
    } else {
      var c :| Step(g, a, c) && DerivesIn(g, c, Terminals(w), n - 1);
      var i: nat, k: nat :| CanRewrite(g, a, i, k) && c == Rewrite(g, a, i, k);
      var ys := DerivationForest(g, c, w, n - 1);
      RewriteParts(g, a, i, k);
      xs := ForestUndoRewrite(g, ys, a[..i], k, a[i + 1..]);
    }
  }

  ghost predicate TreeOf(g: Grammar, x: Tree, n: nat, w: seq<nat>) {
    Valid(g, x) && Root(g, x) == NonTerminal(n) && Yield(x) == w
  }

  // The words a nonterminal derives are exactly the yields of its parse trees.
  lemma WordsAreYields(g: Grammar, n: nat, w: seq<nat>)
    requires EPSILON !in w
    ensures Derives(g, [NonTerminal(n)], Terminals(w)) <==> exists x :: TreeOf(g, x, n, w)
  {
    if x :| TreeOf(g, x, n, w) {
      TreeDerives(g, x);
      assert Strip([NonTerminal(n)]) == [NonTerminal(n)];
    }
    if Derives(g, [NonTerminal(n)], Terminals(w)) {
      var m: nat :| DerivesIn(g, [NonTerminal(n)], Terminals(w), m);
      var xs := DerivationForest(g, [NonTerminal(n)], w, m);
      assert ForestYield(xs) == Yield(xs[0]) + ForestYield(xs[1..]);
      assert TreeOf(g, xs[0], n, w);
    }
  }
}
