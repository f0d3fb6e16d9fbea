// Context-free grammars and the meaning of a derivation (utils/grammar/Grammar.h).
module Grammars {
  import opened Wrappers

  // Symbols are compared by identity in the source; an id plays the part of the pointer.
  datatype Symbol = Terminal(t: nat) | NonTerminal(n: nat)

  // The two terminals every grammar creates for itself.
  const EPSILON: nat := 0
  const EOF: nat := 1

  datatype Production = Production(head: nat, body: seq<Symbol>)

  // Productions are kept in a hash set by the source: the order of the sequence is
  // the arbitrary iteration order, and its index is the identity of a production.
  datatype Grammar = Grammar(
    terminals: set<nat>,
    nonterminals: set<nat>,
    productions: seq<Production>,
    start: Option<nat>)

  predicate Known(g: Grammar, s: Symbol) {
    match s
    case Terminal(t) => t in g.terminals
    case NonTerminal(n) => n in g.nonterminals
  }

  ghost predicate WellFormedProduction(g: Grammar, p: Production) {
    && p.head in g.nonterminals
    && p.body != []
    && forall i :: 0 <= i < |p.body| ==> Known(g, p.body[i])
  }

  ghost predicate WellFormed(g: Grammar) {
    && EPSILON in g.terminals
    && EOF in g.terminals
    && (forall k :: 0 <= k < |g.productions| ==> WellFormedProduction(g, g.productions[k]))
    && (g.start.Some? ==> g.start.value in g.nonterminals)
  }

  // ---------- sentential forms and derivations ----------

  // The sentential form a body stands for: the terminal ε denotes the empty word.
  function Strip(body: seq<Symbol>): (form: seq<Symbol>)
    ensures Terminal(EPSILON) !in form
    ensures |form| <= |body|
    ensures forall s :: s in form ==> s in body
  {
    if body == [] then []
    else if body[0] == Terminal(EPSILON) then Strip(body[1..])
    else [body[0]] + Strip(body[1..])
  }

  // Rewriting position i of a by production k.
  ghost function Rewrite(g: Grammar, a: seq<Symbol>, i: nat, k: nat): seq<Symbol>
    requires i < |a| && k < |g.productions|
  {
    a[..i] + Strip(g.productions[k].body) + a[i + 1..]
  }

  ghost predicate CanRewrite(g: Grammar, a: seq<Symbol>, i: nat, k: nat) {
    i < |a| && k < |g.productions| && a[i] == NonTerminal(g.productions[k].head)
  }

  ghost predicate Step(g: Grammar, a: seq<Symbol>, b: seq<Symbol>) {
    exists i: nat, k: nat :: CanRewrite(g, a, i, k) && b == Rewrite(g, a, i, k)
  }

  ghost predicate DerivesIn(g: Grammar, a: seq<Symbol>, b: seq<Symbol>, n: nat)
    decreases n
  {
    if n == 0 then a == b
    else exists c :: Step(g, a, c) && DerivesIn(g, c, b, n - 1)
  }

  ghost predicate Derives(g: Grammar, a: seq<Symbol>, b: seq<Symbol>) {
    exists n: nat :: DerivesIn(g, a, b, n)
  }

  // The nonterminal a derives some sentential form that begins with the terminal t.
  ghost predicate DerivesFormStarting(g: Grammar, a: seq<Symbol>, t: nat) {
    exists rest: seq<Symbol> :: Derives(g, a, [Terminal(t)] + rest)
  }

  lemma {:induction false} DerivesInTransitive(g: Grammar, a: seq<Symbol>, b: seq<Symbol>, c: seq<Symbol>, m: nat, n: nat)
    requires DerivesIn(g, a, b, m) && DerivesIn(g, b, c, n)
    ensures DerivesIn(g, a, c, m + n)
    decreases m
  {
    if m > 0 {
      var d :| Step(g, a, d) && DerivesIn(g, d, b, m - 1);
      DerivesInTransitive(g, d, b, c, m - 1, n);
    }
  }

  lemma DerivesTransitive(g: Grammar, a: seq<Symbol>, b: seq<Symbol>, c: seq<Symbol>)
    requires Derives(g, a, b) && Derives(g, b, c)
    ensures Derives(g, a, c)
  {
    var m: nat :| DerivesIn(g, a, b, m);
    var n: nat :| DerivesIn(g, b, c, n);
    DerivesInTransitive(g, a, b, c, m, n);
  }

  lemma StepInContext(g: Grammar, u: seq<Symbol>, a: seq<Symbol>, b: seq<Symbol>, v: seq<Symbol>)
    requires Step(g, a, b)
    ensures Step(g, u + a + v, u + b + v)
  {
    var i: nat, k: nat :| CanRewrite(g, a, i, k) && b == Rewrite(g, a, i, k);
    var j: nat := |u| + i;
    assert CanRewrite(g, u + a + v, j, k);
    var body := Strip(g.productions[k].body);
    assert (u + a + v)[..j] == u + a[..i];
    assert (u + a + v)[j + 1..] == a[i + 1..] + v;
    assert Rewrite(g, u + a + v, j, k) == u + b + v;
  }

  lemma {:induction false} DerivesInInContext(g: Grammar, u: seq<Symbol>, a: seq<Symbol>, b: seq<Symbol>, v: seq<Symbol>, n: nat)
    requires DerivesIn(g, a, b, n)
    ensures DerivesIn(g, u + a + v, u + b + v, n)
    decreases n
  {
    if n > 0 {
      var c :| Step(g, a, c) && DerivesIn(g, c, b, n - 1);
      StepInContext(g, u, a, c, v);
      DerivesInInContext(g, u, c, b, v, n - 1);
    }
  }

  // A derivation may be carried out inside any surrounding form.
  lemma DerivesInContext(g: Grammar, u: seq<Symbol>, a: seq<Symbol>, b: seq<Symbol>, v: seq<Symbol>)
    requires Derives(g, a, b)
    ensures Derives(g, u + a + v, u + b + v)
  {
    var n: nat :| DerivesIn(g, a, b, n);
    DerivesInInContext(g, u, a, b, v, n);
  }

  lemma DerivesConcat(g: Grammar, a: seq<Symbol>, c: seq<Symbol>, b: seq<Symbol>, d: seq<Symbol>)
    requires Derives(g, a, c) && Derives(g, b, d)
    ensures Derives(g, a + b, c + d)
  {
    DerivesInContext(g, [], a, c, b);
    DerivesInContext(g, c, b, d, []);
    assert [] + a + b == a + b && [] + c + b == c + b;
    assert c + b + [] == c + b && c + d + [] == c + d;
    DerivesTransitive(g, a + b, c + b, c + d);
  }

  lemma DerivesReflexive(g: Grammar, a: seq<Symbol>)
    ensures Derives(g, a, a)
  {
    assert DerivesIn(g, a, a, 0);
  }

  // A production is a derivation in one step.
  lemma DerivesByProduction(g: Grammar, k: nat)
    requires k < |g.productions|
    ensures Derives(g, [NonTerminal(g.productions[k].head)], Strip(g.productions[k].body))
  {
    var p := g.productions[k];
    var a := [NonTerminal(p.head)];
    assert CanRewrite(g, a, 0, k);
    assert Rewrite(g, a, 0, k) == Strip(p.body);
    assert Step(g, a, Strip(p.body)) && DerivesIn(g, Strip(p.body), Strip(p.body), 0);
    assert DerivesIn(g, a, Strip(p.body), 1);
  }

  lemma {:induction false} StripConcat(a: seq<Symbol>, b: seq<Symbol>)
    ensures Strip(a + b) == Strip(a) + Strip(b)
  {
    if a == [] {
      assert a + b == b;
    } else {
      assert (a + b)[1..] == a[1..] + b;
      StripConcat(a[1..], b);
    }
  }
}
